/** The in-memory file-system tree the analyzer walks (the `File` and
    `Directory` classes of main.py) and the order in which a walk fires its
    visitor callbacks. */
module Tree {

  type Path = string

  /** A file leaf, or a directory holding its entries in listing order. */
  datatype Node = File(path: Path) | Directory(path: Path, contents: seq<Node>)

  /** One visitor callback fired during a walk. */
  datatype Event = DirVisit(path: Path) | FileVisit(path: Path)

  /** `Directory.add_content`: append one entry to a directory. */
  function AddContent(d: Node, e: Node): (r: Node)
    requires d.Directory?
    ensures r.Directory? && r.path == d.path
    ensures |r.contents| == |d.contents| + 1
    ensures r.contents[..|d.contents|] == d.contents && r.contents[|d.contents|] == e
  {
    Directory(d.path, d.contents + [e])
  }

  /** The callbacks one `accept` of `n` fires, in order: a directory reports
      itself, then each of its entries in stored order; a file reports itself. */
  function Events(n: Node): (r: seq<Event>)
    decreases n
  {
    match n
    case File(p) => [FileVisit(p)]
    case Directory(p, cs) => [DirVisit(p)] + EventsOf(cs)
  }

  /** The callbacks fired by accepting each node of `cs` in turn. */
  function EventsOf(cs: seq<Node>): (r: seq<Event>)
    decreases cs
  {
    if cs == [] then [] else EventsOf(cs[..|cs| - 1]) + Events(cs[|cs| - 1])
  }

  /** The paths of the file callbacks among `es`, in order. */
  function FilePaths(es: seq<Event>): (r: seq<Path>)
    ensures |r| <= |es|
  {
    if es == [] then []
    else
      FilePaths(es[..|es| - 1])
      + (match es[|es| - 1] case FileVisit(p) => [p] case DirVisit(_) => [])
  }

  /** The files of `n` in the order a walk hands them to `visit_file`. */
  function Files(n: Node): seq<Path>
  {
    FilePaths(Events(n))
  }

  /** Number of file leaves of `n`, counted structurally. */
  function CountFiles(n: Node): nat
    decreases n
  {
    match n
    case File(_) => 1
    case Directory(_, cs) => CountFilesOf(cs)
  }

  function CountFilesOf(cs: seq<Node>): nat
    decreases cs
  {
    if cs == [] then 0 else CountFilesOf(cs[..|cs| - 1]) + CountFiles(cs[|cs| - 1])
  }

  /** Number of file leaves of `n` whose path is `p`. */
  function LeafCount(n: Node, p: Path): nat
    decreases n
  {
    match n
    case File(q) => if q == p then 1 else 0
    case Directory(_, cs) => LeafCountOf(cs, p)
  }

  function LeafCountOf(cs: seq<Node>, p: Path): nat
    decreases cs
  {
    if cs == [] then 0 else LeafCountOf(cs[..|cs| - 1], p) + LeafCount(cs[|cs| - 1], p)
  }

  /** `p` is the path of some file leaf of `n`. */
  predicate HasFile(n: Node, p: Path)
    decreases n
  {
    match n
    case File(q) => q == p
    case Directory(_, cs) => AnyHasFile(cs, p)
  }

  /** Some node of `cs` has a file leaf at `p`. */
  predicate AnyHasFile(cs: seq<Node>, p: Path)
    decreases cs
  {
    exists i :: 0 <= i < |cs| && HasFile(cs[i], p)
  }

  /** Walking a list of siblings is walking its two halves one after the other. */
  lemma {:induction false} EventsOfAppend(a: seq<Node>, b: seq<Node>)
    ensures EventsOf(a + b) == EventsOf(a) + EventsOf(b)
    decreases |b|
  {
    if b == [] {
      assert a + b == a;
    } else {
      var b', x := b[..|b| - 1], b[|b| - 1];
      assert (a + b)[..|a + b| - 1] == a + b';
      assert (a + b)[|a + b| - 1] == x;
      assert EventsOf(a + b) == EventsOf(a + b') + Events(x);
      EventsOfAppend(a, b');
      assert EventsOf(b) == EventsOf(b') + Events(x);
    }
  }

  lemma {:induction false} FilePathsAppend(a: seq<Event>, b: seq<Event>)
    ensures FilePaths(a + b) == FilePaths(a) + FilePaths(b)
    decreases |b|
  {
    if b == [] {
      assert a + b == a;
    } else {
      var b' := b[..|b| - 1];
      assert (a + b)[..|a + b| - 1] == a + b';
      assert (a + b)[|a + b| - 1] == b[|b| - 1];
      FilePathsAppend(a, b');
    }
  }

  /** Every walk starts with the callback for the node itself. */
  lemma NodeVisitedFirst(n: Node)
    ensures |Events(n)| >= 1
    ensures Events(n)[0] == (if n.File? then FileVisit(n.path) else DirVisit(n.path))
  {
  }

  /** Pre-order, depth-first, siblings in stored order: a directory's own
      callback comes first, then the callbacks of its entries before `i`, then
      the whole walk of entry `i`, then the entries after it. */
  lemma PreOrder(p: Path, cs: seq<Node>, i: nat)
    requires i < |cs|
    ensures Events(Directory(p, cs))
         == [DirVisit(p)] + EventsOf(cs[..i]) + Events(cs[i]) + EventsOf(cs[i + 1..])
  {
    assert cs == cs[..i] + [cs[i]] + cs[i + 1..];
    EventsOfAppend(cs[..i] + [cs[i]], cs[i + 1..]);
    EventsOfAppend(cs[..i], [cs[i]]);
    assert EventsOf([cs[i]]) == Events(cs[i]) by {
      assert [cs[i]][..0] == [];
    }
  }

  /** `add_content` extends the walk of a directory by the walk of the new
      entry, and leaves everything before it unchanged. */
  lemma AddContentWalk(d: Node, e: Node)
    requires d.Directory?
    ensures Events(AddContent(d, e)) == Events(d) + Events(e)
    ensures Files(AddContent(d, e)) == Files(d) + Files(e)
  {
    assert (d.contents + [e])[..|d.contents|] == d.contents;
    FilePathsAppend(Events(d), Events(e));
  }

  /** A walk hands every file leaf to `visit_file`, each exactly once. */
  lemma {:induction false} FilesCount(n: Node)
    ensures |Files(n)| == CountFiles(n)
    decreases n
  {
    match n
    case File(p) =>
      assert Events(n)[..0] == [];
    case Directory(p, cs) =>
      FilePathsAppend([DirVisit(p)], EventsOf(cs));
      assert [DirVisit(p)][..0] == [];
      FilesOfCount(cs);
  }

  lemma {:induction false} FilesOfCount(cs: seq<Node>)
    ensures |FilePaths(EventsOf(cs))| == CountFilesOf(cs)
    decreases cs
  {
    if cs != [] {
      var init := cs[..|cs| - 1];
      FilePathsAppend(EventsOf(init), Events(cs[|cs| - 1]));
      FilesOfCount(init);
      FilesCount(cs[|cs| - 1]);
    }
  }

  /** A walk hands each path to `visit_file` exactly as many times as the
      tree has file leaves with that path: once per leaf. */
  lemma {:induction false} FilesMultiplicity(n: Node, p: Path)
    ensures multiset(Files(n))[p] == LeafCount(n, p)
    decreases n
  {
    match n
    case File(q) =>
      assert Events(n)[..0] == [];
      assert Files(n) == [q];
    case Directory(q, cs) =>
      FilePathsAppend([DirVisit(q)], EventsOf(cs));
      assert [DirVisit(q)][..0] == [];
      FilesOfMultiplicity(cs, p);
  }

  lemma {:induction false} FilesOfMultiplicity(cs: seq<Node>, p: Path)
    ensures multiset(FilePaths(EventsOf(cs)))[p] == LeafCountOf(cs, p)
    decreases cs
  {
    if cs != [] {
      var init := cs[..|cs| - 1];
      FilePathsAppend(EventsOf(init), Events(cs[|cs| - 1]));
      FilesOfMultiplicity(init, p);
      FilesMultiplicity(cs[|cs| - 1], p);
    }
  }

  /** The walk hands `visit_file` exactly the paths of the tree's file leaves. */
  lemma {:induction false} FilesMembership(n: Node, q: Path)
    ensures q in Files(n) <==> HasFile(n, q)
    decreases n
  {
    match n
    case File(p) =>
      assert Events(n)[..0] == [];
    case Directory(p, cs) =>
      FilePathsAppend([DirVisit(p)], EventsOf(cs));
      assert [DirVisit(p)][..0] == [];
      FilesOfMembership(cs, q);
  }

  lemma {:induction false} FilesOfMembership(cs: seq<Node>, q: Path)
    ensures q in FilePaths(EventsOf(cs)) <==> AnyHasFile(cs, q)
    decreases cs
  {
    if cs != [] {
      var k := |cs| - 1;
      var init := cs[..k];
      FilePathsAppend(EventsOf(init), Events(cs[k]));
      assert FilePaths(EventsOf(cs)) == FilePaths(EventsOf(init)) + FilePaths(Events(cs[k]));
      FilesOfMembership(init, q);
      FilesMembership(cs[k], q);
      AnyHasFileSnoc(cs, q);
    }
  }

  /** Some node of `cs` has the leaf exactly when one of its first nodes or
      its last node has it. */
  lemma AnyHasFileSnoc(cs: seq<Node>, q: Path)
    requires cs != []
    ensures AnyHasFile(cs, q) <==> AnyHasFile(cs[..|cs| - 1], q) || HasFile(cs[|cs| - 1], q)
  {
    var k := |cs| - 1;
    var init := cs[..k];
    if AnyHasFile(cs, q) {
      var i :| 0 <= i < |cs| && HasFile(cs[i], q);
      if i < k {
        assert init[i] == cs[i];
      }
    }
    if AnyHasFile(init, q) {
      var i :| 0 <= i < |init| && HasFile(init[i], q);
      assert cs[i] == init[i];
    }
  }
}
