/** The traversal engine of main.py: `File.accept` / `Directory.accept`, the
    visitor protocol dispatched over the three analyses, and
    `DirectoryAnalyzer.analyze`, which gives each visitor its own complete
    walk of the tree and collects the results by class name. */
module Analyzer {
  import opened Wrappers
  import opened Tree
  import opened Probes
  import SizeAnalysis
  import PermissionAnalysis
  import CategoryAnalysis

  /** The visitor classes, each carrying its own state. */
  datatype Visitor =
    | SizeV(size: SizeAnalysis.SizeVisitor)
    | PermissionV(permission: PermissionAnalysis.PermissionVisitor)
    | CategoryV(category: CategoryAnalysis.CategoryVisitor)

  /** What `get_result` hands back, per visitor class. */
  datatype Report =
    | SizeResult(size: SizeAnalysis.SizeReport)
    | PermissionResult(writableFiles: seq<Path>)
    | CategoryResult(categories: CategoryAnalysis.Tally)

  /** `visitor.__class__.__name__`. */
  function ClassName(v: Visitor): (r: string)
    ensures v.SizeV? ==> r == "FileSizeVisitor"
    ensures v.PermissionV? ==> r == "PermissionVisitor"
    ensures v.CategoryV? ==> r == "FileCategoryVisitor"
  {
    match v
    case SizeV(_) => "FileSizeVisitor"
    case PermissionV(_) => "PermissionVisitor"
    case CategoryV(_) => "FileCategoryVisitor"
  }

  /** Two visitors are of the same class. */
  predicate SameClass(v: Visitor, w: Visitor)
  {
    (v.SizeV? && w.SizeV?) || (v.PermissionV? && w.PermissionV?) || (v.CategoryV? && w.CategoryV?)
  }

  /** Class names tell the classes apart: two visitors share a result key
      exactly when they are of the same class. */
  lemma ClassNameKeys(v: Visitor, w: Visitor)
    ensures ClassName(v) == ClassName(w) <==> SameClass(v, w)
  {
  }

  function VisitFile(v: Visitor, probe: Probe, p: Path): (r: Visitor)
    ensures ClassName(r) == ClassName(v)
  {
    match v
    case SizeV(s) => SizeV(SizeAnalysis.VisitFile(s, probe, p))
    case PermissionV(s) => PermissionV(PermissionAnalysis.VisitFile(s, probe, p))
    case CategoryV(s) => CategoryV(CategoryAnalysis.VisitFile(s, probe, p))
  }

  /** `visit_directory`: a no-op for every analysis. */
  function VisitDirectory(v: Visitor, p: Path): (r: Visitor)
    ensures r == v
  {
    match v
    case SizeV(s) => SizeV(SizeAnalysis.VisitDirectory(s, p))
    case PermissionV(s) => PermissionV(PermissionAnalysis.VisitDirectory(s, p))
    case CategoryV(s) => CategoryV(CategoryAnalysis.VisitDirectory(s, p))
  }

  /** `visitor.get_result()`: the report of the visitor's own class. */
  function GetResult(v: Visitor): (r: Report)
    ensures v.SizeV? <==> r.SizeResult?
    ensures v.PermissionV? <==> r.PermissionResult?
    ensures v.CategoryV? <==> r.CategoryResult?
    ensures v.SizeV? ==> r.size.totalSize == v.size.totalSize && r.size.largeFiles == v.size.largeFiles
    ensures v.PermissionV? ==> r.writableFiles == v.permission.writableFiles
    ensures v.CategoryV? ==> r.categories == v.category.fileCategories
  {
    match v
    case SizeV(s) => SizeResult(SizeAnalysis.Result(s))
    case PermissionV(s) => PermissionResult(PermissionAnalysis.Result(s))
    case CategoryV(s) => CategoryResult(CategoryAnalysis.Result(s))
  }

  /** `node.accept(visitor)`: a file is handed to `visit_file`; a directory is
      handed to `visit_directory`, then each entry accepts the visitor in
      stored order. The visitor's state after the walk is returned. */
  function Accept(n: Node, v: Visitor, probe: Probe): (r: Visitor)
    ensures ClassName(r) == ClassName(v)
    decreases n
  {
    match n
    case File(p) => VisitFile(v, probe, p)
    case Directory(p, cs) => AcceptAll(cs, VisitDirectory(v, p), probe)
  }

  /** The loop over `self.contents` in `Directory.accept`. */
  function AcceptAll(cs: seq<Node>, v: Visitor, probe: Probe): (r: Visitor)
    ensures ClassName(r) == ClassName(v)
    decreases cs
  {
    if cs == [] then v else Accept(cs[|cs| - 1], AcceptAll(cs[..|cs| - 1], v, probe), probe)
  }

  /** Fire the callbacks `es` on `v`, in order. */
  function Replay(v: Visitor, probe: Probe, es: seq<Event>): Visitor
    decreases |es|
  {
    if es == [] then v
    else
      var w := Replay(v, probe, es[..|es| - 1]);
      match es[|es| - 1]
      case FileVisit(p) => VisitFile(w, probe, p)
      case DirVisit(p) => VisitDirectory(w, p)
  }

  /** `visit_file` on each of `fs`, in order. */
  function VisitAll(v: Visitor, probe: Probe, fs: seq<Path>): Visitor
    decreases |fs|
  {
    if fs == [] then v else VisitFile(VisitAll(v, probe, fs[..|fs| - 1]), probe, fs[|fs| - 1])
  }

  lemma {:induction false} ReplayAppend(v: Visitor, probe: Probe, a: seq<Event>, b: seq<Event>)
    ensures Replay(v, probe, a + b) == Replay(Replay(v, probe, a), probe, b)
    decreases |b|
  {
    if b == [] {
      assert a + b == a;
    } else {
      var b' := b[..|b| - 1];
      assert (a + b)[..|a + b| - 1] == a + b';
      assert (a + b)[|a + b| - 1] == b[|b| - 1];
      ReplayAppend(v, probe, a, b');
    }
  }

  /** One `accept` fires exactly the callbacks of the pre-order walk. */
  lemma {:induction false} AcceptReplaysEvents(n: Node, v: Visitor, probe: Probe)
    ensures Accept(n, v, probe) == Replay(v, probe, Events(n))
    decreases n
  {
    match n
    case File(p) =>
      assert Events(n)[..0] == [];
    case Directory(p, cs) =>
      AcceptAllReplaysEvents(cs, v, probe);
      ReplayAppend(v, probe, [DirVisit(p)], EventsOf(cs));
      assert [DirVisit(p)][..0] == [];
  }

  lemma {:induction false} AcceptAllReplaysEvents(cs: seq<Node>, v: Visitor, probe: Probe)
    ensures AcceptAll(cs, v, probe) == Replay(v, probe, EventsOf(cs))
    decreases cs
  {
    if cs != [] {
      var init := cs[..|cs| - 1];
      AcceptAllReplaysEvents(init, v, probe);
      AcceptReplaysEvents(cs[|cs| - 1], AcceptAll(init, v, probe), probe);
      ReplayAppend(v, probe, EventsOf(init), Events(cs[|cs| - 1]));
    }
  }

  /** Because `visit_directory` does nothing, replaying a walk is visiting
      its files in order. */
  lemma {:induction false} ReplayVisitsFiles(v: Visitor, probe: Probe, es: seq<Event>)
    ensures Replay(v, probe, es) == VisitAll(v, probe, FilePaths(es))
    decreases |es|
  {
    if es != [] {
      var init := es[..|es| - 1];
      ReplayVisitsFiles(v, probe, init);
      match es[|es| - 1]
      case FileVisit(p) =>
        assert FilePaths(es) == FilePaths(init) + [p];
        assert (FilePaths(init) + [p])[..|FilePaths(init)|] == FilePaths(init);
      case DirVisit(p) =>
        assert FilePaths(es) == FilePaths(init);
    }
  }

  /** A walk of any tree is the fold of `visit_file` over its pre-order file
      sequence; the directory callbacks leave no trace. */
  lemma AcceptVisitsFiles(n: Node, v: Visitor, probe: Probe)
    ensures Accept(n, v, probe) == VisitAll(v, probe, Files(n))
  {
    AcceptReplaysEvents(n, v, probe);
    ReplayVisitsFiles(v, probe, Events(n));
  }

  /** Dispatch commutes with the fold: walking a wrapped visitor is walking
      the analysis itself. */
  lemma {:induction false} VisitAllDispatch(v: Visitor, probe: Probe, fs: seq<Path>)
    ensures v.SizeV? ==> VisitAll(v, probe, fs) == SizeV(SizeAnalysis.VisitFiles(v.size, probe, fs))
    ensures v.PermissionV? ==>
              VisitAll(v, probe, fs) == PermissionV(PermissionAnalysis.VisitFiles(v.permission, probe, fs))
    ensures v.CategoryV? ==>
              VisitAll(v, probe, fs) == CategoryV(CategoryAnalysis.VisitFiles(v.category, probe, fs))
    decreases |fs|
  {
    if fs != [] {
      VisitAllDispatch(v, probe, fs[..|fs| - 1]);
    }
  }

  /** A fresh size visitor walked over a tree totals the sizes of its files
      whose probe succeeds, and flags exactly the files of the tree whose
      probed size is strictly above the threshold. */
  lemma SizeWalk(root: Node, threshold: int, probe: Probe, p: Path, s: nat)
    ensures GetResult(Accept(root, SizeV(SizeAnalysis.New(threshold)), probe)).size.totalSize
         == SizeAnalysis.SumSizes(SizeAnalysis.Measured(probe, Files(root)))
    ensures GetResult(Accept(root, SizeV(SizeAnalysis.New(threshold)), probe)).size.largeFiles
         == SizeAnalysis.Above(SizeAnalysis.Measured(probe, Files(root)), threshold)
    ensures (p, s) in GetResult(Accept(root, SizeV(SizeAnalysis.New(threshold)), probe)).size.largeFiles
        <==> HasFile(root, p) && probe.size(p) == Some(s) && s > threshold
    ensures multiset(GetResult(Accept(root, SizeV(SizeAnalysis.New(threshold)), probe)).size.largeFiles)[(p, s)]
         == if probe.size(p) == Some(s) && s > threshold then LeafCount(root, p) else 0
  {
    AcceptVisitsFiles(root, SizeV(SizeAnalysis.New(threshold)), probe);
    VisitAllDispatch(SizeV(SizeAnalysis.New(threshold)), probe, Files(root));
    SizeAnalysis.VisitFilesSpec(SizeAnalysis.New(threshold), probe, Files(root));
    SizeAnalysis.FreshVisit(threshold, probe, Files(root), p, s);
    SizeAnalysis.AboveMeasuredCount(probe, Files(root), threshold, p, s);
    FilesMembership(root, p);
    FilesMultiplicity(root, p);
  }

  /** A fresh permission visitor walked over a tree reports, in pre-order,
      exactly the files of the tree whose mode has the S_IWOTH bit. */
  lemma PermissionWalk(root: Node, probe: Probe, p: Path)
    ensures GetResult(Accept(root, PermissionV(PermissionAnalysis.New()), probe)).writableFiles
         == PermissionAnalysis.Writable(probe, Files(root))
    ensures p in GetResult(Accept(root, PermissionV(PermissionAnalysis.New()), probe)).writableFiles
        <==> HasFile(root, p) && PermissionAnalysis.Flagged(probe, p)
    ensures multiset(GetResult(Accept(root, PermissionV(PermissionAnalysis.New()), probe)).writableFiles)[p]
         == if PermissionAnalysis.Flagged(probe, p) then LeafCount(root, p) else 0
  {
    AcceptVisitsFiles(root, PermissionV(PermissionAnalysis.New()), probe);
    VisitAllDispatch(PermissionV(PermissionAnalysis.New()), probe, Files(root));
    PermissionAnalysis.FreshVisit(probe, Files(root), p);
    FilesMembership(root, p);
    FilesMultiplicity(root, p);
  }

  /** A fresh category visitor walked over a tree counts each label as often
      as the tree's files are given it, and the counts add up to the number
      of files classified. */
  lemma CategoryWalk(root: Node, probe: Probe, c: string)
    ensures CategoryAnalysis.Count(GetResult(Accept(root, CategoryV(CategoryAnalysis.New()), probe)).categories, c)
         == multiset(CategoryAnalysis.Categories(probe, Files(root)))[c]
    ensures CategoryAnalysis.Total(GetResult(Accept(root, CategoryV(CategoryAnalysis.New()), probe)).categories)
         == |CategoryAnalysis.Categories(probe, Files(root))|
    ensures CategoryAnalysis.WellFormed(GetResult(Accept(root, CategoryV(CategoryAnalysis.New()), probe)).categories)
    ensures CategoryAnalysis.Labels(GetResult(Accept(root, CategoryV(CategoryAnalysis.New()), probe)).categories)
         == CategoryAnalysis.AddNew([], CategoryAnalysis.Categories(probe, Files(root)))
  {
    AcceptVisitsFiles(root, CategoryV(CategoryAnalysis.New()), probe);
    VisitAllDispatch(CategoryV(CategoryAnalysis.New()), probe, Files(root));
    CategoryAnalysis.FreshVisit(probe, Files(root), c);
  }

  /** No later visitor in `vs[..k]` shares the class of `vs[i]`. */
  predicate LastOfClass(vs: seq<Visitor>, i: int, k: int)
    requires 0 <= i < |vs| && k <= |vs|
  {
    forall j :: i < j < k ==> ClassName(vs[j]) != ClassName(vs[i])
  }

  /** The class names of `vs[..k + 1]` are those of `vs[..k]` and that of `vs[k]`. */
  lemma NamesStep(vs: seq<Visitor>, k: nat)
    requires k < |vs|
    ensures (set i | 0 <= i < k + 1 :: ClassName(vs[i]))
         == (set i | 0 <= i < k :: ClassName(vs[i])) + {ClassName(vs[k])}
  {
    var before := set i | 0 <= i < k :: ClassName(vs[i]);
    var after := set i | 0 <= i < k + 1 :: ClassName(vs[i]);
    forall x | x in after ensures x in before + {ClassName(vs[k])} {
      var i :| 0 <= i < k + 1 && ClassName(vs[i]) == x;
      if i < k { assert x in before; }
    }
    assert ClassName(vs[k]) in after;
  }

  /** After the first `k` visitors, `results` holds one key per class seen,
      and under each the report of the last visitor of that class so far. */
  predicate Tracks(results: map<string, Report>, vs: seq<Visitor>, reports: seq<Report>, k: nat)
    requires |reports| == |vs| && k <= |vs|
  {
    && results.Keys == (set i | 0 <= i < k :: ClassName(vs[i]))
    && forall i :: 0 <= i < k && LastOfClass(vs, i, k) ==> results[ClassName(vs[i])] == reports[i]
  }

  /** Storing the report of `vs[k]` under its class name keeps the map in step. */
  lemma StoreStep(vs: seq<Visitor>, reports: seq<Report>, k: nat, results: map<string, Report>)
    requires |reports| == |vs| && k < |vs|
    requires Tracks(results, vs, reports, k)
    ensures Tracks(results[ClassName(vs[k]) := reports[k]], vs, reports, k + 1)
  {
    NamesStep(vs, k);
    forall i | 0 <= i < k && LastOfClass(vs, i, k)
      ensures ClassName(vs[i]) in results
    {
    }
    StoreLast(vs, reports, k, results);
  }

  /** The stored report of each class is that of its last visitor. */
  lemma StoreLast(vs: seq<Visitor>, reports: seq<Report>, k: nat, results: map<string, Report>)
    requires |reports| == |vs| && k < |vs|
    requires forall i :: 0 <= i < k && LastOfClass(vs, i, k) ==>
               ClassName(vs[i]) in results && results[ClassName(vs[i])] == reports[i]
    ensures forall i :: 0 <= i < k + 1 && LastOfClass(vs, i, k + 1) ==>
              && ClassName(vs[i]) in results[ClassName(vs[k]) := reports[k]]
              && results[ClassName(vs[k]) := reports[k]][ClassName(vs[i])] == reports[i]
  {
    var stored := results[ClassName(vs[k]) := reports[k]];
    forall i | 0 <= i < k + 1 && LastOfClass(vs, i, k + 1)
      ensures ClassName(vs[i]) in stored && stored[ClassName(vs[i])] == reports[i]
    {
      if i < k {
        assert LastOfClass(vs, i, k);
        assert ClassName(vs[k]) != ClassName(vs[i]);
      }
    }
  }

  /** `DirectoryAnalyzer.analyze`: each visitor, in list order, walks the
      whole tree from its own state, and its result is stored under its class
      name, a later visitor of the same class replacing an earlier one. The
      result for a class is that of its last visitor's walk alone, whatever
      the other visitors are. */
  method Analyze(root: Node, visitors: seq<Visitor>, probe: Probe) returns (results: map<string, Report>)
    ensures results.Keys == set i | 0 <= i < |visitors| :: ClassName(visitors[i])
    ensures forall i :: 0 <= i < |visitors| && LastOfClass(visitors, i, |visitors|) ==>
              results[ClassName(visitors[i])] == GetResult(Accept(root, visitors[i], probe))
  {
    ghost var reports := seq(|visitors|, i requires 0 <= i < |visitors| => GetResult(Accept(root, visitors[i], probe)));
    results := map[];
    var k := 0;
    while k < |visitors|
      invariant 0 <= k <= |visitors|
      invariant Tracks(results, visitors, reports, k)
    {
      var visitor := visitors[k];
      var walked := Accept(root, visitor, probe);
      StoreStep(visitors, reports, k, results);
      results := results[ClassName(visitor) := GetResult(walked)];
      k := k + 1;
    }
  }

  /** One size, one permission and one category visitor, in that order:
      three distinct keys, and each visitor is the last of its class. */
  lemma MainClasses(vs: seq<Visitor>)
    requires |vs| == 3 && vs[0].SizeV? && vs[1].PermissionV? && vs[2].CategoryV?
    ensures (set i | 0 <= i < |vs| :: ClassName(vs[i]))
         == {"FileSizeVisitor", "PermissionVisitor", "FileCategoryVisitor"}
    ensures LastOfClass(vs, 0, 3) && LastOfClass(vs, 1, 3) && LastOfClass(vs, 2, 3)
  {
    ClassNameKeys(vs[0], vs[1]);
    ClassNameKeys(vs[0], vs[2]);
    ClassNameKeys(vs[1], vs[2]);
    var names := set i | 0 <= i < |vs| :: ClassName(vs[i]);
    assert ClassName(vs[0]) in names && ClassName(vs[1]) in names && ClassName(vs[2]) in names;
  }

  /** The three visitors the command-line entry point builds (size threshold
      50 MB), analysed in that order. */
  method AnalyzeForMain(root: Node, probe: Probe) returns (results: map<string, Report>)
    ensures results.Keys == {"FileSizeVisitor", "PermissionVisitor", "FileCategoryVisitor"}
    ensures results["FileSizeVisitor"]
         == GetResult(Accept(root, SizeV(SizeAnalysis.New(SizeAnalysis.MainThreshold)), probe))
    ensures results["PermissionVisitor"]
         == GetResult(Accept(root, PermissionV(PermissionAnalysis.New()), probe))
    ensures results["FileCategoryVisitor"]
         == GetResult(Accept(root, CategoryV(CategoryAnalysis.New()), probe))
  {
    var visitors := [
      SizeV(SizeAnalysis.New(SizeAnalysis.MainThreshold)),
      PermissionV(PermissionAnalysis.New()),
      CategoryV(CategoryAnalysis.New())
    ];
    results := Analyze(root, visitors, probe);
    MainClasses(visitors);
  }
}
