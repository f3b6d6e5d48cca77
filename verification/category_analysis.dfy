/** Category tally (`FileCategoryVisitor` in main.py): each file is given one
    category label, from its guessed content type or else from its file-name
    extension, and a label-to-count table is kept in first-seen order. */
module CategoryAnalysis {
  import opened Wrappers
  import opened Tree
  import opened Probes
  import opened PathText

  /** The category of a non-empty guessed content type, by the first test
      that passes: text, image, video, then an application type naming
      "executable"; anything else is "Other". */
  function MimeCategory(mime: string): (r: string)
    ensures r == "Text" <==> StartsWith(mime, "text")
    ensures r == "Image" <==> !StartsWith(mime, "text") && StartsWith(mime, "image")
    ensures r == "Video" <==>
              !StartsWith(mime, "text") && !StartsWith(mime, "image") && StartsWith(mime, "video")
    ensures r == "Executable" <==>
              && !StartsWith(mime, "text") && !StartsWith(mime, "image") && !StartsWith(mime, "video")
              && StartsWith(mime, "application") && (exists i :: OccursAt(mime, "executable", i))
    ensures r == "Other" <==> r !in {"Text", "Image", "Video", "Executable"}
  {
    ContainsOccurs(mime, "executable");
    if StartsWith(mime, "text") then "Text"
    else if StartsWith(mime, "image") then "Image"
    else if StartsWith(mime, "video") then "Video"
    else if StartsWith(mime, "application") && Contains(mime, "executable") then "Executable"
    else "Other"
  }

  /** The category of a file with no content-type guess: its extension
      without the dot, capitalized, or "Unknown" when it has none. */
  function ExtensionCategory(p: Path): (r: string)
    ensures SplitExt(p).1 == [] ==> r == "Unknown"
    ensures SplitExt(p).1 != [] ==> |r| == |SplitExt(p).1| - 1 && IsCapitalized(r)
    ensures SplitExt(p).1 != [] ==>
              forall i :: 0 <= i < |r| ==> Lower(r[i]) == Lower(p[|SplitExt(p).0| + 1 + i])
  {
    var (root, ext) := SplitExt(p);
    if ext != [] then
      assert forall i :: 0 <= i < |ext| - 1 ==> ext[1..][i] == p[|root| + 1 + i];
      Capitalize(ext[1..])
    else "Unknown"
  }

  /** The label `visit_file` counts for `p`, or `None` when the content-type
      probe raised and the file is skipped. An empty content type is treated
      like no guess at all (it is falsy). */
  function Classify(probe: Probe, p: Path): (r: Option<string>)
    ensures probe.guess(p).Raised? <==> r.None?
    ensures probe.guess(p).Guessed? && probe.guess(p).mime.Some? && probe.guess(p).mime.value != "" ==>
              r == Some(MimeCategory(probe.guess(p).mime.value))
    ensures probe.guess(p).Guessed? && (probe.guess(p).mime.None? || probe.guess(p).mime.value == "") ==>
              r == Some(ExtensionCategory(p))
  {
    match probe.guess(p)
    case Raised => None
    case Guessed(mime) =>
      if mime.Some? && mime.value != "" then Some(MimeCategory(mime.value))
      else Some(ExtensionCategory(p))
  }

  /** The `file_categories` dict: labels with counts, in insertion order. */
  type Tally = seq<(string, nat)>

  function Labels(t: Tally): (r: seq<string>)
    ensures |r| == |t|
    ensures forall i :: 0 <= i < |t| ==> r[i] == t[i].0
    decreases |t|
  {
    if t == [] then [] else [t[0].0] + Labels(t[1..])
  }

  /** The count stored for `c` (its first entry), 0 when `c` is absent. */
  function Count(t: Tally, c: string): nat
    decreases |t|
  {
    if t == [] then 0 else if t[0].0 == c then t[0].1 else Count(t[1..], c)
  }

  /** Sum of all counts. */
  function Total(t: Tally): nat
    decreases |t|
  {
    if t == [] then 0 else t[0].1 + Total(t[1..])
  }

  /** No label appears twice, and every stored count is at least 1. */
  predicate WellFormed(t: Tally)
  {
    && (forall i, j :: 0 <= i < j < |t| ==> t[i].0 != t[j].0)
    && (forall i :: 0 <= i < |t| ==> t[i].1 >= 1)
  }

  /** Create the entry at 0 if `c` is new, then add one to it: the count of
      `c` grows by one and every other count is unchanged. */
  function Increment(t: Tally, c: string): (r: Tally)
    ensures Count(r, c) == Count(t, c) + 1
    ensures forall d :: d != c ==> Count(r, d) == Count(t, d)
    ensures Total(r) == Total(t) + 1
    decreases |t|
  {
    if t == [] then [(c, 1)]
    else if t[0].0 == c then [(c, t[0].1 + 1)] + t[1..]
    else [t[0]] + Increment(t[1..], c)
  }

  /** A new label goes to the end and existing labels keep their places. */
  lemma {:induction false} IncrementLabels(t: Tally, c: string)
    ensures Labels(Increment(t, c)) == if c in Labels(t) then Labels(t) else Labels(t) + [c]
    decreases |t|
  {
    if t == [] {
    } else if t[0].0 == c {
      assert c in Labels(t);
      assert Increment(t, c) == [(c, t[0].1 + 1)] + t[1..];
      assert Labels(Increment(t, c)) == [c] + Labels(t[1..]);
    } else {
      var rest := Increment(t[1..], c);
      IncrementLabels(t[1..], c);
      assert Increment(t, c) == [t[0]] + rest;
      assert ([t[0]] + rest)[1..] == rest;
      assert Labels(Increment(t, c)) == [t[0].0] + Labels(rest);
      assert c in Labels(t) <==> c in Labels(t[1..]);
      if c !in Labels(t) {
        assert [t[0].0] + (Labels(t[1..]) + [c]) == Labels(t) + [c];
      }
    }
  }

  /** Incrementing keeps the labels distinct and every count positive. */
  lemma IncrementWellFormed(t: Tally, c: string)
    requires WellFormed(t)
    ensures WellFormed(Increment(t, c))
  {
    var r := Increment(t, c);
    IncrementLabels(t, c);
    var lt, lr := Labels(t), Labels(r);
    assert forall i, j :: 0 <= i < j < |lt| ==> lt[i] != lt[j];
    assert forall i, j :: 0 <= i < j < |lr| ==> lr[i] != lr[j];
    IncrementCounts(t, c);
  }

  /** Incrementing never lowers a stored count. */
  lemma {:induction false} IncrementCounts(t: Tally, c: string)
    requires forall i :: 0 <= i < |t| ==> t[i].1 >= 1
    ensures forall i :: 0 <= i < |Increment(t, c)| ==> Increment(t, c)[i].1 >= 1
    decreases |t|
  {
    if t != [] && t[0].0 != c {
      IncrementCounts(t[1..], c);
      var rest := Increment(t[1..], c);
      assert Increment(t, c) == [t[0]] + rest;
    }
  }

  datatype CategoryVisitor = CategoryVisitor(fileCategories: Tally)

  function New(): (v: CategoryVisitor)
    ensures v.fileCategories == []
  {
    CategoryVisitor([])
  }

  /** `visit_file`: count the file under its label; a raised probe skips it. */
  function VisitFile(v: CategoryVisitor, probe: Probe, p: Path): (r: CategoryVisitor)
    ensures Classify(probe, p).None? ==> r == v
    ensures Classify(probe, p).Some? ==> r.fileCategories == Increment(v.fileCategories, Classify(probe, p).value)
  {
    match Classify(probe, p)
    case None => v
    case Some(category) => CategoryVisitor(Increment(v.fileCategories, category))
  }

  /** `visit_directory` does nothing. */
  function VisitDirectory(v: CategoryVisitor, p: Path): (r: CategoryVisitor)
    ensures r == v
  {
    v
  }

  /** `get_result`: the tally itself, labels in first-seen order. */
  function Result(v: CategoryVisitor): (r: Tally)
    ensures r == v.fileCategories
  {
    v.fileCategories
  }

  function VisitFiles(v: CategoryVisitor, probe: Probe, fs: seq<Path>): CategoryVisitor
    decreases |fs|
  {
    if fs == [] then v else VisitFile(VisitFiles(v, probe, fs[..|fs| - 1]), probe, fs[|fs| - 1])
  }

  // Reference definitions, stated without the table.

  /** The labels of the files of `fs` that could be classified, in order. */
  function Categories(probe: Probe, fs: seq<Path>): seq<string>
    decreases |fs|
  {
    if fs == [] then []
    else
      Categories(probe, fs[..|fs| - 1])
      + (match Classify(probe, fs[|fs| - 1]) case Some(c) => [c] case None => [])
  }

  /** `seen` followed by the elements of `xs` not seen before, each once, in
      order of first occurrence. */
  function AddNew(seen: seq<string>, xs: seq<string>): seq<string>
    decreases |xs|
  {
    if xs == [] then seen
    else
      var s := AddNew(seen, xs[..|xs| - 1]);
      if xs[|xs| - 1] in s then s else s + [xs[|xs| - 1]]
  }

  /** Visiting `fs` adds, for every label, the number of files given that
      label; adds the number of files classified to the total; appends new
      labels in first-seen order; and keeps the table well formed. */
  lemma {:induction false} VisitFilesSpec(v: CategoryVisitor, probe: Probe, fs: seq<Path>, c: string)
    ensures Count(VisitFiles(v, probe, fs).fileCategories, c)
         == Count(v.fileCategories, c) + multiset(Categories(probe, fs))[c]
    ensures Total(VisitFiles(v, probe, fs).fileCategories)
         == Total(v.fileCategories) + |Categories(probe, fs)|
    ensures Labels(VisitFiles(v, probe, fs).fileCategories)
         == AddNew(Labels(v.fileCategories), Categories(probe, fs))
    ensures WellFormed(v.fileCategories) ==> WellFormed(VisitFiles(v, probe, fs).fileCategories)
    decreases |fs|
  {
    if fs != [] {
      var init := fs[..|fs| - 1];
      var last := fs[|fs| - 1];
      VisitFilesSpec(v, probe, init, c);
      var cs := Categories(probe, init);
      match Classify(probe, last)
      case None =>
        assert Categories(probe, fs) == cs;
      case Some(d) =>
        IncrementLabels(VisitFiles(v, probe, init).fileCategories, d);
        if WellFormed(v.fileCategories) {
          IncrementWellFormed(VisitFiles(v, probe, init).fileCategories, d);
        }
        assert Categories(probe, fs) == cs + [d];
        assert (cs + [d])[..|cs|] == cs;
    }
  }

  /** A fresh visitor walked over `fs`: every label's count is the number of
      files given that label, the counts add up to the number of files
      classified, every present label has count at least 1, and the labels
      appear in first-seen order. */
  lemma FreshVisit(probe: Probe, fs: seq<Path>, c: string)
    ensures Count(Result(VisitFiles(New(), probe, fs)), c) == multiset(Categories(probe, fs))[c]
    ensures Total(Result(VisitFiles(New(), probe, fs))) == |Categories(probe, fs)|
    ensures Labels(Result(VisitFiles(New(), probe, fs))) == AddNew([], Categories(probe, fs))
    ensures WellFormed(Result(VisitFiles(New(), probe, fs)))
  {
    VisitFilesSpec(New(), probe, fs, c);
  }
}
