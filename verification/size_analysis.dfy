/** Size aggregation (`FileSizeVisitor` in main.py): a running total of the
    sizes of the files visited, and the visit-ordered list of the files whose
    size strictly exceeds a threshold. */
module SizeAnalysis {
  import opened Wrappers
  import opened Tree
  import opened Probes

  /** Default `large_file_threshold`: 10^6 bytes (a comment beside it says
      "100 MB"; the value is what the code uses). */
  const DefaultThreshold: int := 1000000

  /** The threshold the command-line entry point configures (50 MB). */
  const MainThreshold: int := 50000000

  /** Visitor state. `threshold` may be any integer the caller passes. */
  datatype SizeVisitor = SizeVisitor(threshold: int, totalSize: nat, largeFiles: seq<(Path, nat)>)

  /** What `get_result` hands back. */
  datatype SizeReport = SizeReport(totalSize: nat, largeFiles: seq<(Path, nat)>)

  /** A freshly constructed visitor. */
  function New(threshold: int): (v: SizeVisitor)
    ensures v.threshold == threshold && v.totalSize == 0 && v.largeFiles == []
  {
    SizeVisitor(threshold, 0, [])
  }

  /** `visit_file`: a failed size probe leaves the state as it was; otherwise
      the size joins the total, and the file is flagged exactly when its size
      is strictly above the threshold. */
  function VisitFile(v: SizeVisitor, probe: Probe, p: Path): (r: SizeVisitor)
    ensures r.threshold == v.threshold
    ensures probe.size(p).None? ==> r == v
    ensures probe.size(p).Some? ==> r.totalSize == v.totalSize + probe.size(p).value
    ensures probe.size(p).Some? && probe.size(p).value > v.threshold ==>
              r.largeFiles == v.largeFiles + [(p, probe.size(p).value)]
    ensures probe.size(p).Some? && probe.size(p).value <= v.threshold ==>
              r.largeFiles == v.largeFiles
  {
    match probe.size(p)
    case None => v
    case Some(size) =>
      var large := if size > v.threshold then v.largeFiles + [(p, size)] else v.largeFiles;
      SizeVisitor(v.threshold, v.totalSize + size, large)
  }

  /** `visit_directory` does nothing. */
  function VisitDirectory(v: SizeVisitor, p: Path): (r: SizeVisitor)
    ensures r == v
  {
    v
  }

  /** `get_result`: the running total and the flagged files, as they stand. */
  function Result(v: SizeVisitor): (r: SizeReport)
    ensures r.totalSize == v.totalSize && r.largeFiles == v.largeFiles
  {
    SizeReport(v.totalSize, v.largeFiles)
  }

  /** `visit_file` on each of `fs` in turn. */
  function VisitFiles(v: SizeVisitor, probe: Probe, fs: seq<Path>): SizeVisitor
    decreases |fs|
  {
    if fs == [] then v else VisitFile(VisitFiles(v, probe, fs[..|fs| - 1]), probe, fs[|fs| - 1])
  }

  // Reference definitions, stated without the visitor's state.

  /** The files of `fs` whose size probe succeeds, with their sizes, in order. */
  function Measured(probe: Probe, fs: seq<Path>): seq<(Path, nat)>
    decreases |fs|
  {
    if fs == [] then []
    else
      var last := fs[|fs| - 1];
      Measured(probe, fs[..|fs| - 1])
      + (match probe.size(last) case Some(s) => [(last, s)] case None => [])
  }

  function SumSizes(ms: seq<(Path, nat)>): nat
    decreases |ms|
  {
    if ms == [] then 0 else SumSizes(ms[..|ms| - 1]) + ms[|ms| - 1].1
  }

  /** The entries of `ms` whose size is strictly above `threshold`, in order. */
  function Above(ms: seq<(Path, nat)>, threshold: int): seq<(Path, nat)>
    decreases |ms|
  {
    if ms == [] then []
    else
      Above(ms[..|ms| - 1], threshold)
      + (if ms[|ms| - 1].1 > threshold then [ms[|ms| - 1]] else [])
  }

  /** Visiting `fs` adds the sizes of the successfully probed files to the
      total and appends exactly those above the threshold, in visit order. */
  lemma {:induction false} VisitFilesSpec(v: SizeVisitor, probe: Probe, fs: seq<Path>)
    ensures VisitFiles(v, probe, fs).threshold == v.threshold
    ensures VisitFiles(v, probe, fs).totalSize == v.totalSize + SumSizes(Measured(probe, fs))
    ensures VisitFiles(v, probe, fs).largeFiles == v.largeFiles + Above(Measured(probe, fs), v.threshold)
    decreases |fs|
  {
    if fs != [] {
      var init := fs[..|fs| - 1];
      var last := fs[|fs| - 1];
      VisitFilesSpec(v, probe, init);
      var ms := Measured(probe, init);
      var w := VisitFiles(v, probe, init);
      assert VisitFiles(v, probe, fs) == VisitFile(w, probe, last);
      if probe.size(last).Some? {
        var s := probe.size(last).value;
        assert Measured(probe, fs) == ms + [(last, s)];
        SnocSums(ms, (last, s), v.threshold);
      } else {
        assert Measured(probe, fs) == ms;
      }
    }
  }

  /** Appending one measured entry adds its size to the sum and, when it is
      above the threshold, appends it to the flagged entries. */
  lemma SnocSums(ms: seq<(Path, nat)>, e: (Path, nat), threshold: int)
    ensures SumSizes(ms + [e]) == SumSizes(ms) + e.1
    ensures Above(ms + [e], threshold) == Above(ms, threshold) + (if e.1 > threshold then [e] else [])
  {
    assert (ms + [e])[..|ms|] == ms;
  }

  lemma {:induction false} MeasuredMembership(probe: Probe, fs: seq<Path>, p: Path, s: nat)
    ensures (p, s) in Measured(probe, fs) <==> p in fs && probe.size(p) == Some(s)
    decreases |fs|
  {
    if fs != [] {
      var init := fs[..|fs| - 1];
      MeasuredMembership(probe, init, p, s);
      assert fs == init + [fs[|fs| - 1]];
    }
  }

  lemma {:induction false} AboveMembership(ms: seq<(Path, nat)>, threshold: int, e: (Path, nat))
    ensures e in Above(ms, threshold) <==> e in ms && e.1 > threshold
    decreases |ms|
  {
    if ms != [] {
      var init := ms[..|ms| - 1];
      AboveMembership(init, threshold, e);
      assert ms == init + [ms[|ms| - 1]];
    }
  }

  /** A pair is measured as often as its path is visited, when the path's
      probe gives that size, and never otherwise. */
  lemma {:induction false} MeasuredCount(probe: Probe, fs: seq<Path>, p: Path, s: nat)
    ensures multiset(Measured(probe, fs))[(p, s)] == if probe.size(p) == Some(s) then multiset(fs)[p] else 0
    decreases |fs|
  {
    if fs != [] {
      var init := fs[..|fs| - 1];
      var last := fs[|fs| - 1];
      MeasuredCount(probe, init, p, s);
      assert fs == init + [last];
      assert multiset(fs)[p] == multiset(init)[p] + (if last == p then 1 else 0);
    }
  }

  /** The threshold filter keeps every copy of an entry above the threshold
      and no copy of any other. */
  lemma {:induction false} AboveCount(ms: seq<(Path, nat)>, threshold: int, e: (Path, nat))
    ensures multiset(Above(ms, threshold))[e] == if e.1 > threshold then multiset(ms)[e] else 0
    decreases |ms|
  {
    if ms != [] {
      var init := ms[..|ms| - 1];
      AboveCount(init, threshold, e);
      assert ms == init + [ms[|ms| - 1]];
    }
  }

  /** A pair is flagged as often as its path is visited, when the path's
      probe gives that size above the threshold, and never otherwise. */
  lemma AboveMeasuredCount(probe: Probe, fs: seq<Path>, threshold: int, p: Path, s: nat)
    ensures multiset(Above(Measured(probe, fs), threshold))[(p, s)]
         == if probe.size(p) == Some(s) && s > threshold then multiset(fs)[p] else 0
  {
    AboveCount(Measured(probe, fs), threshold, (p, s));
    MeasuredCount(probe, fs, p, s);
  }

  /** A fresh visitor walked over `fs`: the total is the sum over successful
      probes, and a pair is flagged exactly when it names a visited file, its
      probed size, and that size is strictly above the threshold. A file whose
      probe fails, or whose size equals the threshold, is never flagged. */
  lemma FreshVisit(threshold: int, probe: Probe, fs: seq<Path>, p: Path, s: nat)
    ensures VisitFiles(New(threshold), probe, fs).totalSize == SumSizes(Measured(probe, fs))
    ensures (p, s) in VisitFiles(New(threshold), probe, fs).largeFiles
        <==> p in fs && probe.size(p) == Some(s) && s > threshold
  {
    VisitFilesSpec(New(threshold), probe, fs);
    AboveMembership(Measured(probe, fs), threshold, (p, s));
    MeasuredMembership(probe, fs, p, s);
  }
}
