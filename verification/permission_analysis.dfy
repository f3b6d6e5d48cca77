/** Permission scan (`PermissionVisitor` in main.py): the visit-ordered list
    of files whose mode grants write access to "others". */
module PermissionAnalysis {
  import opened Wrappers
  import opened Tree
  import opened Probes

  /** `stat.S_IWOTH`, octal 0o002: the write bit of the "others" class. */
  const S_IWOTH: nat := 2

  /** Python's `&` on non-negative integers, bit by bit from the lowest. */
  function BitAnd(a: nat, b: nat): nat
    decreases a
  {
    if a == 0 || b == 0 then 0
    else 2 * BitAnd(a / 2, b / 2) + (if a % 2 == 1 && b % 2 == 1 then 1 else 0)
  }

  /** Bit `k` of `x` (bit 0 is the lowest), as 0 or 1. */
  function Bit(x: nat, k: nat): (r: nat)
    ensures r <= 1
    ensures x == 0 ==> r == 0
    decreases k
  {
    if k == 0 then x % 2 else Bit(x / 2, k - 1)
  }

  /** Each bit of `a & b` is set exactly when that bit is set in both. */
  lemma {:induction false} BitAndBits(a: nat, b: nat, k: nat)
    ensures Bit(BitAnd(a, b), k) == Bit(a, k) * Bit(b, k)
    decreases k
  {
    if a == 0 || b == 0 {
      assert BitAnd(a, b) == 0;
    } else {
      var low := if a % 2 == 1 && b % 2 == 1 then 1 else 0;
      var x := BitAnd(a / 2, b / 2);
      assert BitAnd(a, b) == 2 * x + low;
      assert (2 * x + low) % 2 == low && (2 * x + low) / 2 == x;
      if k != 0 {
        BitAndBits(a / 2, b / 2, k - 1);
      }
    }
  }

  /** Masking with `S_IWOTH` keeps bit 1 of `a` and clears every other bit. */
  lemma BitAndIwoth(a: nat)
    ensures BitAnd(a, S_IWOTH) == 2 * ((a / 2) % 2)
  {
    if a != 0 {
      assert BitAnd(a, 2) == 2 * BitAnd(a / 2, 1);
      assert BitAnd(a / 2, 1) == (a / 2) % 2 by {
        if a / 2 != 0 {
          assert BitAnd(a / 2 / 2, 0) == 0;
        }
      }
    }
  }

  /** The test `st_mode & stat.S_IWOTH` is truthy. */
  predicate WorldWritable(mode: nat)
  {
    BitAnd(mode, S_IWOTH) != 0
  }

  /** The scan looks at bit 1 of the mode and nothing else. */
  lemma WorldWritableBit(mode: nat)
    ensures WorldWritable(mode) <==> (mode / 2) % 2 == 1
    ensures WorldWritable(mode) == WorldWritable(mode % 4)
  {
    BitAndIwoth(mode);
    BitAndIwoth(mode % 4);
    var q, r := mode / 4, mode % 4;
    assert mode == 4 * q + r && r < 4;
    assert mode / 2 == 2 * q + r / 2;
    assert (mode / 2) % 2 == r / 2;
  }

  datatype PermissionVisitor = PermissionVisitor(writableFiles: seq<Path>)

  function New(): (v: PermissionVisitor)
    ensures v.writableFiles == []
  {
    PermissionVisitor([])
  }

  /** The file is flagged when its mode can be read and has the bit set. */
  predicate Flagged(probe: Probe, p: Path)
  {
    probe.mode(p).Some? && WorldWritable(probe.mode(p).value)
  }

  /** `visit_file`: append the path when it is flagged; a failed `stat` or a
      mode without the bit leaves the list as it was. */
  function VisitFile(v: PermissionVisitor, probe: Probe, p: Path): (r: PermissionVisitor)
    ensures Flagged(probe, p) ==> r.writableFiles == v.writableFiles + [p]
    ensures !Flagged(probe, p) ==> r == v
  {
    match probe.mode(p)
    case None => v
    case Some(m) => if BitAnd(m, S_IWOTH) != 0 then PermissionVisitor(v.writableFiles + [p]) else v
  }

  /** `visit_directory` does nothing: directories are never flagged. */
  function VisitDirectory(v: PermissionVisitor, p: Path): (r: PermissionVisitor)
    ensures r == v
  {
    v
  }

  /** `get_result`: the flagged paths, in the order they were flagged. */
  function Result(v: PermissionVisitor): (r: seq<Path>)
    ensures r == v.writableFiles
  {
    v.writableFiles
  }

  function VisitFiles(v: PermissionVisitor, probe: Probe, fs: seq<Path>): PermissionVisitor
    decreases |fs|
  {
    if fs == [] then v else VisitFile(VisitFiles(v, probe, fs[..|fs| - 1]), probe, fs[|fs| - 1])
  }

  /** Reference definition: the flagged files of `fs`, in order. */
  function Writable(probe: Probe, fs: seq<Path>): seq<Path>
    decreases |fs|
  {
    if fs == [] then []
    else Writable(probe, fs[..|fs| - 1]) + (if Flagged(probe, fs[|fs| - 1]) then [fs[|fs| - 1]] else [])
  }

  lemma {:induction false} VisitFilesSpec(v: PermissionVisitor, probe: Probe, fs: seq<Path>)
    ensures VisitFiles(v, probe, fs).writableFiles == v.writableFiles + Writable(probe, fs)
    decreases |fs|
  {
    if fs != [] {
      VisitFilesSpec(v, probe, fs[..|fs| - 1]);
    }
  }

  /** Each flagged file appears as often as it is visited; any other file
      never appears. */
  lemma {:induction false} WritableCount(probe: Probe, fs: seq<Path>, p: Path)
    ensures multiset(Writable(probe, fs))[p] == if Flagged(probe, p) then multiset(fs)[p] else 0
    decreases |fs|
  {
    if fs != [] {
      var init := fs[..|fs| - 1];
      WritableCount(probe, init, p);
      assert fs == init + [fs[|fs| - 1]];
    }
  }

  /** A fresh visitor walked over `fs` reports exactly the flagged files, in
      visit order, each as often as it was visited. */
  lemma FreshVisit(probe: Probe, fs: seq<Path>, p: Path)
    ensures Result(VisitFiles(New(), probe, fs)) == Writable(probe, fs)
    ensures p in Result(VisitFiles(New(), probe, fs)) <==> p in fs && Flagged(probe, p)
    ensures multiset(Result(VisitFiles(New(), probe, fs)))[p]
         == if Flagged(probe, p) then multiset(fs)[p] else 0
  {
    VisitFilesSpec(New(), probe, fs);
    WritableCount(probe, fs, p);
  }
}
