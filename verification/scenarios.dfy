/** The cases of test_cases.py, stated over the model, plus four
    extension-fallback cases of main.py:87-89 that no test covers. The unit
    tests of the single visitors mock the probes, and their values are used
    here. The analyzer tests write a real file; their probe holds the answers
    a POSIX file system gives for that regular file under the default umask
    022 and the standard content-type table. */
module Scenarios {
  import opened Wrappers
  import opened Tree
  import opened Probes
  import opened PathText
  import SizeAnalysis
  import PermissionAnalysis
  import CategoryAnalysis
  import Analyzer

  /** A probe whose size query answers `size` for every path. */
  function SizeProbe(size: nat): Probe
  {
    Probe(_ => Some(size), _ => None, _ => Guessed(None))
  }

  /** A probe whose `stat` answers `mode` for every path. */
  function ModeProbe(mode: nat): Probe
  {
    Probe(_ => None, _ => Some(mode), _ => Guessed(None))
  }

  /** Threshold 500: a 600-byte file is totalled and flagged; a 200-byte or
      an empty file is totalled and not flagged. */
  lemma SingleFileSizes()
    ensures SizeAnalysis.VisitFile(SizeAnalysis.New(500), SizeProbe(600), "large_file.txt")
         == SizeAnalysis.SizeVisitor(500, 600, [("large_file.txt", 600)])
    ensures SizeAnalysis.VisitFile(SizeAnalysis.New(500), SizeProbe(200), "small_file.txt")
         == SizeAnalysis.SizeVisitor(500, 200, [])
    ensures SizeAnalysis.VisitFile(SizeAnalysis.New(500), SizeProbe(0), "empty_file.txt")
         == SizeAnalysis.SizeVisitor(500, 0, [])
  {
  }

  /** Threshold 500, two files of 600 and 800 bytes: both flagged, in visit
      order, and the total is 1400. */
  lemma TwoLargeFiles()
    ensures
      var probe := Probe(p => if p == "large_file1.txt" then Some(600) else Some(800), _ => None, _ => Guessed(None));
      SizeAnalysis.VisitFiles(SizeAnalysis.New(500), probe, ["large_file1.txt", "large_file2.txt"])
      == SizeAnalysis.SizeVisitor(500, 1400, [("large_file1.txt", 600), ("large_file2.txt", 800)])
  {
    var probe := Probe(p => if p == "large_file1.txt" then Some(600) else Some(800), _ => None, _ => Guessed(None));
    var fs := ["large_file1.txt", "large_file2.txt"];
    assert fs[..1] == ["large_file1.txt"];
    assert fs[..1][..0] == [];
  }

  /** A mode of exactly `S_IWOTH` is flagged; owner-read only (0o400) is not. */
  lemma WritableModes()
    ensures PermissionAnalysis.VisitFile(PermissionAnalysis.New(), ModeProbe(2), "writable_file.txt").writableFiles
         == ["writable_file.txt"]
    ensures PermissionAnalysis.VisitFile(PermissionAnalysis.New(), ModeProbe(256), "non_writable_file.txt").writableFiles
         == []
  {
    PermissionAnalysis.BitAndIwoth(2);
    PermissionAnalysis.BitAndIwoth(256);
  }

  /** One visitor over a world-writable file and then an owner-read-only one
      (`S_IRUSR`, 0o400): only the first is reported. */
  lemma MixedPermissions()
    ensures
      var probe := Probe(_ => None, p => if p == "writable_file.txt" then Some(2) else Some(256), _ => Guessed(None));
      PermissionAnalysis.VisitFiles(PermissionAnalysis.New(), probe, ["writable_file.txt", "non_writable_file.txt"]).writableFiles
      == ["writable_file.txt"]
  {
    var fs := ["writable_file.txt", "non_writable_file.txt"];
    assert fs[..1] == ["writable_file.txt"];
    assert fs[..1][..0] == [];
    PermissionAnalysis.BitAndIwoth(2);
    PermissionAnalysis.BitAndIwoth(256);
  }

  /** A name without a dot has no extension: the label is "Unknown". */
  lemma NoExtensionUnknown()
    ensures CategoryAnalysis.ExtensionCategory("dir/README") == "Unknown"
  {
    var p := "dir/README";
    assert forall j :: 0 <= j < |p| ==> p[j] != '.';
    assert RFind(p, '.') == -1;
  }

  /** Only the last extension counts, and it is capitalized. */
  lemma ExtensionCapitalized()
    ensures CategoryAnalysis.ExtensionCategory("a/b.tar.GZ") == "Gz"
  {
    var p := "a/b.tar.GZ";
    assert p[1] == '/' && forall j :: 1 < j < |p| ==> p[j] != '/';
    assert RFind(p, '/') == 1;
    assert RFind(p, '.') == 7;
    assert p[2] != '.';
    assert SplitExt(p).1 == ".GZ";
  }

  /** The leading dot of a hidden file's name is not an extension. */
  lemma LeadingDotUnknown()
    ensures CategoryAnalysis.ExtensionCategory(".bashrc") == "Unknown"
  {
    var p := ".bashrc";
    assert p[0] == '.' && forall j :: 0 < j < |p| ==> p[j] != '.';
    assert RFind(p, '.') == 0;
  }

  /** A trailing dot is an extension with empty text, hence the label "". */
  lemma TrailingDotEmpty()
    ensures CategoryAnalysis.ExtensionCategory("notes.") == ""
  {
    assert RFind("notes.", '.') == 5;
    assert "notes."[0] != '.';
    assert SplitExt("notes.").1 == ".";
  }

  /** What the file system answers for the analyzer tests' file, which holds
      the 12 bytes `Test content`: size 12; `st_mode` 0o100644, that is
      `S_IFREG | 0o644` (a regular file, 0o666 less the default umask 022);
      and content type `text/plain` from its `.txt` name. */
  function TestFileProbe(): Probe
  {
    Probe(_ => Some(12), _ => Some(33188), _ => Guessed(Some("text/plain")))
  }

  /** The visitors both analyzer tests pass: default threshold, in the order
      size, permission, category. */
  function TestVisitors(): seq<Analyzer.Visitor>
  {
    [
      Analyzer.SizeV(SizeAnalysis.New(SizeAnalysis.DefaultThreshold)),
      Analyzer.PermissionV(PermissionAnalysis.New()),
      Analyzer.CategoryV(CategoryAnalysis.New())
    ]
  }

  /** The nested-directory test, one visitor at a time: root/subdir/file.txt.
      Size totals 12, no file is world-writable, and the tally is
      {"Text": 1}. */
  lemma NestedDirectory()
    ensures
      var root := Directory("root", [Directory("root/subdir", [File("root/subdir/file.txt")])]);
      && Analyzer.GetResult(Analyzer.Accept(root, TestVisitors()[0], TestFileProbe()))
         == Analyzer.SizeResult(SizeAnalysis.SizeReport(12, []))
      && Analyzer.GetResult(Analyzer.Accept(root, TestVisitors()[1], TestFileProbe()))
         == Analyzer.PermissionResult([])
      && Analyzer.GetResult(Analyzer.Accept(root, TestVisitors()[2], TestFileProbe()))
         == Analyzer.CategoryResult([("Text", 1)])
  {
    PermissionAnalysis.BitAndIwoth(33188);
    assert StartsWith("text/plain", "text");
    assert CategoryAnalysis.Classify(TestFileProbe(), "root/subdir/file.txt") == Some("Text");
  }

  /** The same single file placed directly in the root directory. */
  lemma SingleFile()
    ensures
      var root := Directory("root", [File("root/file.txt")]);
      && Analyzer.GetResult(Analyzer.Accept(root, TestVisitors()[0], TestFileProbe()))
         == Analyzer.SizeResult(SizeAnalysis.SizeReport(12, []))
      && Analyzer.GetResult(Analyzer.Accept(root, TestVisitors()[1], TestFileProbe()))
         == Analyzer.PermissionResult([])
      && Analyzer.GetResult(Analyzer.Accept(root, TestVisitors()[2], TestFileProbe()))
         == Analyzer.CategoryResult([("Text", 1)])
  {
    PermissionAnalysis.BitAndIwoth(33188);
    assert StartsWith("text/plain", "text");
    assert CategoryAnalysis.Classify(TestFileProbe(), "root/file.txt") == Some("Text");
  }

  /** `test_analyze_nested_directories`: looked up by class name in the
      result of `analyze`, the size report totals 12, the permission list is
      empty and the tally is {"Text": 1}. */
  method AnalyzeNested() returns (results: map<string, Analyzer.Report>)
    ensures results.Keys == {"FileSizeVisitor", "PermissionVisitor", "FileCategoryVisitor"}
    ensures results["FileSizeVisitor"] == Analyzer.SizeResult(SizeAnalysis.SizeReport(12, []))
    ensures results["PermissionVisitor"] == Analyzer.PermissionResult([])
    ensures results["FileCategoryVisitor"] == Analyzer.CategoryResult([("Text", 1)])
  {
    var root := Directory("root", [Directory("root/subdir", [File("root/subdir/file.txt")])]);
    results := Analyzer.Analyze(root, TestVisitors(), TestFileProbe());
    Analyzer.MainClasses(TestVisitors());
    NestedDirectory();
  }

  /** `test_analyze_single_file`: the same lookups with the file directly in
      the root directory. */
  method AnalyzeSingleFile() returns (results: map<string, Analyzer.Report>)
    ensures results.Keys == {"FileSizeVisitor", "PermissionVisitor", "FileCategoryVisitor"}
    ensures results["FileSizeVisitor"] == Analyzer.SizeResult(SizeAnalysis.SizeReport(12, []))
    ensures results["PermissionVisitor"] == Analyzer.PermissionResult([])
    ensures results["FileCategoryVisitor"] == Analyzer.CategoryResult([("Text", 1)])
  {
    var root := Directory("root", [File("root/file.txt")]);
    results := Analyzer.Analyze(root, TestVisitors(), TestFileProbe());
    Analyzer.MainClasses(TestVisitors());
    SingleFile();
  }
}
