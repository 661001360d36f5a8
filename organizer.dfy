/**
 * `organize_files` (app.py:14-68): save the spreadsheet, check its columns,
 * stage the uploaded PDFs, file every labelled PDF under
 * `Organized_Files/<state>/<district>/`, and pack the output tree.
 *
 * `Organize` states the whole run as a function of the file system before it;
 * the method `OrganizeFiles` performs it step by step on a `Disk`.
 */
module Organizer {

  import opened Wrappers
  import opened Paths
  import opened FileSystem
  import opened Spreadsheet
  import opened LocalDisk
  import opened Archive

  const ExcelCopy: string := "uploaded_excel.xlsx"
  const StagingRoot: string := "temp_pdfs"
  const OutputRoot: string := "Organized_Files"

  /** The three fixed names are single path components. */
  lemma FixedNamesAreNames()
    ensures IsName(ExcelCopy) && IsName(StagingRoot) && IsName(OutputRoot)
    ensures ExcelCopy != StagingRoot && ExcelCopy != OutputRoot && StagingRoot != OutputRoot
  {
    assert ExcelCopy[0] != StagingRoot[0] && ExcelCopy[0] != OutputRoot[0] && StagingRoot[0] != OutputRoot[0];
  }

  /** An uploaded file: the name the browser sent and its bytes. */
  datatype Upload = Upload(name: string, content: Content)

  /** `Crashed` is an exception escaping `organize_files`; `MissingColumn` is its `return None`. */
  datatype Status = Running | Crashed | MissingColumn(column: string)

  /** The file system, the warnings shown so far and how the run stands. */
  datatype Run = Run(fs: Fs, warnings: seq<string>, status: Status)

  /** What the caller gets back. */
  datatype Outcome = Failed | Stopped(column: string) | Zipped(entries: Entries)

  /** Applies the result of one file-system call: a failed call ends the run. */
  function Then(r: Run, o: Option<Fs>): Run {
    match o
    case None => r.(status := Crashed)
    case Some(fs) => r.(fs := fs)
  }

  /** `{f.name: f for f in Path("temp_pdfs").glob("*.pdf")}` (app.py:39). */
  function PdfFiles(fs: Fs): (pdf: map<string, Path>)
    ensures forall n :: n in pdf <==>
      EndsWithPdf(n) && ([StagingRoot, n] in fs.files || [StagingRoot, n] in fs.dirs)
    ensures forall n :: n in pdf ==> pdf[n] == [StagingRoot, n]
  {
    var listed := set p | p in fs.files.Keys + fs.dirs && |p| == 2 && p[0] == StagingRoot :: p[1];
    assert forall n :: [StagingRoot, n] in fs.files.Keys + fs.dirs ==> n in listed by {
      forall n | [StagingRoot, n] in fs.files.Keys + fs.dirs ensures n in listed {
        var p := [StagingRoot, n];
        assert |p| == 2 && p[0] == StagingRoot && p[1] == n;
      }
    }
    assert forall n :: n in listed ==> [StagingRoot, n] in fs.files.Keys + fs.dirs by {
      forall n | n in listed ensures [StagingRoot, n] in fs.files.Keys + fs.dirs {
        var p :| p in fs.files.Keys + fs.dirs && |p| == 2 && p[0] == StagingRoot && p[1] == n;
        assert p == [StagingRoot, n];
      }
    }
    map n | n in listed && EndsWithPdf(n) :: [StagingRoot, n]
  }

  /** The bytes behind each staged name that is a regular file. */
  function Staged(fs: Fs): map<string, Content> {
    var pdf := PdfFiles(fs);
    map n | n in pdf && pdf[n] in fs.files :: fs.files[pdf[n]]
  }

  /** `Path("Organized_Files") / state / district` (app.py:47-48). */
  function DestDir(state: string, district: string): (dir: Path)
    ensures IsPath(dir) && |dir| >= 1 && dir[0] == OutputRoot
  {
    [OutputRoot] + Segments(state) + Segments(district)
  }

  /** A State and a District that are plain names are the two levels below `Organized_Files`. */
  lemma DestDirOfNames(state: string, district: string)
    requires IsName(state) && state != "." && IsName(district) && district != "."
    ensures DestDir(state, district) == [OutputRoot, state, district]
  {
    SegmentsOfName(state);
    SegmentsOfName(district);
  }

  /**
   * A State or District value that pathlib's `/` keeps below its left operand:
   * not an absolute path and no ".." piece. Only for such values is the
   * component path of `DestDir` the directory the program really uses.
   */
  predicate Confined(v: string) {
    (v == "" || v[0] != '/') && ".." !in Split(v)
  }

  /** The State and District cells of a row, where present, are confined. */
  predicate RowConfined(row: Row) {
    && (CellOf(row, StateColumn).Some? ==> Confined(CellOf(row, StateColumn).value))
    && (CellOf(row, DistrictColumn).Some? ==> Confined(CellOf(row, DistrictColumn).value))
  }

  /** Confined values give a folder with no ".." component: it really lies inside `Organized_Files`. */
  lemma DestDirStaysInside(state: string, district: string)
    requires Confined(state) && Confined(district)
    ensures ".." !in DestDir(state, district)
  {
    assert ".." !in Segments(state) && ".." !in Segments(district);
    assert OutputRoot != "..";
  }

  /** The uploads loop of app.py:32-34 over the first uploads. */
  function StageUploads(r: Run, uploads: seq<Upload>): Run
    decreases |uploads|
  {
    if uploads == [] then r
    else
      var r' := StageUploads(r, uploads[..|uploads| - 1]);
      var u := uploads[|uploads| - 1];
      if r'.status.Running? then Then(r', WriteFile(r'.fs, [StagingRoot, u.name], u.content)) else r'
  }

  /** One label cell of a row (app.py:52-57). */
  function LabelStep(r: Run, pdf: map<string, Path>, dir: Path, cell: Cell): Run {
    if !r.status.Running? || cell.None? then r
    else
      var name := PdfName(cell.value);
      if name in pdf then Then(r, Copy(r.fs, pdf[name], dir + [name]))
      else r.(warnings := r.warnings + [name])
  }

  /** The first `k` label columns of a row, in order (app.py:51). */
  function Labels(r: Run, pdf: map<string, Path>, dir: Path, row: Row, k: nat): Run
    requires k <= |LabelColumns|
  {
    if k == 0 then r
    else LabelStep(Labels(r, pdf, dir, row, k - 1), pdf, dir, CellOf(row, LabelColumns[k - 1]))
  }

  /**
   * The folder a row's PDFs go to (app.py:45-48); `None` when the State or
   * District cell is empty, a NaN that pathlib's `/` rejects with a TypeError.
   */
  function DirOf(row: Row): (dir: Option<Path>)
    ensures dir.Some? <==> CellOf(row, StateColumn).Some? && CellOf(row, DistrictColumn).Some?
    ensures dir.Some? ==> IsPath(dir.value) && |dir.value| >= 1 && dir.value[0] == OutputRoot
  {
    var state, district := CellOf(row, StateColumn), CellOf(row, DistrictColumn);
    if state.None? || district.None? then None else Some(DestDir(state.value, district.value))
  }

  /** One row (app.py:42-57). */
  function RowStep(r: Run, pdf: map<string, Path>, row: Row): Run {
    if !r.status.Running? then r
    else match DirOf(row)
      case None => r.(status := Crashed)
      case Some(dir) =>
        var r' := Then(r, MakeDirs(r.fs, dir));
        if r'.status.Running? then Labels(r', pdf, dir, row, |LabelColumns|) else r'
  }

  /** The row loop of app.py:41-57 over the given rows. */
  function Rows(r: Run, pdf: map<string, Path>, rows: seq<Row>): Run
    decreases |rows|
  {
    if rows == [] then r
    else RowStep(Rows(r, pdf, rows[..|rows| - 1]), pdf, rows[|rows| - 1])
  }

  /** `organize_files` up to the row loop (app.py:16-39). */
  function Prepare(fs: Fs, excel: Content, sheet: Sheet, uploads: seq<Upload>): Run {
    var saved := Then(Run(fs, [], Running), WriteFile(fs, [ExcelCopy], excel));
    if !saved.status.Running? then saved
    else match FirstMissing(sheet.columns)
      case Some(c) => saved.(status := MissingColumn(c))
      case None =>
        var r1 := Then(saved, EnsureDirectory(saved.fs, [StagingRoot]));
        var r2 := if r1.status.Running? then StageUploads(r1, uploads) else r1;
        if r2.status.Running? then Then(r2, EnsureDirectory(r2.fs, [OutputRoot])) else r2
  }

  /** A whole call of `organize_files` before the packing step. */
  function Organize(fs: Fs, excel: Content, sheet: Sheet, uploads: seq<Upload>): Run {
    var r := Prepare(fs, excel, sheet, uploads);
    if r.status.Running? then Rows(r, PdfFiles(r.fs), sheet.rows) else r
  }

  /** The value `organize_files` returns for a run that ended as `r`. */
  ghost predicate Reports(outcome: Outcome, r: Run) {
    match r.status
    case MissingColumn(c) => outcome == Stopped(c)
    case Crashed => outcome == Failed
    case Running => outcome.Zipped? && IsListing(outcome.entries, Walk(r.fs, [OutputRoot]))
  }

  // ---------------------------------------------------------------------------
  // A run that has stopped stays stopped.

  lemma {:induction false} StageStaysStopped(r: Run, uploads: seq<Upload>, i: nat)
    requires i <= |uploads| && !StageUploads(r, uploads[..i]).status.Running?
    ensures StageUploads(r, uploads) == StageUploads(r, uploads[..i])
    decreases |uploads|
  {
    if i < |uploads| {
      assert uploads[..|uploads| - 1][..i] == uploads[..i];
      StageStaysStopped(r, uploads[..|uploads| - 1], i);
    } else {
      assert uploads[..i] == uploads;
    }
  }

  lemma {:induction false} LabelsStayStopped(r: Run, pdf: map<string, Path>, dir: Path, row: Row, i: nat, k: nat)
    requires i <= k <= |LabelColumns| && !Labels(r, pdf, dir, row, i).status.Running?
    ensures Labels(r, pdf, dir, row, k) == Labels(r, pdf, dir, row, i)
    decreases k
  {
    if i < k {
      LabelsStayStopped(r, pdf, dir, row, i, k - 1);
    }
  }

  lemma {:induction false} RowsStayStopped(r: Run, pdf: map<string, Path>, rows: seq<Row>, i: nat)
    requires i <= |rows| && !Rows(r, pdf, rows[..i]).status.Running?
    ensures Rows(r, pdf, rows) == Rows(r, pdf, rows[..i])
    decreases |rows|
  {
    if i < |rows| {
      assert rows[..|rows| - 1][..i] == rows[..i];
      RowsStayStopped(r, pdf, rows[..|rows| - 1], i);
    } else {
      assert rows[..i] == rows;
    }
  }

  // ---------------------------------------------------------------------------
  // The method.

  /** The run status a method's `ok` flag stands for. */
  function StatusOf(ok: bool): Status {
    if ok then Running else Crashed
  }

  /** The uploads loop (app.py:32-34) on the disk. */
  method StagePdfs(disk: Disk, uploads: seq<Upload>) returns (ok: bool)
    requires disk.Valid()
    requires forall i :: 0 <= i < |uploads| ==> IsName(uploads[i].name)
    modifies disk
    ensures disk.Valid()
    ensures StageUploads(Run(old(disk.State()), [], Running), uploads) == Run(disk.State(), [], StatusOf(ok))
  {
    ghost var r := Run(disk.State(), [], Running);
    FixedNamesAreNames();
    for i := 0 to |uploads|
      invariant disk.Valid()
      invariant Run(disk.State(), [], Running) == StageUploads(r, uploads[..i])
    {
      assert uploads[..i + 1][..i] == uploads[..i];
      ok := disk.WriteFile([StagingRoot, uploads[i].name], uploads[i].content);
      if !ok {
        StageStaysStopped(r, uploads, i + 1);
        return;
      }
    }
    assert uploads[..|uploads|] == uploads;
    ok := true;
  }

  /** The label loop of one row (app.py:51-57) on the disk. */
  method FileLabels(disk: Disk, pdf: map<string, Path>, dir: Path, row: Row, warnings: seq<string>)
    returns (ok: bool, warnings': seq<string>)
    requires disk.Valid() && IsPath(dir)
    requires forall n :: n in pdf ==> IsName(n)
    modifies disk
    ensures disk.Valid()
    ensures Labels(Run(old(disk.State()), warnings, Running), pdf, dir, row, |LabelColumns|)
         == Run(disk.State(), warnings', StatusOf(ok))
  {
    warnings' := warnings;
    ghost var r := Run(disk.State(), warnings, Running);
    for k := 0 to |LabelColumns|
      invariant disk.Valid()
      invariant Run(disk.State(), warnings', Running) == Labels(r, pdf, dir, row, k)
    {
      var cell := CellOf(row, LabelColumns[k]);
      if cell.Some? {
        var name := PdfName(cell.value);
        if name in pdf {
          ok := disk.Copy(pdf[name], dir + [name]);
          if !ok {
            LabelsStayStopped(r, pdf, dir, row, k + 1, |LabelColumns|);
            return;
          }
        } else {
          warnings' := warnings' + [name];
        }
      }
    }
    ok := true;
  }

  /** One row of the spreadsheet (app.py:42-57) on the disk. */
  method FileRow(disk: Disk, pdf: map<string, Path>, row: Row, warnings: seq<string>)
    returns (ok: bool, warnings': seq<string>)
    requires disk.Valid()
    requires forall n :: n in pdf ==> IsName(n)
    modifies disk
    ensures disk.Valid()
    ensures RowStep(Run(old(disk.State()), warnings, Running), pdf, row)
         == Run(disk.State(), warnings', StatusOf(ok))
  {
    warnings' := warnings;
    var folder := DirOf(row);
    if folder.None? {
      return false, warnings';
    }
    ok := disk.MakeDirs(folder.value);
    if ok {
      ok, warnings' := FileLabels(disk, pdf, folder.value, row, warnings);
    }
  }

  /** The row loop (app.py:41-57) on the disk. */
  method FileRows(disk: Disk, pdf: map<string, Path>, rows: seq<Row>)
    returns (ok: bool, warnings: seq<string>)
    requires disk.Valid()
    requires forall n :: n in pdf ==> IsName(n)
    modifies disk
    ensures disk.Valid()
    ensures Rows(Run(old(disk.State()), [], Running), pdf, rows) == Run(disk.State(), warnings, StatusOf(ok))
  {
    warnings := [];
    ghost var r := Run(disk.State(), [], Running);
    for j := 0 to |rows|
      invariant disk.Valid()
      invariant Run(disk.State(), warnings, Running) == Rows(r, pdf, rows[..j])
    {
      assert rows[..j + 1][..j] == rows[..j];
      ok, warnings := FileRow(disk, pdf, rows[j], warnings);
      if !ok {
        RowsStayStopped(r, pdf, rows, j + 1);
        return;
      }
    }
    assert rows[..|rows|] == rows;
    ok := true;
  }

  /** `organize_files(excel_file, uploaded_pdfs)` on the working directory `disk`. */
  method OrganizeFiles(disk: Disk, excel: Content, sheet: Sheet, uploads: seq<Upload>)
    returns (outcome: Outcome, warnings: seq<string>)
    requires disk.Valid()
    requires forall i :: 0 <= i < |uploads| ==> IsName(uploads[i].name)
    modifies disk
    ensures disk.Valid()
    ensures var r := Organize(old(disk.State()), excel, sheet, uploads);
      disk.State() == r.fs && warnings == r.warnings && Reports(outcome, r)
  {
    warnings := [];
    FixedNamesAreNames();
    var ok := disk.WriteFile([ExcelCopy], excel);
    if !ok {
      return Failed, warnings;
    }
    var missing := FirstMissingColumn(sheet.columns);
    if missing.Some? {
      return Stopped(missing.value), warnings;
    }
    ok := disk.EnsureDirectory([StagingRoot]);
    if !ok {
      return Failed, warnings;
    }
    ok := StagePdfs(disk, uploads);
    if !ok {
      return Failed, warnings;
    }
    ok := disk.EnsureDirectory([OutputRoot]);
    if !ok {
      return Failed, warnings;
    }
    var pdfFiles := PdfFiles(disk.State());
    PdfNamesAreNames(disk.State());
    ok, warnings := FileRows(disk, pdfFiles, sheet.rows);
    if !ok {
      return Failed, warnings;
    }
    var entries := Pack(disk, [OutputRoot]);
    outcome := Zipped(entries);
  }

  /** Staged names are plain file names, since they come from a directory listing. */
  lemma PdfNamesAreNames(fs: Fs)
    requires WellFormed(fs)
    ensures forall n :: n in PdfFiles(fs) ==> IsName(n)
  {
    forall n | n in PdfFiles(fs) ensures IsName(n) {
      var p := [StagingRoot, n];
      assert p in fs.files || p in fs.dirs;
      assert IsPath(p);
    }
  }
}
