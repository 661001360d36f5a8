/**
 * What a run of `organize_files` guarantees, stated over the functions of
 * module `Organizer` and proved for every input.
 */
module RunProperties {

  import opened Wrappers
  import opened Paths
  import opened FileSystem
  import opened Spreadsheet
  import opened Organizer

  // ---------------------------------------------------------------------------
  // Warnings: one per expected name that has no staged PDF, in row and column order.

  /** The names of `names` that have no entry in `pdf`, in order. */
  function Misses(names: seq<string>, pdf: map<string, Path>): (m: seq<string>)
    ensures |m| <= |names|
    decreases |names|
  {
    if names == [] then []
    else Misses(names[..|names| - 1], pdf) + (if names[|names| - 1] in pdf then [] else [names[|names| - 1]])
  }

  /** The missed names are exactly the names with no staged PDF. */
  lemma {:induction false} MissesAreUnfound(names: seq<string>, pdf: map<string, Path>)
    ensures forall n :: n in Misses(names, pdf) <==> n in names && n !in pdf
    decreases |names|
  {
    if names != [] {
      var init, last := names[..|names| - 1], names[|names| - 1];
      MissesAreUnfound(init, pdf);
      assert names == init + [last];
    }
  }

  /** The missed names of all `rows`, row after row. */
  function RowMisses(rows: seq<Row>, pdf: map<string, Path>): seq<string>
    decreases |rows|
  {
    if rows == [] then []
    else RowMisses(rows[..|rows| - 1], pdf) + Misses(ExpectedNames(rows[|rows| - 1]), pdf)
  }

  /** Warnings for more names come after those for the earlier ones. */
  lemma {:induction false} MissesAppend(names: seq<string>, more: seq<string>, pdf: map<string, Path>)
    ensures Misses(names + more, pdf) == Misses(names, pdf) + Misses(more, pdf)
    decreases |more|
  {
    if more == [] {
      assert names + more == names;
    } else {
      var init, last := more[..|more| - 1], more[|more| - 1];
      MissesAppend(names, init, pdf);
      assert (names + more)[..|names + more| - 1] == names + init;
      assert (names + more)[|names + more| - 1] == last;
      var tail := if last in pdf then [] else [last];
      assert Misses(names, pdf) + Misses(init, pdf) + tail == Misses(names, pdf) + (Misses(init, pdf) + tail);
    }
  }

  lemma MissesOne(n: string, pdf: map<string, Path>)
    ensures Misses([n], pdf) == if n in pdf then [] else [n]
  {
    assert [n][..0] == [];
  }

  /** A label loop that got through warns about exactly its missed names. */
  lemma {:induction false} LabelsWarnOnMisses(r: Run, pdf: map<string, Path>, dir: Path, row: Row, k: nat)
    requires k <= |LabelColumns| && Labels(r, pdf, dir, row, k).status.Running?
    ensures Labels(r, pdf, dir, row, k).warnings == r.warnings + Misses(LabelNames(row, k), pdf)
  {
    if k > 0 {
      var x := Labels(r, pdf, dir, row, k - 1);
      var cell := CellOf(row, LabelColumns[k - 1]);
      var y := LabelStep(x, pdf, dir, cell);
      assert Labels(r, pdf, dir, row, k) == y;
      assert x.status.Running?;
      LabelsWarnOnMisses(r, pdf, dir, row, k - 1);
      var names := LabelNames(row, k - 1);
      if cell.Some? {
        var n := PdfName(cell.value);
        assert LabelNames(row, k) == names + [n];
        MissesAppend(names, [n], pdf);
        MissesOne(n, pdf);
        var m1 := if n in pdf then [] else [n];
        assert y.warnings == x.warnings + m1;
        assert (r.warnings + Misses(names, pdf)) + m1 == r.warnings + (Misses(names, pdf) + m1);
      } else {
        assert LabelNames(row, k) == names;
        assert y == x;
      }
    }
  }

  /** A row loop that got through warns about exactly the missed names of all rows. */
  lemma {:induction false} RowsWarnOnMisses(r: Run, pdf: map<string, Path>, rows: seq<Row>)
    requires Rows(r, pdf, rows).status.Running?
    ensures Rows(r, pdf, rows).warnings == r.warnings + RowMisses(rows, pdf)
    decreases |rows|
  {
    if rows != [] {
      var init, row := rows[..|rows| - 1], rows[|rows| - 1];
      RowsWarnOnMisses(r, pdf, init);
      var x := Rows(r, pdf, init);
      var dir := DirOf(row).value;
      var made := Then(x, MakeDirs(x.fs, dir));
      LabelsWarnOnMisses(made, pdf, dir, row, |LabelColumns|);
    }
  }

  /**
   * One label cell of a running row: an empty cell changes nothing; a name
   * with no staged PDF adds exactly one warning and leaves the files alone; a
   * staged name is copied to `dir/<name>` (or into it, when that is a
   * directory) with no warning, and no other file changes.
   */
  lemma LabelStepHitOrMiss(r: Run, pdf: map<string, Path>, dir: Path, cell: Cell)
    requires r.status.Running?
    requires forall n :: n in pdf ==> pdf[n] == [StagingRoot, n]
    ensures cell.None? ==> LabelStep(r, pdf, dir, cell) == r
    ensures cell.Some? && PdfName(cell.value) !in pdf ==>
      LabelStep(r, pdf, dir, cell) == r.(warnings := r.warnings + [PdfName(cell.value)])
    ensures cell.Some? && PdfName(cell.value) in pdf && LabelStep(r, pdf, dir, cell).status.Running? ==>
      var n := PdfName(cell.value);
      var target := if dir + [n] in r.fs.dirs then dir + [n, n] else dir + [n];
      var y := LabelStep(r, pdf, dir, cell);
      && y.warnings == r.warnings
      && y.fs.dirs == r.fs.dirs
      && [StagingRoot, n] in r.fs.files
      && y.fs.files == r.fs.files[target := r.fs.files[[StagingRoot, n]]]
  {
    if cell.Some? && PdfName(cell.value) in pdf {
      var n := PdfName(cell.value);
      assert [StagingRoot, n][|[StagingRoot, n]| - 1] == n;
      assert dir + [n] + [n] == dir + [n, n];
    }
  }

  // ---------------------------------------------------------------------------
  // How the row loop changes the file system: it only adds directories and
  // files under `Organized_Files`, and every file it writes is a copy of the
  // staged PDF of the same name.

  /** `bytes` at `p` are those of the staged PDF named like the last component of `p`. */
  ghost predicate CopyOfStaged(p: Path, bytes: Content, staged: map<string, Content>) {
    |p| >= 2 && p[0] == OutputRoot && Last(p) in staged && bytes == staged[Last(p)]
  }

  /**
   * From `a` to `b` nothing was removed, directories were only added under
   * the output root, and every file that was added or rewritten holds the
   * bytes of the staged PDF of its name.
   */
  ghost predicate Evolves(a: Fs, b: Fs, staged: map<string, Content>) {
    && a.dirs <= b.dirs
    && a.files.Keys <= b.files.Keys
    && (forall p :: p in b.dirs && p !in a.dirs ==> p != [] && p[0] == OutputRoot)
    && (forall p :: p in b.files && (p !in a.files || b.files[p] != a.files[p]) ==> CopyOfStaged(p, b.files[p], staged))
  }

  lemma EvolvesTransitive(a: Fs, b: Fs, c: Fs, staged: map<string, Content>)
    requires Evolves(a, b, staged) && Evolves(b, c, staged)
    ensures Evolves(a, c, staged)
  {
  }

  /**
   * The `n` of a label has been filed into `dir`: `dir/n` holds the staged
   * bytes, or, when `dir/n` is a directory, `dir/n/n` does.
   */
  ghost predicate HoldsCopy(fs: Fs, dir: Path, n: string, staged: map<string, Content>)
    requires n in staged
  {
    var t := dir + [n];
    || (t in fs.files && fs.files[t] == staged[n])
    || (t in fs.dirs && t + [n] in fs.files && fs.files[t + [n]] == staged[n])
  }

  lemma HoldsCopyPersists(a: Fs, b: Fs, dir: Path, n: string, staged: map<string, Content>)
    requires n in staged && HoldsCopy(a, dir, n, staged) && Evolves(a, b, staged)
    ensures HoldsCopy(b, dir, n, staged)
  {
    var t := dir + [n];
    assert Last(t) == n && Last(t + [n]) == n;
  }

  /**
   * `pdf` and `staged` are what the glob found under `temp_pdfs` in `before`:
   * each name maps to `temp_pdfs/<name>`, and a name whose path is a file
   * there has that file's bytes in `staged`.
   */
  ghost predicate Catalog(before: Fs, pdf: map<string, Path>, staged: map<string, Content>) {
    forall n :: n in pdf ==>
      && pdf[n] == [StagingRoot, n]
      && ([StagingRoot, n] in before.files ==> n in staged && staged[n] == before.files[[StagingRoot, n]])
  }

  lemma GlobIsCatalog(before: Fs)
    ensures Catalog(before, PdfFiles(before), Staged(before))
  {
  }

  /** One successful `shutil.copy` of a staged PDF into an output folder. */
  lemma CopyEvolves(before: Fs, pdf: map<string, Path>, staged: map<string, Content>, fs: Fs, dir: Path, n: string)
    requires Catalog(before, pdf, staged) && Evolves(before, fs, staged)
    requires dir != [] && dir[0] == OutputRoot
    requires n in pdf && Copy(fs, pdf[n], dir + [n]).Some?
    ensures n in staged
    ensures var fs' := Copy(fs, pdf[n], dir + [n]).value;
      Evolves(fs, fs', staged) && HoldsCopy(fs', dir, n, staged)
  {
    var src := [StagingRoot, n];
    FixedNamesAreNames();
    assert src[0] != OutputRoot;
    assert src in before.files && fs.files[src] == before.files[src];
    var t := CopyTarget(fs, src, dir + [n]);
    assert Last(src) == n && Last(t) == n;
  }

  /** A row's folder and every PDF its labels found, once its label loop is done. */
  ghost predicate Filed(fs: Fs, dir: Path, names: seq<string>, pdf: map<string, Path>, staged: map<string, Content>) {
    forall n :: n in names && n in pdf ==> n in staged && HoldsCopy(fs, dir, n, staged)
  }

  lemma FiledPersists(a: Fs, b: Fs, dir: Path, names: seq<string>, pdf: map<string, Path>, staged: map<string, Content>)
    requires Filed(a, dir, names, pdf, staged) && Evolves(a, b, staged)
    ensures Filed(b, dir, names, pdf, staged)
  {
    forall n | n in names && n in pdf ensures n in staged && HoldsCopy(b, dir, n, staged) {
      HoldsCopyPersists(a, b, dir, n, staged);
    }
  }

  /** One label cell: at most one copy, which then holds the staged bytes. */
  lemma LabelStepEvolves(before: Fs, pdf: map<string, Path>, staged: map<string, Content>, x: Run, dir: Path, cell: Cell)
    requires Catalog(before, pdf, staged) && Evolves(before, x.fs, staged)
    requires dir != [] && dir[0] == OutputRoot
    ensures var y := LabelStep(x, pdf, dir, cell);
      && Evolves(x.fs, y.fs, staged)
      && (y.status.Running? ==> x.status.Running?)
      && (y.status.Running? && cell.Some? && PdfName(cell.value) in pdf ==>
            PdfName(cell.value) in staged && HoldsCopy(y.fs, dir, PdfName(cell.value), staged))
  {
    if x.status.Running? && cell.Some? && PdfName(cell.value) in pdf {
      var n := PdfName(cell.value);
      if Copy(x.fs, pdf[n], dir + [n]).Some? {
        CopyEvolves(before, pdf, staged, x.fs, dir, n);
      }
    }
  }

  lemma {:induction false} LabelsEvolve(before: Fs, pdf: map<string, Path>, staged: map<string, Content>, r: Run, dir: Path, row: Row, k: nat)
    requires Catalog(before, pdf, staged) && Evolves(before, r.fs, staged)
    requires k <= |LabelColumns| && dir != [] && dir[0] == OutputRoot
    ensures var r' := Labels(r, pdf, dir, row, k);
      && Evolves(r.fs, r'.fs, staged)
      && (r'.status.Running? ==> Filed(r'.fs, dir, LabelNames(row, k), pdf, staged))
  {
    if k > 0 {
      LabelsEvolve(before, pdf, staged, r, dir, row, k - 1);
      var x := Labels(r, pdf, dir, row, k - 1);
      var cell := CellOf(row, LabelColumns[k - 1]);
      var y := LabelStep(x, pdf, dir, cell);
      assert Labels(r, pdf, dir, row, k) == y;
      EvolvesTransitive(before, r.fs, x.fs, staged);
      LabelStepEvolves(before, pdf, staged, x, dir, cell);
      EvolvesTransitive(r.fs, x.fs, y.fs, staged);
      if y.status.Running? {
        var names := LabelNames(row, k - 1);
        FiledPersists(x.fs, y.fs, dir, names, pdf, staged);
        assert LabelNames(row, k) == names + (if cell.Some? then [PdfName(cell.value)] else []);
      }
    }
  }

  /** The row's folder and all its ancestors are directories once `MakeDirs` has run. */
  lemma MakeDirsEvolves(fs: Fs, dir: Path, staged: map<string, Content>)
    requires dir != [] && dir[0] == OutputRoot && [] in fs.dirs
    requires MakeDirs(fs, dir).Some?
    ensures dir in MakeDirs(fs, dir).value.dirs
    ensures Evolves(fs, MakeDirs(fs, dir).value, staged)
  {
    assert dir[..|dir|] == dir;
    forall p | p in MakeDirs(fs, dir).value.dirs && p !in fs.dirs ensures p != [] && p[0] == OutputRoot {
      var k :| 0 <= k <= |dir| && p == dir[..k];
    }
  }

  /**
   * What a finished row leaves behind: its folder, which has no ".." component
   * and so really lies inside `Organized_Files`, and every PDF it found filed there.
   */
  ghost predicate RowFiled(fs: Fs, row: Row, pdf: map<string, Path>, staged: map<string, Content>) {
    && DirOf(row).Some?
    && ".." !in DirOf(row).value
    && DirOf(row).value in fs.dirs
    && Filed(fs, DirOf(row).value, ExpectedNames(row), pdf, staged)
  }

  lemma RowStepEvolves(before: Fs, pdf: map<string, Path>, staged: map<string, Content>, x: Run, row: Row)
    requires Catalog(before, pdf, staged) && Evolves(before, x.fs, staged) && [] in before.dirs
    requires RowConfined(row)
    ensures var y := RowStep(x, pdf, row);
      && Evolves(x.fs, y.fs, staged)
      && (x.status.Running? && y.status.Running? ==> RowFiled(y.fs, row, pdf, staged))
  {
    if x.status.Running? && DirOf(row).Some? && MakeDirs(x.fs, DirOf(row).value).Some? {
      var dir := DirOf(row).value;
      DestDirStaysInside(CellOf(row, StateColumn).value, CellOf(row, DistrictColumn).value);
      var made := Then(x, MakeDirs(x.fs, dir));
      MakeDirsEvolves(x.fs, dir, staged);
      EvolvesTransitive(before, x.fs, made.fs, staged);
      LabelsEvolve(before, pdf, staged, made, dir, row, |LabelColumns|);
      EvolvesTransitive(x.fs, made.fs, RowStep(x, pdf, row).fs, staged);
    }
  }

  /**
   * After a row loop that got through, every row's folder exists and holds a
   * copy of every staged PDF its labels name, while the loop itself only added
   * to the output tree. This holds for rows whose State and District values
   * stay below `Organized_Files`.
   */
  lemma {:induction false} RowsFileEveryRow(before: Fs, pdf: map<string, Path>, staged: map<string, Content>, r: Run, rows: seq<Row>)
    requires Catalog(before, pdf, staged) && r.fs == before && [] in before.dirs
    requires forall i :: 0 <= i < |rows| ==> RowConfined(rows[i])
    ensures var after := Rows(r, pdf, rows);
      && Evolves(before, after.fs, staged)
      && (after.status.Running? ==> forall i :: 0 <= i < |rows| ==> RowFiled(after.fs, rows[i], pdf, staged))
    decreases |rows|
  {
    if rows != [] {
      var init, row := rows[..|rows| - 1], rows[|rows| - 1];
      assert forall i :: 0 <= i < |init| ==> init[i] == rows[i];
      RowsFileEveryRow(before, pdf, staged, r, init);
      var x := Rows(r, pdf, init);
      var y := RowStep(x, pdf, row);
      RowStepEvolves(before, pdf, staged, x, row);
      EvolvesTransitive(before, x.fs, y.fs, staged);
      if y.status.Running? {
        forall i | 0 <= i < |rows| ensures RowFiled(y.fs, rows[i], pdf, staged) {
          if i < |rows| - 1 {
            assert rows[i] == init[i];
            FiledPersists(x.fs, y.fs, DirOf(rows[i]).value, ExpectedNames(rows[i]), pdf, staged);
          }
        }
      }
    }
  }

  // ---------------------------------------------------------------------------
  // Staging the uploads.

  /** No later upload has the same name as the `i`-th one. */
  ghost predicate LastOfItsName(uploads: seq<Upload>, i: nat)
    requires i < |uploads|
  {
    forall j :: i < j < |uploads| ==> uploads[j].name != uploads[i].name
  }

  /** The last upload of a staging that got through was written over what the others left. */
  lemma StageStep(r: Run, uploads: seq<Upload>)
    requires uploads != [] && StageUploads(r, uploads).status.Running?
    ensures var s', u := StageUploads(r, uploads[..|uploads| - 1]), uploads[|uploads| - 1];
      var s := StageUploads(r, uploads);
      && s'.status.Running?
      && s.warnings == s'.warnings
      && s.fs.dirs == s'.fs.dirs
      && s.fs.files == s'.fs.files[[StagingRoot, u.name] := u.content]
  {
  }

  /** Staging writes each upload to `temp_pdfs/<name>`, and the last upload of each name wins. */
  lemma {:induction false} StagingKeepsLastUpload(r: Run, uploads: seq<Upload>)
    requires StageUploads(r, uploads).status.Running?
    ensures var s := StageUploads(r, uploads);
      forall i :: 0 <= i < |uploads| && LastOfItsName(uploads, i) ==>
        [StagingRoot, uploads[i].name] in s.fs.files
        && s.fs.files[[StagingRoot, uploads[i].name]] == uploads[i].content
    decreases |uploads|
  {
    if uploads != [] {
      var init, u := uploads[..|uploads| - 1], uploads[|uploads| - 1];
      StageStep(r, uploads);
      StagingKeepsLastUpload(r, init);
      var s := StageUploads(r, uploads);
      forall i | 0 <= i < |uploads| - 1 && LastOfItsName(uploads, i)
        ensures [StagingRoot, uploads[i].name] in s.fs.files
             && s.fs.files[[StagingRoot, uploads[i].name]] == uploads[i].content
      {
        assert uploads[i] == init[i];
        assert LastOfItsName(init, i);
        assert [StagingRoot, uploads[i].name][1] != [StagingRoot, u.name][1];
      }
    }
  }

  /** `p` is not the staged path of any upload. */
  ghost predicate NotAnUpload(p: Path, uploads: seq<Upload>) {
    forall i :: 0 <= i < |uploads| ==> p != [StagingRoot, uploads[i].name]
  }

  /** Staging changes no directory, no warning and no path other than the uploads' own. */
  lemma {:induction false} StagingTouchesOnlyUploads(r: Run, uploads: seq<Upload>)
    requires StageUploads(r, uploads).status.Running?
    ensures var s := StageUploads(r, uploads);
      && s.warnings == r.warnings
      && s.fs.dirs == r.fs.dirs
      && (forall p :: NotAnUpload(p, uploads) ==>
            (p in s.fs.files <==> p in r.fs.files) && (p in r.fs.files ==> s.fs.files[p] == r.fs.files[p]))
    decreases |uploads|
  {
    if uploads != [] {
      var init := uploads[..|uploads| - 1];
      StageStep(r, uploads);
      StagingTouchesOnlyUploads(r, init);
      forall p | NotAnUpload(p, uploads) ensures NotAnUpload(p, init) {
        forall i | 0 <= i < |init| ensures p != [StagingRoot, init[i].name] {
          assert init[i] == uploads[i];
        }
      }
    }
  }

  // ---------------------------------------------------------------------------
  // The whole run.

  /** A missing column stops the run after the spreadsheet is saved and before anything else. */
  lemma MissingColumnStopsRun(fs: Fs, excel: Content, sheet: Sheet, uploads: seq<Upload>)
    requires FirstMissing(sheet.columns).Some?
    ensures var r := Organize(fs, excel, sheet, uploads);
      && r.warnings == []
      && r.fs.dirs == fs.dirs
      && (forall p :: p != [ExcelCopy] ==> (p in r.fs.files <==> p in fs.files) && (p in fs.files ==> r.fs.files[p] == fs.files[p]))
      && r.status == (if WriteFile(fs, [ExcelCopy], excel).None? then Crashed
                      else MissingColumn(FirstMissing(sheet.columns).value))
      && (r.status.MissingColumn? ==> [ExcelCopy] in r.fs.files && r.fs.files[[ExcelCopy]] == excel)
  {
  }

  /**
   * In a run that completes, every row's folder exists and holds a copy of
   * every staged PDF its labels name; the warnings are exactly the names
   * with no staged PDF, in row and column order; outside the output tree
   * nothing changed after preparation, so the staged PDFs were copied, not
   * moved. This holds when no State or District value leaves `Organized_Files`.
   */
  lemma CompletedRun(fs: Fs, excel: Content, sheet: Sheet, uploads: seq<Upload>)
    requires [] in fs.dirs
    requires Organize(fs, excel, sheet, uploads).status.Running?
    requires forall i :: 0 <= i < |sheet.rows| ==> RowConfined(sheet.rows[i])
    ensures var before := Prepare(fs, excel, sheet, uploads).fs;
      var after := Organize(fs, excel, sheet, uploads);
      var pdf := PdfFiles(before);
      && Evolves(before, after.fs, Staged(before))
      && (forall i :: 0 <= i < |sheet.rows| ==> RowFiled(after.fs, sheet.rows[i], pdf, Staged(before)))
      && after.warnings == RowMisses(sheet.rows, pdf)
  {
    var prep := Prepare(fs, excel, sheet, uploads);
    var saved := Then(Run(fs, [], Running), WriteFile(fs, [ExcelCopy], excel));
    var r1 := Then(saved, EnsureDirectory(saved.fs, [StagingRoot]));
    StagingTouchesOnlyUploads(r1, uploads);
    assert [] in prep.fs.dirs && prep.warnings == [];
    GlobIsCatalog(prep.fs);
    RowsFileEveryRow(prep.fs, PdfFiles(prep.fs), Staged(prep.fs), prep, sheet.rows);
    RowsWarnOnMisses(prep, PdfFiles(prep.fs), sheet.rows);
  }

  /**
   * In a run that gets to the row loop, every upload whose name ends in
   * ".pdf" and that no later upload overrides is among the staged PDFs,
   * with its bytes.
   */
  lemma UploadsAreStaged(fs: Fs, excel: Content, sheet: Sheet, uploads: seq<Upload>)
    requires Prepare(fs, excel, sheet, uploads).status.Running?
    ensures var staged := Staged(Prepare(fs, excel, sheet, uploads).fs);
      forall i :: 0 <= i < |uploads| && LastOfItsName(uploads, i) && EndsWithPdf(uploads[i].name) ==>
        uploads[i].name in staged && staged[uploads[i].name] == uploads[i].content
  {
    var prep := Prepare(fs, excel, sheet, uploads);
    var saved := Then(Run(fs, [], Running), WriteFile(fs, [ExcelCopy], excel));
    var r1 := Then(saved, EnsureDirectory(saved.fs, [StagingRoot]));
    var r2 := StageUploads(r1, uploads);
    StagingKeepsLastUpload(r1, uploads);
    assert prep.fs.files == r2.fs.files;
  }

  /**
   * End to end: in a run that completes, an uploaded PDF that a label of
   * some row names (and that no later upload of the same name replaced) is
   * in that row's folder with the uploaded bytes, and no warning names it.
   * This holds when no State or District value leaves `Organized_Files`.
   */
  lemma LabelledUploadIsFiled(fs: Fs, excel: Content, sheet: Sheet, uploads: seq<Upload>, i: nat, j: nat, k: nat)
    requires [] in fs.dirs
    requires Organize(fs, excel, sheet, uploads).status.Running?
    requires forall r :: 0 <= r < |sheet.rows| ==> RowConfined(sheet.rows[r])
    requires i < |uploads| && LastOfItsName(uploads, i) && EndsWithPdf(uploads[i].name)
    requires j < |sheet.rows| && k < |LabelColumns|
    requires CellOf(sheet.rows[j], LabelColumns[k]) == Some(uploads[i].name[..|uploads[i].name| - 4])
    ensures var after := Organize(fs, excel, sheet, uploads);
      var staged := Staged(Prepare(fs, excel, sheet, uploads).fs);
      var dir := DirOf(sheet.rows[j]);
      && dir.Some? && dir.value in after.fs.dirs
      && uploads[i].name in staged && staged[uploads[i].name] == uploads[i].content
      && HoldsCopy(after.fs, dir.value, uploads[i].name, staged)
      && uploads[i].name !in after.warnings
  {
    var before := Prepare(fs, excel, sheet, uploads).fs;
    var pdf, staged := PdfFiles(before), Staged(before);
    var name := uploads[i].name;
    var row := sheet.rows[j];
    PdfNameOfStem(name);
    UploadsAreStaged(fs, excel, sheet, uploads);
    CompletedRun(fs, excel, sheet, uploads);
    LabelNamesFromCells(row, |LabelColumns|);
    assert name in ExpectedNames(row);
    assert RowFiled(Organize(fs, excel, sheet, uploads).fs, row, pdf, staged);
    MissesOfRowsAreUnfound(sheet.rows, pdf);
  }

  /** No name with a staged PDF is ever warned about. */
  lemma {:induction false} MissesOfRowsAreUnfound(rows: seq<Row>, pdf: map<string, Path>)
    ensures forall n :: n in RowMisses(rows, pdf) ==> n !in pdf
    decreases |rows|
  {
    if rows != [] {
      MissesOfRowsAreUnfound(rows[..|rows| - 1], pdf);
      MissesAreUnfound(ExpectedNames(rows[|rows| - 1]), pdf);
    }
  }

  // ---------------------------------------------------------------------------
  // A row is read through its six required columns only.

  /** Two rows that agree on the required columns. */
  ghost predicate SameRequiredCells(a: Row, b: Row) {
    forall c :: c in RequiredColumns ==> CellOf(a, c) == CellOf(b, c)
  }

  lemma {:induction false} LabelsReadOnlyLabelCells(r: Run, pdf: map<string, Path>, dir: Path, a: Row, b: Row, k: nat)
    requires k <= |LabelColumns| && SameRequiredCells(a, b)
    ensures Labels(r, pdf, dir, a, k) == Labels(r, pdf, dir, b, k)
  {
    if k > 0 {
      LabelsReadOnlyLabelCells(r, pdf, dir, a, b, k - 1);
      assert LabelColumns[k - 1] in RequiredColumns;
    }
  }

  /** Cells outside the six required columns never affect a row's handling. */
  lemma RowStepReadsOnlyRequiredColumns(r: Run, pdf: map<string, Path>, a: Row, b: Row)
    requires SameRequiredCells(a, b)
    ensures RowStep(r, pdf, a) == RowStep(r, pdf, b)
  {
    assert StateColumn in RequiredColumns && DistrictColumn in RequiredColumns;
    if DirOf(a).Some? {
      var dir := DirOf(a).value;
      LabelsReadOnlyLabelCells(Then(r, MakeDirs(r.fs, dir)), pdf, dir, a, b, |LabelColumns|);
    }
  }
}
