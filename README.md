# mmv file organiser, modelled in Dafny

The organiser takes a spreadsheet and a set of uploaded PDFs. Each
spreadsheet row names a state, a district and up to four labels. Every
PDF called `<label>.pdf` is copied into
`Organized_Files/<state>/<district>/`, and that tree is packed into a
zip archive. The logic is `organize_files` and `ensure_directory` in
`app.py`. This project models that logic and proves what it guarantees.

The modules:

- `Paths`: paths as sequences of components.
  - How pathlib's `/` turns a cell value into components (`Segments`).
  - How an archive entry name is written (`Join`) and read back (`Split`).
- `FileSystem`: the working directory as a value `Fs(dirs, files)`. It holds
  the operations the organiser uses, each returning `None` when Python
  would raise:
  - `os.makedirs` and `Path.mkdir(parents=True, exist_ok=True)`;
  - `ensure_directory`;
  - `open(..., "wb").write`;
  - `shutil.copy`;
  - the `os.walk` + `os.path.relpath` listing.
- `LocalDisk`: a class `Disk` whose fields are the directories and files.
  Its methods change them in place, and each is proved against the
  function of the same name in `FileSystem`.
- `Spreadsheet`: the column names, the required-column check, and the
  `<label>.pdf` naming.
- `Archive`: the packing loop, proved to produce exactly the listing of the
  output tree. Unpacking that listing gives the tree back.
- `Organizer`: the whole pipeline as a function of the file system before
  it (`Organize`), and the method `OrganizeFiles` that performs it step by
  step on a `Disk`.
  - An exception that escapes `organize_files` is the status `Crashed`. The
    changes made before it stay.
  - The missing-column `return None` is `MissingColumn`.
- `RunProperties`: what a run guarantees:
  - the warnings are exactly the missed names;
  - every row's folder exists and holds copies of the PDFs it names;
  - the last upload of a name wins;
  - staged files are copied, not moved;
  - a missing column stops the run;
  - a row is read through its six required columns only.

The working directory is not cleared between runs in the source. `temp_pdfs`
and `Organized_Files` may already hold files, so the file system before the
run is an input to every property.

The code differs from what one might expect of such a tool, and the model
follows the code:

- `.pdf` is always appended to a label: a label `ABC.pdf` looks for
  `ABC.pdf.pdf`.
- Cell values are not trimmed.
- Only the first missing column is reported.
- Names are matched exactly and case-sensitively.

## Model

| member | source | states |
|---|---|---|
| Paths.Segments | app.py:47-48 | The components pathlib adds for a value are proper names: exactly the non-empty pieces other than "." of the value cut at '/'. |
| Paths.SegmentsOfName | app.py:47-48 | A value that is a plain name (no '/', not ".") adds exactly one component, itself. |
| Paths.SegmentsConcat | app.py:47-48 | Components keep the order of the value: a value is its first piece (dropped when empty or ".") followed by the components of the rest, as `p / "a/b"` is `p / "a" / "b"`. With `SegmentsOfName` this fixes the components of every value. |
| Paths.SegmentsOfEmpty | app.py:47-48 | An empty value adds no component. |
| Paths.Join | app.py:65 | Definition: the archive entry name of a relative path, its components joined with '/'. Its properties are the ensures of `SplitJoin` and `Archive.JoinInjective`. |
| Paths.JoinSplit | app.py:65 | Joining the pieces of any entry name with '/' gives the name back. |
| Paths.SplitJoin | app.py:65 | Splitting the '/'-joined relative path of a file gives back its components, so entry names are unambiguous. |
| FileSystem.MakeDirs | app.py:49 | Definition of `mkdir(parents=True, exist_ok=True)`: fails when a file lies on the path, and otherwise adds the path and all its ancestors as directories. Its properties are the ensures of `MakeDirsKeepsWellFormed` and `MakeDirsIdempotent`. |
| FileSystem.EnsureDirectory | app.py:9-11 | Definition of `ensure_directory`: nothing happens when a file or a directory is already at the path, and otherwise it runs `os.makedirs`. |
| FileSystem.WriteFile | app.py:33-34 | Definition of `open(p, "wb").write(c)`. It fails when the parent is not a directory or when `p` names a directory, including a last component "." or "..". Otherwise it sets `p` to the bytes. |
| FileSystem.CopyTarget | app.py:55 | Definition of where `shutil.copy` writes: `dst/<name of src>` when `dst` is a directory, and otherwise `dst`. |
| FileSystem.Copy | app.py:55 | Definition of `shutil.copy`: it fails unless the source is a file, and otherwise writes the source's bytes at the target. Its properties are the ensures of `CopyWritesOnlyItsTarget`. |
| FileSystem.Walk | app.py:62-65 | The walk lists exactly the files strictly below the root, keyed by their path relative to it, with their bytes. |
| FileSystem.AncestorsAreDirs | app.py:49 | In a well-formed tree, every ancestor of a directory is a directory. |
| FileSystem.MakeDirsKeepsWellFormed | app.py:49 | `mkdir(parents=True, exist_ok=True)` fails exactly when a file lies on the path. On success every prefix of the path is a directory, no file changes, and the tree stays well formed. |
| FileSystem.MakeDirsIdempotent | app.py:47-49 | Creating an existing directory changes nothing, and creating one twice is the same as once, so rows with the same destination share one folder. |
| FileSystem.WriteFileKeepsWellFormed | app.py:33-34 | A successful write keeps the tree well formed. |
| FileSystem.CopyWritesOnlyItsTarget | app.py:55 | A successful copy needs the source to be a file. It sets only the target (the destination, or `dst/<name>` when the destination is a directory) to the source's bytes and keeps the tree well formed. |
| LocalDisk.Disk.MakeDirs | app.py:49 | Creating parent directories one level at a time matches `MakeDirs` on the state before. It succeeds exactly when no file lies on the path. Then the directories are the old ones plus every prefix of the path, and no file changes. On failure the state is unchanged. |
| LocalDisk.Disk.EnsureDirectory | app.py:9-11 | `ensure_directory` matches `EnsureDirectory`: nothing happens when something already exists at the path. |
| LocalDisk.Disk.WriteFile | app.py:33-34 | Writing a file matches `WriteFile`, so it fails for a missing parent, a directory at the path, or a last component "." or "..". A failure changes nothing. |
| LocalDisk.Disk.Copy | app.py:55 | `shutil.copy` matches `Copy`, and a failure changes nothing. |
| Spreadsheet.FirstMissingIndex | app.py:24-25 | The index returned is that of the first required column absent from the sheet, and every earlier one is present. |
| Spreadsheet.FirstMissingColumn | app.py:21-27 | The column check reports nothing exactly when all six columns are present. Otherwise it reports a required column that is absent, the first in list order. |
| Spreadsheet.CellOf | app.py:52 | Definition: the cell a row holds in a column, `None` for an empty (NaN) cell. |
| Spreadsheet.PdfName | app.py:53 | Definition: the expected file name of a label. Its properties are the ensures of `PdfNameShape` and `PdfNameOfStem`. |
| Spreadsheet.LabelNames | app.py:51-53 | Definition: the names asked for by the first label columns, in column order, skipping empty cells. Its properties are the ensures of `LabelNamesFromCells`. |
| Spreadsheet.ExpectedNames | app.py:44-53 | Definition: the names asked for by all four label columns of a row. |
| Spreadsheet.PdfNameShape | app.py:53 | The expected name is the label followed by ".pdf", always ending in ".pdf". Distinct labels give distinct names, and "ABC123.pdf" becomes "ABC123.pdf.pdf". |
| Spreadsheet.PdfNameOfStem | app.py:53 | Every name ending in ".pdf" is the expected name of its stem. |
| Spreadsheet.LabelNamesFromCells | app.py:51-53 | A row asks for one name per non-empty label cell and for no other. |
| Archive.Unpack | app.py:65 | Extracting puts every entry at the path its name spells, and every extracted path joins back to an entry name. |
| Archive.JoinInjective | app.py:65 | Distinct files get distinct entry names. |
| Archive.UnpackListing | app.py:61-66 | Unpacking an exact listing of a tree reproduces the tree, file for file. |
| Archive.ListedNameIsInTree | app.py:65 | Each entry name of a listing splits back into a file of the tree. |
| Archive.WalkPathsAreProper | app.py:62-65 | The relative paths of the walk are non-empty paths of proper names. |
| Archive.WalkListingHasOnlyFiles | app.py:62-66 | Every entry of the archive is a file below the root, and no directory gets an entry. |
| Archive.NamesExtend | app.py:66 | Adding a file adds its entry name to the set of names. |
| Archive.ListingExtend | app.py:63-66 | Adding one more file of the tree keeps the entries an exact listing. |
| Archive.Pack | app.py:61-66 | The packing loop returns exactly one entry per file below the output root, named by its relative path and holding its bytes, whatever the visiting order. |
| Organizer.FixedNamesAreNames | app.py:16-37 | `uploaded_excel.xlsx`, `temp_pdfs` and `Organized_Files` are distinct single components. |
| Organizer.PdfFiles | app.py:39 | The glob maps exactly the names ending in ".pdf" of the entries of `temp_pdfs` (files or directories), each to `temp_pdfs/<name>`. |
| Organizer.PdfNamesAreNames | app.py:39 | Globbed names are proper file names. |
| Organizer.DestDir | app.py:47-48 | A row's folder is a proper path whose first component is `Organized_Files`. It is lexical: see the line for this member under "Left out". |
| Organizer.DestDirStaysInside | app.py:47-48 | For State and District values that are not absolute and have no ".." piece (`Confined`), the folder has no ".." component, so it really lies inside `Organized_Files`. |
| Organizer.DestDirOfNames | app.py:47-48 | A State and a District that are plain names (not ".") give exactly `Organized_Files/<state>/<district>`. |
| Organizer.DirOf | app.py:42-48 | A row has a folder exactly when its State and District cells are not empty. |
| Organizer.Staged | app.py:39 | Definition: the bytes behind each globbed name that is a regular file. |
| Organizer.StageUploads | app.py:32-34 | Definition of the uploads loop: each upload is written to `temp_pdfs/<name>` in order, and a failed write ends the run. Its properties are the ensures of `RunProperties.StagingKeepsLastUpload` and `StagingTouchesOnlyUploads`. |
| Organizer.LabelStep | app.py:52-57 | Definition of one label cell: an empty cell is skipped, a globbed name is copied into the folder, and any other name is warned about. Its properties are the ensures of `RunProperties.LabelStepHitOrMiss`. |
| Organizer.Labels | app.py:51-57 | Definition of the label loop over the first label columns. Its properties are the ensures of `RunProperties.LabelsWarnOnMisses` and `LabelsEvolve`. |
| Organizer.RowStep | app.py:42-57 | Definition of one row: it fails on an empty State or District, then creates the folder, then runs the label loop. |
| Organizer.Rows | app.py:41-57 | Definition of the row loop. Its properties are the ensures of `RunProperties.RowsWarnOnMisses` and `RowsFileEveryRow`. |
| Organizer.Prepare | app.py:16-39 | Definition of the steps before the row loop: save the spreadsheet, check the columns, create `temp_pdfs`, stage the uploads, create `Organized_Files`. |
| Organizer.Organize | app.py:14-57 | Definition of a whole call up to packing. Its properties are the ensures of `RunProperties.CompletedRun`, `MissingColumnStopsRun` and `LabelledUploadIsFiled`. |
| Organizer.Reports | app.py:60-68 | Definition of the value returned: the missing column, a failure, or an archive exactly listing the files under `Organized_Files`. |
| Organizer.StageStaysStopped | app.py:32-34 | Once writing an upload fails, the rest of the uploads loop does nothing. |
| Organizer.LabelsStayStopped | app.py:51-57 | Once a copy fails, the rest of the label loop does nothing. |
| Organizer.RowsStayStopped | app.py:41-57 | Once a row fails, the rest of the row loop does nothing. |
| Organizer.StagePdfs | app.py:32-34 | The uploads loop on the disk matches `StageUploads`, stopping at the first failed write. |
| Organizer.FileLabels | app.py:51-57 | The label loop on the disk matches `Labels`: copies on hits, one warning per miss, stopping at the first failed copy. |
| Organizer.FileRow | app.py:42-57 | One row on the disk matches `RowStep`: it fails on an empty State or District, then creates the folder, then runs the labels. |
| Organizer.FileRows | app.py:41-57 | The row loop on the disk matches `Rows` and collects the warnings in order. |
| Organizer.OrganizeFiles | app.py:14-68 | A call leaves the disk in the state `Organize` gives and returns its warnings. It reports the missing column, a failure, or an archive that exactly lists the files under `Organized_Files`. |
| Spreadsheet.FirstMissing | app.py:24-27 | The missing-column report is empty exactly when every required column is present. Otherwise it names an absent required column, and every column before it in list order is present. |
| RunProperties.MissesAreUnfound | app.py:54-57 | The missed names are exactly the expected names with no staged PDF. |
| RunProperties.MissesAppend | app.py:57 | For any two lists of names, the warnings for the second come after those for the first. |
| RunProperties.MissesOne | app.py:54-57 | A single name gives one warning exactly when it has no staged PDF. |
| RunProperties.LabelStepHitOrMiss | app.py:52-57 | An empty cell changes nothing. A miss adds exactly one warning naming the file and leaves the files alone. A hit adds no warning and sets only the target to the staged bytes. |
| RunProperties.LabelsWarnOnMisses | app.py:51-57 | A label loop that gets through warns exactly about the row's expected names with no staged PDF, in column order. |
| RunProperties.RowsWarnOnMisses | app.py:41-57 | A row loop that gets through warns exactly about each row's missed names, row after row. |
| RunProperties.MissesOfRowsAreUnfound | app.py:54-57 | No name with a staged PDF is warned about. |
| RunProperties.EvolvesTransitive | app.py:41-57 | Two stretches of the row loop together only add to the output tree and copy staged PDFs. |
| RunProperties.HoldsCopyPersists | app.py:55 | A file copied into a folder keeps the staged bytes through later steps, since any rewrite copies the PDF of the same name. |
| RunProperties.GlobIsCatalog | app.py:39 | The glob maps each name to its staged path, and the staged bytes are those of that file. |
| RunProperties.CopyEvolves | app.py:55 | A successful copy reads a staged file that is still as staged, writes its bytes under the output tree, and nothing else changes. |
| RunProperties.FiledPersists | app.py:55 | Files already filed for a row stay filed through later steps. |
| RunProperties.LabelStepEvolves | app.py:52-57 | One label cell copies at most one staged PDF into the row's folder, and then the folder holds it. |
| RunProperties.LabelsEvolve | app.py:51-57 | After a row's label loop, every hit named by the row holds the staged bytes in the row's folder. |
| RunProperties.MakeDirsEvolves | app.py:49 | Creating a row's folder adds only directories under `Organized_Files`, the folder among them. |
| RunProperties.RowStepEvolves | app.py:42-57 | For a row whose State and District are confined, the row only adds to the output tree. When it gets through, its folder exists, has no ".." component, and holds every staged PDF it names. |
| RunProperties.RowsFileEveryRow | app.py:41-57 | For rows whose State and District are confined: after a row loop that gets through, every row's folder exists (even one with no hit), lies inside `Organized_Files`, and holds every staged PDF the row names. Outside `Organized_Files` nothing changed, so the staged PDFs were copied, not moved. |
| RunProperties.StageStep | app.py:33-34 | Staging one more upload writes only `temp_pdfs/<name>`. |
| RunProperties.StagingKeepsLastUpload | app.py:32-34 | After staging, `temp_pdfs/<name>` holds the bytes of the last upload with that name. |
| RunProperties.StagingTouchesOnlyUploads | app.py:32-34 | Staging changes no directory, adds no warning and changes no path other than the uploads' own. |
| RunProperties.MissingColumnStopsRun | app.py:24-27 | With a required column missing, the run reports the first missing column in list order, unless saving the spreadsheet failed, in which case it crashes. When it reports the column, the saved copy holds the uploaded bytes. Either way it stages, organises and packs nothing, changes no other file or directory, and shows no warning. |
| RunProperties.CompletedRun | app.py:38-57 | In a run that completes, with every row's State and District confined, every row is filed inside `Organized_Files`. The warnings are exactly the missed names in order, and nothing outside the output tree changed after preparation. |
| RunProperties.UploadsAreStaged | app.py:32-39 | Every upload named `*.pdf` that no later upload replaces is globbed with its bytes. |
| RunProperties.LabelledUploadIsFiled | app.py:32-57 | End to end, for a sheet whose State and District values are confined: an uploaded PDF named by a label of some row ends up in that row's folder with the uploaded bytes and is never warned about. |
| RunProperties.LabelsReadOnlyLabelCells | app.py:51-52 | The label loop reads only the four label cells. |
| RunProperties.RowStepReadsOnlyRequiredColumns | app.py:42-52 | Rows that agree on the six required columns are handled identically. |

## Left out

- The Streamlit interface (app.py:70-90): title, uploaders, spinner, success message and download button. It is presentation only.
- The `st.error` and `st.warning` calls (app.py:26, 57) are not modelled as display. They become the `Stopped` outcome and the warnings sequence.
- Excel parsing (`pd.read_excel`, app.py:20) is not modelled. The sheet is an input of column names and rows of optional text cells. Parse errors are not modelled, nor are NaN handling beyond "empty" and the way pandas renders numbers as text (a numeric cell would be a number: int64, or float64 when its column has empty cells. pathlib's `/` rejects either, and as a label it renders as `12345.pdf` or `12345.0.pdf`).
- The zip format, compression, and writing `Organized_Files.zip` to the working directory are not modelled. The archive is the map from entry name to bytes.
- The order in which `os.walk` visits files is left out: the archive is a map, so entry order is not modelled.
- The operating system's resolution of ".." is not modelled. pathlib, like the model, keeps a ".." piece of a State or District value as a component, and the operating system then resolves it against the directory before it. For "a/../b" the result is still inside `Organized_Files` (`Organized_Files/b`); for ".." it is `Organized_Files`'s parent. A value starting with "/" makes pathlib replace the whole path by that absolute path. The model drops the leading "/". Only empty and "." pieces are dropped by both.
- Organizer.DestDir: the folder is the path as written, so for a value that is not `Confined` it is not the directory the program uses. Examples: "a/../b" gives `Organized_Files/a/../b`, which the program uses as `Organized_Files/b`; ".." gives `Organized_Files/..`, the program's working directory; "/tmp" gives `Organized_Files/tmp` where the program uses `/tmp`. The properties about where files land (`RowStepEvolves`, `RowsFileEveryRow`, `CompletedRun`, `LabelledUploadIsFiled`) therefore require every State and District value to be `Confined`.
- Organizer.OrganizeFiles: for a State or District value that is not `Confined`, the disk state and archive it promises treat ".." as an ordinary directory and so differ from the program's. With "a/../b", the model archives `a/../b/F1.pdf` where the program archives `b/F1.pdf`. With "..", the model archives `../x/F1.pdf` where the program writes outside `Organized_Files` and archives nothing for that file.
- Organizer.OrganizeFiles: requires every upload name to be a single non-empty path component, as browsers send base names. Names containing "/" are not modelled. The names "." and ".." are admitted, and writing them fails as in Python.
- Paths are POSIX paths: '/' is the only separator, for pathlib and for `os.path.join`. Windows, where pathlib also splits on '\\' and drive letters exist, is not modelled.
- Operating-system failures other than the ones modelled are not modelled, such as permissions, a full disk and symbolic links. The modelled ones are a file in the way of a directory, a directory in the way of a file, a missing parent directory, and a missing or non-file copy source.
- Case-insensitive file systems: names are matched exactly.
- Several sessions sharing one working directory at the same time.
