# photo-video-sorting, modelled in Dafny

`main.py` walks a source directory tree and sorts every photo and video it
finds into a destination tree laid out as `<dest>/video/<YYYY-MM-DD>/` and
`<dest>/image/<YYYY-MM-DD>/`. The date is the capture date read from the
file's metadata (exiftool). A file with no usable date goes to a `no-date`
folder. Images take their sidecar files (`.xmp`, `.dng`, `.arw` in either
case) with them. Files are copied, or moved with `--move`. A file with an
unknown extension is appended to a `skipped` log.

The model has these modules:

- `Wrappers`: `Option`, `Result` and the two Python exceptions the code can raise (`IndexError`, `ValueError`).
- `Paths`: POSIX `os.path.join`, `os.path.basename` and the root of `os.path.splitext`, plus ASCII `lower`/`upper`. `DirPart` is the text before the base name, trailing separator included; it states where a path lies and is not `os.path.dirname`.
- `Dates`: calendar dates and the `%Y-%m-%d` folder format, with its parser.
- `CaptureDate`: `get_creation_date`.
  - Metadata is a dictionary with distinct keys, held in key order.
  - `strptime` is a parameter, because its internals are not modelled.
  - `CaptureDate.GetCreationDate` is the loop over `itertools.product`, with its `break` and the in-place rewrite of the string.
  - The method is proved equal to the specification function `CaptureDate.CreationDate`.
- `MoveArg`: `validate_move_arg`.
- `Classification`: the extension tests that choose between video, image and skipped.
- `Destination`: the date folder and destination path of a media file.
- `Sidecars`: the twelve sidecar candidate paths of an image. `Sidecars.SidecarCandidates` builds the list with `extend`, as the code does.
- `SortSpec`: the walk loop as functions.
  - The file system is a map from existing paths to files.
  - One `Step` handles one listed file name.
  - `RunFiles` and `RunWalk` fold the steps and stop at the first exception.
- `Sorting`: class `Sorter`.
  - Its fields are the file system and the skip log, which its methods update in place.
  - Each method is proved equal to the matching `SortSpec` function.

Facts about `main.py` that shape the model:

- Classification looks only at the lower-cased ending of the file name (main.py:78, 97-103).
  - `.tif` is an image; `.tiff` is skipped.
  - `.dng` and `.arw` are images in their own right, as well as sidecar candidates of another image.
- `shutil.copy` and `shutil.move` overwrite a file already at the destination (main.py:67, 96, 121, 137-139).
- A sidecar of unknown kind (`.xmp`, `.XMP`) listed before its image is logged as skipped in its own turn and then transferred with the image (`SortSpec.SidecarBeforeImage`).
- A raw `.dng` or `.arw` sidecar is itself an image (`Classification.RawIsImage`). Listed on its own it is sorted by its own date and never logged, since only unknown kinds are logged (`SortSpec.StepLogs`).
- `validate_move_arg` (main.py:50-56) is not called: `--move` is an argparse `store_true` flag (main.py:63).
- `get_creation_date` raises an uncaught `IndexError` for a signed date string shorter than three characters (main.py:38). That ends the whole run.

## Model

| member | source | states |
|---|---|---|
| CaptureDate.FirstPresent | main.py:14-32 | a value is found iff some tag of the list is a key of the metadata, and the value found is that of the earliest such tag (priority over key order) |
| CaptureDate.KeyOrderIrrelevant | main.py:29-32 | the date string chosen depends only on the metadata's entries, not on the order of its keys |
| CaptureDate.LookupIsMember | main.py:29-31 | `metadata[key]` is `v` exactly when `(key, v)` is an entry of the dictionary |
| CaptureDate.NormaliseTimezone | main.py:38-39 | a colon three characters from the end is removed, leaving everything else in place; any other string is unchanged |
| CaptureDate.NormaliseTimezoneInverse | main.py:37-39 | putting the colon back gives the original string, and removing it keeps the presence of a sign |
| CaptureDate.ChooseFormat | main.py:37-42 | the format has `%z` exactly when the string contains `+` or `-`, and is the zone-less format otherwise |
| CaptureDate.CreationDateCases | main.py:21-47 | the result is an exception exactly for a signed string shorter than 3 characters; failed extraction and no tag both give `None`; a date returned is the parser's result on the first present tag's value, normalised, with the chosen format |
| CaptureDate.GetCreationDate | main.py:13-47 | the product loop with `break`, the in-place rewrite and the format choice compute exactly `CreationDate` |
| MoveArg.ValidateMoveArg | main.py:50-56 | `"False"` gives false, `"True"` gives true, and any other argument raises `ValueError`, each case iff |
| MoveArg.ValidateMoveArgInverse | main.py:50-56 | the function inverts the text of a boolean, and a string it accepts is that text |
| Dates.FormatDate | main.py:86 | the folder name has ten characters: four digits, a dash, two digits, a dash, two digits |
| Dates.FormatDateRoundTrip | main.py:86 | reading back `strftime('%Y-%m-%d')` of a date gives the same date |
| Dates.ParseDateRoundTrip | main.py:109-110 | a folder name that reads as a date is exactly the formatting of that date |
| Destination.FolderNameRoundTrip | main.py:85-88 | the folder name determines the date, including the `no-date` case, and is one nonempty path component |
| Destination.DestPathLayout | main.py:89-96 | the destination is `<dest>/<video or image>/<folder>/<filename>`; its base name is the file name and its directory is the date folder |
| Destination.DestPathInjective | main.py:89-121 | two media files get the same destination only if they have the same kind, date and file name |
| Destination.DestPathRelative | main.py:89-121 | a destination is the `dest` prefix followed by a path that depends only on kind, date and name |
| Destination.RelativePathInjective | main.py:89-121 | that relative path determines kind, date and name |
| Classification.ClassifyByExtension | main.py:78-103 | the kind of a file is a function of its last extension, lower-cased: mp4 and mov are video; jpg, jpeg, png, tif, arw and dng are images; everything else is skipped |
| Classification.ClassifyIgnoresCase | main.py:78-103 | upper- or lower-casing a file name does not change its kind |
| Classification.RawIsImage | main.py:100-101 | `.dng`, `.DNG`, `.arw` and `.ARW` files are images, whatever precedes the ending |
| Classification.TiffIsSkipped | main.py:97-103 | `.tiff` is skipped, while `.TIF` and `.DNG` are images |
| Classification.EndingKind | main.py:78-103 | a name ending in a dotted extension, in any case, has that extension's kind |
| Classification.EndsWithExtension | main.py:78-103 | `endswith` of a dotted single extension holds iff it is the name's last extension |
| Paths.LowerForgetsCase | main.py:78 | `lower` is idempotent and forgets an `upper` |
| Paths.JoinName | main.py:96 | joining a folder and a file name gives a path whose base name is the file name and whose directory is the folder |
| Paths.SplitExtRoot | main.py:131 | the root of `splitext` is a prefix of the path, and is the whole path iff the base name has no extension |
| Paths.SplitExtRootOfName | main.py:131 | `splitext` of `<folder>/<base>.<ext>` strips exactly `.<ext>` |
| Paths.JoinDistinct | main.py:131-138 | different relative names joined onto one folder give different paths |
| Paths.DirPartBasename | main.py:138 | a path is its directory part followed by its base name |
| Classification.Classify | main.py:78-141 | the `if`/`elif`/`else` chain on the lower-cased name; what it decides is stated by `ClassifyByExtension` |
| CaptureDate.CreationDate | main.py:21-47 | what `get_creation_date` returns; its cases are stated by `CreationDateCases` and `FirstTagParsed` |
| CaptureDate.SelectDateString | main.py:28-32 | the date string the tag loop picks; stated by `FirstPresent` and `KeyOrderIrrelevant` |
| CaptureDate.FirstTagParsed | main.py:29-47 | when the highest-priority tag present holds `s` and the parser reads `s` (colon-free when signed) with the chosen format as `d`, the result is `d` |
| Destination.FolderName | main.py:85-88 | `YYYY-MM-DD` of the date, or `no-date`; stated by `FolderNameRoundTrip` |
| Destination.DestFolder | main.py:89 | the date folder under `dest`; its layout is stated by `DestPathLayout` |
| Destination.DestPath | main.py:96 | the media file's destination; stated by `DestPathLayout` and `DestPathInjective` |
| Destination.DestFolderUnderDest | main.py:89 | every date folder lies inside the destination root |
| Sidecars.Candidates | main.py:131-132 | the twelve candidate paths; stated by `SidecarCandidates`, `CandidatesOfName` and `CandidatesDistinct` |
| SortSpec.SidecarDest | main.py:138 | a candidate's destination; stated by `SidecarDestInFolder` |
| SortSpec.SidecarPass | main.py:134-139 | the loop over the candidates; stated by the `SidecarPass…` lemmas |
| SortSpec.SidecarPassFrame | main.py:134-139 | a path that is not a candidate and lies outside the date folder keeps its presence and its file |
| SortSpec.Step | main.py:74-143 | one iteration over a listed file name; stated by `StepLogs`, `StepPlacesMedia` and `StepFrame` |
| SortSpec.StepFrame | main.py:74-143 | a step leaves every path other than the file, an image's sidecar candidates and the destination tree as it was |
| SortSpec.RunFiles | main.py:73-143 | the loop over one directory's file names, stopping at an exception |
| SortSpec.RunWalk | main.py:72-143 | the loop over the walk, stopping at an exception |
| Paths.Join | main.py:74 | POSIX `os.path.join` of two parts; stated by `JoinName` and `JoinRelative` |
| Paths.JoinRelative | main.py:74 | a relative name is appended to the folder after one separator |
| Paths.Basename | main.py:138 | `os.path.basename`: the text after the last separator, which holds no separator |
| Paths.Lower | main.py:78 | ASCII `str.lower`, character by character |
| Paths.RFind | main.py:131-138 | the last index of a character, or -1 exactly when it does not occur |
| Sidecars.SidecarCandidates | main.py:124-132 | the list has twelve paths: the root with each of the six extensions, then the full path with each of them |
| Sidecars.WithExtensionsInDir | main.py:131-132 | each candidate lies in the same directory as the path it came from, with base name `<base>.<ext>` |
| Sidecars.CandidatesInImageDir | main.py:131-138 | every sidecar candidate is in the image's directory |
| Sidecars.CandidatesDistinct | main.py:131-132 | the twelve candidates are pairwise distinct iff the image name has an extension |
| Sidecars.CandidatesOfName | main.py:131-132 | for `<base>.<ext>` the first six candidates are `<base>.xmp` … `<base>.ARW` and the last six are `<base>.<ext>.xmp` … `<base>.<ext>.ARW` |
| SortSpec.Transfer | main.py:67 | after copy or move the destination holds the source's file; a move removes the source, a copy keeps every file; no other path changes |
| SortSpec.SidecarDestInFolder | main.py:138 | a sidecar goes to the date folder under its own base name |
| SortSpec.SidecarPassPlaces | main.py:134-139 | every candidate that existed is in the date folder with its file after the pass |
| SortSpec.SidecarPassKeeps | main.py:134-139 | a file the pass does not overwrite keeps its content |
| SortSpec.SidecarPassAddsNothingInDir | main.py:134-139 | the pass creates no file in the image's own directory |
| SortSpec.SidecarPassMoveEmptiesDir | main.py:134-139 | in move mode no candidate is left behind |
| SortSpec.SidecarPassCopyKeepsFiles | main.py:134-139 | in copy mode no file disappears |
| SortSpec.StepLogs | main.py:74-143 | a vanished path is passed over; an unknown kind is logged with its full path and nothing else changes; media is never logged; a step raises iff reading a media file's date raises |
| SortSpec.StepPlacesMedia | main.py:78-139 | the media file ends up at `<folder>/<filename>`; in move mode it is gone from its directory; an image's existing sidecars end up in the same folder, and in move mode none is left |
| SortSpec.CopyStepLog | main.py:74-143 | a copy-mode step over an existing name logs its path iff its kind is unknown and removes no file |
| SortSpec.StepCopyKeepsFiles | main.py:67-139 | in copy mode a step removes no file |
| SortSpec.RunFilesLogsOnlySkipped | main.py:73-143 | a directory's run only appends to the log, and only full paths of names with an unknown kind |
| SortSpec.CopyRunLogsEverySkipped | main.py:73-143 | a copy run over existing files logs exactly the unknown-kind paths, in listing order |
| SortSpec.RunWalkLogsOnlySkipped | main.py:72-143 | over the whole walk the log only grows, and by unknown-kind paths of the walk |
| SortSpec.SidecarAfterImage | main.py:72-139 | with `--move`, an image listed before a sidecar candidate of unknown kind takes the sidecar into its date folder, and the sidecar's own turn finds nothing and logs nothing |
| SortSpec.SidecarBeforeImage | main.py:72-143 | a sidecar candidate of unknown kind listed before its image is logged as skipped in its own turn and then transferred with the image |
| SortSpec.SidecarOfImage | main.py:131 | `x.xmp` is a sidecar candidate of `x.jpg` in the same directory |
| SortSpec.ImageAndSidecarKinds | main.py:78-103 | `base.jpg` is an image and `base.xmp` has an unknown kind |
| SortSpec.SidecarNotImage | main.py:131 | `dir/base.xmp` and `dir/base.jpg` are different paths |
| Sorting.Sorter.CopyOrMove | main.py:67 | the file system becomes `Transfer` of the old one; the log is unchanged |
| Sorting.Sorter.MoveSidecars | main.py:134-139 | the loop leaves the file system as `SidecarPass` of the old one |
| Sorting.Sorter.ProcessFile | main.py:74-143 | the new file system and log are those of `Step`, and the exception raised is the one `Step` raises |
| Sorting.Sorter.ProcessDirectory | main.py:73-143 | the loop over file names leaves the state and exception of `RunFiles` |
| Sorting.Sorter.Sort | main.py:72-143 | the loop over the walk leaves the state and exception of `RunWalk` |

## Left out

- Paths are compared as strings. There is no normalisation (`a//b`, `./a`), no symlinks and no case-insensitive file system. Distinct strings are taken to be distinct files and directories, in `SeparateDirs`, `StepPlacesMedia`, `StepFrame` and `CandidatesDistinct`.
- The exiftool subprocess. Its result is an input: `None` when it raised, else a dictionary of string values.
- A non-string tag value, and `get_metadata(...)[0]` on an empty list: both would raise inside `get_creation_date`; not modelled.
- `strptime` and `strftime` internals. The parser is a parameter.
  - `Dates.FormatDate` always pads the year to four digits. Some C libraries do not pad years below 1000.
- Unicode case mapping: `lower` and `upper` are modelled for ASCII letters only.
- `os.walk` itself. The walk is given as a sequence of directory listings, and the `dirnames` are not used.
  - A destination tree inside the source tree, which the walk could re-enter, is not modelled.
- Directories: `os.makedirs` and `os.path.exists` on a directory are not modelled. The file system holds files only.
- `shutil` onto a directory path is not modelled, nor the `SameFileError` of `shutil.copy` onto itself. A transfer onto itself changes nothing here.
- File metadata kept or lost by `copy`, and the bytes of files: only the extracted metadata of a file is modelled.
- Console output (`print`), the timestamped log directory, `datetime.now()` and argparse.
- SortSpec.StepPlacesMedia: only states where files land when the date folder is not the file's own directory.
- SortSpec.CopyRunLogsEverySkipped: only covers copy mode over names that all exist, because in move mode an earlier image can take a later listed sidecar away before its turn.
