# audiotools in Dafny

A verified model of the three command-line tools of audiotools:

- **dccheck** finds mono files whose DC offset (the mean of all samples) exceeds
  `1e-5` in absolute value. It then removes the offset, zeroes the
  first frame, and writes the results in place or into one `DC_Fixed` folder.
- **pcheck** compares every supported file given, or directly in the given folders, with a master
  file by the sign of their sample correlation. It flips the inverted ones, in
  place or into one `p_fix` folder.
- **monomake** lists the supported files under a path, marks the stereo ones,
  and folds each stereo file to one channel by averaging. It writes in place or
  into a `Mono` folder beside each file, and counts converted and skipped files.

The filesystem is a value, `Batch.Volume`:

- `audio` maps every path that decodes to its buffer. A path outside it fails
  to read.
- `dirs` records the folders the tools create.

Directory listings are inputs:

- dccheck and monomake take `os.path.isfile` of the argument and the output of
  `os.walk` as a sequence of `(root, names)` entries.
- pcheck takes a map from absolute paths to a node (regular file, or directory
  with its names) and the working directory.

Prompt answers are booleans. Each tool's `main` is a method `Run`. `Run`
returns the new volume and an outcome that records the tool's observable
decisions: which branch was taken, how many prompts were asked, the counters.
Each `Run` is proved equal to a function `Expected` that composes the
specification functions. The properties are then lemmas about those functions.

Modules:

- `Paths`: `join`, `dirname`, `basename`, `splitext`, `abspath`,
  `str.endswith` and `str.rfind`.
- `Audio`: buffers, means, offset removal, negation and downmix.
- `Batch`: the volume and sequential read-correct-write jobs.
- `Collector`: the file selection that dccheck and monomake share.
- `DcCheck`, `PCheck` and `MonoMake`: one module per tool.

A buffer is a sequence of frames with one sample per channel. The codec returns
a 1-D array exactly for single-channel files. So the source test "2-D with more
than one column" is `channels > 1` in the model.

## Model

| member | source | states |
|---|---|---|
| Paths.EndsWithAny | audiotools/dccheck.py:94 | `endswith` with a tuple holds iff some suffix of the tuple ends the string |
| Paths.BasenameOfJoin | audiotools/dccheck.py:85 | Joining a folder and a name without '/' and then taking the basename gives the name back |
| Paths.DirnameOfJoin | audiotools/dccheck.py:83-85 | Joining a non-empty folder without a trailing '/' with a plain name and then taking the dirname gives the folder back |
| Paths.JoinNameNoTrailingSlash | audiotools/monomake.py:50 | Joining a non-empty plain name gives a non-empty path with no trailing '/' |
| Paths.SplitExtension | audiotools/pcheck.py:50 | The split-off extension is empty, or it is a suffix of the path that starts with '.', contains no '/' and no further '.' |
| Paths.ExtensionOfName | audiotools/pcheck.py:50 | A last component `stem.ext`, whose stem has a character other than '.' and whose `ext` has no '.', yields exactly `ext`, whatever directory it is joined to |
| Paths.NoExtensionOfName | audiotools/pcheck.py:50 | A last component with no '.', or whose every '.' has only dots before it (such as `.hidden`), yields the empty extension |
| Audio.SubtractShiftsMean | audiotools/dccheck.py:73 | After `data - mean_val` every sample of every channel is lower by the offset, and the mean over all samples is lower by exactly the offset |
| Audio.SubtractMeanCentres | audiotools/dccheck.py:73 | Subtracting a buffer's own mean leaves a mean of exactly 0 |
| Audio.ZeroAlignedCorrection | audiotools/dccheck.py:73-78 | After subtraction and zero alignment, every channel of frame 0 is 0, every later sample is the original minus the offset, and shape and rate are kept |
| Audio.NegateInvolution | audiotools/pcheck.py:79 | Negating every sample twice gives the original buffer |
| Audio.DownmixIdenticalChannels | audiotools/monomake.py:45-46 | When all channels carry the same samples, downmixing keeps them unchanged |
| Audio.DownmixIdempotent | audiotools/monomake.py:45-46 | Downmixing a downmixed buffer changes nothing |
| Audio.DownmixKeepsMean | audiotools/monomake.py:45-46 | Averaging the channels of each frame keeps the mean over all samples |
| Audio.SamplesCount | audiotools/dccheck.py:62 | The mean runs over all frames times channels samples |
| Batch.RunJobsFrame | audiotools/dccheck.py:71-86 | A path that no job of a batch writes keeps its contents |
| Batch.RunJobsKeys | audiotools/dccheck.py:71-86 | After a batch, the decodable paths are the old ones plus exactly the destinations |
| Batch.RunJobsResult | audiotools/dccheck.py:71-86 | A job's destination ends with the correction of its source's original contents, provided no later job writes that destination and no earlier one overwrote the source |
| Collector.WalkedMembership | audiotools/dccheck.py:96-100 | A path is collected from the walk iff it joins a walked root with a name under it that has a supported suffix |
| Collector.CandidatesSelection | audiotools/monomake.py:59-68 | A file argument with a supported suffix is taken alone; otherwise exactly the walked files with a supported suffix are taken; every candidate ends in a supported suffix, matched case-sensitively |
| Collector.GatherFiles | audiotools/monomake.py:59-68 | The two loops collect exactly the candidate list, in walk order (also lines 92-100 of dccheck.py) |
| DcCheck.FlaggedCorrectionCentres | audiotools/dccheck.py:62-73 | Subtracting a flagged file's stored mean leaves it with a mean of 0 |
| DcCheck.FlaggedFiles | audiotools/dccheck.py:101-104 | Every flagged entry is a scanned, readable path, paired with the value the classification gives it; there are at most as many entries as scanned files |
| DcCheck.FlaggedFilesComplete | audiotools/dccheck.py:101-104 | Every scanned file the classification flags is in the flagged list |
| DcCheck.FlaggedFilesMembership | audiotools/dccheck.py:56-67 | A path is flagged with value m iff it was scanned, decodes as a non-empty mono file, its mean lies strictly outside 1e-5 in absolute value, and m is that mean; multi-channel files and files exactly at the threshold are never flagged |
| DcCheck.ScanPath | audiotools/dccheck.py:91-105 | `scan_path` returns the candidate list and the flagged pairs of those candidates, in scan order |
| DcCheck.ApplyFilter | audiotools/dccheck.py:69-89 | The loop, with its output folder computed once and reused, ends in the state of the sequential batch of corrections; with no overwrite and a non-empty list, the one folder is created |
| DcCheck.DestinationRouting | audiotools/dccheck.py:79-85 | With overwrite, a file's destination is its own path. Without, it is `DC_Fixed` under the dirname of the first file, with the file's basename kept |
| DcCheck.FilterKeepsOtherFiles | audiotools/dccheck.py:69-86 | Without overwrite nothing outside the output folder changes; with overwrite no path other than the listed files changes |
| DcCheck.FilterInPlaceCorrects | audiotools/dccheck.py:71-86 | With overwrite and distinct paths, every listed file ends holding its own correction |
| DcCheck.FilterToFolderCorrects | audiotools/dccheck.py:71-86 | Without overwrite, when basenames are distinct and no source is already in the folder, the folder holds each file's correction under that file's basename |
| DcCheck.Run | audiotools/dccheck.py:107-129 | `main` produces the expected volume and outcome for every argument list, listing and answer pair |
| DcCheck.OnlyFlaggedFilesWritten | audiotools/dccheck.py:114-129 | With nothing flagged the volume is unchanged, also under `--zero`; every changed path is the destination of a flagged file under the overwrite value chosen |
| DcCheck.DeclineWritesNothing | audiotools/dccheck.py:125-129 | Answering anything but 'y' to the first prompt leaves the volume unchanged |
| DcCheck.RunDecisions | audiotools/dccheck.py:114-129 | The report counts candidates and flagged files; nothing flagged and no `--zero` asks and writes nothing; `--fix` or `--zero` write unprompted, overwriting iff `--force`; otherwise a write follows only a 'y' to the first prompt and the second answer chooses overwrite; a write corrects exactly the flagged list |
| DcCheck.MultiChannelKeptInPlace | audiotools/dccheck.py:59-61 | A multi-channel file is never flagged, so a run that overwrites in place leaves it exactly as it was |
| PCheck.GlobMembership | audiotools/pcheck.py:57-59 | `glob` of `dir/*.ext` yields exactly `dir` joined with each listed name that ends in `.ext` and is not hidden |
| PCheck.AudioFilesSelection | audiotools/pcheck.py:46-61 | A file is taken iff its extension without the dot is in the case-sensitive list; a directory yields exactly its matching entries over all supported extensions; anything else yields nothing |
| PCheck.FindAudioFiles | audiotools/pcheck.py:46-61 | The extension loop returns the matches of the absolute path, grouped in extension-list order |
| PCheck.ReadAudio | audiotools/pcheck.py:63-68 | One value per frame, the mean of the frame's channels (a mono file's own sample); the frame count is kept; a decoding failure gives none |
| PCheck.SelfInPolarity | audiotools/pcheck.py:70-74 | A file compared with itself is in polarity, since its sum of squares is not negative |
| PCheck.EnergyNonNegative | audiotools/pcheck.py:73 | The correlation of a signal with itself is not negative |
| PCheck.NegationInverted | audiotools/pcheck.py:70-74 | The master's negation is classified inverted iff the master's energy is positive, since a zero correlation counts as in polarity |
| PCheck.PolaritySymmetric | audiotools/pcheck.py:70-74 | Swapping master and test gives the same classification |
| PCheck.PolarityUsesCommonPrefix | audiotools/pcheck.py:72-73 | Frames of the test beyond the master's length play no part |
| PCheck.FlipRestoresPolarity | audiotools/pcheck.py:70-79 | Negating a test classified inverted makes it classify in polarity |
| PCheck.ReadNegated | audiotools/pcheck.py:63-79 | Reading a negated buffer gives the negated per-frame values |
| PCheck.FlippedFileInPolarity | audiotools/pcheck.py:63-81 | Once an inverted file is flipped, it reads back as in polarity with the same master |
| PCheck.InvertAudio | audiotools/pcheck.py:76-81 | Reading, negating and writing is one flip job from the file to its target |
| PCheck.InvertTwiceRestores | audiotools/pcheck.py:76-81 | Inverting a file in place twice restores it |
| PCheck.WithoutFixMembers | audiotools/pcheck.py:90-96 | The path list holds exactly the arguments other than `--fix` |
| PCheck.SplitArgs | audiotools/pcheck.py:90-96 | `fix_mode` holds iff some argument after the master is `--fix`; `paths` is every other argument, in order |
| PCheck.InvertedFiles | audiotools/pcheck.py:101-120 | Every collected file was scanned, reads, and is classified inverted against the master |
| PCheck.InvertedFilesComplete | audiotools/pcheck.py:109-120 | Every scanned file that reads and is classified inverted is collected |
| PCheck.InvertedFilesMembership | audiotools/pcheck.py:70-74 | A file is collected iff it was scanned, reads, and its correlation with the master over their common length is negative; a zero correlation counts as in polarity |
| PCheck.CheckFiles | audiotools/pcheck.py:109-120 | The inner loop appends the inverted files among those found for one path; unreadable files are skipped |
| PCheck.Scan | audiotools/pcheck.py:103-120 | The scan collects the inverted files among all files found for all paths, in scan order |
| PCheck.FlipAll | audiotools/pcheck.py:128-131 | The flipping loop ends in the state of the sequential batch of flips, in place or into the folder (also lines 152-158) |
| PCheck.Run | audiotools/pcheck.py:83-158 | `main` produces the expected volume and outcome for every argument list, tree and answer pair |
| PCheck.OnlyInvertedFilesWritten | audiotools/pcheck.py:122-158 | An unreadable master, no inverted files or a declined prompt leave the volume unchanged; `--fix` flips in place; every changed path is where a scanned file that reads and is classified inverted was flipped to |
| PCheck.FolderRouting | audiotools/pcheck.py:152-157 | With overwrite declined, each flipped file lands directly in the one folder under its own basename |
| PCheck.FixFolderIsPlain | audiotools/pcheck.py:141-148 | The `p_fix` folder path is non-empty and has no trailing '/' |
| PCheck.FlipInPlaceNegates | audiotools/pcheck.py:128-131 | Flipping distinct inverted files in place leaves each one holding the negation of its original contents (also lines 152-154) |
| PCheck.FlipToFolderNegates | audiotools/pcheck.py:152-157 | Flipping into a plain folder files with distinct basenames, none already in the folder, leaves the folder holding each file's negation under that file's basename |
| PCheck.SingleFixFolder | audiotools/pcheck.py:138-158 | Without overwrite the one output folder is `p_fix` of the first path, it is created, and every changed path lies directly inside it; with overwrite the folders are unchanged and every changed path is a scanned inverted file |
| PCheck.RunDecisions | audiotools/pcheck.py:128-141 | An unreadable master or no inverted file stops the run; `--fix` flips every inverted file in place with no prompt; without it a non-'y' first answer leaves the volume unchanged, and after a 'y' the files are overwritten iff the second answer is 'y', otherwise they go to the `p_fix` folder; the count is the number of inverted files |
| MonoMake.MonoDestinationRouting | audiotools/monomake.py:47-52 | With overwrite the destination is the file. Without, it is non-empty, its dirname is the `Mono` folder of the file's own directory, and it keeps the basename |
| MonoMake.MakeMono | audiotools/monomake.py:42-57 | A read failure writes nothing and returns none; otherwise the converted buffer is written to the destination, the per-file folder is created when not overwriting, and the destination is returned |
| MonoMake.StereoFilesMembers | audiotools/monomake.py:70-86 | A file is in `stereo_files` iff it is listed, decodes, and has more than one channel; a file that fails to decode is not stereo |
| MonoMake.ListingPartitions | audiotools/monomake.py:86-87 | `stereo_files` and `mono_files` partition the list: each listed file is in exactly one, by whether it is stereo, and their sizes add up to the list's |
| MonoMake.CountersBound | audiotools/monomake.py:101-109 | converted + skipped <= number of files, with equality unless the empty path is converted in place |
| MonoMake.StereoWasOriginal | audiotools/monomake.py:101-109 | A path that is stereo after the loop was never written and holds its original buffer, since every write is single-channel |
| MonoMake.ConvertAllAudioWrites | audiotools/monomake.py:101-109 | Every path the loop changes is the destination of a listed file that was stereo before the loop |
| MonoMake.ConvertAllFolders | audiotools/monomake.py:101-109 | Every folder the loop creates is the `Mono` folder of a listed file that was stereo before the loop, and none is created when overwriting |
| MonoMake.NoStereoNoWrites | audiotools/monomake.py:101-109 | When no file is stereo, nothing is written and every file is counted as skipped |
| MonoMake.ConvertAllDownmixes | audiotools/monomake.py:101-109 | A file stereo before the loop, whose destination no other file shares and no earlier destination overwrites, ends as the average of its channels at its destination |
| MonoMake.ConvertLoop | audiotools/monomake.py:101-109 | The counter loop ends with the volume and counters of the conversion fold, testing each file against the current volume |
| MonoMake.Run | audiotools/monomake.py:77-112 | `main` produces the expected volume and outcome for every argument list, listing and answer pair |
| MonoMake.WriteDecision | audiotools/monomake.py:83-100 | Help, an empty list (which asks nothing) and a declined prompt write nothing; `--force` converts in place without prompting; otherwise both prompts are asked and the second decides overwrite |

## Left out

- Decoding and encoding (`soundfile`) are not modelled. A file is either a decoded buffer or a read failure. Sample formats, subtypes and the written file's encoding are not modelled.
- Floating-point rounding in means, averages and correlations: samples are exact reals. Negation is an exact involution either way, but "the corrected mean is 0" holds only in exact arithmetic.
- `sf.write` and `os.makedirs` failures are not modelled; writes always succeed. So the exception handler in `make_mono` is reached only through a read failure.
- `os.walk`, `glob`, `os.path.isfile` and `os.path.isdir` are given as listings. The following are not modelled: symbolic links, paths that are neither file nor directory, glob metacharacters inside the searched path, and the order of `os.listdir` beyond taking it as given.
- `os.path.abspath` is modelled without `normpath`: `.` and `..` components are kept, repeated '/' are not collapsed and a trailing '/' is not stripped, so `dir/` is looked up as `cwd/dir/` rather than `cwd/dir`. Paths are keys exactly as spelled, so two spellings of one file are two files.
- Prompts (`input`), their whitespace stripping and case folding, ANSI colours, progress messages, the help texts (audiotools/dccheck.py:15-54, audiotools/pcheck.py:14-44, audiotools/monomake.py:12-40) and `sys.exit`. A prompt answer is a boolean meaning "answered y".
- pcheck's numpy shape quirk is not reproduced. `read_audio` keeps a mono file as an `(N, 1)` array (audiotools/pcheck.py:65), so comparing a mono file with a multi-channel one broadcasts to an outer product at audiotools/pcheck.py:73. The model compares per-frame sequences, as the function's own description intends.
- In pcheck, an unreadable master raises an uncaught exception. The model ends the run with the outcome `MasterUnreadable` and no writes.
- dccheck's zero alignment of an empty buffer would raise an `IndexError`. Empty buffers are never flagged (their mean is NaN), so this cannot be reached; `Audio.ZeroFirstFrame` leaves an empty buffer unchanged.
- The help texts disagree with the code in places, and the model follows the code. dccheck's `--zero` still subtracts the mean, like `--fix`, and overwrites only with `--force`.
- monomake's closing message names the `Mono` folder of the first file, even though files go to per-file folders (audiotools/monomake.py:111). Printed text is not modelled.
- setup.py is packaging metadata and is not part of this model.
- PCheck.NegationInverted: silence is stated as zero energy (the sum of squares is 0), not as "every sample is 0". The two conditions are equivalent, but the model does not prove that.
