/**
 * dccheck: find mono files whose mean exceeds the DC threshold, then (after
 * flags or prompts) subtract that mean, zero the first frame, and write the
 * result over the original or into one `DC_Fixed` folder for the batch.
 */
module DcCheck {
  import opened Wrappers
  import opened Paths
  import opened Audio
  import opened Batch
  import opened Collector

  const DC_THRESHOLD: real := 0.00001
  const FIXED_FOLDER: string := "DC_Fixed"

  function Abs(x: real): real {
    if x < 0.0 then -x else x
  }

  // ---------------------------------------------------------------------
  // Classification (process_file)

  /** `process_file`: the mean of a readable mono file whose absolute mean
      exceeds the threshold; None for an unreadable file, a multi-channel file
      (skipped), or a file within the threshold. An empty mono file has a NaN
      mean, which exceeds nothing. */
  function ProcessFile(d: Option<Buffer>): Option<real> {
    match d
    case None => None
    case Some(b) =>
      if b.channels > 1 then None
      else if |b.frames| == 0 then None
      else if Abs(Mean(Samples(b))) > DC_THRESHOLD then Some(Mean(Samples(b)))
      else None
  }

  /** Removing the flagged mean centres the file: its mean becomes exactly 0. */
  lemma FlaggedCorrectionCentres(b: Buffer)
    requires ProcessFile(Some(b)).Some?
    ensures Mean(Samples(Subtract(b, ProcessFile(Some(b)).value))) == 0.0
  {
    SamplesCount(b);
    SubtractMeanCentres(b);
  }

  // ---------------------------------------------------------------------
  // Scanning (scan_path)

  datatype Flagged = Flagged(path: Path, mean: real)

  /** The `(file_path, mean_val)` pairs `scan_path` collects, in scan order. */
  function FlaggedFiles(vol: Volume, paths: seq<Path>): (r: seq<Flagged>)
    ensures |r| <= |paths|
    ensures forall k :: 0 <= k < |r| ==>
              r[k].path in paths && r[k].path in vol.audio && ProcessFile(Read(vol, r[k].path)) == Some(r[k].mean)
  {
    if |paths| == 0 then []
    else
      var p := paths[|paths| - 1];
      var res := ProcessFile(Read(vol, p));
      FlaggedFiles(vol, paths[..|paths| - 1]) + (if res.Some? then [Flagged(p, res.value)] else [])
  }

  /** Every scanned path that classifies as offset is collected. */
  lemma {:induction false} FlaggedFilesComplete(vol: Volume, paths: seq<Path>, k: nat)
    requires k < |paths| && ProcessFile(Read(vol, paths[k])).Some?
    ensures Flagged(paths[k], ProcessFile(Read(vol, paths[k])).value) in FlaggedFiles(vol, paths)
  {
    if k < |paths| - 1 {
      FlaggedFilesComplete(vol, paths[..|paths| - 1], k);
    }
  }

  /** A path is flagged with value `m` iff it was scanned, reads as a
      non-empty mono file whose mean lies strictly outside the threshold, and
      `m` is that mean. Multi-channel files and files exactly at the
      threshold are therefore never flagged. */
  lemma FlaggedFilesMembership(vol: Volume, paths: seq<Path>, p: Path, m: real)
    ensures Flagged(p, m) in FlaggedFiles(vol, paths) <==>
              p in paths && p in vol.audio && vol.audio[p].channels == 1 && |vol.audio[p].frames| > 0 &&
              Abs(Mean(Samples(vol.audio[p]))) > DC_THRESHOLD && m == Mean(Samples(vol.audio[p]))
  {
    var r := FlaggedFiles(vol, paths);
    if Flagged(p, m) in r {
      var k :| 0 <= k < |r| && r[k] == Flagged(p, m);
      assert ProcessFile(Read(vol, p)) == Some(m);
    }
    if p in paths && p in vol.audio && vol.audio[p].channels == 1 && |vol.audio[p].frames| > 0 &&
       Abs(Mean(Samples(vol.audio[p]))) > DC_THRESHOLD && m == Mean(Samples(vol.audio[p])) {
      var k :| 0 <= k < |paths| && paths[k] == p;
      FlaggedFilesComplete(vol, paths, k);
    }
  }

  /** `scan_path`: the candidates, and those among them that are flagged. */
  method ScanPath(vol: Volume, path: Path, isFile: bool, walk: seq<WalkEntry>)
    returns (filesToScan: seq<Path>, filesWithOffset: seq<Flagged>)
    ensures filesToScan == Candidates(path, isFile, walk)
    ensures filesWithOffset == FlaggedFiles(vol, filesToScan)
  {
    filesToScan := GatherFiles(path, isFile, walk);
    filesWithOffset := [];
    var i := 0;
    while i < |filesToScan|
      invariant 0 <= i <= |filesToScan|
      invariant filesWithOffset == FlaggedFiles(vol, filesToScan[..i])
    {
      var filePath := filesToScan[i];
      var res := ProcessFile(Read(vol, filePath));
      if res.Some? {
        filesWithOffset := filesWithOffset + [Flagged(filePath, res.value)];
      }
      assert filesToScan[..i + 1][..i] == filesToScan[..i];
      i := i + 1;
    }
    assert filesToScan[..i] == filesToScan;
  }

  // ---------------------------------------------------------------------
  // Correction and routing (apply_filter)

  predicate Readable(vol: Volume, list: seq<Flagged>) {
    forall k :: 0 <= k < |list| ==> list[k].path in vol.audio
  }

  /** The one folder of a batch: `DC_Fixed` beside the first listed file. */
  function OutputFolder(list: seq<Flagged>): Path
    requires |list| > 0
  {
    Join(Dirname(list[0].path), FIXED_FOLDER)
  }

  function Destination(list: seq<Flagged>, k: nat, overwrite: bool): Path
    requires k < |list|
  {
    if overwrite then list[k].path else Join(OutputFolder(list), Basename(list[k].path))
  }

  function FilterJobs(list: seq<Flagged>, overwrite: bool, zeroAlign: bool): (jobs: seq<Job>)
    ensures |jobs| == |list|
    ensures forall k :: 0 <= k < |list| ==>
              jobs[k] == Job(list[k].path, Destination(list, k, overwrite), RemoveDc(list[k].mean, zeroAlign))
  {
    seq(|list|, k requires 0 <= k < |list| =>
      Job(list[k].path, Destination(list, k, overwrite), RemoveDc(list[k].mean, zeroAlign)))
  }

  /** The volume after `apply_filter(list, overwrite, zero_align)`. */
  function Filtered(vol: Volume, list: seq<Flagged>, overwrite: bool, zeroAlign: bool): Volume
    requires Readable(vol, list)
  {
    Volume(RunJobs(vol.audio, FilterJobs(list, overwrite, zeroAlign)),
           if !overwrite && |list| > 0 then vol.dirs + {OutputFolder(list)} else vol.dirs)
  }

  /** `apply_filter`: the output folder is computed and created on first use
      and reused for every later file. */
  method ApplyFilter(vol: Volume, fileList: seq<Flagged>, overwrite: bool, zeroAlign: bool) returns (result: Volume)
    requires Readable(vol, fileList)
    ensures result == Filtered(vol, fileList, overwrite, zeroAlign)
  {
    ghost var jobs := FilterJobs(fileList, overwrite, zeroAlign);
    var outputFolder: Option<Path> := None;
    var audio, dirs := vol.audio, vol.dirs;
    var i := 0;
    while i < |fileList|
      invariant 0 <= i <= |fileList|
      invariant audio == RunJobs(vol.audio, jobs[..i])
      invariant outputFolder == if !overwrite && i > 0 then Some(OutputFolder(fileList)) else None
      invariant dirs == if outputFolder.Some? then vol.dirs + {outputFolder.value} else vol.dirs
    {
      RunJobsExtend(vol.audio, jobs, i);
      var filePath, meanVal := fileList[i].path, fileList[i].mean;
      var data := audio[filePath];
      data := Subtract(data, meanVal);
      if zeroAlign {
        data := ZeroFirstFrame(data);
      }
      var outFile;
      if overwrite {
        outFile := filePath;
      } else {
        if outputFolder.None? {
          var folder := Join(Dirname(fileList[0].path), FIXED_FOLDER);
          dirs := dirs + {folder};
          outputFolder := Some(folder);
        }
        outFile := Join(outputFolder.value, Basename(filePath));
      }
      audio := audio[outFile := data];
      i := i + 1;
    }
    assert jobs[..i] == jobs;
    result := Volume(audio, dirs);
  }

  /** Routing: with overwrite every file goes back to its own path; without,
      every file goes into the one output folder under its own basename. */
  lemma DestinationRouting(list: seq<Flagged>, overwrite: bool, k: nat)
    requires k < |list|
    ensures overwrite ==> Destination(list, k, overwrite) == list[k].path
    ensures !overwrite ==> Dirname(Destination(list, k, overwrite)) == OutputFolder(list) &&
                           Basename(Destination(list, k, overwrite)) == Basename(list[k].path)
  {
    if !overwrite {
      JoinNameNoTrailingSlash(Dirname(list[0].path), FIXED_FOLDER);
      BasenameOfJoin(OutputFolder(list), Basename(list[k].path));
      DirnameOfJoin(OutputFolder(list), Basename(list[k].path));
    }
  }

  /** Without overwrite, nothing outside the output folder changes; with
      overwrite, nothing but the listed files changes. */
  lemma FilterKeepsOtherFiles(vol: Volume, list: seq<Flagged>, overwrite: bool, zeroAlign: bool, p: Path)
    requires Readable(vol, list)
    requires !overwrite ==> |list| == 0 || Dirname(p) != OutputFolder(list)
    requires overwrite ==> forall k :: 0 <= k < |list| ==> list[k].path != p
    ensures p in Filtered(vol, list, overwrite, zeroAlign).audio <==> p in vol.audio
    ensures p in vol.audio ==> Filtered(vol, list, overwrite, zeroAlign).audio[p] == vol.audio[p]
  {
    var jobs := FilterJobs(list, overwrite, zeroAlign);
    forall k | 0 <= k < |jobs| ensures jobs[k].dst != p {
      DestinationRouting(list, overwrite, k);
    }
    RunJobsFrame(vol.audio, jobs, p);
  }

  /** Overwriting distinct files leaves each one holding its own correction. */
  lemma FilterInPlaceCorrects(vol: Volume, list: seq<Flagged>, zeroAlign: bool, k: nat)
    requires Readable(vol, list) && k < |list|
    requires forall a, b :: 0 <= a < b < |list| ==> list[a].path != list[b].path
    ensures Filtered(vol, list, true, zeroAlign).audio[list[k].path] ==
              Apply(RemoveDc(list[k].mean, zeroAlign), vol.audio[list[k].path])
  {
    RunJobsResult(vol.audio, FilterJobs(list, true, zeroAlign), k);
  }

  /** Without overwrite, when the files have distinct basenames and none of
      them already lies in the output folder, the folder receives each file's
      correction under that file's basename. */
  lemma FilterToFolderCorrects(vol: Volume, list: seq<Flagged>, zeroAlign: bool, k: nat)
    requires Readable(vol, list) && k < |list|
    requires forall a, b :: 0 <= a < b < |list| ==> Basename(list[a].path) != Basename(list[b].path)
    requires forall a :: 0 <= a < |list| ==> Dirname(list[a].path) != OutputFolder(list)
    ensures Join(OutputFolder(list), Basename(list[k].path)) in Filtered(vol, list, false, zeroAlign).audio
    ensures Filtered(vol, list, false, zeroAlign).audio[Join(OutputFolder(list), Basename(list[k].path))] ==
              Apply(RemoveDc(list[k].mean, zeroAlign), vol.audio[list[k].path])
  {
    var jobs := FilterJobs(list, false, zeroAlign);
    forall j | k < j < |jobs| ensures jobs[j].dst != jobs[k].dst {
      DestinationRouting(list, false, j);
      DestinationRouting(list, false, k);
    }
    forall j | 0 <= j < k ensures jobs[j].dst != jobs[k].src {
      DestinationRouting(list, false, j);
    }
    RunJobsResult(vol.audio, jobs, k);
  }

  // ---------------------------------------------------------------------
  // The command (main)

  /** What happens after the report: how many prompts are asked and whether
      `apply_filter` runs, with which overwrite value. */
  datatype Decision = Decision(prompts: nat, write: Option<bool>)

  function Decide(anyFlagged: bool, fix: bool, zero: bool, force: bool, yesApply: bool, yesOverwrite: bool): Decision {
    if !anyFlagged && !zero then Decision(0, None)
    else if fix || zero then Decision(0, Some(force))
    else if yesApply then Decision(2, Some(yesOverwrite))
    else Decision(1, None)
  }

  datatype Outcome = ShowHelp | Finished(scanned: nat, flagged: nat, prompts: nat, applied: Option<bool>)

  predicate WantsHelp(argv: seq<string>) {
    |argv| < 2 || "--help" in argv
  }

  /** The whole run: the new volume and what was reported. */
  function Expected(vol: Volume, argv: seq<string>, isFile: bool, walk: seq<WalkEntry>,
                    yesApply: bool, yesOverwrite: bool): (Volume, Outcome)
  {
    if WantsHelp(argv) then (vol, ShowHelp)
    else
      var files := Candidates(argv[1], isFile, walk);
      var flagged := FlaggedFiles(vol, files);
      var d := Decide(|flagged| > 0, "--fix" in argv, "--zero" in argv, "--force" in argv, yesApply, yesOverwrite);
      var after := if d.write.Some? then Filtered(vol, flagged, d.write.value, true) else vol;
      (after, Finished(|files|, |flagged|, d.prompts, d.write))
  }

  /** `main`, with `isFile` standing for `os.path.isfile(argv[1])`, `walk`
      for `os.walk(argv[1])` and the two prompt answers for "answered y". */
  method Run(vol: Volume, argv: seq<string>, isFile: bool, walk: seq<WalkEntry>,
             yesApply: bool, yesOverwrite: bool) returns (result: Volume, outcome: Outcome)
    ensures (result, outcome) == Expected(vol, argv, isFile, walk, yesApply, yesOverwrite)
  {
    if |argv| < 2 || "--help" in argv {
      return vol, ShowHelp;
    }
    var path := argv[1];
    var applyAll := "--fix" in argv;
    var forceAll := "--force" in argv;
    var zeroOnly := "--zero" in argv;
    var allFiles, filesWithOffset := ScanPath(vol, path, isFile, walk);
    if |filesWithOffset| == 0 && !zeroOnly {
      return vol, Finished(|allFiles|, 0, 0, None);
    }
    if applyAll || zeroOnly {
      var overwrite := forceAll;
      result := ApplyFilter(vol, filesWithOffset, overwrite, true);
      outcome := Finished(|allFiles|, |filesWithOffset|, 0, Some(overwrite));
    } else {
      var applyOnly := yesApply;
      if applyOnly {
        var overwrite := yesOverwrite;
        result := ApplyFilter(vol, filesWithOffset, overwrite, true);
        outcome := Finished(|allFiles|, |filesWithOffset|, 2, Some(overwrite));
      } else {
        result, outcome := vol, Finished(|allFiles|, |filesWithOffset|, 1, None);
      }
    }
  }

  /** Only flagged files are ever corrected: a path whose contents change is
      the destination of a flagged file, and with nothing flagged the volume
      is left exactly as it was (also under `--zero`). */
  lemma OnlyFlaggedFilesWritten(vol: Volume, argv: seq<string>, isFile: bool, walk: seq<WalkEntry>,
                                yesApply: bool, yesOverwrite: bool, p: Path)
    requires !WantsHelp(argv)
    ensures var (after, outcome) := Expected(vol, argv, isFile, walk, yesApply, yesOverwrite);
      var flagged := FlaggedFiles(vol, Candidates(argv[1], isFile, walk));
      (|flagged| == 0 ==> after == vol) &&
      (Changed(vol, after, p) ==>
         outcome.applied.Some? &&
         exists k :: 0 <= k < |flagged| && p == Destination(flagged, k, outcome.applied.value))
  {
    var (after, outcome) := Expected(vol, argv, isFile, walk, yesApply, yesOverwrite);
    var flagged := FlaggedFiles(vol, Candidates(argv[1], isFile, walk));
    if outcome.applied.Some? {
      var jobs := FilterJobs(flagged, outcome.applied.value, true);
      if !exists k :: 0 <= k < |flagged| && p == Destination(flagged, k, outcome.applied.value) {
        RunJobsFrame(vol.audio, jobs, p);
      }
    }
  }

  /** Declining the first prompt writes nothing. */
  lemma DeclineWritesNothing(vol: Volume, argv: seq<string>, isFile: bool, walk: seq<WalkEntry>, yesOverwrite: bool)
    requires !WantsHelp(argv) && "--fix" !in argv && "--zero" !in argv
    ensures Expected(vol, argv, isFile, walk, false, yesOverwrite).0 == vol
  {
  }

  /** The run's decisions: the report counts the candidates and the flagged
      files; with nothing flagged and no `--zero` nothing is asked or
      written; `--fix` or `--zero` write without asking, overwriting iff
      `--force`; otherwise the first prompt is asked, a write follows only a
      'y' to it, and then the second answer alone chooses overwrite. A write
      corrects exactly the flagged list (mean removal and zero alignment). */
  lemma RunDecisions(vol: Volume, argv: seq<string>, isFile: bool, walk: seq<WalkEntry>,
                     yesApply: bool, yesOverwrite: bool)
    requires !WantsHelp(argv)
    ensures var (after, outcome) := Expected(vol, argv, isFile, walk, yesApply, yesOverwrite);
      var files := Candidates(argv[1], isFile, walk);
      var flagged := FlaggedFiles(vol, files);
      var fix, zero := "--fix" in argv, "--zero" in argv;
      outcome.Finished? && outcome.scanned == |files| && outcome.flagged == |flagged| &&
      (|flagged| == 0 && !zero ==> outcome.prompts == 0 && outcome.applied.None? && after == vol) &&
      ((|flagged| > 0 || zero) && (fix || zero) ==>
         outcome.prompts == 0 && outcome.applied == Some("--force" in argv)) &&
      (|flagged| > 0 && !fix && !zero ==>
         outcome.prompts == (if yesApply then 2 else 1) &&
         outcome.applied == (if yesApply then Some(yesOverwrite) else None)) &&
      (outcome.applied.None? ==> after == vol) &&
      (outcome.applied.Some? ==> after == Filtered(vol, flagged, outcome.applied.value, true))
  {
  }

  /** A multi-channel file is never flagged, so a run that overwrites in
      place leaves it exactly as it was. */
  lemma MultiChannelKeptInPlace(vol: Volume, argv: seq<string>, isFile: bool, walk: seq<WalkEntry>,
                                yesApply: bool, yesOverwrite: bool, p: Path)
    requires !WantsHelp(argv)
    requires p in vol.audio && vol.audio[p].channels > 1
    ensures var (after, outcome) := Expected(vol, argv, isFile, walk, yesApply, yesOverwrite);
      outcome.applied == Some(true) ==> p in after.audio && after.audio[p] == vol.audio[p]
  {
    var (after, outcome) := Expected(vol, argv, isFile, walk, yesApply, yesOverwrite);
    var flagged := FlaggedFiles(vol, Candidates(argv[1], isFile, walk));
    OnlyFlaggedFilesWritten(vol, argv, isFile, walk, yesApply, yesOverwrite, p);
    if outcome.applied == Some(true) {
      forall k | 0 <= k < |flagged| ensures p != Destination(flagged, k, true) {
        assert ProcessFile(Read(vol, flagged[k].path)).Some?;
      }
    }
  }
}
