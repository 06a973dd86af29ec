/**
 * monomake: list the supported files under a path, mark the stereo ones,
 * and fold each stereo file to one channel by averaging its channels,
 * either in place or into a `Mono` folder beside each file.
 */
module MonoMake {
  import opened Wrappers
  import opened Paths
  import opened Audio
  import opened Batch
  import opened Collector

  const MONO_FOLDER: string := "Mono"

  /** `is_stereo`: the file decodes to a 2-D array with more than one
      column; a file that fails to decode is not stereo. */
  predicate IsStereo(d: Option<Buffer>) {
    d.Some? && d.value.channels > 1
  }

  /** The folder a non-overwriting conversion of `f` goes to. */
  function MonoFolder(f: Path): Path {
    Join(Dirname(f), MONO_FOLDER)
  }

  /** `out_file` of `make_mono`. */
  function MonoDestination(f: Path, overwrite: bool): Path {
    if overwrite then f else Join(MonoFolder(f), Basename(f))
  }

  /** With overwrite the destination is the file itself; without it the
      file keeps its basename and moves into the `Mono` folder of its own
      directory, which is never the empty path. */
  lemma MonoDestinationRouting(f: Path, overwrite: bool)
    ensures overwrite ==> MonoDestination(f, overwrite) == f
    ensures !overwrite ==> MonoDestination(f, overwrite) != ""
    ensures !overwrite ==> Dirname(MonoDestination(f, overwrite)) == MonoFolder(f)
    ensures !overwrite ==> Basename(MonoDestination(f, overwrite)) == Basename(f)
  {
    if !overwrite {
      JoinNameNoTrailingSlash(Dirname(f), MONO_FOLDER);
      BasenameOfJoin(MonoFolder(f), Basename(f));
      DirnameOfJoin(MonoFolder(f), Basename(f));
      NotAbsolute(Basename(f));
    }
  }

  /** The filesystem after one successful `make_mono`. */
  function Converted(vol: Volume, f: Path, overwrite: bool): Volume
    requires f in vol.audio
  {
    Volume(Step(vol.audio, Job(f, MonoDestination(f, overwrite), ToMono)),
           if overwrite then vol.dirs else vol.dirs + {MonoFolder(f)})
  }

  /** `make_mono`: a file that fails to read is reported and yields None
      with nothing written. */
  method MakeMono(vol: Volume, filePath: Path, overwrite: bool) returns (result: Volume, outFile: Option<Path>)
    ensures filePath !in vol.audio ==> result == vol && outFile.None?
    ensures filePath in vol.audio ==>
              result == Converted(vol, filePath, overwrite) && outFile == Some(MonoDestination(filePath, overwrite))
  {
    var read := Read(vol, filePath);
    if read.None? {
      return vol, None;
    }
    var data := read.value;
    if data.channels > 1 {
      data := Downmix(data);
    }
    var out;
    var dirs := vol.dirs;
    if overwrite {
      out := filePath;
    } else {
      var monoFolder := Join(Dirname(filePath), MONO_FOLDER);
      dirs := dirs + {monoFolder};
      out := Join(monoFolder, Basename(filePath));
    }
    result := Volume(vol.audio[out := data], dirs);
    outFile := Some(out);
  }

  // ---------------------------------------------------------------------
  // The listing (stereo_files, mono_files)

  /** `[f for f in files if is_stereo(f)]`. */
  function StereoFiles(vol: Volume, files: seq<Path>): (r: seq<Path>)
    ensures |r| <= |files|
  {
    if |files| == 0 then []
    else
      var f := files[|files| - 1];
      StereoFiles(vol, files[..|files| - 1]) + (if IsStereo(Read(vol, f)) then [f] else [])
  }

  /** `[f for f in files if f not in stereo]`. */
  function NotIn(files: seq<Path>, stereo: seq<Path>): (r: seq<Path>)
    ensures |r| <= |files|
  {
    if |files| == 0 then []
    else
      var f := files[|files| - 1];
      NotIn(files[..|files| - 1], stereo) + (if f in stereo then [] else [f])
  }

  /** The files that are not stereo, by the same test. */
  function NonStereoFiles(vol: Volume, files: seq<Path>): seq<Path> {
    if |files| == 0 then []
    else
      var f := files[|files| - 1];
      NonStereoFiles(vol, files[..|files| - 1]) + (if IsStereo(Read(vol, f)) then [] else [f])
  }

  /** A file is in `stereo_files` iff it is listed, decodes, and has more
      than one channel; a file that fails to decode is not stereo. */
  lemma {:induction false} StereoFilesMembers(vol: Volume, files: seq<Path>, f: Path)
    ensures f in StereoFiles(vol, files) <==> f in files && IsStereo(Read(vol, f))
    ensures f in StereoFiles(vol, files) <==> f in files && f in vol.audio && vol.audio[f].channels > 1
  {
    if |files| > 0 {
      StereoFilesMembers(vol, files[..|files| - 1], f);
      assert files == files[..|files| - 1] + [files[|files| - 1]];
    }
  }

  lemma {:induction false} NotInStereoIsNonStereo(vol: Volume, files: seq<Path>, stereo: seq<Path>)
    requires forall f :: f in files ==> (f in stereo <==> IsStereo(Read(vol, f)))
    ensures NotIn(files, stereo) == NonStereoFiles(vol, files)
  {
    if |files| > 0 {
      assert files[|files| - 1] in files;
      NotInStereoIsNonStereo(vol, files[..|files| - 1], stereo);
    }
  }

  lemma {:induction false} SplitCounts(vol: Volume, files: seq<Path>)
    ensures |StereoFiles(vol, files)| + |NonStereoFiles(vol, files)| == |files|
  {
    if |files| > 0 {
      SplitCounts(vol, files[..|files| - 1]);
    }
  }

  lemma {:induction false} NonStereoFilesMembers(vol: Volume, files: seq<Path>, f: Path)
    ensures f in NonStereoFiles(vol, files) <==> f in files && !IsStereo(Read(vol, f))
  {
    if |files| > 0 {
      NonStereoFilesMembers(vol, files[..|files| - 1], f);
      assert files == files[..|files| - 1] + [files[|files| - 1]];
    }
  }

  /** `stereo_files` and `mono_files` partition `files`: every file is in
      exactly one of them, by whether it is stereo, and together they have
      as many entries as `files`. */
  lemma ListingPartitions(vol: Volume, files: seq<Path>)
    ensures var stereo := StereoFiles(vol, files);
      var mono := NotIn(files, stereo);
      |stereo| + |mono| == |files| &&
      (forall f :: f in stereo <==> f in files && IsStereo(Read(vol, f))) &&
      (forall f :: f in mono <==> f in files && !IsStereo(Read(vol, f)))
  {
    var stereo := StereoFiles(vol, files);
    forall f ensures f in stereo <==> f in files && IsStereo(Read(vol, f)) {
      StereoFilesMembers(vol, files, f);
    }
    NotInStereoIsNonStereo(vol, files, stereo);
    SplitCounts(vol, files);
    forall f ensures f in NonStereoFiles(vol, files) <==> f in files && !IsStereo(Read(vol, f)) {
      NonStereoFilesMembers(vol, files, f);
    }
  }

  // ---------------------------------------------------------------------
  // The conversion loop

  datatype Tally = Tally(vol: Volume, converted: nat, skipped: nat)

  /** The conversion loop over `files`, each stereo test made against the
      filesystem as earlier conversions left it. A successful conversion
      counts only when the returned path is non-empty (Python truthiness). */
  function ConvertAll(vol: Volume, files: seq<Path>, overwrite: bool): (t: Tally)
    ensures vol.audio.Keys <= t.vol.audio.Keys
  {
    if |files| == 0 then Tally(vol, 0, 0)
    else
      var t := ConvertAll(vol, files[..|files| - 1], overwrite);
      var f := files[|files| - 1];
      if IsStereo(Read(t.vol, f)) then
        Tally(Converted(t.vol, f, overwrite),
              t.converted + (if MonoDestination(f, overwrite) != "" then 1 else 0), t.skipped)
      else Tally(t.vol, t.converted, t.skipped + 1)
  }

  /** Each file moves at most one counter, and exactly one unless it is the
      empty path converted in place. */
  lemma {:induction false} CountersBound(vol: Volume, files: seq<Path>, overwrite: bool)
    ensures ConvertAll(vol, files, overwrite).converted + ConvertAll(vol, files, overwrite).skipped <= |files|
    ensures !overwrite || "" !in files ==>
              ConvertAll(vol, files, overwrite).converted + ConvertAll(vol, files, overwrite).skipped == |files|
  {
    if |files| > 0 {
      var pre, f := files[..|files| - 1], files[|files| - 1];
      assert f in files;
      assert forall g :: g in pre ==> g in files;
      CountersBound(vol, pre, overwrite);
      MonoDestinationRouting(f, overwrite);
    }
  }

  /** A path that is stereo after the loop was never written: every write
      holds a single-channel buffer. */
  lemma {:induction false} StereoWasOriginal(vol: Volume, files: seq<Path>, overwrite: bool, p: Path)
    requires IsStereo(Read(ConvertAll(vol, files, overwrite).vol, p))
    ensures p in vol.audio && ConvertAll(vol, files, overwrite).vol.audio[p] == vol.audio[p]
  {
    if |files| > 0 {
      var pre, f := files[..|files| - 1], files[|files| - 1];
      var t := ConvertAll(vol, pre, overwrite);
      if IsStereo(Read(t.vol, f)) {
        assert p != MonoDestination(f, overwrite);
      }
      StereoWasOriginal(vol, pre, overwrite, p);
    }
  }

  /** Every path the loop changes is the destination of one of the files
      that was stereo before the loop began. */
  lemma {:induction false} ConvertAllAudioWrites(vol: Volume, files: seq<Path>, overwrite: bool, p: Path)
    requires p !in vol.audio || ConvertAll(vol, files, overwrite).vol.audio[p] != vol.audio[p]
    requires p in ConvertAll(vol, files, overwrite).vol.audio
    ensures exists k :: 0 <= k < |files| && IsStereo(Read(vol, files[k])) && p == MonoDestination(files[k], overwrite)
  {
    var pre, f := files[..|files| - 1], files[|files| - 1];
    var t := ConvertAll(vol, pre, overwrite);
    ConvertAllLast(vol, files, overwrite);
    if IsStereo(Read(t.vol, f)) && p != MonoDestination(f, overwrite) {
      ConvertedKeeps(t.vol, f, overwrite, p);
    }
    if IsStereo(Read(t.vol, f)) && p == MonoDestination(f, overwrite) {
      StereoWasOriginal(vol, pre, overwrite, f);
    } else {
      ConvertAllAudioWrites(vol, pre, overwrite, p);
      var k :| 0 <= k < |pre| && IsStereo(Read(vol, pre[k])) && p == MonoDestination(pre[k], overwrite);
      assert pre[k] == files[k];
    }
  }

  /** Every folder the loop creates is the `Mono` folder of one of the
      files that was stereo before the loop began, and none is created when
      overwriting. */
  lemma {:induction false} ConvertAllFolders(vol: Volume, files: seq<Path>, overwrite: bool, p: Path)
    requires p in ConvertAll(vol, files, overwrite).vol.dirs && p !in vol.dirs
    ensures !overwrite && exists k :: 0 <= k < |files| && IsStereo(Read(vol, files[k])) && p == MonoFolder(files[k])
  {
    var pre, f := files[..|files| - 1], files[|files| - 1];
    var t := ConvertAll(vol, pre, overwrite);
    if p in t.vol.dirs {
      ConvertAllFolders(vol, pre, overwrite, p);
      var k :| 0 <= k < |pre| && IsStereo(Read(vol, pre[k])) && p == MonoFolder(pre[k]);
      assert pre[k] == files[k];
    } else {
      StereoWasOriginal(vol, pre, overwrite, f);
    }
  }

  /** A batch in which no file is stereo is left untouched, and every file
      is counted as skipped. */
  lemma {:induction false} NoStereoNoWrites(vol: Volume, files: seq<Path>, overwrite: bool)
    requires forall k :: 0 <= k < |files| ==> !IsStereo(Read(vol, files[k]))
    ensures ConvertAll(vol, files, overwrite) == Tally(vol, 0, |files|)
  {
    if |files| > 0 {
      NoStereoNoWrites(vol, files[..|files| - 1], overwrite);
    }
  }

  /** A path that is no file's destination keeps its contents. */
  lemma {:induction false} UnwrittenKept(vol: Volume, files: seq<Path>, overwrite: bool, p: Path)
    requires p in vol.audio
    requires forall j :: 0 <= j < |files| ==> MonoDestination(files[j], overwrite) != p
    ensures ConvertAll(vol, files, overwrite).vol.audio[p] == vol.audio[p]
  {
    if |files| > 0 {
      var pre := files[..|files| - 1];
      forall j | 0 <= j < |pre| ensures MonoDestination(pre[j], overwrite) != p {
        assert pre[j] == files[j];
      }
      UnwrittenKept(vol, pre, overwrite, p);
    }
  }

  /** The loop's last step, unfolded. */
  lemma ConvertAllLast(vol: Volume, files: seq<Path>, overwrite: bool)
    requires |files| > 0
    ensures var t := ConvertAll(vol, files[..|files| - 1], overwrite);
      var f := files[|files| - 1];
      ConvertAll(vol, files, overwrite).vol ==
        if IsStereo(Read(t.vol, f)) then Converted(t.vol, f, overwrite) else t.vol
  {
  }

  /** One conversion writes the average to the destination ... */
  lemma ConvertedWrites(vol: Volume, f: Path, overwrite: bool)
    requires IsStereo(Read(vol, f))
    ensures MonoDestination(f, overwrite) in Converted(vol, f, overwrite).audio
    ensures Converted(vol, f, overwrite).audio[MonoDestination(f, overwrite)] == Downmix(vol.audio[f])
  {
    var b := vol.audio[f];
    assert b.channels > 1;
    assert Apply(ToMono, b) == Downmix(b);
    assert Converted(vol, f, overwrite).audio == vol.audio[MonoDestination(f, overwrite) := Downmix(b)];
  }

  /** ... and nothing else. */
  lemma ConvertedKeeps(vol: Volume, f: Path, overwrite: bool, p: Path)
    requires f in vol.audio && p != MonoDestination(f, overwrite)
    ensures p in Converted(vol, f, overwrite).audio <==> p in vol.audio
    ensures p in vol.audio ==> Converted(vol, f, overwrite).audio[p] == vol.audio[p]
  {
  }

  /** The last file, stereo before the loop and not overwritten by an
      earlier destination, leaves its average at its destination. */
  lemma DownmixAtLastTurn(vol: Volume, files: seq<Path>, overwrite: bool)
    requires |files| > 0 && IsStereo(Read(vol, files[|files| - 1]))
    requires forall j :: 0 <= j < |files| - 1 ==> MonoDestination(files[j], overwrite) != files[|files| - 1]
    ensures var f := files[|files| - 1];
      MonoDestination(f, overwrite) in ConvertAll(vol, files, overwrite).vol.audio &&
      ConvertAll(vol, files, overwrite).vol.audio[MonoDestination(f, overwrite)] == Downmix(vol.audio[f])
  {
    var pre, f := files[..|files| - 1], files[|files| - 1];
    forall j | 0 <= j < |pre| ensures MonoDestination(pre[j], overwrite) != f {
      assert pre[j] == files[j];
    }
    UnwrittenKept(vol, pre, overwrite, f);
    ConvertAllLast(vol, files, overwrite);
    ConvertedWrites(ConvertAll(vol, pre, overwrite).vol, f, overwrite);
  }

  /** The last step keeps every path other than the last file's destination. */
  lemma LastTurnKeeps(vol: Volume, files: seq<Path>, overwrite: bool, p: Path)
    requires |files| > 0 && p != MonoDestination(files[|files| - 1], overwrite)
    requires p in ConvertAll(vol, files[..|files| - 1], overwrite).vol.audio
    ensures p in ConvertAll(vol, files, overwrite).vol.audio
    ensures ConvertAll(vol, files, overwrite).vol.audio[p] == ConvertAll(vol, files[..|files| - 1], overwrite).vol.audio[p]
  {
    var t := ConvertAll(vol, files[..|files| - 1], overwrite);
    var f := files[|files| - 1];
    ConvertAllLast(vol, files, overwrite);
    if IsStereo(Read(t.vol, f)) {
      ConvertedKeeps(t.vol, f, overwrite, p);
    }
  }

  /** A file that was stereo before the loop, whose destination no other
      file shares and no earlier file's destination overwrites, ends up as
      the average of its channels at its destination. */
  lemma {:induction false} ConvertAllDownmixes(vol: Volume, files: seq<Path>, overwrite: bool, k: nat)
    requires k < |files| && IsStereo(Read(vol, files[k]))
    requires forall j :: 0 <= j < |files| && j != k ==>
               MonoDestination(files[j], overwrite) != MonoDestination(files[k], overwrite)
    requires forall j :: 0 <= j < k ==> MonoDestination(files[j], overwrite) != files[k]
    ensures MonoDestination(files[k], overwrite) in ConvertAll(vol, files, overwrite).vol.audio
    ensures ConvertAll(vol, files, overwrite).vol.audio[MonoDestination(files[k], overwrite)] ==
              Downmix(vol.audio[files[k]])
  {
    if k == |files| - 1 {
      DownmixAtLastTurn(vol, files, overwrite);
    } else {
      var pre := files[..|files| - 1];
      forall j | 0 <= j < |pre| && j != k
        ensures MonoDestination(pre[j], overwrite) != MonoDestination(pre[k], overwrite)
      {
        assert pre[j] == files[j];
      }
      assert pre[k] == files[k];
      ConvertAllDownmixes(vol, pre, overwrite, k);
      LastTurnKeeps(vol, files, overwrite, MonoDestination(files[k], overwrite));
    }
  }

  method ConvertLoop(vol: Volume, files: seq<Path>, overwrite: bool)
    returns (result: Volume, convertedCount: nat, skippedCount: nat)
    ensures Tally(result, convertedCount, skippedCount) == ConvertAll(vol, files, overwrite)
  {
    result, convertedCount, skippedCount := vol, 0, 0;
    var i := 0;
    while i < |files|
      invariant 0 <= i <= |files|
      invariant Tally(result, convertedCount, skippedCount) == ConvertAll(vol, files[..i], overwrite)
    {
      var f := files[i];
      assert files[..i + 1][..i] == files[..i];
      if IsStereo(Read(result, f)) {
        var out;
        result, out := MakeMono(result, f, overwrite);
        if out.Some? && out.value != "" {
          convertedCount := convertedCount + 1;
        }
      } else {
        skippedCount := skippedCount + 1;
      }
      i := i + 1;
    }
    assert files[..i] == files;
  }

  // ---------------------------------------------------------------------
  // The command (main)

  const FORCE_FLAG: string := "--force"

  datatype Outcome =
    | ShowHelp
    | NoFiles
    | Declined(found: nat, stereo: nat, mono: nat)
    | Done(found: nat, stereo: nat, mono: nat, prompts: nat, overwrite: bool, converted: nat, skipped: nat)

  predicate WantsHelp(argv: seq<string>) {
    |argv| < 2 || "--help" in argv
  }

  /** The whole run: `isFile` and `walk` describe `argv[1]`, `yesConvert`
      and `yesOverwrite` are the two prompt answers. */
  function Expected(vol: Volume, argv: seq<string>, isFile: bool, walk: seq<WalkEntry>,
                    yesConvert: bool, yesOverwrite: bool): (Volume, Outcome)
  {
    if WantsHelp(argv) then (vol, ShowHelp)
    else
      var files := Candidates(argv[1], isFile, walk);
      if |files| == 0 then (vol, NoFiles)
      else
        var stereo := StereoFiles(vol, files);
        var mono := NotIn(files, stereo);
        var force := FORCE_FLAG in argv;
        if !force && !yesConvert then (vol, Declined(|files|, |stereo|, |mono|))
        else
          var overwrite := force || yesOverwrite;
          var t := ConvertAll(vol, files, overwrite);
          (t.vol, Done(|files|, |stereo|, |mono|, if force then 0 else 2, overwrite, t.converted, t.skipped))
  }

  /** `main`. */
  method Run(vol: Volume, argv: seq<string>, isFile: bool, walk: seq<WalkEntry>,
             yesConvert: bool, yesOverwrite: bool) returns (result: Volume, outcome: Outcome)
    ensures (result, outcome) == Expected(vol, argv, isFile, walk, yesConvert, yesOverwrite)
  {
    if |argv| < 2 || "--help" in argv {
      return vol, ShowHelp;
    }
    var path := argv[1];
    var force := FORCE_FLAG in argv;
    var files := GatherFiles(path, isFile, walk);
    if |files| == 0 {
      return vol, NoFiles;
    }
    var stereoFiles := StereoFiles(vol, files);
    var monoFiles := NotIn(files, stereoFiles);
    var overwrite;
    var prompts := 0;
    if !force {
      var proceed := yesConvert;
      prompts := 1;
      if !proceed {
        return vol, Declined(|files|, |stereoFiles|, |monoFiles|);
      }
      overwrite := yesOverwrite;
      prompts := 2;
    } else {
      overwrite := true;
    }
    var convertedCount, skippedCount;
    result, convertedCount, skippedCount := ConvertLoop(vol, files, overwrite);
    outcome := Done(|files|, |stereoFiles|, |monoFiles|, prompts, overwrite, convertedCount, skippedCount);
  }

  /** Write decision: no files, help or a declined prompt write nothing;
      `--force` converts in place with no prompt; otherwise both prompts
      are asked and the second decides the overwrite. */
  lemma WriteDecision(vol: Volume, argv: seq<string>, isFile: bool, walk: seq<WalkEntry>,
                      yesConvert: bool, yesOverwrite: bool)
    ensures var (after, outcome) := Expected(vol, argv, isFile, walk, yesConvert, yesOverwrite);
      (outcome.ShowHelp? || outcome.NoFiles? || outcome.Declined? ==> after == vol) &&
      (!WantsHelp(argv) && Candidates(argv[1], isFile, walk) == [] ==> outcome.NoFiles?) &&
      (outcome.Done? ==> (FORCE_FLAG in argv <==> outcome.prompts == 0) &&
                         (FORCE_FLAG in argv ==> outcome.overwrite) &&
                         (FORCE_FLAG !in argv ==> outcome.overwrite == yesOverwrite && yesConvert)) &&
      (outcome.Done? ==> outcome.stereo + outcome.mono == outcome.found &&
                         outcome.converted + outcome.skipped <= outcome.found)
  {
    if !WantsHelp(argv) {
      var files := Candidates(argv[1], isFile, walk);
      ListingPartitions(vol, files);
      CountersBound(vol, files, FORCE_FLAG in argv || yesOverwrite);
    }
  }
}
