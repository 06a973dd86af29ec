/**
 * The filesystem as the tools see it through the codec, and the
 * read-correct-write cycle they run over a batch of files.
 *
 * `audio` maps each path the codec can decode to its buffer; a path outside it
 * fails to read. `dirs` records the output folders the tools create. Paths are
 * keys exactly as the tools spell them; two spellings of one file are two keys.
 */
module Batch {
  import opened Wrappers
  import opened Paths
  import opened Audio

  datatype Volume = Volume(audio: map<Path, Buffer>, dirs: set<Path>)

  /** A path whose contents a run created or altered. */
  predicate Changed(before: Volume, after: Volume, p: Path) {
    p in after.audio && (p !in before.audio || after.audio[p] != before.audio[p])
  }

  /** `sf.read(path)`: the decoded buffer, or None when decoding fails. */
  function Read(vol: Volume, p: Path): (r: Option<Buffer>)
    ensures r.Some? <==> p in vol.audio
  {
    if p in vol.audio then Some(vol.audio[p]) else None
  }

  /** The correction a job applies to the buffer it reads. */
  datatype Op = RemoveDc(offset: real, zeroAlign: bool) | Flip | ToMono

  function Apply(op: Op, b: Buffer): Buffer {
    match op
    case RemoveDc(offset, zeroAlign) =>
      if zeroAlign then ZeroFirstFrame(Subtract(b, offset)) else Subtract(b, offset)
    case Flip => Negate(b)
    case ToMono => if b.channels > 1 then Downmix(b) else b
  }

  /** Read `src`, correct it with `op`, write the result to `dst`. */
  datatype Job = Job(src: Path, dst: Path, op: Op)

  predicate SourcesIn(jobs: seq<Job>, audio: map<Path, Buffer>) {
    forall j :: 0 <= j < |jobs| ==> jobs[j].src in audio
  }

  function Destinations(jobs: seq<Job>): set<Path> {
    set j | 0 <= j < |jobs| :: jobs[j].dst
  }

  /** The jobs run one after another; a job reads what earlier jobs wrote. */
  function RunJobs(audio: map<Path, Buffer>, jobs: seq<Job>): (r: map<Path, Buffer>)
    requires SourcesIn(jobs, audio)
    ensures audio.Keys <= r.Keys
  {
    if |jobs| == 0 then audio
    else Step(RunJobs(audio, jobs[..|jobs| - 1]), jobs[|jobs| - 1])
  }

  function Step(audio: map<Path, Buffer>, job: Job): map<Path, Buffer>
    requires job.src in audio
  {
    audio[job.dst := Apply(job.op, audio[job.src])]
  }

  /** Running one more job of a batch is one more step. */
  lemma RunJobsExtend(audio: map<Path, Buffer>, jobs: seq<Job>, k: nat)
    requires SourcesIn(jobs, audio) && k < |jobs|
    ensures SourcesIn(jobs[..k], audio) && SourcesIn(jobs[..k + 1], audio)
    ensures jobs[k].src in RunJobs(audio, jobs[..k])
    ensures RunJobs(audio, jobs[..k + 1]) == Step(RunJobs(audio, jobs[..k]), jobs[k])
  {
    assert jobs[..k + 1][..k] == jobs[..k];
  }

  /** A path no job writes to keeps whatever it held. */
  lemma {:induction false} RunJobsFrame(audio: map<Path, Buffer>, jobs: seq<Job>, p: Path)
    requires SourcesIn(jobs, audio)
    requires forall j :: 0 <= j < |jobs| ==> jobs[j].dst != p
    ensures p in RunJobs(audio, jobs) <==> p in audio
    ensures p in audio ==> RunJobs(audio, jobs)[p] == audio[p]
  {
    if |jobs| > 0 {
      RunJobsFrame(audio, jobs[..|jobs| - 1], p);
    }
  }

  /** After the batch, the paths that decode are the old ones plus every destination. */
  lemma {:induction false} RunJobsKeys(audio: map<Path, Buffer>, jobs: seq<Job>)
    requires SourcesIn(jobs, audio)
    ensures RunJobs(audio, jobs).Keys == audio.Keys + Destinations(jobs)
  {
    if |jobs| > 0 {
      var pre := jobs[..|jobs| - 1];
      RunJobsKeys(audio, pre);
      DestinationsExtend(jobs);
    }
  }

  lemma DestinationsExtend(jobs: seq<Job>)
    requires |jobs| > 0
    ensures Destinations(jobs) == Destinations(jobs[..|jobs| - 1]) + {jobs[|jobs| - 1].dst}
  {
    var pre, last := jobs[..|jobs| - 1], jobs[|jobs| - 1].dst;
    forall d | d in Destinations(jobs) ensures d in Destinations(pre) + {last} {
      var j :| 0 <= j < |jobs| && jobs[j].dst == d;
      if j < |jobs| - 1 { assert pre[j].dst == d; }
    }
  }

  /** A job's destination holds the correction of its source as it was before
      the batch, provided no later job overwrites that destination and no
      earlier job wrote over its source. */
  lemma {:induction false} RunJobsResult(audio: map<Path, Buffer>, jobs: seq<Job>, i: nat)
    requires SourcesIn(jobs, audio)
    requires i < |jobs|
    requires forall j :: i < j < |jobs| ==> jobs[j].dst != jobs[i].dst
    requires forall j :: 0 <= j < i ==> jobs[j].dst != jobs[i].src
    ensures jobs[i].dst in RunJobs(audio, jobs)
    ensures RunJobs(audio, jobs)[jobs[i].dst] == Apply(jobs[i].op, audio[jobs[i].src])
  {
    var n := |jobs|;
    if i == n - 1 {
      RunJobsFrame(audio, jobs[..n - 1], jobs[i].src);
    } else {
      RunJobsResult(audio, jobs[..n - 1], i);
    }
  }
}
