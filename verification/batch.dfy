/**
  Batches: sorting each file's result into a bucket, counting the buckets,
  the GUI's sequential loop, the command-line tool's `main` and the GUI
  worker's `run`.
 */
module Batch {
  import opened Common
  import opened Command
  import opened Naming
  import opened Encoders
  import opened Executor
  import opened Discovery

  // ---------------------------------------------------------------------
  // Buckets

  datatype Category = Ok | Fail | Skip

  /** `update_counters` and the loops of the same shape: a message holding
      "SKIP" is a skip, whatever else it says; otherwise `success` decides. */
  function Classify(success: bool, message: string): Category {
    if Contains(message, "SKIP") then Skip else if success then Ok else Fail
  }

  /** Bucketing by what happened rather than by the message text: a skip is
      a result for which nothing was run. */
  function ClassifyReport(r: Report): Category {
    if r.attempts == [] then Skip else if r.success then Ok else Fail
  }

  /** Sorting by what happened puts a file in the skipped bucket exactly
      when its output exists and is neither overwritten nor redone, and in
      the ok bucket exactly when a run succeeded. */
  lemma ClassifyReportIsFaithful(inFile: string, s: Settings, gpuEncoder: Option<string>,
                                 naming: NamingOptions, w: World)
    ensures var r := ProcessFile(inFile, s, gpuEncoder, naming, w);
      && (ClassifyReport(r) == Skip
          <==> ShouldSkip(w.outputExists(OutFile(inFile, s, naming, w.now)), s.overwrite, s.skipExisting))
      && (ClassifyReport(r) == Ok <==> r.attempts != [] && r.success)
  {
  }

  /** The program's bucketing agrees with the faithful one on every
      skipped file and on every file whose message does not mention
      "SKIP". */
  lemma ClassifyAgreesUnlessMessageSaysSkip(inFile: string, s: Settings, gpuEncoder: Option<string>,
                                            naming: NamingOptions, w: World)
    ensures var r := ProcessFile(inFile, s, gpuEncoder, naming, w);
      r.attempts == [] || !Contains(r.message, "SKIP") ==>
        Classify(r.success, r.message) == ClassifyReport(r)
  {
    var r := ProcessFile(inFile, s, gpuEncoder, naming, w);
    if r.attempts == [] {
      PrefixIsContained(r.message, "SKIP");
    }
  }

  /** A file whose name holds "SKIP" and that is converted in a dry run
      lands in the skipped bucket although it was converted. */
  lemma SkipInNameIsCountedAsSkipped(inFile: string, s: Settings, naming: NamingOptions, w: World)
    requires s.dryRun && Contains(Name(inFile), "SKIP")
    requires !w.outputExists(OutFile(inFile, s, naming, w.now))
    ensures var r := ProcessFile(inFile, s, None, naming, w);
      && r.success && r.attempts != [] && r.message == "OK: " + Name(inFile)
      && ClassifyReport(r) == Ok
      && Classify(r.success, r.message) == Skip
  {
    ContainedInSuffix("OK: ", Name(inFile), "SKIP");
  }

  lemma ContainedInSuffix(p: string, s: string, sub: string)
    requires Contains(s, sub)
    ensures Contains(p + s, sub)
  {
    var i :| 0 <= i <= |s| - |sub| && OccursAt(s, sub, i);
    assert (p + s)[|p| + i..|p| + i + |sub|] == s[i..i + |sub|];
    assert OccursAt(p + s, sub, |p| + i);
  }

  // ---------------------------------------------------------------------
  // Counting

  datatype Counts = Counts(ok: nat, fail: nat, skipped: nat)

  /** One result counted. */
  function Tick(c: Counts, cat: Category): Counts {
    match cat
    case Ok => c.(ok := c.ok + 1)
    case Fail => c.(fail := c.fail + 1)
    case Skip => c.(skipped := c.skipped + 1)
  }

  /** The counts after the results arrived in the order given. */
  function Count(cats: seq<Category>): (c: Counts)
    ensures c.ok + c.fail + c.skipped == |cats|
  {
    if cats == [] then Counts(0, 0, 0) else Tick(Count(cats[..|cats| - 1]), cats[|cats| - 1])
  }

  /** Each count is the number of results in its bucket. */
  lemma {:induction false} CountIsMultiplicity(cats: seq<Category>)
    ensures Count(cats) == Counts(multiset(cats)[Ok], multiset(cats)[Fail], multiset(cats)[Skip])
  {
    if cats != [] {
      var init := cats[..|cats| - 1];
      assert cats == init + [cats[|cats| - 1]];
      CountIsMultiplicity(init);
    }
  }

  /** The counts do not depend on the order in which the results arrive,
      which is what makes the threaded loops' counts well defined. */
  lemma CompletionOrderIrrelevant(a: seq<Category>, b: seq<Category>)
    requires multiset(a) == multiset(b)
    ensures Count(a) == Count(b)
  {
    CountIsMultiplicity(a);
    CountIsMultiplicity(b);
  }

  /** No failure counted exactly when no result is a failure. */
  lemma {:induction false} NoFailCounted(cats: seq<Category>)
    ensures Count(cats).fail == 0 <==> forall k | 0 <= k < |cats| :: cats[k] != Fail
  {
    CountIsMultiplicity(cats);
    if Count(cats).fail == 0 {
      forall k | 0 <= k < |cats|
        ensures cats[k] != Fail
      {
        assert cats[k] in multiset(cats);
      }
    } else {
      assert Fail in multiset(cats);
    }
  }

  function Categories(rs: seq<Report>): (cats: seq<Category>)
    ensures |cats| == |rs|
    ensures forall k | 0 <= k < |rs| :: cats[k] == Classify(rs[k].success, rs[k].message)
  {
    seq(|rs|, k requires 0 <= k < |rs| => Classify(rs[k].success, rs[k].message))
  }

  // ---------------------------------------------------------------------
  // `process_files_sequential` of the GUI

  /** What is done with one file of a batch: given the file, its position
      and the configuration the previous file left, its result. */
  type Step = (string, nat, map<string, string>) -> Report

  /** `process_file` as a step of a batch of `count` files: the file at
      position `i` is named with the batch's numbering, in a world whose
      configuration is the one the previous file left. */
  function FileStep(s: Settings, gpuEncoder: Option<string>, naming: NamingOptions, count: nat, w: World): (step: Step)
    ensures forall f, i, c :: step(f, i, c) == ProcessFile(f, s, gpuEncoder, BatchOptions(naming, count, i), w.(config := c))
  {
    (f: string, i: nat, c: map<string, string>) => ProcessFile(f, s, gpuEncoder, BatchOptions(naming, count, i), w.(config := c))
  }

  /** The files from `i` on, in order, each seeing the configuration the
      previous one left. */
  function RunBatch(files: seq<string>, i: nat, step: Step, config: map<string, string>): (rs: seq<Report>)
    requires i <= |files|
    ensures |rs| == |files| - i
    decreases |files| - i
  {
    if i == |files| then []
    else
      var r := step(files[i], i, config);
      [r] + RunBatch(files, i + 1, step, r.config)
  }

  /** Whether a step leaves a file alone is decided by the file and its
      position, whatever the configuration. */
  ghost predicate SkipsBy(step: Step, skip: (string, nat) -> bool) {
    forall f, i, c :: step(f, i, c).attempts == [] <==> skip(f, i)
  }

  /** The configuration file `i + k` sees: the one the file before it left. */
  function ConfigBefore(files: seq<string>, i: nat, step: Step, config: map<string, string>, k: nat): map<string, string>
    requires i + k <= |files|
    decreases k
  {
    if k == 0 then config else ConfigBefore(files, i + 1, step, step(files[i], i, config).config, k - 1)
  }

  /** Result `k` of the batch is the step applied to file `i + k` with the
      configuration the file before it left. */
  lemma {:induction false} RunBatchAt(files: seq<string>, i: nat, step: Step, config: map<string, string>, k: nat)
    requires i + k < |files|
    ensures RunBatch(files, i, step, config)[k] == step(files[i + k], i + k, ConfigBefore(files, i, step, config, k))
    decreases k
  {
    var r := step(files[i], i, config);
    var rest := RunBatch(files, i + 1, step, r.config);
    assert RunBatch(files, i, step, config) == [r] + rest;
    if k > 0 {
      assert ([r] + rest)[k] == rest[k - 1];
      RunBatchAt(files, i + 1, step, r.config, k - 1);
    }
  }

  /** File `i + k` of the batch is left alone exactly when it is skipped
      on its own; the configuration earlier files leave does not change
      that. Which outputs exist is fixed for the whole batch, so an output
      an earlier file of the batch writes is not seen here. */
  lemma RunBatchSkipsAt(files: seq<string>, i: nat, step: Step, config: map<string, string>,
                        skip: (string, nat) -> bool, k: nat)
    requires i + k < |files| && SkipsBy(step, skip)
    ensures RunBatch(files, i, step, config)[k].attempts == [] <==> skip(files[i + k], i + k)
  {
    RunBatchAt(files, i, step, config, k);
    var c := ConfigBefore(files, i, step, config, k);
    assert step(files[i + k], i + k, c).attempts == [] <==> skip(files[i + k], i + k);
  }

  /** Whether `process_file` skips file `i` of a batch of `count`: its
      numbered output exists and is neither overwritten nor redone. */
  function SkipTest(s: Settings, naming: NamingOptions, count: nat, w: World): (skip: (string, nat) -> bool)
    ensures forall f, i :: (skip(f, i)
      == ShouldSkip(w.outputExists(OutFile(f, s, BatchOptions(naming, count, i), w.now)), s.overwrite, s.skipExisting))
  {
    (f: string, i: nat) => ShouldSkip(w.outputExists(OutFile(f, s, BatchOptions(naming, count, i), w.now)), s.overwrite, s.skipExisting)
  }

  lemma FileStepSkips(s: Settings, gpuEncoder: Option<string>, naming: NamingOptions, count: nat, w: World)
    ensures SkipsBy(FileStep(s, gpuEncoder, naming, count, w), SkipTest(s, naming, count, w))
  {
    var step := FileStep(s, gpuEncoder, naming, count, w);
    var skip := SkipTest(s, naming, count, w);
    forall f, i, c
      ensures step(f, i, c).attempts == [] <==> skip(f, i)
    {
      var r := ProcessFile(f, s, gpuEncoder, BatchOptions(naming, count, i), w.(config := c));
    }
  }

  /** Whether file `j` of the batch is skipped: its own output name,
      numbered if need be, exists and is not to be overwritten. */
  predicate SkippedAt(files: seq<string>, j: nat, s: Settings, naming: NamingOptions, w: World)
    requires j < |files|
  {
    ShouldSkip(w.outputExists(OutFile(files[j], s, BatchOptions(naming, |files|, j), w.now)),
               s.overwrite, s.skipExisting)
  }

  /** The GUI's loop over the files. */
  function GuiBatch(files: seq<string>, s: Settings, gpuEncoder: Option<string>, naming: NamingOptions,
                    w: World): (rs: seq<Report>)
    ensures |rs| == |files|
  {
    RunBatch(files, 0, FileStep(s, gpuEncoder, naming, |files|, w), w.config)
  }

  /** In the GUI's loop, a file runs nothing exactly when its own output
      existed before the batch began and is kept. */
  lemma RunBatchSkips(files: seq<string>, s: Settings, gpuEncoder: Option<string>, naming: NamingOptions, w: World)
    ensures var rs := GuiBatch(files, s, gpuEncoder, naming, w);
      forall k | 0 <= k < |rs| :: rs[k].attempts == [] <==> SkippedAt(files, k, s, naming, w)
  {
    var skip := SkipTest(s, naming, |files|, w);
    FileStepSkips(s, gpuEncoder, naming, |files|, w);
    EveryFileSkipsBy(files, FileStep(s, gpuEncoder, naming, |files|, w), w.config, skip);
    forall k | 0 <= k < |files|
      ensures skip(files[k], k) <==> SkippedAt(files, k, s, naming, w)
    {
    }
  }

  lemma EveryFileSkipsBy(files: seq<string>, step: Step, config: map<string, string>,
                         skip: (string, nat) -> bool)
    requires SkipsBy(step, skip)
    ensures var rs := RunBatch(files, 0, step, config);
      forall k | 0 <= k < |rs| :: rs[k].attempts == [] <==> skip(files[k], k)
  {
    forall k | 0 <= k < |files|
      ensures RunBatch(files, 0, step, config)[k].attempts == [] <==> skip(files[k], k)
    {
      RunBatchSkipsAt(files, 0, step, config, skip, k);
    }
  }

  /** `process_files_sequential`: the counters move only when a
      per-file callback is supplied. */
  function Sequential(files: seq<string>, s: Settings, gpuEncoder: Option<string>, naming: NamingOptions,
                      w: World, fileCallback: bool): (c: Counts)
    ensures fileCallback ==> c.ok + c.fail + c.skipped == |files|
    ensures !fileCallback ==> c == Counts(0, 0, 0)
  {
    if fileCallback then Count(Categories(GuiBatch(files, s, gpuEncoder, naming, w)))
    else Counts(0, 0, 0)
  }

  // ---------------------------------------------------------------------
  // `main` of the command-line tool

  /** The parsed command line. */
  datatype CliArgs = CliArgs(
    input: string,
    output: string,
    recursive: bool,
    crf: int,
    preset: string,
    fps: string,
    keepFps: bool,
    audioBitrate: string,
    overwrite: bool,
    dryRun: bool,
    test: bool)

  /** What `main` finds outside: the input (None when it does not exist),
      whether the output directory could be made, where ffmpeg was found
      (None when it was not), and the world the files are processed in. */
  datatype Host = Host(input: Option<Node>, outputDirMade: bool, ffmpeg: Option<string>, world: World)

  /** `which_ffmpeg(allow_missing)`: allowed to be missing, it is just
      "ffmpeg"; otherwise the search decides. */
  function WhichFfmpeg(allowMissing: bool, found: Option<string>): (r: Option<string>)
    ensures allowMissing ==> r == Some("ffmpeg")
    ensures !allowMissing ==> r == found
  {
    if allowMissing then Some("ffmpeg") else found
  }

  /** The settings every file is processed with; `--skip-existing` is
      always on. */
  function CliSettings(a: CliArgs, ffmpeg: string): Settings
    requires 0 <= a.crf
  {
    Settings(ffmpeg, a.output, Hevc, a.crf, a.preset, if a.keepFps then None else Some(a.fps),
             a.audioBitrate, a.overwrite, true, a.dryRun, a.test)
  }

  /** The results of the files, in the order they were found. */
  function CliResults(files: seq<string>, s: Settings, w: World): (cats: seq<Category>)
    ensures |cats| == |files|
  {
    seq(|files|, k requires 0 <= k < |files| =>
      var r := ProcessFileCore(files[k], s, w);
      Classify(r.success, r.message))
  }

  /** The files `main` processes, once every check has passed. */
  function CliFiles(a: CliArgs, h: Host): seq<string>
    requires h.input.Some?
  {
    IterVideoFiles(h.input.value, a.input, a.recursive)
  }

  /** Every check `main` makes before it looks for files. */
  predicate CliChecksPass(a: CliArgs, h: Host) {
    && 0 <= a.crf <= 51 && h.input.Some? && h.outputDirMade
    && WhichFfmpeg(a.test || a.dryRun, h.ffmpeg).Some?
  }

  /** `main`'s exit status. */
  function CliMain(a: CliArgs, h: Host): int {
    if !(0 <= a.crf <= 51) then 1
    else if h.input.None? then 1
    else if !h.outputDirMade then 1
    else
      match WhichFfmpeg(a.test || a.dryRun, h.ffmpeg)
      case None => 1
      case Some(ffmpeg) =>
        var files := CliFiles(a, h);
        if files == [] then 2
        else
          var c := Count(CliResults(files, CliSettings(a, ffmpeg), h.world));
          if c.fail == 0 then 0 else 1
  }

  /** A quality outside 0..51 is refused before anything else. */
  lemma CrfOutOfRangeRefused(a: CliArgs, h: Host)
    requires !(0 <= a.crf <= 51)
    ensures CliMain(a, h) == 1
  {
  }

  /** The exit status is 1 when a check fails, 2 when there is nothing to
      do, and otherwise 0 exactly when no file failed. */
  lemma CliExitStatus(a: CliArgs, h: Host)
    ensures !CliChecksPass(a, h) ==> CliMain(a, h) == 1
    ensures CliChecksPass(a, h) ==>
      var files := CliFiles(a, h);
      var s := CliSettings(a, WhichFfmpeg(a.test || a.dryRun, h.ffmpeg).value);
      && (files == [] ==> CliMain(a, h) == 2)
      && (files != [] ==>
            (CliMain(a, h) == 0 <==>
               forall k | 0 <= k < |files| :: CliResults(files, s, h.world)[k] != Fail)
            && (CliMain(a, h) != 0 ==> CliMain(a, h) == 1))
  {
    if CliChecksPass(a, h) {
      var files := CliFiles(a, h);
      var s := CliSettings(a, WhichFfmpeg(a.test || a.dryRun, h.ffmpeg).value);
      NoFailCounted(CliResults(files, s, h.world));
    }
  }

  /** In a dry run every found file is converted or skipped, so the exit
      status is 0 once the checks pass and files are found. */
  lemma CliDryRunSucceeds(a: CliArgs, h: Host)
    requires a.dryRun && CliChecksPass(a, h) && CliFiles(a, h) != []
    ensures CliMain(a, h) == 0
  {
    var files := CliFiles(a, h);
    var s := CliSettings(a, "ffmpeg");
    var cats := CliResults(files, s, h.world);
    forall k | 0 <= k < |files|
      ensures cats[k] != Fail
    {
      var r := ProcessFileCore(files[k], s, h.world);
      assert r.success;
    }
    NoFailCounted(cats);
  }

  // ---------------------------------------------------------------------
  // `TranscodeWorker.run` of the GUI

  /** The parameters the GUI hands its worker. */
  datatype WorkerParams = WorkerParams(
    input: string,
    output: string,
    recursive: bool,
    codec: Codec,
    crf: nat,
    preset: string,
    fps: string,
    keepFps: bool,
    audioBitrate: string,
    overwrite: bool,
    skipExisting: bool,
    dryRun: bool,
    enableGpu: bool,
    gpuEncoder: Option<string>,
    naming: NamingOptions)

  /** How making the output directory went. */
  datatype Mkdir = Made | PermissionDenied | OtherError(reason: string)

  /** The counts the worker reports with its `finished` signal. */
  function WorkerRun(p: WorkerParams, input: Option<Node>, mkdir: Mkdir, ffmpeg: Option<string>,
                     w: World): Counts
  {
    if input.None? then Counts(0, 1, 0)
    else if !mkdir.Made? then Counts(0, 1, 0)
    else if ffmpeg.None? then Counts(0, 1, 0)
    else
      var files := IterVideoFiles(input.value, p.input, p.recursive);
      if files == [] then Counts(0, 0, 0)
      else
        var s := Settings(ffmpeg.value, p.output, p.codec, p.crf, p.preset,
                          if p.keepFps then None else Some(p.fps), p.audioBitrate, p.overwrite,
                          p.skipExisting, p.dryRun, false);
        Sequential(files, s, if p.enableGpu then p.gpuEncoder else None, p.naming, w, true)
  }

  /** A failed check is reported as one failure, an empty search as
      nothing at all, and otherwise every file found is counted once. */
  lemma WorkerRunCounts(p: WorkerParams, input: Option<Node>, mkdir: Mkdir, ffmpeg: Option<string>, w: World)
    ensures var c := WorkerRun(p, input, mkdir, ffmpeg, w);
      && (input.None? || !mkdir.Made? || ffmpeg.None? ==> c == Counts(0, 1, 0))
      && (input.Some? && mkdir.Made? && ffmpeg.Some? ==>
            var files := IterVideoFiles(input.value, p.input, p.recursive);
            && (files == [] ==> c == Counts(0, 0, 0))
            && c.ok + c.fail + c.skipped == |files|)
  {
  }
}
