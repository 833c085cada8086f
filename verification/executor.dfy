/**
  Processing one file: the skip decision, the encoder fallback and the
  run of ffmpeg.

  ffmpeg itself is an oracle `exec` from the command to how the process
  ended: with an exit status, or with an exception that `run` does not turn
  into a status (and that `process_file` then reports as an error).
  `process_file` of the GUI (sonyToPhoto.py) tries the requested hardware
  encoder and the other detected ones in turn and falls back to the CPU;
  `process_file` of the command-line tool (transcode_core.py) always uses
  libx265.
 */
module Executor {
  import opened Common
  import opened Command
  import opened Naming
  import opened Encoders

  /** How a run of ffmpeg ends. */
  datatype Exit = Code(rc: int) | Raised(reason: string)

  /** One call of `run`: the encoder it was for, the command, whether a
      process was started, and how it ended. */
  datatype Attempt = Attempt(choice: Choice, argv: seq<string>, started: bool, exit: Exit)

  /** `run`: the command is shown; in a dry run or in test mode no process is
      started and the status is 0. */
  function Run(choice: Choice, argv: seq<string>, dryRun: bool, testMode: bool,
               exec: seq<string> -> Exit): (a: Attempt)
    ensures a.choice == choice && a.argv == argv
    ensures a.started <==> !dryRun && !testMode
    ensures a.started ==> a.exit == exec(argv)
    ensures !a.started ==> a.exit == Code(0)
  {
    if dryRun || testMode then Attempt(choice, argv, false, Code(0))
    else Attempt(choice, argv, true, exec(argv))
  }

  /** `str(rc)` for a possibly negative exit status. */
  function IntToString(i: int): (r: string)
    ensures |r| >= 1
    ensures i < 0 <==> r[0] == '-'
  {
    if i < 0 then "-" + NatToString(-i) else NatToString(i)
  }

  // ---------------------------------------------------------------------
  // What a call works with

  /** The arguments of `process_file` that stay fixed over a batch. */
  datatype Settings = Settings(
    ffmpeg: string,
    outputDir: string,
    codec: Codec,
    crf: nat,
    preset: string,
    fps: Option<string>,
    audioBitrate: string,
    overwrite: bool,
    skipExisting: bool,
    dryRun: bool,
    testMode: bool)

  /** What lies outside the program: which output paths exist, how ffmpeg
      behaves, whether `which_ffmpeg` finds ffmpeg, what `ffmpeg -encoders`
      prints (None when the probe fails), the formatted current time, and
      the stored configuration. */
  datatype World = World(
    outputExists: string -> bool,
    exec: seq<string> -> Exit,
    located: bool,
    listing: Option<string>,
    now: string,
    config: map<string, string>)

  /** One input file on its way to one output file. */
  datatype Job = Job(inFile: string, outFile: string, settings: Settings)

  /** What `process_file` returns, with the runs it made and the
      configuration it leaves behind. */
  datatype Report = Report(success: bool, message: string, attempts: seq<Attempt>,
                           config: map<string, string>)

  /** The encoder a choice hands to `build_ffmpeg_cmd_gpu`. */
  function EncoderArg(choice: Choice): Option<string> {
    match choice
    case Cpu => None
    case Gpu(e) => Some(e)
  }

  /** The command for a job and an encoder choice. */
  function Argv(job: Job, choice: Choice): seq<string> {
    var s := job.settings;
    BuildGpu(s.ffmpeg, job.inFile, job.outFile, s.codec, s.crf, s.preset, s.fps, s.audioBitrate,
             s.overwrite, EncoderArg(choice))
  }

  function Attempted(job: Job, choice: Choice, w: World): Attempt {
    Run(choice, Argv(job, choice), job.settings.dryRun, job.settings.testMode, w.exec)
  }

  /** Running the job's command for a choice, as a function of the choice. */
  function AttemptFor(job: Job, w: World): (attempt: Choice -> Attempt)
    ensures forall c :: attempt(c) == Attempted(job, c, w)
  {
    c => Attempted(job, c, w)
  }

  // ---------------------------------------------------------------------
  // The remembered encoder

  /** `save_last_gpu_encoder_global`: an empty encoder leaves the
      configuration alone; otherwise the entry for the codec is set. */
  function SaveLastGpuEncoder(config: map<string, string>, codec: Codec, encoder: string): (r: map<string, string>)
    ensures encoder == "" ==> r == config
    ensures encoder != "" ==> LastEncoder(codec, r) == encoder
    ensures forall k | k != LastEncoderKey(codec) :: (k in r <==> k in config)
    ensures forall k | k != LastEncoderKey(codec) && k in config :: r[k] == config[k]
  {
    if encoder == "" then config else config[LastEncoderKey(codec) := encoder]
  }

  // ---------------------------------------------------------------------
  // Messages

  /** `encoder_name_map.get(encoder, 'Unknown')`. */
  function Brand(encoder: string): string {
    if encoder == "h265_nvenc" || encoder == "h264_nvenc" then "NVIDIA"
    else if encoder == "hevc_qsv" || encoder == "h264_qsv" then "Intel"
    else if encoder == "hevc_amf" || encoder == "h264_amf" then "AMD"
    else "Unknown"
  }

  function ExitCodeText(rc: int): string {
    " (exit code " + IntToString(rc) + ")"
  }

  function ErrorMessage(name: string, reason: string): string {
    "ERROR: " + name + " - " + reason
  }

  // ---------------------------------------------------------------------
  // The fallback loop. `attempt` runs the command for an encoder choice;
  // `name` is the input's file name, used in the messages.

  /** One CPU run that decides the outcome, with the messages of the
      fallback (`fallback` true) or of the plain CPU path. */
  function CpuRun(name: string, attempt: Choice -> Attempt, config: map<string, string>,
                  fallback: bool): (r: Report)
    ensures r.attempts == [attempt(Cpu)] && r.config == config
    ensures r.success <==> attempt(Cpu).exit == Code(0)
    ensures Failed(attempt(Cpu)) ==> EndsWith(r.message, ExitCodeText(attempt(Cpu).exit.rc))
  {
    var a := attempt(Cpu);
    match a.exit
    case Raised(reason) => Report(false, ErrorMessage(name, reason), [a], config)
    case Code(rc) =>
      if rc == 0 then
        Report(true, (if fallback then "OK (CPU回退): " else "OK: ") + name, [a], config)
      else
        var m := (if fallback then "FAILED (所有编码器都失败): " else "FAILED: ") + name;
        assert (m + ExitCodeText(rc))[|m|..] == ExitCodeText(rc);
        Report(false, m + ExitCodeText(rc), [a], config)
  }

  /** A run ended badly: with a non-zero status. */
  predicate Failed(a: Attempt) {
    a.exit.Code? && a.exit.rc != 0
  }

  /** The loop over the candidates: a hardware encoder is run; status 0
      ends the loop, saves the encoder and reports success; another status
      moves on to the next candidate. The CPU marker, or the end of the
      list, means one CPU run that decides the outcome. */
  function Fallback(cands: seq<Choice>, requested: string, name: string, codec: Codec,
                    attempt: Choice -> Attempt, config: map<string, string>): (r: Report)
    ensures 1 <= |r.attempts| <= |cands| + 1
    decreases |cands|
  {
    if cands == [] || cands[0] == Cpu then CpuRun(name, attempt, config, true)
    else
      var e := cands[0].encoder;
      var a := attempt(cands[0]);
      match a.exit
      case Raised(reason) => Report(false, ErrorMessage(name, reason), [a], config)
      case Code(rc) =>
        if rc == 0 then
          var message := if e == requested then "OK (GPU): " + name else "OK (" + Brand(e) + "回退): " + name;
          Report(true, message, [a], SaveLastGpuEncoder(config, codec, e))
        else
          var rest := Fallback(cands[1..], requested, name, codec, attempt, config);
          Report(rest.success, rest.message, [a] + rest.attempts, rest.config)
  }

  /** The runs of the fallback loop follow the candidates in order, and
      each but the last is a hardware encoder that failed. */
  lemma {:induction false} FallbackOrder(cands: seq<Choice>, requested: string, name: string, codec: Codec,
                                         attempt: Choice -> Attempt, config: map<string, string>)
    ensures var r := Fallback(cands, requested, name, codec, attempt, config);
      forall k | 0 <= k < |r.attempts| - 1 ::
        cands[k].Gpu? && r.attempts[k] == attempt(cands[k]) && Failed(r.attempts[k])
    decreases |cands|
  {
    if cands != [] && cands[0] != Cpu && Failed(attempt(cands[0])) {
      FallbackOrder(cands[1..], requested, name, codec, attempt, config);
    }
  }

  /** The last run is the CPU, or the candidate after the failed ones; the
      outcome is that run's; a hardware run ends the loop only by
      succeeding or raising; the configuration changes only after a
      hardware encoder succeeded, and then only to remember it. */
  lemma FallbackLast(cands: seq<Choice>, requested: string, name: string, codec: Codec,
                      attempt: Choice -> Attempt, config: map<string, string>)
    requires forall c :: attempt(c).choice == c
    ensures var r := Fallback(cands, requested, name, codec, attempt, config);
      var n := |r.attempts|;
      var last := r.attempts[n - 1];
      && (last == attempt(Cpu) || (n <= |cands| && last == attempt(cands[n - 1]) && cands[n - 1].Gpu?))
      && (r.success <==> last.exit == Code(0))
      && (last.choice == Cpu || last.exit.Raised? || last.exit == Code(0))
      && r.config == (if r.success && last.choice.Gpu?
                      then SaveLastGpuEncoder(config, codec, last.choice.encoder) else config)
      && (Failed(last) ==> EndsWith(r.message, ExitCodeText(last.exit.rc)))
  {
    FallbackLastRun(cands, requested, name, codec, attempt, config);
  }

  /** What `FallbackLast` states of a report whose runs were tried in the
      order of `cands`. */
  predicate LastRunDecides(r: Report, cands: seq<Choice>, codec: Codec, attempt: Choice -> Attempt,
                           config: map<string, string>)
  {
    && r.attempts != []
    && var n := |r.attempts|;
    && var last := r.attempts[n - 1];
    && (last == attempt(Cpu) || (n <= |cands| && last == attempt(cands[n - 1]) && cands[n - 1].Gpu?))
    && (r.success <==> last.exit == Code(0))
    && (last.choice == Cpu || last.exit.Raised? || last.exit == Code(0))
    && r.config == (if r.success && last.choice.Gpu?
                    then SaveLastGpuEncoder(config, codec, last.choice.encoder) else config)
    && (Failed(last) ==> EndsWith(r.message, ExitCodeText(last.exit.rc)))
  }

  lemma {:induction false} FallbackLastRun(cands: seq<Choice>, requested: string, name: string, codec: Codec,
                                           attempt: Choice -> Attempt, config: map<string, string>)
    requires forall c :: attempt(c).choice == c
    ensures LastRunDecides(Fallback(cands, requested, name, codec, attempt, config), cands, codec, attempt, config)
    decreases |cands|
  {
    if cands != [] && cands[0] != Cpu && Failed(attempt(cands[0])) {
      var rest := Fallback(cands[1..], requested, name, codec, attempt, config);
      FallbackLastRun(cands[1..], requested, name, codec, attempt, config);
      FailedRunFirst(attempt(cands[0]), rest, cands, codec, attempt, config);
    }
  }

  /** A failed hardware run put before the runs of the later candidates
      leaves the last run deciding. */
  lemma FailedRunFirst(a: Attempt, rest: Report, cands: seq<Choice>, codec: Codec, attempt: Choice -> Attempt,
                       config: map<string, string>)
    requires cands != [] && cands[0].Gpu? && a == attempt(cands[0])
    requires LastRunDecides(rest, cands[1..], codec, attempt, config)
    ensures LastRunDecides(Report(rest.success, rest.message, [a] + rest.attempts, rest.config), cands, codec,
                           attempt, config)
  {
    var n := |rest.attempts|;
    assert ([a] + rest.attempts)[n] == rest.attempts[n - 1];
    if n <= |cands[1..]| {
      assert cands[1..][n - 1] == cands[n];
    }
  }

  // ---------------------------------------------------------------------
  // `process_file` of the GUI

  /** Where the output of `inFile` goes under these naming options. */
  function OutFile(inFile: string, s: Settings, naming: NamingOptions, now: string): string {
    Join(s.outputDir, OutputName(Stem(Name(inFile)), naming, now))
  }

  /** The GPU branch is taken for a non-empty requested encoder. */
  predicate WantsGpu(gpuEncoder: Option<string>) {
    gpuEncoder.Some? && gpuEncoder.value != ""
  }

  /** `process_file` (sonyToPhoto.py). */
  function ProcessFile(inFile: string, s: Settings, gpuEncoder: Option<string>, naming: NamingOptions,
                       w: World): (r: Report)
    ensures ShouldSkip(w.outputExists(OutFile(inFile, s, naming, w.now)), s.overwrite, s.skipExisting)
            <==> r.attempts == []
    ensures r.attempts == [] ==> r.success && StartsWith(r.message, "SKIP") && r.config == w.config
  {
    var outFile := OutFile(inFile, s, naming, w.now);
    if ShouldSkip(w.outputExists(outFile), s.overwrite, s.skipExisting) then SkipReport(outFile, w.config)
    else Convert(inFile, s, gpuEncoder, AttemptFor(Job(inFile, outFile, s), w), w)
  }

  /** The result for a file whose existing output is kept. */
  function SkipReport(outFile: string, config: map<string, string>): (r: Report)
    ensures r.success && r.attempts == [] && StartsWith(r.message, "SKIP") && r.config == config
  {
    var message := "SKIP (exists): " + Name(outFile);
    assert message[..4] == "SKIP";
    Report(true, message, [], config)
  }

  /** The runs for a file that is converted: the fallback loop when a
      hardware encoder is requested, one CPU run otherwise. */
  function Convert(inFile: string, s: Settings, gpuEncoder: Option<string>, attempt: Choice -> Attempt,
                   w: World): (r: Report)
    ensures r.attempts != []
  {
    if WantsGpu(gpuEncoder) then
      Fallback(Candidates(s.codec, gpuEncoder.value, w.located, w.listing), gpuEncoder.value,
               Name(inFile), s.codec, attempt, w.config)
    else
      CpuRun(Name(inFile), attempt, w.config, false)
  }

  /** The command and the run for a file that is not skipped. */
  function JobOf(inFile: string, s: Settings, naming: NamingOptions, w: World): Job {
    Job(inFile, OutFile(inFile, s, naming, w.now), s)
  }

  lemma ProcessFileCases(inFile: string, s: Settings, gpuEncoder: Option<string>, naming: NamingOptions,
                         w: World)
    requires !ShouldSkip(w.outputExists(OutFile(inFile, s, naming, w.now)), s.overwrite, s.skipExisting)
    ensures var attempt := AttemptFor(JobOf(inFile, s, naming, w), w);
      && (forall c :: attempt(c).choice == c)
      && ProcessFile(inFile, s, gpuEncoder, naming, w)
         == if WantsGpu(gpuEncoder)
            then Fallback(Candidates(s.codec, gpuEncoder.value, w.located, w.listing), gpuEncoder.value,
                          Name(inFile), s.codec, attempt, w.config)
            else CpuRun(Name(inFile), attempt, w.config, false)
  {
  }

  /** Without a requested hardware encoder, one CPU run decides the outcome
      and the configuration is left alone. */
  lemma NoGpuMeansOneCpuRun(inFile: string, s: Settings, gpuEncoder: Option<string>, naming: NamingOptions,
                            w: World)
    requires !WantsGpu(gpuEncoder)
    requires !ShouldSkip(w.outputExists(OutFile(inFile, s, naming, w.now)), s.overwrite, s.skipExisting)
    ensures var r := ProcessFile(inFile, s, gpuEncoder, naming, w);
      && r.attempts == [Attempted(JobOf(inFile, s, naming, w), Cpu, w)]
      && (r.success <==> r.attempts[0].exit == Code(0))
      && r.config == w.config
  {
    ProcessFileCases(inFile, s, gpuEncoder, naming, w);
  }

  /** With a requested hardware encoder, the runs follow the candidate
      list: each but the last is a candidate hardware encoder that failed,
      and there is at most one run more than there are candidates. */
  lemma GpuRunsFollowCandidates(inFile: string, s: Settings, gpuEncoder: Option<string>,
                                naming: NamingOptions, w: World)
    requires WantsGpu(gpuEncoder)
    requires !ShouldSkip(w.outputExists(OutFile(inFile, s, naming, w.now)), s.overwrite, s.skipExisting)
    ensures var r := ProcessFile(inFile, s, gpuEncoder, naming, w);
      var cands := Candidates(s.codec, gpuEncoder.value, w.located, w.listing);
      && 1 <= |r.attempts| <= |cands| + 1
      && forall k | 0 <= k < |r.attempts| - 1 ::
           cands[k].Gpu? && r.attempts[k] == Attempted(JobOf(inFile, s, naming, w), cands[k], w)
           && Failed(r.attempts[k])
  {
    ProcessFileCases(inFile, s, gpuEncoder, naming, w);
    FallbackOrder(Candidates(s.codec, gpuEncoder.value, w.located, w.listing), gpuEncoder.value,
                  Name(inFile), s.codec, AttemptFor(JobOf(inFile, s, naming, w), w), w.config);
  }

  /** A file fails only when its last run raised, or was the CPU and ended
      with a non-zero status, which the message then reports. */
  lemma FailureComesFromCpu(inFile: string, s: Settings, gpuEncoder: Option<string>,
                            naming: NamingOptions, w: World)
    ensures var r := ProcessFile(inFile, s, gpuEncoder, naming, w);
      !r.success ==>
        var last := r.attempts[|r.attempts| - 1];
        || last.exit.Raised?
        || (last.choice == Cpu && Failed(last) && EndsWith(r.message, ExitCodeText(last.exit.rc)))
  {
    var r := ProcessFile(inFile, s, gpuEncoder, naming, w);
    if !ShouldSkip(w.outputExists(OutFile(inFile, s, naming, w.now)), s.overwrite, s.skipExisting) {
      ProcessFileCases(inFile, s, gpuEncoder, naming, w);
      var attempt := AttemptFor(JobOf(inFile, s, naming, w), w);
      if WantsGpu(gpuEncoder) {
        var cands := Candidates(s.codec, gpuEncoder.value, w.located, w.listing);
        FallbackFailureFromCpu(cands, gpuEncoder.value, Name(inFile), s.codec, attempt, w.config);
      }
      assert FailureExplained(r);
    }
  }

  /** A failed report's last run raised, or was the CPU and ended with a
      non-zero status that the message reports. */
  predicate FailureExplained(r: Report) {
    !r.success ==>
      && r.attempts != []
      && var last := r.attempts[|r.attempts| - 1];
      || last.exit.Raised?
      || (last.choice == Cpu && Failed(last) && EndsWith(r.message, ExitCodeText(last.exit.rc)))
  }

  /** `FailureComesFromCpu` for the fallback chain. */
  lemma FallbackFailureFromCpu(cands: seq<Choice>, requested: string, name: string, codec: Codec,
                               attempt: Choice -> Attempt, config: map<string, string>)
    requires forall c :: attempt(c).choice == c
    ensures FailureExplained(Fallback(cands, requested, name, codec, attempt, config))
  {
    FallbackLast(cands, requested, name, codec, attempt, config);
  }

  /** The configuration changes only when a hardware encoder succeeded, and
      then it remembers exactly that encoder. */
  lemma ConfigSavedOnlyOnSuccess(inFile: string, s: Settings, gpuEncoder: Option<string>,
                                 naming: NamingOptions, w: World)
    ensures var r := ProcessFile(inFile, s, gpuEncoder, naming, w);
      r.config != w.config ==> SavedAfterSuccess(r, w.config, s.codec)
  {
    if !ShouldSkip(w.outputExists(OutFile(inFile, s, naming, w.now)), s.overwrite, s.skipExisting) {
      ProcessFileCases(inFile, s, gpuEncoder, naming, w);
      if WantsGpu(gpuEncoder) {
        FallbackSaves(Candidates(s.codec, gpuEncoder.value, w.located, w.listing), gpuEncoder.value,
                      Name(inFile), s.codec, AttemptFor(JobOf(inFile, s, naming, w), w), w.config);
      }
    }
  }

  /** `r` succeeded with a hardware encoder as its last run, and its
      configuration is `config` remembering that encoder. */
  predicate SavedAfterSuccess(r: Report, config: map<string, string>, codec: Codec) {
    && r.success && r.attempts != []
    && var last := r.attempts[|r.attempts| - 1];
    && last.choice.Gpu? && last.exit == Code(0)
    && r.config == SaveLastGpuEncoder(config, codec, last.choice.encoder)
  }

  lemma FallbackSaves(cands: seq<Choice>, requested: string, name: string, codec: Codec,
                      attempt: Choice -> Attempt, config: map<string, string>)
    requires forall c :: attempt(c).choice == c
    ensures var r := Fallback(cands, requested, name, codec, attempt, config);
      r.config != config ==> SavedAfterSuccess(r, config, codec)
  {
    FallbackLast(cands, requested, name, codec, attempt, config);
  }

  /** In a dry run or in test mode no process starts, and a file that is not
      skipped succeeds with exactly one command shown. */
  lemma DryRunSucceeds(inFile: string, s: Settings, gpuEncoder: Option<string>, naming: NamingOptions,
                       w: World)
    requires s.dryRun || s.testMode
    ensures var r := ProcessFile(inFile, s, gpuEncoder, naming, w);
      && r.success && |r.attempts| <= 1
      && forall k | 0 <= k < |r.attempts| :: !r.attempts[k].started
  {
    if !ShouldSkip(w.outputExists(OutFile(inFile, s, naming, w.now)), s.overwrite, s.skipExisting) {
      ProcessFileCases(inFile, s, gpuEncoder, naming, w);
      var attempt := AttemptFor(JobOf(inFile, s, naming, w), w);
      DryAttempts(JobOf(inFile, s, naming, w), w);
      if WantsGpu(gpuEncoder) {
        FallbackDry(Candidates(s.codec, gpuEncoder.value, w.located, w.listing), gpuEncoder.value,
                    Name(inFile), s.codec, attempt, w.config);
      }
    }
  }

  lemma DryAttempts(job: Job, w: World)
    requires job.settings.dryRun || job.settings.testMode
    ensures forall c :: !AttemptFor(job, w)(c).started && AttemptFor(job, w)(c).exit == Code(0)
  {
  }

  /** When every run ends with status 0 without starting a process, the
      first candidate decides. */
  lemma FallbackDry(cands: seq<Choice>, requested: string, name: string, codec: Codec,
                    attempt: Choice -> Attempt, config: map<string, string>)
    requires forall c :: !attempt(c).started && attempt(c).exit == Code(0)
    requires cands != []
    ensures var r := Fallback(cands, requested, name, codec, attempt, config);
      r.success && |r.attempts| == 1 && !r.attempts[0].started
  {
  }

  // ---------------------------------------------------------------------
  // `process_file` of the command-line tool

  /** `process_file` (transcode_core.py): the output is named after the
      stem with "_hlg_phone.mp4", and one libx265 run decides the outcome. */
  function ProcessFileCore(inFile: string, s: Settings, w: World): (r: Report)
    ensures var outFile := Join(s.outputDir, CoreOutputName(Stem(Name(inFile))));
      && (r.attempts == [] <==> ShouldSkip(w.outputExists(outFile), s.overwrite, s.skipExisting))
      && (r.attempts == [] ==> r.success && StartsWith(r.message, "SKIP"))
      && (r.attempts != [] ==>
            && r.attempts == [Run(Cpu, BuildCore(s.ffmpeg, inFile, outFile, s.crf, s.preset, s.fps,
                                                 s.audioBitrate, s.overwrite), s.dryRun, s.testMode, w.exec)]
            && (r.success <==> r.attempts[0].exit == Code(0)))
      && r.config == w.config
  {
    var outFile := Join(s.outputDir, CoreOutputName(Stem(Name(inFile))));
    if ShouldSkip(w.outputExists(outFile), s.overwrite, s.skipExisting) then SkipReport(outFile, w.config)
    else
      var argv := BuildCore(s.ffmpeg, inFile, outFile, s.crf, s.preset, s.fps, s.audioBitrate, s.overwrite);
      CpuRun(Name(inFile), c => Run(c, argv, s.dryRun, s.testMode, w.exec), w.config, false)
  }

  /** For HEVC, the command-line tool does to a file exactly what the GUI
      does with default naming and no hardware encoder: the same output,
      the same command, the same result and message. */
  lemma CoreAgreesWithGui(inFile: string, s: Settings, w: World)
    requires s.codec == Hevc
    ensures ProcessFileCore(inFile, s, w) == ProcessFile(inFile, s, None, DefaultNaming, w)
  {
    var stem := Stem(Name(inFile));
    DefaultNamingIsCoreNaming(stem, DefaultNaming, w.now);
    var outFile := Join(s.outputDir, CoreOutputName(stem));
    assert OutFile(inFile, s, DefaultNaming, w.now) == outFile;
    if !ShouldSkip(w.outputExists(outFile), s.overwrite, s.skipExisting) {
      var argv := BuildCore(s.ffmpeg, inFile, outFile, s.crf, s.preset, s.fps, s.audioBitrate, s.overwrite);
      var gui := AttemptFor(JobOf(inFile, s, DefaultNaming, w), w);
      GuiCpuAttempt(inFile, s, w, outFile);
      ProcessFileCases(inFile, s, None, DefaultNaming, w);
      CpuRunOnlyRunsCpu(Name(inFile), c => Run(c, argv, s.dryRun, s.testMode, w.exec), gui, w.config);
    }
  }

  lemma GuiCpuAttempt(inFile: string, s: Settings, w: World, outFile: string)
    requires s.codec == Hevc && outFile == OutFile(inFile, s, DefaultNaming, w.now)
    ensures AttemptFor(JobOf(inFile, s, DefaultNaming, w), w)(Cpu)
         == Run(Cpu, BuildCore(s.ffmpeg, inFile, outFile, s.crf, s.preset, s.fps, s.audioBitrate, s.overwrite),
                s.dryRun, s.testMode, w.exec)
  {
    CoreIsGpuSoftwareHevc(s.ffmpeg, inFile, outFile, s.crf, s.preset, s.fps, s.audioBitrate, s.overwrite);
  }

  lemma CpuRunOnlyRunsCpu(name: string, a: Choice -> Attempt, b: Choice -> Attempt, config: map<string, string>)
    requires a(Cpu) == b(Cpu)
    ensures CpuRun(name, a, config, false) == CpuRun(name, b, config, false)
  {
  }
}
