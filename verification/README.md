# Sony HLG batch converter — a Dafny model

The converter turns Sony HLG camera videos into files a phone plays: HEVC
Main10 (or H.264) in MP4, with the BT.2020 / ARIB STD-B67 (HLG) colour tags
carried over. There are two front ends over the same logic: a command-line
tool (`transcode_core.py`) and a Qt GUI (`sonyToPhoto.py`). This project
models what both decide, with ffmpeg itself replaced by an oracle from the
command line to an exit status.

What is modelled, module by module:

- `Common` — the text operations the program relies on: Python's
  `str.strip()` (Python white space), ASCII `lower()`, substring search,
  `str(n)` for naturals and the `{n:04d}` format.
- `Command` — the ffmpeg command line. An `Invocation` (ffmpeg path,
  `-y`/`-n`, flag/value options, output path) renders to the argument list
  and parses back. `BuildGpu` is `build_ffmpeg_cmd_gpu`: one branch per
  hardware vendor (NVENC, AMF, QSV, VideoToolbox) and the libx265/libx264
  software branch; for HEVC the encoder is matched exactly, for H.264 by
  vendor substring. `BuildCore` is the command-line tool's
  `build_ffmpeg_cmd`, always libx265.
- `Naming` — `PurePath` name, stem and suffix; the output name (custom text,
  original stem or `video_<time>`, optional timestamp, suffix, `.mp4`); the
  `_0001` numbering of custom names in a batch; the skip rule.
- `Encoders` — `detect_gpu_encoders` over the text `ffmpeg -encoders`
  prints, `get_default_gpu_encoder`, and the candidate list `process_file`
  tries (requested encoder first if detected, then NVIDIA, Intel, AMD; the
  CPU when nothing is detected; just the requested one when ffmpeg cannot be
  located).
- `Executor` — `run` with its dry-run/test short-circuit, the GUI's
  `process_file` with its hardware-to-CPU fallback and the remembered
  encoder, and the command-line tool's `process_file`.
- `Session` — the two places the GUI keeps the remembered encoder: the
  configuration file, which `process_file` and `save_config` write, and
  `self.config`, the copy loaded when the window opens, which
  `get_default_gpu_encoder` reads.
- `Discovery` — `iter_video_files` over a finite directory tree, listing a
  directory's own entries before those of its subdirectories, and the
  subdirectories depth first in listing order.
- `Batch` — the per-file buckets (ok, failed, skipped), the counters, the
  GUI's `process_files_sequential`, the command-line `main` and its exit
  status, and `TranscodeWorker.run`.
- `Rows` and `Queue` — the GUI's task queue as a state machine (add,
  remove, clear, start, execute next, task finished, pause/resume, stop) and
  the two naming check boxes.

Two behaviours of the program are kept as they are, because they are what
the program does: a result is counted as skipped when its message contains
"SKIP", so a converted file whose name contains "SKIP" is counted as skipped
(`Batch.SkipInNameIsCountedAsSkipped`); and `process_files_sequential`
counts only when a per-file callback is supplied (`Batch.Sequential`).

Removing and clearing tasks while the queue runs is modelled as the
handlers do it. `start_task_queue` disables the remove and clear buttons
(sonyToPhoto.py:2471-2472), but `remove_selected_task`, `clear_task_queue`
and `remove_task_by_index` have no guard of their own, and each row's own
remove button stays enabled while the queue runs (`Queue.RemoveAt`,
`Queue.RemovalWhileRunningMarksNeighbour`).

## Model

| member | source | states |
|---|---|---|
| `Common.Strip` | sonyToPhoto.py:2368-2369 | The result has no white space at either end and is the input with only white space removed from its ends. |
| `Common.ParseNatToString` | sonyToPhoto.py:415 | The decimal text of a quality value reads back as that value. |
| `Common.ParsePad4` | sonyToPhoto.py:887 | The zero-padded batch number has at least four digits and reads back as the number. |
| `Common.Pad4Injective` | sonyToPhoto.py:887 | Different batch numbers give different padded texts. |
| `Command.ParseRender` | sonyToPhoto.py:396-406 | Parsing a rendered command gives back the invocation it came from. |
| `Command.RenderParse` | sonyToPhoto.py:550-561 | Rendering a parsed argument list gives back the list. |
| `Command.PairsFlatten` | sonyToPhoto.py:412-420 | Splitting flattened flag/value pairs gives back the pairs. |
| `Command.BuildGpu` | sonyToPhoto.py:396-406 | The command starts with ffmpeg, `-hide_banner`, `-y` exactly when overwriting (else `-n`), the input and the two maps, and ends with the output path. |
| `Command.BuildGpuOptions` | sonyToPhoto.py:362-561 | The command parses; its video codec is the branch's encoder; tag, frame rate, audio codec and bitrate, faststart are as given; the HLG colour tags are carried. |
| `Command.OptionsFacts` | sonyToPhoto.py:396-558 | The joined input, video and output options carry the encoder, container tag, frame rate, audio settings and HLG tags. |
| `Command.VideoOptionsFacts` | sonyToPhoto.py:409-547 | Each branch names its encoder and pixel format, carries the HLG tags, and sets no output flag. |
| `Command.QualityFlags` | sonyToPhoto.py:409-521 | NVENC passes `-cq` and no `-crf`; AMF pins `-qmin` and `-qmax` to the quality and uses `p010le` for HEVC; every other branch passes `-crf`. |
| `Command.H264BranchBySubstring` | sonyToPhoto.py:466-521 | For H.264 the vendor is chosen by substring, NVENC first, then AMF; software exactly when no vendor name occurs. |
| `Command.UnknownHevcEncoderIsSoftware` | sonyToPhoto.py:453-465 | An unknown HEVC encoder name gives the same command as no hardware encoder. |
| `Command.BuildCore` | transcode_core.py:245-282 | The command has 28 arguments without a frame rate and 30 with one; `-y` exactly when overwriting; libx265, `yuv420p10le`, `hvc1`, HLG tags in `-x265-params`; the output path last. |
| `Command.CoreIsGpuSoftwareHevc` | transcode_core.py:229-282 | The command-line builder equals the GUI builder for HEVC with no hardware encoder, for all arguments. |
| `Command.EncoderParamsCarryHlg` | transcode_core.py:245-248 | The encoder parameters hold all three HLG colour tags. |
| `Naming.Name` | transcode_core.py:322 | The name is a tail of the path and holds no `/`. |
| `Naming.StemSuffixSplit` | transcode_core.py:219 | Stem and suffix split the name; a non-empty suffix is a dot and at least one non-dot character, and then the stem is non-empty. |
| `Naming.StripMp4` | sonyToPhoto.py:620-621 | One trailing `.mp4`, matched case-sensitively, is removed, and nothing else. |
| `Naming.BaseName` | sonyToPhoto.py:616-628 | Custom text when chosen and non-empty; otherwise the stem when keeping the original; otherwise `video_` and the time. |
| `Naming.OutputName` | sonyToPhoto.py:630-640 | The name starts with the base, ends with the suffix and `.mp4`, and its length accounts for the optional timestamp. |
| `Naming.DefaultNamingIsCoreNaming` | transcode_core.py:302 | The GUI's default naming gives the command-line tool's `<stem>_hlg_phone.mp4`. |
| `Naming.NameOfJoin` | sonyToPhoto.py:641 | The name of a joined output path is the output name. |
| `Naming.BatchCustomText` | sonyToPhoto.py:881-887 | With a custom name and several files the text ends in the four-digit number, even when the custom text is empty; otherwise it is unchanged. |
| `Naming.BatchBaseName` | sonyToPhoto.py:616-621 | A numbered custom text is its own base: stripping and `.mp4` removal leave it alone. |
| `Naming.BatchNamesDistinct` | sonyToPhoto.py:879-897 | With a custom name, no two files of a batch get the same output name. |
| `Naming.BatchNumber` | sonyToPhoto.py:881-887 | The number read back from file `i`'s output name, between the custom base with its `_` and the common tail, is `i + 1`. |
| `Encoders.DetectGpuEncoders` | sonyToPhoto.py:313-361 | An entry is listed exactly when it is one of the codec's known encoders and its name occurs in the probe's output; a failed probe lists nothing. |
| `Encoders.DetectedIff` | sonyToPhoto.py:336-356 | A name is detected exactly when it is one of the four names for the codec and occurs in the output. |
| `Encoders.DefaultGpuEncoder` | sonyToPhoto.py:1970-2039 | A chosen encoder is always a detected one, and ffmpeg was found; which one is chosen is stated by the four lemmas below. |
| `Encoders.DefaultGpuEncoderNone` | sonyToPhoto.py:1980-2022 | No encoder exactly when ffmpeg is missing, nothing is detected, or the GPU is Intel, QSV is not detected and no remembered encoder applies. |
| `Encoders.RememberedEncoderWins` | sonyToPhoto.py:1989-1994 | A remembered encoder that is detected is chosen. |
| `Encoders.BrandEncoderWins` | sonyToPhoto.py:1996-2017 | Without a usable remembered encoder, the encoder of the reported vendor is chosen whenever it is detected. |
| `Encoders.PriorityEncoderWins` | sonyToPhoto.py:2019-2033 | When neither the remembered encoder nor the vendor decides and the GPU is not Intel, the first detected of NVIDIA, Intel, AMD is chosen. |
| `Encoders.LastResortIsVideoToolbox` | sonyToPhoto.py:2024-2036 | When none of NVIDIA, Intel, AMD is detected, the only encoder that can be chosen is Apple's. |
| `Encoders.DefaultIsSome` | sonyToPhoto.py:1984-2036 | Something detected and a GPU that is not Intel always yield an encoder. |
| `Encoders.Candidates` | sonyToPhoto.py:664-694 | Between one and four candidates; exactly the requested encoder when ffmpeg cannot be located. |
| `Encoders.AddedInOrder` | sonyToPhoto.py:684-687 | The encoders appended come from the priority list and keep its order. |
| `Encoders.CandidatesOrder` | sonyToPhoto.py:670-687 | After the requested encoder, the candidates come NVIDIA first, then Intel, then AMD. |
| `Encoders.CandidatesFacts` | sonyToPhoto.py:677-691 | Requested first exactly when detected; every hardware candidate is detected and requested or prioritised; no repeats; the CPU alone exactly when nothing usable is detected. |
| `Encoders.NoUnrequestedVideoToolbox` | sonyToPhoto.py:670-687 | Apple's encoder is a candidate only when it was requested. |
| `Encoders.AddInOrderDistinct` | sonyToPhoto.py:684-687 | Adding prioritised encoders never repeats one. |
| `Executor.Run` | transcode_core.py:179-201 | A dry or test run starts nothing and returns 0; otherwise the process's status is returned. |
| `Executor.SaveLastGpuEncoder` | sonyToPhoto.py:63-96 | An empty name leaves the configuration alone; otherwise the codec's entry holds the name and every other entry is unchanged. |
| `Executor.CpuRun` | sonyToPhoto.py:799-817 | One CPU run; success exactly when it returns 0; a failure message ends with its exit code; configuration unchanged. |
| `Executor.Fallback` | sonyToPhoto.py:696-797 | At least one and at most one more run than there are candidates. |
| `Executor.FallbackOrder` | sonyToPhoto.py:698-772 | Every run but the last is a hardware candidate, in candidate order, that failed. |
| `Executor.FallbackLast` | sonyToPhoto.py:698-797 | The last run decides success; a hardware run ends the loop only by succeeding or raising; the configuration changes only to remember a hardware encoder that succeeded; a CPU failure reports its exit code. |
| `Executor.ProcessFile` | sonyToPhoto.py:643-645 | Nothing runs exactly when the output exists and is neither overwritten nor redone; then the result is a success with a SKIP message. |
| `Executor.SkipReport` | sonyToPhoto.py:643-645 | A kept output gives a success whose message starts with "SKIP", with no run and the configuration unchanged. |
| `Executor.NoGpuMeansOneCpuRun` | sonyToPhoto.py:798-817 | Without a requested hardware encoder exactly one CPU run decides the outcome. |
| `Executor.GpuRunsFollowCandidates` | sonyToPhoto.py:696-772 | With a requested encoder the runs follow the candidate list and stop at the first success. |
| `Executor.FailureComesFromCpu` | sonyToPhoto.py:696-817 | A failure comes from a raised error or from a failed CPU run, whose exit code the message reports. |
| `Executor.ConfigSavedOnlyOnSuccess` | sonyToPhoto.py:756-764 | The configuration changes only after a hardware run returned 0, and only to remember that encoder. |
| `Executor.DryRunSucceeds` | transcode_core.py:180-181 | In a dry or test run every file succeeds with at most one, unstarted, run. |
| `Executor.ProcessFileCore` | transcode_core.py:300-324 | The tool's file step: skip rule on `<stem>_hlg_phone.mp4`, otherwise one libx265 run whose status decides. |
| `Executor.CoreAgreesWithGui` | transcode_core.py:285-326 | For HEVC the tool's `process_file` gives the same result as the GUI's with default naming and no hardware encoder. |
| `Discovery.Glob` | transcode_core.py:223-224 | The directory's own entries come first, in listing order; a flat search lists nothing else. |
| `Discovery.GlobIsBelow` | transcode_core.py:223-224 | The search lists exactly the children, or with recursion everything below. |
| `Discovery.DeepIsBelow` | transcode_core.py:223-224 | The recursive part lists exactly what lies below the child directories. |
| `Discovery.EntriesBeforeSubdirectories` | transcode_core.py:223-226 | For every directory, a recursive search yields the video files among its own entries, in listing order, and only then those below its subdirectories, wherever the subdirectories stand in the listing. |
| `Discovery.EntriesBeforeSubdirectoriesExample` | transcode_core.py:223-226 | One instance: a subdirectory listed before a file has its video yielded after that file's. |
| `Discovery.VideosAppend` | transcode_core.py:224-226 | Filtering two runs of entries one after the other gives the two filtered runs one after the other. |
| `Discovery.Videos` | transcode_core.py:224-226 | Exactly the files among the entries whose suffix, lower-cased, is a video extension. |
| `Discovery.FileInput` | transcode_core.py:218-221 | A file input yields exactly itself when its suffix is a video extension, and nothing otherwise. |
| `Discovery.DirectoryInput` | transcode_core.py:223-226 | A directory yields exactly the video files below it. |
| `Discovery.NonRecursiveWithinRecursive` | transcode_core.py:223 | The flat search's result is within the recursive one. |
| `Batch.ClassifyReportIsFaithful` | sonyToPhoto.py:643-645 | Bucketing by what happened puts a file in the skipped bucket exactly when the skip rule holds. |
| `Batch.ClassifyAgreesUnlessMessageSaysSkip` | sonyToPhoto.py:903-912 | The message-based bucket agrees with what happened for every skip and every message without "SKIP". |
| `Batch.SkipInNameIsCountedAsSkipped` | sonyToPhoto.py:904-906 | A converted file whose name holds "SKIP" lands in the skipped bucket. |
| `Batch.Count` | sonyToPhoto.py:903-912 | The three counters add up to the number of results. |
| `Batch.CountIsMultiplicity` | sonyToPhoto.py:903-912 | Each counter is the number of results in its bucket. |
| `Batch.CompletionOrderIrrelevant` | sonyToPhoto.py:974-984 | The counts do not depend on the order in which the threads finish. |
| `Batch.NoFailCounted` | transcode_core.py:503-517 | No failure is counted exactly when no result is a failure. |
| `Batch.RunBatchAt` | sonyToPhoto.py:877-897 | Result k of the loop is the file step applied to file k, at position k, with the configuration the file before it left. |
| `Batch.RunBatchSkipsAt` | sonyToPhoto.py:879-897 | File k of a batch is skipped exactly when its own numbered output existed before the batch and is kept, whatever configuration the earlier files left. |
| `Batch.RunBatchSkips` | sonyToPhoto.py:879-897 | The same for every file of the GUI's loop, given the outputs that existed before the batch. |
| `Batch.FileStepSkips` | sonyToPhoto.py:893-897 | Whether a file is skipped does not depend on the configuration earlier files left. |
| `Batch.Sequential` | sonyToPhoto.py:873-918 | With a per-file callback every file is counted once; without one nothing is counted. |
| `Batch.WhichFfmpeg` | transcode_core.py:440 | In a dry or test run ffmpeg may be missing; otherwise the search decides. |
| `Batch.CrfOutOfRangeRefused` | transcode_core.py:420-422 | A quality outside 0..51 gives exit status 1. |
| `Batch.CliExitStatus` | transcode_core.py:419-517 | Status 1 on a failed check, 2 with no files, otherwise 0 exactly when no file failed and 1 otherwise. |
| `Batch.CliDryRunSucceeds` | transcode_core.py:440-517 | A dry run that finds files exits with 0. |
| `Batch.WorkerRunCounts` | sonyToPhoto.py:1036-1189 | A failed check reports one failure, an empty search nothing, otherwise every file found is counted once. |
| `Rows.RemoveSelected` | sonyToPhoto.py:2398-2408 | Removing a selection leaves exactly the rows not selected, in order. |
| `Rows.RemoveAt` | sonyToPhoto.py:2444-2449 | Exactly the named row is removed when it exists; nothing otherwise. |
| `Rows.SortDesc` | sonyToPhoto.py:2400 | The selection sorted in descending order, as a permutation. |
| `Rows.PopAllWithout` | sonyToPhoto.py:2402-2404 | Popping strictly descending rows removes exactly those rows. |
| `Rows.RepeatedRowRemovesTwo` | sonyToPhoto.py:2398-2408 | With row 1 of four selected twice, the program removes rows 1 and 2. |
| `Rows.AsWrittenAgreesWithoutRepeats` | sonyToPhoto.py:2398-2408 | Without repeated row numbers the program removes exactly the selected rows. |
| `Queue.LabelsDistinct` | sonyToPhoto.py:2508-2510 | Each status has its own label. |
| `Queue.AddTask` | sonyToPhoto.py:2365-2396 | A waiting task is appended exactly when neither stripped text is empty; its texts are the strips of the two fields: non-empty, with no white space at either end, and with only white space cut from the field around them. Nothing else changes. |
| `Queue.RemoveAt` | sonyToPhoto.py:2444-2449 | The row is removed even while the queue runs; nothing else changes. |
| `Queue.RemoveSelectedAsWritten` | sonyToPhoto.py:2398-2408 | The handler the queue runs: nothing but the tasks changes, no task is added, and without repeated row numbers exactly the selected rows go. |
| `Queue.RemoveSelected` | sonyToPhoto.py:2398-2408 | The corrected handler: the selected rows go and nothing else changes. |
| `Queue.Clear` | sonyToPhoto.py:2410-2417 | The tasks go; index, flags and worker stay. |
| `Queue.ExecuteNext` | sonyToPhoto.py:2477-2500 | Unless stopped, paused or done, the current task executes on a new worker; nothing else changes. |
| `Queue.Start` | sonyToPhoto.py:2451-2475 | Refused when empty or running; otherwise restart at task 0, running and not paused, task 0 executing. |
| `Queue.Finished` | sonyToPhoto.py:2502-2524 | The current task fails exactly when a file failed, the index moves on by one, and the queue stops running when no task is left; when a task remains and the queue runs unpaused, that task executes on a new worker, otherwise it is unchanged and the old worker has ended; no other task changes. |
| `Queue.PauseResume` | sonyToPhoto.py:2526-2559 | Ignored unless running; pausing pauses a running worker and marks its task; resuming unpauses any worker object, running or not, and marks its task executing, or else runs `execute_next_task`; no other task changes. |
| `Queue.MarkStopped` | sonyToPhoto.py:2571-2572 | The tasks from the index on are stopped; the earlier ones are unchanged. |
| `Queue.Stop` | sonyToPhoto.py:2561-2582 | Tasks from the index on are stopped, earlier ones keep their status, the index is 0, neither running nor paused, no worker running. |
| `Queue.StepKeepsInv` | sonyToPhoto.py:2451-2582 | No handler leaves a worker running in a queue that is not running. |
| `Queue.RunKeepsInv` | sonyToPhoto.py:2451-2582 | The same for every sequence of events. |
| `Queue.ResumeWithoutWorker` | sonyToPhoto.py:2549-2556 | A task whose worker ended while paused is followed, on resume, by a task marked executing with no worker running. |
| `Queue.PauseResumeCorrected` | sonyToPhoto.py:2526-2559 | The corrected handler: it agrees with `pause_resume_task` except when resuming on a worker that has ended; resuming a running queue with a task left always leaves that task executing on a running, unpaused worker, and no other task changes. |
| `Queue.ResumeStartsWorker` | sonyToPhoto.py:2502-2559 | With the corrected resume, the task after one that ended while paused executes on a new worker of its own. |
| `Queue.RemovalWhileRunningMarksNeighbour` | sonyToPhoto.py:2444-2449 | Removing an earlier row while running makes the finished signal mark the task after the one that ran. |
| `Queue.CheckBoxesExclusive` | sonyToPhoto.py:1922-1962 | From a consistent state (one box ticked, the text field enabled exactly when the custom box is), either handler leaves exactly one naming box ticked and the text field enabled exactly when the custom box is. |
| `Session.Open` | sonyToPhoto.py:1231 | Opening the window loads the file into the copy the GUI reads. |
| `Session.ProcessTask` | sonyToPhoto.py:72-91 | A task writes only the file, never the loaded copy, and changes the file only to remember a hardware encoder that succeeded. |
| `Session.SaveConfig` | sonyToPhoto.py:1281-1320 | Saving the settings replaces the file by them and leaves no remembered encoder for either codec; the loaded copy is untouched. |
| `Session.NextDefault` | sonyToPhoto.py:1989-1994 | The default encoder is chosen from the loaded copy. |
| `Session.SessionDefaultIsFixed` | sonyToPhoto.py:1231 | Neither a task's save nor a saved setting changes the default within a session. |
| `Session.FallbackEncoderNotNextDefault` | sonyToPhoto.py:1970-1994 | NVIDIA GPU, nothing remembered, NVIDIA's and Intel's HEVC encoders detected, NVIDIA's failing: the file remembers Intel's, and the next task still starts with NVIDIA's. |
| `Session.SavedEncoderSeenAfterReopen` | sonyToPhoto.py:1266-1279 | A saved encoder still detected is the default once the window is opened again on that file. |
| `Session.SaveConfigForgetsEncoder` | sonyToPhoto.py:1312-1313 | After a setting is saved, a reopened window has no usable remembered encoder. |
| `Session.SaveConfigKeeping` | sonyToPhoto.py:1281-1320 | The corrected save: the settings replace the file, and the remembered encoders it held are kept. |
| `Session.SavedEncoderIsNextDefault` | sonyToPhoto.py:1970-1994 | Corrected: an encoder that succeeded and is still detected is the next default, read from the file, whatever settings are saved meanwhile. |
| `Session.FallbackEncoderIsNextDefault` | sonyToPhoto.py:1970-1994 | Corrected, in the scenario above: the next task starts with Intel's encoder. |

## Left out

- The search for ffmpeg in `which_ffmpeg` and its version probe: only the outcome (found or not) is a parameter.
- Starting the process in `run`, its pause polling with `time.sleep`, and the statuses 127, 1 and 130 for a missing program, a subprocess error and an interrupt: the exit-status oracle stands for all of them.
- The GPU vendor probe `get_gpu_info_standalone`: its brand is a parameter.
- Reading and writing the JSON configuration file: the file's contents are a map of text entries, a null entry is an absent one, and a failed read is the empty map.
- Printing, log files, progress bars, Qt signals, widget enabling and the task table's rendering.
- The stack-frame walk in `process_file` that finds the worker's pause flag and status callback: it changes only what is printed.
- Threads: `process_files_parallel` is covered only through its counts (`Batch.CompletionOrderIrrelevant`), and the tool's `--threads` choice between the parallel and the sequential loop does not change the counts.
- `Executor.ProcessFile`: the `except Exception` branch is modelled only for the ffmpeg run raising; an error raised by checking whether the output exists is not.
- `Batch.RunBatchAt`, `Batch.RunBatchSkipsAt`, `Batch.RunBatchSkips`: whether an output exists is a fixed predicate, the outputs that existed before the batch, so an output written earlier in the same batch is not seen by later files; two inputs of a recursive search with the same name and keep-original naming both convert, where the program skips the second.
- `Naming.BaseName`: both calls of `datetime.now()` are one formatted time, shared by the whole batch.
- The frame rate is carried as the text ffmpeg receives, not as a float.
- `argparse`'s own checks (the preset choices, integer parsing) and its exit status 2.
- `expanduser().resolve()`: paths are taken as given; symbolic links in the recursive search are not modelled.
- `Batch.WorkerRunCounts`: the worker's generic exception handler that reports one failure is not modelled.
- `Queue.Finished`: the finished signal is a total event; the timing of Qt's signal delivery (a finished signal arriving after `stop` terminated the worker) is not modelled.
- `Queue.AddTask`: the task's parameters are taken as given, not read from the widgets.
- `Discovery.Glob`: below the first level, subdirectories are searched depth first in listing order, the order of pathlib's recursive glob up to Python 3.11. From Python 3.12 pathlib yields a directory's child directories before descending into any of them, so files deeper down can come in another order and take other batch numbers; the program names no Python version.
- `Common.Lower`: lower-cases the ASCII letters only, where `str.lower()` covers all of Unicode. The presets come from fixed ASCII choices, and no non-ASCII character lower-cases to a letter of `.mov`, `.mp4`, `.mxf` or `.m4v`, so whether a suffix is a video extension comes out the same.

## Findings

| source | as written | input that shows it | evidently intended | confidence | as-written member | corrected member |
|---|---|---|---|---|---|---|
| sonyToPhoto.py:2398-2408 | every selected index's row number is popped, repeats included; the table selects cells, so selecting two cells of one row yields that row twice | four tasks, row 1 selected twice: rows 1 and 2 are removed | remove each selected row once | medium, not executed | `Rows.RepeatedRowRemovesTwo` | `Rows.RemoveSelected` |
| sonyToPhoto.py:1970-1994 | the default encoder is read from `self.config`, loaded once when the window opens (1231), while the encoder that succeeded is written only to the file (72-91), and every `save_config` writes both remembered encoders as null (1312-1313) | NVIDIA GPU, nothing remembered, `h265_nvenc` and `hevc_qsv` detected, `h265_nvenc` fails and `hevc_qsv` succeeds: the next task of the session starts with `h265_nvenc` again | the last encoder that succeeded, read from the configuration file as its comment says, is the next default, and saving the settings keeps it | medium, not executed | `Session.FallbackEncoderNotNextDefault` | `Session.SavedEncoderIsNextDefault` |
| sonyToPhoto.py:2549-2559 | resuming unpauses `current_queue_worker` whenever the object exists, without asking `isRunning()` as the pausing branch does (2538); `run` reads the pause flag only right after starting ffmpeg (transcode_core.py:193), so a worker can finish while the queue is paused, and `execute_next_task` then returns at once because the queue is paused | a running queue with two tasks is paused while the first one's ffmpeg runs; that run ends; on resume the second task is marked executing, no worker is started, and `start_task_queue` refuses because the queue still runs | on resume, start the next task when the worker has ended | medium, not executed | `Queue.ResumeWithoutWorker` | `Queue.PauseResumeCorrected` |
