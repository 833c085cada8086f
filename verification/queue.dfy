/**
  The GUI's task queue, with the widgets left out: the tasks and their
  statuses, the index of the current task, the running and paused flags,
  and the worker thread of the current task. Each handler is a function
  from the state before to the state after.

  Also the two naming check boxes, which the GUI keeps so that exactly one
  of them is ticked.
 */
module Queue {
  import opened Common
  import opened Batch
  import Rows

  // ---------------------------------------------------------------------
  // State

  /** The statuses the task table shows. */
  datatype Status = Waiting | Executing | Pausing | Done | Failed | Stopped

  function Label(st: Status): string {
    match st
    case Waiting => "等待中"
    case Executing => "执行中"
    case Pausing => "暂停中"
    case Done => "完成"
    case Failed => "失败"
    case Stopped => "已停止"
  }

  /** Each status shows as its own label. */
  lemma LabelsDistinct(a: Status, b: Status)
    ensures Label(a) == Label(b) <==> a == b
  {
  }

  datatype Task = Task(input: string, output: string, params: WorkerParams, status: Status)

  /** The worker thread of a task: the input it was given, whether it is
      still running, and its paused flag. */
  datatype Worker = Worker(input: string, running: bool, paused: bool)

  datatype Queue = Queue(
    tasks: seq<Task>,
    index: nat,
    running: bool,
    paused: bool,
    worker: Option<Worker>)

  /** The queue when the window opens. */
  const Initial: Queue := Queue([], 0, false, false, None)

  /** A worker thread is only ever running while the queue runs. */
  predicate Inv(q: Queue) {
    q.worker.Some? && q.worker.value.running ==> q.running
  }

  function WithStatus(tasks: seq<Task>, k: nat, st: Status): (r: seq<Task>)
    requires k < |tasks|
    ensures |r| == |tasks| && r[k] == tasks[k].(status := st)
    ensures forall j | 0 <= j < |tasks| && j != k :: r[j] == tasks[j]
  {
    tasks[k := tasks[k].(status := st)]
  }

  // ---------------------------------------------------------------------
  // Editing the queue

  /** `add_task_to_queue`: the input and output texts are stripped, and a
      task is added only when neither is empty. */
  function AddTask(q: Queue, inputText: string, outputText: string, params: WorkerParams): (r: Queue)
    ensures r.(tasks := q.tasks) == q
    ensures |r.tasks| == |q.tasks| + 1 <==> Strip(inputText) != [] && Strip(outputText) != []
    ensures |r.tasks| == |q.tasks| || |r.tasks| == |q.tasks| + 1
    ensures r.tasks[..|q.tasks|] == q.tasks
    ensures |r.tasks| > |q.tasks| ==>
      var t := r.tasks[|q.tasks|];
      && t.status == Waiting && t.params == params
      && t.input == Strip(inputText) && t.output == Strip(outputText)
      && t.input != [] && t.output != [] && Unpadded(t.input) && Unpadded(t.output)
      && (exists i :: TrimmedAt(inputText, t.input, i)) && (exists i :: TrimmedAt(outputText, t.output, i))
  {
    var input := Strip(inputText);
    var output := Strip(outputText);
    if input == [] || output == [] then q
    else q.(tasks := q.tasks + [Task(input, output, params, Waiting)])
  }

  /** `remove_task_by_index`: the row's own button removes that task, even
      while the queue runs. */
  function RemoveAt(q: Queue, index: int): (r: Queue)
    ensures r.(tasks := q.tasks) == q
    ensures r.tasks == Rows.Without(q.tasks, {index}, 0)
  {
    q.(tasks := Rows.RemoveAt(q.tasks, index))
  }

  /** `remove_selected_task`: the selected row numbers, one per selected
      cell, sorted in descending order and each popped when in range. A row
      selected in several cells is popped that many times, and each pop
      after the first removes the row that moved up into its place. */
  function RemoveSelectedAsWritten(q: Queue, rows: seq<int>): (r: Queue)
    ensures r.(tasks := q.tasks) == q
    ensures |r.tasks| <= |q.tasks|
    ensures Rows.NoRepeats(rows) ==> r.tasks == Rows.Without(q.tasks, Rows.Elems(rows), 0)
  {
    if Rows.NoRepeats(rows) then
      Rows.AsWrittenAgreesWithoutRepeats(q.tasks, rows);
      q.(tasks := Rows.RemoveSelectedAsWritten(q.tasks, rows))
    else q.(tasks := Rows.RemoveSelectedAsWritten(q.tasks, rows))
  }

  /** `remove_selected_task` with each selected row removed once. */
  function RemoveSelected(q: Queue, rows: seq<int>): (r: Queue)
    ensures r.(tasks := q.tasks) == q
    ensures r.tasks == Rows.Without(q.tasks, Rows.Elems(rows), 0)
  {
    q.(tasks := Rows.RemoveSelected(q.tasks, rows))
  }

  /** `clear_task_queue`: the tasks go; the index, the flags and the
      worker stay as they were. */
  function Clear(q: Queue): (r: Queue)
    ensures r.tasks == [] && r.index == q.index && r.running == q.running
    ensures r.paused == q.paused && r.worker == q.worker
  {
    if q.tasks != [] then q.(tasks := []) else q
  }

  // ---------------------------------------------------------------------
  // Running the queue

  /** `execute_next_task`: unless the queue is stopped, paused or done, the
      current task is marked as executing and a worker is started on it. */
  function ExecuteNext(q: Queue): (r: Queue)
    ensures r.index == q.index && r.running == q.running && r.paused == q.paused
    ensures |r.tasks| == |q.tasks|
    ensures !q.running || q.paused || q.index >= |q.tasks| ==> r == q
    ensures q.running && !q.paused && q.index < |q.tasks| ==>
      && r.tasks[q.index] == q.tasks[q.index].(status := Executing)
      && (forall j | 0 <= j < |q.tasks| && j != q.index :: r.tasks[j] == q.tasks[j])
      && r.worker == Some(Worker(q.tasks[q.index].input, true, false))
  {
    if !q.running || q.paused || q.index >= |q.tasks| then q
    else
      q.(tasks := WithStatus(q.tasks, q.index, Executing),
         worker := Some(Worker(q.tasks[q.index].input, true, false)))
  }

  /** `start_task_queue`: refused for an empty or running queue; otherwise
      the queue restarts from its first task. */
  function Start(q: Queue): (r: Queue)
    ensures q.tasks == [] || q.running ==> r == q
    ensures q.tasks != [] && !q.running ==>
      && r.running && !r.paused && r.index == 0 && |r.tasks| == |q.tasks|
      && r.tasks[0] == q.tasks[0].(status := Executing)
      && (forall j | 1 <= j < |q.tasks| :: r.tasks[j] == q.tasks[j])
      && r.worker == Some(Worker(q.tasks[0].input, true, false))
  {
    if q.tasks == [] || q.running then q
    else ExecuteNext(q.(index := 0, running := true, paused := false))
  }

  /** The worker of the current task has come to its end. */
  function WorkerEnded(w: Option<Worker>): (r: Option<Worker>)
    ensures r.Some? <==> w.Some?
    ensures r.Some? ==> !r.value.running && r.value.input == w.value.input && r.value.paused == w.value.paused
  {
    if w.Some? then Some(w.value.(running := false)) else None
  }

  /** `queue_task_finished(ok, fail, skipped)`, delivered when the worker's
      `run` ends: the current task fails when any file failed and is done
      otherwise, and the queue moves on by one task, ending when none is
      left. */
  function Finished(q: Queue, c: Counts): (r: Queue)
    ensures |r.tasks| == |q.tasks| && r.paused == q.paused
    ensures q.index >= |q.tasks| ==>
      r.tasks == q.tasks && r.index == q.index && r.running == q.running && r.worker == WorkerEnded(q.worker)
    ensures q.index < |q.tasks| ==>
      && r.index == q.index + 1
      && r.tasks[q.index] == q.tasks[q.index].(status := if c.fail > 0 then Failed else Done)
      && (forall j | 0 <= j < |q.tasks| && j != q.index && j != q.index + 1 :: r.tasks[j] == q.tasks[j])
      && (r.index == |q.tasks| ==> !r.running)
      && (r.index < |q.tasks| ==> r.running == q.running)
    ensures q.index + 1 < |q.tasks| && q.running && !q.paused ==>
      && r.tasks[q.index + 1] == q.tasks[q.index + 1].(status := Executing)
      && r.worker == Some(Worker(q.tasks[q.index + 1].input, true, false))
    ensures !(q.index + 1 < |q.tasks| && q.running && !q.paused) ==>
      && r.worker == WorkerEnded(q.worker)
      && (q.index + 1 < |q.tasks| ==> r.tasks[q.index + 1] == q.tasks[q.index + 1])
  {
    var q0 := q.(worker := WorkerEnded(q.worker));
    if q.index < |q.tasks| then
      var q1 := q0.(tasks := WithStatus(q.tasks, q.index, if c.fail > 0 then Failed else Done),
                    index := q.index + 1);
      if q1.index >= |q1.tasks| then q1.(running := false)
      else ExecuteNext(q1)
    else q0
  }

  /** `pause_resume_task`: ignored unless the queue runs; otherwise the
      paused flag flips. Pausing pauses a running worker and marks its task;
      resuming unpauses the worker if there is one, running or not, and
      otherwise starts the next task. */
  function PauseResume(q: Queue): (r: Queue)
    ensures !q.running ==> r == q
    ensures q.running ==> r.running && r.paused == !q.paused && r.index == q.index && |r.tasks| == |q.tasks|
    ensures q.running && !q.paused ==>
      && r.worker.Some? == q.worker.Some?
      && (q.worker.Some? ==> r.worker.value.running == q.worker.value.running)
      && (q.worker.Some? && q.worker.value.running ==>
            r.worker.value.paused
            && (q.index < |q.tasks| ==> r.tasks[q.index] == q.tasks[q.index].(status := Pausing)))
      && (forall j | 0 <= j < |q.tasks| && j != q.index :: r.tasks[j] == q.tasks[j])
    ensures q.running && q.paused && q.worker.Some? && q.index < |q.tasks| ==>
      && r.worker == Some(q.worker.value.(paused := false))
      && r.tasks[q.index] == q.tasks[q.index].(status := Executing)
      && (forall j | 0 <= j < |q.tasks| && j != q.index :: r.tasks[j] == q.tasks[j])
    ensures q.running && q.paused && (q.worker.None? || q.index >= |q.tasks|) ==>
      r == ExecuteNext(q.(paused := false))
  {
    if !q.running then q
    else if !q.paused then
      var p := q.(paused := true);
      if q.worker.Some? && q.worker.value.running then
        var p1 := p.(worker := Some(q.worker.value.(paused := true)));
        if q.index < |q.tasks| then p1.(tasks := WithStatus(q.tasks, q.index, Pausing)) else p1
      else p
    else
      var p := q.(paused := false);
      if q.worker.Some? && q.index < |q.tasks| then
        p.(worker := Some(q.worker.value.(paused := false)),
           tasks := WithStatus(q.tasks, q.index, Executing))
      else ExecuteNext(p)
  }

  /** The tasks from `from` on marked as stopped. */
  function MarkStopped(tasks: seq<Task>, from: nat): (r: seq<Task>)
    ensures |r| == |tasks|
    ensures forall j | 0 <= j < |tasks| ::
      r[j] == if j < from then tasks[j] else tasks[j].(status := Stopped)
    decreases |tasks| - from
  {
    if from >= |tasks| then tasks
    else MarkStopped(WithStatus(tasks, from, Stopped), from + 1)
  }

  /** `stop_task_queue`: the running worker is terminated, the tasks from
      the current one on are stopped, the earlier ones keep their status,
      and the queue is reset to its first task, neither running nor
      paused. */
  function Stop(q: Queue): (r: Queue)
    ensures r.index == 0 && !r.running && !r.paused
    ensures |r.tasks| == |q.tasks|
    ensures forall j | 0 <= j < q.index && j < |q.tasks| :: r.tasks[j] == q.tasks[j]
    ensures forall j | q.index <= j < |q.tasks| :: r.tasks[j] == q.tasks[j].(status := Stopped)
    ensures r.worker.Some? <==> q.worker.Some?
    ensures r.worker.Some? ==> !r.worker.value.running
  {
    Queue(MarkStopped(q.tasks, q.index), 0, false, false, WorkerEnded(q.worker))
  }

  // ---------------------------------------------------------------------
  // Everything the user and the worker can do

  datatype Event =
    | Add(inputText: string, outputText: string, params: WorkerParams)
    | RemoveRow(index: int)
    | RemoveRows(rows: seq<int>)
    | ClearAll
    | StartQueue
    | PauseOrResume
    | StopQueue
    | TaskFinished(counts: Counts)

  function Step(q: Queue, e: Event): Queue {
    match e
    case Add(i, o, p) => AddTask(q, i, o, p)
    case RemoveRow(k) => RemoveAt(q, k)
    case RemoveRows(rows) => RemoveSelectedAsWritten(q, rows)
    case ClearAll => Clear(q)
    case StartQueue => Start(q)
    case PauseOrResume => PauseResume(q)
    case StopQueue => Stop(q)
    case TaskFinished(c) => Finished(q, c)
  }

  /** No event leaves a worker running in a queue that does not run. */
  lemma StepKeepsInv(q: Queue, e: Event)
    requires Inv(q)
    ensures Inv(Step(q, e))
  {
  }

  function Run(q: Queue, es: seq<Event>): Queue
    decreases |es|
  {
    if es == [] then q else Run(Step(q, es[0]), es[1..])
  }

  /** From the opening state on, whatever happens. */
  lemma {:induction false} RunKeepsInv(q: Queue, es: seq<Event>)
    requires Inv(q)
    ensures Inv(Run(q, es))
    decreases |es|
  {
    if es != [] {
      StepKeepsInv(q, es[0]);
      RunKeepsInv(Step(q, es[0]), es[1..]);
    }
  }

  // ---------------------------------------------------------------------
  // The two quirks of the handlers

  /** A task whose worker ends while the queue is paused is done; on
      resuming, the next task is marked as executing, but since a worker
      object exists, none is started for it and the queue waits for a
      finished signal that never comes. */
  lemma ResumeWithoutWorker(q: Queue, c: Counts)
    requires q.running && !q.paused && q.index + 1 < |q.tasks|
    requires q.worker.Some? && q.worker.value.running
    ensures var r := PauseResume(Finished(PauseResume(q), c));
      && r.running && !r.paused && r.index == q.index + 1
      && r.tasks[q.index + 1].status == Executing
      && r.worker.Some? && !r.worker.value.running
  {
  }

  /** `pause_resume_task` with the resume branch asking, as the pause branch
      does, whether the worker still runs: a worker that ended while the
      queue was paused is not unpaused, and the next task is started
      instead. */
  function PauseResumeCorrected(q: Queue): (r: Queue)
    ensures !(q.running && q.paused && q.worker.Some? && !q.worker.value.running) ==> r == PauseResume(q)
    ensures |r.tasks| == |q.tasks|
    ensures q.running && q.paused && q.index < |q.tasks| ==>
      && r.running && !r.paused && r.index == q.index
      && r.worker.Some? && r.worker.value.running && !r.worker.value.paused
      && r.tasks[q.index] == q.tasks[q.index].(status := Executing)
      && (forall j | 0 <= j < |q.tasks| && j != q.index :: r.tasks[j] == q.tasks[j])
  {
    if q.running && q.paused && q.worker.Some? && !q.worker.value.running then ExecuteNext(q.(paused := false))
    else PauseResume(q)
  }

  /** With the corrected resume, the task after one that ended while the
      queue was paused gets a worker of its own. */
  lemma ResumeStartsWorker(q: Queue, c: Counts)
    requires q.running && !q.paused && q.index + 1 < |q.tasks|
    requires q.worker.Some? && q.worker.value.running
    ensures var r := PauseResumeCorrected(Finished(PauseResume(q), c));
      && r.running && !r.paused && r.index == q.index + 1
      && r.tasks[q.index + 1].status == Executing
      && r.worker == Some(Worker(q.tasks[q.index + 1].input, true, false))
  {
  }

  /** Removing a task before the current one while the queue runs shifts
      the table: when the worker finishes, the task after the one it ran
      is the one marked. */
  lemma RemovalWhileRunningMarksNeighbour(q: Queue, c: Counts)
    requires q.running && !q.paused && 1 <= q.index && q.index + 1 < |q.tasks|
    ensures var r := Finished(RemoveAt(q, 0), c);
      && r.tasks[q.index - 1] == q.tasks[q.index]
      && r.tasks[q.index].input == q.tasks[q.index + 1].input
      && r.tasks[q.index].status == if c.fail > 0 then Failed else Done
  {
    var t := RemoveAt(q, 0);
    assert t.tasks == q.tasks[1..] by {
      Rows.WithoutSame(q.tasks[1..], {0}, {}, 1);
      Rows.WithoutNone(q.tasks[1..], {}, 1);
    }
  }

  // ---------------------------------------------------------------------
  // The naming check boxes

  /** The two check boxes and whether the custom-name text field is
      enabled. */
  datatype Boxes = Boxes(keepOriginal: bool, custom: bool, customEditable: bool)

  predicate ExactlyOne(b: Boxes) {
    b.keepOriginal != b.custom
  }

  /** `on_keep_original_name_changed`, run after the keep-original box took
      the state `checked`. */
  function OnKeepOriginalChanged(b: Boxes, checked: bool): Boxes {
    var b0 := b.(keepOriginal := checked);
    if checked then b0.(custom := false, customEditable := false)
    else if !b.custom then b0.(custom := true, customEditable := true)
    else b0
  }

  /** `on_custom_filename_changed`, run after the custom box took the state
      `checked`. */
  function OnCustomChanged(b: Boxes, checked: bool): Boxes {
    var b0 := b.(custom := checked);
    if checked then b0.(keepOriginal := false, customEditable := true)
    else if !b.keepOriginal then b0.(keepOriginal := true, customEditable := false)
    else b0
  }

  /** Whatever the boxes showed, after either handler exactly one is ticked,
      the one just changed keeps the state it was given when that is
      ticked, and, from a state the handlers left, the text field stays
      enabled exactly when the custom box is ticked. */
  lemma CheckBoxesExclusive(b: Boxes, checked: bool)
    ensures ExactlyOne(OnKeepOriginalChanged(b, checked))
    ensures ExactlyOne(OnCustomChanged(b, checked))
    ensures checked ==> OnKeepOriginalChanged(b, checked).keepOriginal && OnCustomChanged(b, checked).custom
    ensures ExactlyOne(b) && b.customEditable == b.custom ==>
      var k := OnKeepOriginalChanged(b, checked);
      var c := OnCustomChanged(b, checked);
      k.customEditable == k.custom && c.customEditable == c.custom
  {
  }
}
