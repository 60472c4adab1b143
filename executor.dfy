/** `A2UIAgentExecutor`: one request handled from start to finish.

    The executor takes the user's text and any `userAction` directive. If
    there is neither, it returns without touching the event queue. Otherwise
    it makes sure a task exists, marks it `working`, sends the prompt to the
    model, and collects the streamed text. It then ends the task exactly once:
    `failed` with an `Error: ...` text part if the model run raised, or
    `completed` with the parts recovered from the text.

    The run is modelled sequentially. The model run is a finite stream of
    events given by the `runner` function; an error event ends the stream.
 */
module Executor {
  import opened Wrappers
  import opened PyText
  import opened JsonValue
  import opened Recovery
  import opened UserAction

  datatype TaskState = Working | Completed | Failed

  datatype Task = Task(id: PyStr, contextId: PyStr)

  /** `new_agent_parts_message(parts, context_id, task_id)`. */
  datatype AgentMessage = AgentMessage(parts: seq<Part>, contextId: PyStr, taskId: PyStr)

  /** What reaches the event queue: a new task, or a status update of a task. */
  datatype QueueEvent =
    | TaskCreated(task: Task)
    | StatusUpdate(taskId: PyStr, contextId: PyStr, state: TaskState, message: Option<AgentMessage>, final: bool)

  /** The A2A event queue, as the list of events enqueued so far. */
  class EventQueue {
    var events: seq<QueueEvent>

    constructor()
      ensures events == []
    {
      events := [];
    }

    method Enqueue(e: QueueEvent)
      modifies this
      ensures events == old(events) + [e]
    {
      events := events + [e];
    }
  }

  /** The A2A task updater: publishes status updates of one task to a queue
      and records the states it has set, in order. */
  class TaskUpdater {
    const queue: EventQueue
    const taskId: PyStr
    const contextId: PyStr
    var transitions: seq<TaskState>

    constructor(queue: EventQueue, taskId: PyStr, contextId: PyStr)
      ensures this.queue == queue && this.taskId == taskId && this.contextId == contextId
      ensures transitions == []
    {
      this.queue := queue;
      this.taskId := taskId;
      this.contextId := contextId;
      transitions := [];
    }

    method UpdateStatus(state: TaskState, message: Option<AgentMessage>, final: bool)
      modifies this, queue
      ensures transitions == old(transitions) + [state]
      ensures queue.events == old(queue.events) + [StatusUpdate(taskId, contextId, state, message, final)]
    {
      transitions := transitions + [state];
      queue.Enqueue(StatusUpdate(taskId, contextId, state, message, final));
    }
  }

  // ---------------------------------------------------------------------
  // The model run
  // ---------------------------------------------------------------------

  /** One event of the model run: the texts of a response's parts (a part
      without text counts as the empty text), or the exception that ended the
      run, given by its message. */
  datatype RunnerEvent = ModelEvent(texts: seq<PyStr>) | RunnerError(message: PyStr)

  datatype RunResult = Finished(text: PyStr) | Errored(message: PyStr)

  /** The texts of one event, concatenated in order. */
  function Fragments(texts: seq<PyStr>): (r: PyStr)
    decreases |texts|
  {
    if texts == [] then [] else Fragments(texts[..|texts| - 1]) + texts[|texts| - 1]
  }

  /** What the `async for` loop leaves behind after the events of `stream`:
      the text accumulated so far, or the first error. */
  function Accumulated(stream: seq<RunnerEvent>): (r: RunResult)
    ensures r.Errored? ==> exists i :: 0 <= i < |stream| && stream[i] == RunnerError(r.message)
    decreases |stream|
  {
    if stream == [] then Finished([])
    else
      match Accumulated(stream[..|stream| - 1])
      case Errored(m) =>
        var i :| 0 <= i < |stream| - 1 && stream[..|stream| - 1][i] == RunnerError(m);
        assert stream[i] == stream[..|stream| - 1][i];
        Errored(m)
      case Finished(t) =>
        match stream[|stream| - 1]
        case RunnerError(m) => Errored(m)
        case ModelEvent(texts) => Finished(t + Fragments(texts))
  }

  /** Every text of every event, in order, read front to back. */
  function AllText(stream: seq<RunnerEvent>): (r: PyStr)
    requires forall i :: 0 <= i < |stream| ==> stream[i].ModelEvent?
  {
    if stream == [] then [] else Fragments(stream[0].texts) + AllText(stream[1..])
  }

  lemma {:induction false} AllTextSnoc(stream: seq<RunnerEvent>, e: RunnerEvent)
    requires forall i :: 0 <= i < |stream| ==> stream[i].ModelEvent?
    requires e.ModelEvent?
    ensures forall i :: 0 <= i < |stream + [e]| ==> (stream + [e])[i].ModelEvent?
    ensures AllText(stream + [e]) == AllText(stream) + Fragments(e.texts)
    decreases |stream|
  {
    var se := stream + [e];
    assert forall i :: 0 <= i < |se| ==> se[i] == if i < |stream| then stream[i] else e;
    if stream == [] {
      assert se[1..] == [];
    } else {
      var rest := stream[1..];
      assert se[0] == stream[0];
      assert se[1..] == rest + [e];
      AllTextSnoc(rest, e);
      assert AllText(se) == Fragments(stream[0].texts) + (AllText(rest) + Fragments(e.texts));
    }
  }

  /** A run without errors yields all texts of all events, in order. */
  lemma {:induction false} AccumulatedInOrder(stream: seq<RunnerEvent>)
    requires forall i :: 0 <= i < |stream| ==> stream[i].ModelEvent?
    ensures Accumulated(stream) == Finished(AllText(stream))
    decreases |stream|
  {
    if stream != [] {
      var init := stream[..|stream| - 1];
      var e := stream[|stream| - 1];
      AccumulatedInOrder(init);
      AllTextSnoc(init, e);
      assert init + [e] == stream;
    }
  }

  /** Once the run has failed, later events change nothing. */
  lemma {:induction false} ErrorIsFinal(stream: seq<RunnerEvent>, i: nat)
    requires i <= |stream| && Accumulated(stream[..i]).Errored?
    ensures Accumulated(stream) == Accumulated(stream[..i])
    decreases |stream| - i
  {
    if i < |stream| {
      assert stream[..i + 1][..i] == stream[..i];
      ErrorIsFinal(stream, i + 1);
    } else {
      assert stream[..i] == stream;
    }
  }

  /** A run with an error ends with the first one, whatever was streamed. */
  lemma AccumulatedFirstError(stream: seq<RunnerEvent>, i: nat)
    requires i < |stream| && stream[i].RunnerError?
    requires forall j :: 0 <= j < i ==> stream[j].ModelEvent?
    ensures Accumulated(stream) == Errored(stream[i].message)
  {
    var pre := stream[..i];
    assert forall j :: 0 <= j < |pre| ==> pre[j].ModelEvent?;
    AccumulatedInOrder(pre);
    assert stream[..i + 1][..i] == pre;
    ErrorIsFinal(stream, i + 1);
  }

  /** The loops that build `accumulated_text`. */
  method AccumulateText(stream: seq<RunnerEvent>) returns (r: RunResult)
    ensures r == Accumulated(stream)
  {
    var acc: PyStr := [];
    var i := 0;
    while i < |stream|
      invariant 0 <= i <= |stream|
      invariant Accumulated(stream[..i]) == Finished(acc)
    {
      assert stream[..i + 1][..i] == stream[..i];
      match stream[i] {
        case RunnerError(m) =>
          ErrorIsFinal(stream, i + 1);
          return Errored(m);
        case ModelEvent(texts) =>
          ghost var before := acc;
          var j := 0;
          while j < |texts|
            invariant 0 <= j <= |texts|
            invariant acc == before + Fragments(texts[..j])
          {
            assert texts[..j + 1][..j] == texts[..j];
            if texts[j] != [] {
              acc := acc + texts[j];
            } else {
              assert Fragments(texts[..j + 1]) == Fragments(texts[..j]) + [];
            }
            j := j + 1;
          }
          assert texts[..j] == texts;
      }
      i := i + 1;
    }
    assert stream[..i] == stream;
    r := Finished(acc);
  }

  // ---------------------------------------------------------------------
  // execute and cancel
  // ---------------------------------------------------------------------

  /** The text sent to the model: the user's text as it is, or, with an
      action, the text and the directive on two lines, stripped. */
  function Prompt(userInput: PyStr, action: Option<PyStr>): (r: PyStr)
    ensures action.None? ==> r == userInput
    ensures action.Some? && action.value != [] && !IsSpace(action.value[0]) && !IsSpace(action.value[|action.value| - 1])
            ==> r == if AllSpace(userInput) then action.value else LStrip(userInput) + Newline + action.value
  {
    match action
    case None => userInput
    case Some(d) =>
      if d != [] && !IsSpace(d[0]) && !IsSpace(d[|d| - 1]) then
        StripJoinedLine(userInput, d);
        Strip(userInput + Newline + d)
      else
        Strip(userInput + Newline + d)
  }

  /** The final status update for the run's outcome. */
  function Terminal(task: Task, result: RunResult): (e: QueueEvent)
    ensures e.StatusUpdate? && e.final && e.taskId == task.id && e.contextId == task.contextId
    ensures e.message.Some? && e.message.value.contextId == task.contextId && e.message.value.taskId == task.id
    ensures e.state == Failed <==> result.Errored?
    ensures result.Errored? ==> e.message.value.parts == [TextPart(Cp("Error: ") + result.message)]
    ensures result.Finished? ==> e.state == Completed && e.message.value.parts == ProcessLlmOutput(result.text)
  {
    match result
    case Errored(m) =>
      StatusUpdate(task.id, task.contextId, Failed, Some(AgentMessage([TextPart(Cp("Error: ") + m)], task.contextId, task.id)), true)
    case Finished(text) =>
      StatusUpdate(task.id, task.contextId, Completed, Some(AgentMessage(ProcessLlmOutput(text), task.contextId, task.id)), true)
  }

  /** The events before the model runs: the task, when it is new, then
      `working`. */
  function Started(currentTask: Option<Task>, newTask: Task): (evs: seq<QueueEvent>)
    ensures |evs| == if currentTask.None? then 2 else 1
    ensures currentTask.None? ==> evs[0] == TaskCreated(newTask)
    ensures var task := currentTask.GetOr(newTask);
            evs[|evs| - 1] == StatusUpdate(task.id, task.contextId, Working, None, false)
    ensures forall i :: 0 <= i < |evs| ==> !IsFinal(evs[i])
  {
    var task := currentTask.GetOr(newTask);
    (if currentTask.None? then [TaskCreated(task)] else [])
    + [StatusUpdate(task.id, task.contextId, Working, None, false)]
  }

  /** The events `execute` enqueues once the parts have yielded `action`, or
      the exception the payload raised. */
  function EventsFor(runner: (PyStr, PyStr) -> seq<RunnerEvent>, userInput: PyStr, action: Outcome<Option<PyStr>>,
                     currentTask: Option<Task>, newTask: Task, contextId: PyStr): (r: Outcome<seq<QueueEvent>>)
    ensures action.Raises? ==> r == Raises(action.error)
    ensures action.Value? ==> r.Value? && (r.value == [] <==> userInput == [] && action.value.None?)
    ensures action.Value? && r.value != [] ==>
              r.value[..|r.value| - 1] == Started(currentTask, newTask) && IsFinal(r.value[|r.value| - 1])
  {
    match action
    case Raises(e) => Raises(e)
    case Value(a) =>
      if userInput == [] && a.None? then Value([])
      else
        var stream := runner(contextId, Prompt(userInput, a));
        Value(Started(currentTask, newTask) + [Terminal(currentTask.GetOr(newTask), Accumulated(stream))])
  }

  /** The events one call of `execute` enqueues, or the exception it raises. */
  function ExecuteEvents(runner: (PyStr, PyStr) -> seq<RunnerEvent>, userInput: PyStr, parts: seq<InPart>,
                         currentTask: Option<Task>, newTask: Task, contextId: PyStr): (r: Outcome<seq<QueueEvent>>)
    ensures r.Raises? <==> UserActionOf(parts).Raises?
    ensures r.Raises? ==> IsShapeError(r.error)
  {
    EventsFor(runner, userInput, UserActionOf(parts), currentTask, newTask, contextId)
  }

  predicate IsFinal(e: QueueEvent) {
    e.StatusUpdate? && e.final
  }

  /** With no text and no action, `execute` does nothing at all. */
  lemma NoInputNoEvents(runner: (PyStr, PyStr) -> seq<RunnerEvent>, userInput: PyStr, parts: seq<InPart>,
                        currentTask: Option<Task>, newTask: Task, contextId: PyStr)
    requires userInput == [] && UserActionOf(parts) == Value(None)
    ensures ExecuteEvents(runner, userInput, parts, currentTask, newTask, contextId) == Value([])
  {
  }

  /** Otherwise the task is created if it did not exist, set to `working`, and
      then ends in exactly one final state: `failed` exactly when the model run
      raised, `completed` otherwise. */
  lemma Lifecycle(runner: (PyStr, PyStr) -> seq<RunnerEvent>, userInput: PyStr, parts: seq<InPart>,
                  currentTask: Option<Task>, newTask: Task, contextId: PyStr)
    requires UserActionOf(parts).Value?
    requires userInput != [] || UserActionOf(parts).value.Some?
    ensures var evs := ExecuteEvents(runner, userInput, parts, currentTask, newTask, contextId).value;
            var task := currentTask.GetOr(newTask);
            var stream := runner(contextId, Prompt(userInput, UserActionOf(parts).value));
            && |evs| == (if currentTask.None? then 3 else 2)
            && (currentTask.None? ==> evs[0] == TaskCreated(newTask))
            && evs[|evs| - 2] == StatusUpdate(task.id, task.contextId, Working, None, false)
            && (forall i :: 0 <= i < |evs| ==> (IsFinal(evs[i]) <==> i == |evs| - 1))
            && (evs[|evs| - 1].state == Failed <==> exists i :: 0 <= i < |stream| && stream[i].RunnerError?)
  {
    var stream := runner(contextId, Prompt(userInput, UserActionOf(parts).value));
    var pre := Started(currentTask, newTask);
    var last := Terminal(currentTask.GetOr(newTask), Accumulated(stream));
    var evs := pre + [last];
    assert ExecuteEvents(runner, userInput, parts, currentTask, newTask, contextId).value == evs;
    assert forall i :: 0 <= i < |pre| ==> evs[i] == pre[i];
    AccumulatedErrors(stream);
  }

  /** The run fails exactly when some event of the stream is an error. */
  lemma {:induction false} AccumulatedErrors(stream: seq<RunnerEvent>)
    ensures Accumulated(stream).Errored? <==> exists i :: 0 <= i < |stream| && stream[i].RunnerError?
    decreases |stream|
  {
    if stream != [] {
      var init := stream[..|stream| - 1];
      AccumulatedErrors(init);
      if exists i :: 0 <= i < |init| && init[i].RunnerError? {
        var i :| 0 <= i < |init| && init[i].RunnerError?;
        assert stream[i] == init[i];
      }
      if exists i :: 0 <= i < |stream| && stream[i].RunnerError? {
        var i :| 0 <= i < |stream| && stream[i].RunnerError?;
        if i < |init| { assert init[i] == stream[i]; }
      }
    }
  }

  /** With an action, the prompt is the directive alone when the user's text
      is blank, and otherwise that text without its leading whitespace, a
      line feed and the directive. */
  lemma PromptWithAction(userInput: PyStr, parts: seq<InPart>)
    requires UserActionOf(parts).Value? && UserActionOf(parts).value.Some?
    ensures var d := UserActionOf(parts).value.value;
            Prompt(userInput, Some(d)) == if AllSpace(userInput) then d else LStrip(userInput) + Newline + d
  {
    ActionDirectiveEnds(ActionPayload(parts[FirstActionPart(parts).value]));
    StripJoinedLine(userInput, UserActionOf(parts).value.value);
  }

  /** The names `agent_executor.py` binds at module level: its imports and its
      own definitions. */
  const ModuleNames: set<string> := {
    "json", "logging", "re", "a2a_types", "AgentExecutor", "RequestContext", "EventQueue",
    "TaskUpdater", "UnsupportedOperationError", "Task", "new_agent_parts_message", "new_task",
    "Runner", "Aclosing", "types", "create_a2ui_part", "try_activate_a2ui_extension", "logger",
    "process_llm_output_to_a2ui_parts", "A2UIAgentExecutor"}

  /** Evaluating `raise ServerError(error=UnsupportedOperationError())` where
      the global names are `names`: the name `ServerError` is looked up first. */
  function RaiseServerError(names: set<string>): (e: PyError)
    ensures "ServerError" in names ==> e == ServerError
    ensures "ServerError" !in names ==> e == NameError(Cp("ServerError"))
  {
    if "ServerError" in names then ServerError else NameError(Cp("ServerError"))
  }

  class A2uiAgentExecutor {
    /** The model run: from the session id and the prompt, the events the run
        streams. */
    const runner: (PyStr, PyStr) -> seq<RunnerEvent>

    constructor(runner: (PyStr, PyStr) -> seq<RunnerEvent>)
      ensures this.runner == runner
    {
      this.runner := runner;
    }

    /** `execute`: `userInput` is the text of the request's message, `parts`
        its parts, `currentTask` the task the request continues, `newTask` the
        one `new_task` would create and `contextId` the request's context. */
    method Execute(userInput: PyStr, parts: seq<InPart>, currentTask: Option<Task>, newTask: Task,
                   contextId: PyStr, queue: EventQueue) returns (r: Outcome<()>)
      modifies queue
      ensures match ExecuteEvents(runner, userInput, parts, currentTask, newTask, contextId)
              case Raises(e) => r == Raises(e) && queue.events == old(queue.events)
              case Value(evs) => r == Value(()) && queue.events == old(queue.events) + evs
    {
      var action := ExtractUserAction(parts);
      r := Respond(userInput, action, currentTask, newTask, contextId, queue);
    }

    /** The rest of `execute`, given what the parts yielded: return at once on
        an exception or when there is neither text nor action, and otherwise
        go ahead. */
    method Respond(userInput: PyStr, action: Outcome<Option<PyStr>>, currentTask: Option<Task>, newTask: Task,
                   contextId: PyStr, queue: EventQueue) returns (r: Outcome<()>)
      modifies queue
      ensures match EventsFor(runner, userInput, action, currentTask, newTask, contextId)
              case Raises(e) => r == Raises(e) && queue.events == old(queue.events)
              case Value(evs) => r == Value(()) && queue.events == old(queue.events) + evs
    {
      if action.Raises? {
        return Raises(action.error);
      }
      if userInput == [] && action.value.None? {
        return Value(());
      }
      Proceed(userInput, action.value, currentTask, newTask, contextId, queue);
      r := Value(());
    }

    /** What `execute` does once it has text or an action: start the task, run
        the model on the prompt and finish the task. */
    method Proceed(userInput: PyStr, action: Option<PyStr>, currentTask: Option<Task>, newTask: Task,
                   contextId: PyStr, queue: EventQueue)
      modifies queue
      ensures queue.events == old(queue.events) + Started(currentTask, newTask)
                + [Terminal(currentTask.GetOr(newTask), Accumulated(runner(contextId, Prompt(userInput, action))))]
    {
      var task := currentTask.GetOr(newTask);
      if currentTask.None? {
        queue.Enqueue(TaskCreated(task));
      }
      var updater := new TaskUpdater(queue, task.id, task.contextId);
      updater.UpdateStatus(Working, None, false);
      assert queue.events == old(queue.events) + Started(currentTask, newTask);
      var msgText := userInput;
      if action.Some? {
        msgText := Strip(msgText + Newline + action.value);
      }
      assert msgText == Prompt(userInput, action);
      RunAndFinish(updater, task, runner(contextId, msgText));
      assert updater.transitions == [Working, Terminal(task, Accumulated(runner(contextId, msgText))).state];
    }

    /** The model run and the one final status update that follows it. */
    method RunAndFinish(updater: TaskUpdater, task: Task, stream: seq<RunnerEvent>)
      requires updater.taskId == task.id && updater.contextId == task.contextId
      modifies updater, updater.queue
      ensures updater.queue.events == old(updater.queue.events) + [Terminal(task, Accumulated(stream))]
      ensures updater.transitions == old(updater.transitions) + [Terminal(task, Accumulated(stream)).state]
    {
      var result := AccumulateText(stream);
      match result {
        case Errored(m) =>
          updater.UpdateStatus(Failed, Some(AgentMessage([TextPart(Cp("Error: ") + m)], task.contextId, task.id)), true);
        case Finished(text) =>
          var finalParts := ProcessLlmOutput(text);
          updater.UpdateStatus(Completed, Some(AgentMessage(finalParts, task.contextId, task.id)), true);
      }
    }

    /** `cancel` as written: `ServerError` is never imported, so the call
        raises `NameError` before the intended error can be built. */
    method CancelAsWritten(queue: EventQueue) returns (r: Outcome<Option<Task>>)
      ensures r == Raises(RaiseServerError(ModuleNames))
    {
      r := Raises(RaiseServerError(ModuleNames));
    }

    /** `cancel` with `ServerError` imported: it always raises the
        unsupported-operation error, returns no task and enqueues nothing. */
    method Cancel(queue: EventQueue) returns (r: Outcome<Option<Task>>)
      ensures r == Raises(ServerError)
    {
      r := Raises(RaiseServerError(ModuleNames + {"ServerError"}));
    }
  }

  /** As written, cancelling raises `NameError`, not the unsupported-operation
      error: the name is missing from the module. */
  lemma CancelRaisesNameError()
    ensures RaiseServerError(ModuleNames) == NameError(Cp("ServerError"))
    ensures RaiseServerError(ModuleNames) != ServerError
  {
    assert "ServerError" !in ModuleNames;
  }
}
