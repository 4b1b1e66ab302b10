/** How `runInference` (agent/agent.go) decides the outcome of a streamed
    inference call: a `select` over the consuming goroutine's `done` and `errCh`
    channels, the caller's context and the agent's shutdown channel. The
    streaming itself and the scheduling of the goroutine are not modelled: a
    call is described by where the goroutine stands when the `select` wakes. */
module Arbiter {
  import opened Results
  import opened Events
  import opened Conversation

  /** The fragment-consuming goroutine: still running, finished reading the
      stream, or stopped on an error (accumulation, context or stream). */
  datatype Task = Running | Drained | Stopped(error: string)

  /** Signals from outside the goroutine. */
  datatype Signal = NoSignal | ContextDone(cause: string) | ShuttingDown

  /** A call at the moment the `select` wakes: the stream could not be opened,
      or it was opened and the goroutine had folded `accumulated` so far. */
  datatype Call = OpenFailed(error: string) | Streaming(accumulated: seq<Block>, task: Task, signal: Signal)

  /** The four cases of the `select`. */
  datatype Case = DoneCase | ErrCase | ContextCase | ShutdownCase

  function SignalCases(s: Signal): set<Case> {
    match s
    case NoSignal => {}
    case ContextDone(_) => {ContextCase}
    case ShuttingDown => {ShutdownCase}
  }

  /** What a case returns. */
  function CaseOutcome(accumulated: seq<Block>, task: Task, signal: Signal, c: Case): Result<seq<Block>, string> {
    match c
    case DoneCase => Ok(accumulated)
    case ErrCase => Err(if task.Stopped? then task.error else "")
    case ContextCase => Err("operation cancelled: " + (if signal.ContextDone? then signal.cause else ""))
    case ShutdownCase => Err("agent shutting down")
  }

  /** The cases ready as the code is written: the goroutine's deferred cleanup
      closes `done` however the goroutine ends, after it has put any error on
      `errCh`. */
  function ReadyAsWritten(task: Task, signal: Signal): (r: set<Case>)
    ensures task.Stopped? ==> DoneCase in r && ErrCase in r
    ensures DoneCase in r <==> task != Running
  {
    (if task != Running then {DoneCase} else {})
    + (if task.Stopped? then {ErrCase} else {})
    + SignalCases(signal)
  }

  /** The outcome as written: Go's `select` takes any ready case, chosen at
      random, here the scripted `pick`. */
  function SelectAsWritten(call: Call, pick: Case): (r: Result<seq<Block>, string>)
    requires call.Streaming? ==> pick in ReadyAsWritten(call.task, call.signal)
    ensures call.OpenFailed? ==> r == Err(call.error)
    ensures r.Ok? ==> call.Streaming? && call.task != Running && r.value == call.accumulated
  {
    match call
    case OpenFailed(e) => Err(e)
    case Streaming(acc, task, signal) => CaseOutcome(acc, task, signal, pick)
  }

  /** As written, a call whose task stopped on an accumulation error can
      return the partly accumulated message as a success. */
  lemma StoppedTaskCanSucceedAsWritten(partial: seq<Block>, error: string)
    ensures DoneCase in ReadyAsWritten(Stopped(error), NoSignal)
    ensures SelectAsWritten(Streaming(partial, Stopped(error), NoSignal), DoneCase) == Ok(partial)
  {
  }

  /** The cases ready when `done` is closed only after the stream was read to
      its end, so an error is reported through `errCh` alone. */
  function Ready(task: Task, signal: Signal): (r: set<Case>)
    ensures task == Running ==> r == SignalCases(signal)
    ensures DoneCase in r <==> task == Drained
    ensures ErrCase in r <==> task.Stopped?
  {
    (if task == Drained then {DoneCase} else {})
    + (if task.Stopped? then {ErrCase} else {})
    + SignalCases(signal)
  }

  /** The outcome of an inference call: a message only when the whole stream
      was read, the goroutine's error when it stopped and nothing else fired, a
      cancellation or shutdown error when that fired while the goroutine ran. */
  function Select(call: Call, pick: Case): (r: Result<seq<Block>, string>)
    requires call.Streaming? ==> pick in Ready(call.task, call.signal)
    ensures call.OpenFailed? ==> r == Err(call.error)
    ensures r.Ok? ==> call.Streaming? && call.task == Drained && r.value == call.accumulated
    ensures call.Streaming? && call.task.Stopped? && call.signal == NoSignal ==> r == Err(call.task.error)
    ensures call.Streaming? && call.task == Running && call.signal == ShuttingDown ==> r == Err("agent shutting down")
    ensures call.Streaming? && call.task == Running && call.signal.ContextDone? ==>
              r == Err("operation cancelled: " + call.signal.cause)
  {
    match call
    case OpenFailed(e) => Err(e)
    case Streaming(acc, task, signal) => CaseOutcome(acc, task, signal, pick)
  }

  /** The model turn the inference call as written hands to the
      conversation loop: a success carries the accumulated message of a
      goroutine that has ended, but not necessarily one that was drained. */
  function TurnOfAsWritten(fragments: seq<StreamEvent>, call: Call, pick: Case): (t: Turn)
    requires call.Streaming? ==> pick in ReadyAsWritten(call.task, call.signal)
    ensures t.response.Ok? ==> call.Streaming? && call.task != Running && t.response.value == call.accumulated
    ensures call.OpenFailed? ==> t.response == Err(call.error) && t.fragments == []
  {
    Turn(if call.OpenFailed? then [] else fragments, SelectAsWritten(call, pick))
  }

  /** As written, the conversation loop can be handed a successful turn for
      a stream that stopped on an error. */
  lemma StoppedTurnSucceedsAsWritten(fragments: seq<StreamEvent>, partial: seq<Block>, error: string)
    ensures TurnOfAsWritten(fragments, Streaming(partial, Stopped(error), NoSignal), DoneCase) == Turn(fragments, Ok(partial))
  {
    StoppedTaskCanSucceedAsWritten(partial, error);
  }

  /** The model turn the corrected inference call hands to the conversation
      loop. */
  function TurnOf(fragments: seq<StreamEvent>, call: Call, pick: Case): (t: Turn)
    requires call.Streaming? ==> pick in Ready(call.task, call.signal)
    ensures t.response.Ok? ==> call.Streaming? && call.task == Drained
  {
    Turn(if call.OpenFailed? then [] else fragments, Select(call, pick))
  }
}
