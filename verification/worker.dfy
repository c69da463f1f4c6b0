/** The worker framework, reduced to its sequential effect: the input queue
    and lifecycle of an `AsyncWorker`, the FIFO loop of an `AsyncQueueWorker`,
    `InterruptibleEvent`, and the loop of an `InterruptibleWorker` as a state
    machine whose steps are the points where the asyncio loop resumes.

    Python objects with identity (events and the `threading.Event` signals
    they may share) live in a `Store` and are referred to by index. */
module Worker {
  import opened Common

  // ---------------------------------------------------------------------------
  // AsyncWorker

  /** The asyncio task running a worker's loop, as far as `terminate` sees it. */
  datatype LoopTask = NotStarted | Pending(cancelRequested: bool) | Done

  datatype AsyncWorker<T> = AsyncWorker(inputQueue: seq<T>, workerTask: LoopTask)

  /** The constructor adopts the caller's queue, which a producer may share
      and which need not be empty; no task runs yet. */
  function NewAsyncWorker<T>(inputQueue: seq<T>): (w: AsyncWorker<T>)
    ensures w.inputQueue == inputQueue && w.workerTask.NotStarted?
  {
    AsyncWorker(inputQueue, NotStarted)
  }

  /** `terminate()` before `start()` reports False and changes nothing. */
  lemma TerminateBeforeStart<T>(inputQueue: seq<T>)
    ensures Terminate(NewAsyncWorker(inputQueue)) == (NewAsyncWorker(inputQueue), false)
  {
  }

  function Start<T>(w: AsyncWorker<T>): (r: AsyncWorker<T>)
    ensures r.workerTask == Pending(false) && r.inputQueue == w.inputQueue
  {
    w.(workerTask := Pending(false))
  }

  /** `send_nonblocking`: the item joins the tail of the input queue. */
  function SendNonblocking<T>(w: AsyncWorker<T>, item: T): (r: AsyncWorker<T>)
    ensures |r.inputQueue| == |w.inputQueue| + 1
    ensures r.inputQueue[..|w.inputQueue|] == w.inputQueue && r.inputQueue[|w.inputQueue|] == item
    ensures r.workerTask == w.workerTask
  {
    w.(inputQueue := w.inputQueue + [item])
  }

  /** `terminate`: without a started task it returns False; otherwise it is
      `Task.cancel()`, which is True exactly while the task is not done. */
  function Terminate<T>(w: AsyncWorker<T>): (r: (AsyncWorker<T>, bool))
    ensures r.1 <==> w.workerTask.Pending?
    ensures r.1 ==> r.0.workerTask == Pending(true)
    ensures !r.1 ==> r.0 == w
    ensures r.0.inputQueue == w.inputQueue
  {
    match w.workerTask
    case NotStarted => (w, false)
    case Done => (w, false)
    case Pending(_) => (w.(workerTask := Pending(true)), true)
  }

  /** Terminating twice reports the same as terminating once, and leaves the
      same state. */
  lemma TerminateIdempotent<T>(w: AsyncWorker<T>)
    ensures Terminate(Terminate(w).0) == Terminate(w)
  {
  }

  // ---------------------------------------------------------------------------
  // AsyncQueueWorker

  /** How one call of `process` ended. `CancelledOut` is an
      `asyncio.CancelledError` leaving `process`. */
  datatype Outcome = Returned | RaisedException | CancelledOut

  /** The items an `AsyncQueueWorker` loop takes, in order, when its queue
      holds `queue` and `process` ends each item as `outcome` says: an
      ordinary exception is logged and the loop goes on; a cancellation ends
      the loop. */
  function QueueWorkerHandles<T>(queue: seq<T>, outcome: T -> Outcome): seq<T>
  {
    if |queue| == 0 then []
    else if outcome(queue[0]) == CancelledOut then [queue[0]]
    else [queue[0]] + QueueWorkerHandles(queue[1..], outcome)
  }

  /** `AsyncQueueWorker._run_loop` over the items already queued: it returns
      the items handed to `process` and the items still queued. */
  method RunQueueWorker<T>(queue: seq<T>, outcome: T -> Outcome) returns (handled: seq<T>, remaining: seq<T>)
    ensures handled + remaining == queue
    ensures forall i :: 0 <= i < |handled| - 1 ==> outcome(handled[i]) != CancelledOut
    ensures |remaining| > 0 ==> |handled| > 0 && outcome(handled[|handled| - 1]) == CancelledOut
    ensures handled == QueueWorkerHandles(queue, outcome)
  {
    handled := [];
    remaining := queue;
    var stopped := false;
    while |remaining| > 0 && !stopped
      invariant handled + remaining == queue
      invariant forall i :: 0 <= i < |handled| - 1 ==> outcome(handled[i]) != CancelledOut
      invariant stopped <==> |handled| > 0 && outcome(handled[|handled| - 1]) == CancelledOut
      invariant !stopped ==> handled + QueueWorkerHandles(remaining, outcome) == QueueWorkerHandles(queue, outcome)
      invariant stopped ==> handled == QueueWorkerHandles(queue, outcome)
      decreases |remaining|
    {
      var item := remaining[0];
      if outcome(item) == CancelledOut {
        assert QueueWorkerHandles(remaining, outcome) == [item];
        stopped := true;
      } else {
        assert QueueWorkerHandles(remaining, outcome) == [item] + QueueWorkerHandles(remaining[1..], outcome);
        assert handled + QueueWorkerHandles(remaining, outcome)
            == (handled + [item]) + QueueWorkerHandles(remaining[1..], outcome);
      }
      handled := handled + [item];
      remaining := remaining[1..];
    }
  }

  /** When no item's processing is cancelled, every queued item is handled,
      in FIFO order: exceptions do not stop the loop. */
  lemma {:induction false} QueueWorkerFifo<T>(queue: seq<T>, outcome: T -> Outcome)
    requires forall i :: 0 <= i < |queue| ==> outcome(queue[i]) != CancelledOut
    ensures QueueWorkerHandles(queue, outcome) == queue
  {
    if |queue| > 0 {
      QueueWorkerFifo(queue[1..], outcome);
    }
  }

  // ---------------------------------------------------------------------------
  // InterruptibleEvent

  datatype InterruptibleEvent<P> = InterruptibleEvent(payload: P, isInterruptible: bool, signal: nat)

  /** Every event and every `threading.Event`, by identity; `signals[i]` says
      whether signal `i` is set. */
  datatype Store<P> = Store(signals: seq<bool>, events: seq<InterruptibleEvent<P>>)

  ghost predicate ValidStore<P>(st: Store<P>)
  {
    forall i :: 0 <= i < |st.events| ==> st.events[i].signal < |st.signals|
  }

  predicate IsEvent<P>(st: Store<P>, e: nat)
  {
    e < |st.events| && st.events[e].signal < |st.signals|
  }

  /** `InterruptibleEvent(payload, is_interruptible, interruption_event)`: the
      event shares `shared` when it is given, and otherwise gets a fresh,
      unset signal. The new event is the last one of the store. */
  function NewEvent<P>(st: Store<P>, payload: P, isInterruptible: bool, shared: Option<nat>): (r: Store<P>)
    requires shared.Some? ==> shared.value < |st.signals|
    ensures |r.events| == |st.events| + 1 && r.events[..|st.events|] == st.events
    ensures var e := r.events[|st.events|];
      e.payload == payload && e.isInterruptible == isInterruptible && e.signal < |r.signals|
      && (shared.Some? ==> e.signal == shared.value && r.signals == st.signals)
      && (shared.None? ==> e.signal == |st.signals| && r.signals == st.signals + [false])
  {
    match shared
    case Some(s) => st.(events := st.events + [InterruptibleEvent(payload, isInterruptible, s)])
    case None => Store(st.signals + [false],
                       st.events + [InterruptibleEvent(payload, isInterruptible, |st.signals|)])
  }

  /** `is_interrupted()`: interruptible and signalled. */
  predicate IsInterrupted<P>(st: Store<P>, e: nat)
    requires IsEvent(st, e)
  {
    st.events[e].isInterruptible && st.signals[st.events[e].signal]
  }

  /** An event reads as interrupted exactly when it is interruptible and a
      further `interrupt()` would change nothing: its signal is already set. */
  lemma InterruptedIffInterruptIsNoOp<P>(st: Store<P>, e: nat)
    requires IsEvent(st, e)
    ensures IsInterrupted(st, e) <==> st.events[e].isInterruptible && Interrupt(st, e).0 == st
  {
    var sig := st.events[e].signal;
    if st.events[e].isInterruptible && !st.signals[sig] {
      assert Interrupt(st, e).0.signals[sig] != st.signals[sig];
    }
  }

  /** A new event with the default arguments is interruptible and not
      interrupted. */
  lemma NewEventDefaults<P>(st: Store<P>, payload: P)
    ensures var r := NewEvent(st, payload, true, None);
      IsEvent(r, |st.events|) && r.events[|st.events|].isInterruptible && !IsInterrupted(r, |st.events|)
  {
  }

  /** `interrupt()`: a non-interruptible event refuses and changes nothing;
      otherwise its signal is set and the call returns True. */
  function Interrupt<P>(st: Store<P>, e: nat): (r: (Store<P>, bool))
    requires IsEvent(st, e)
    ensures r.1 <==> st.events[e].isInterruptible
    ensures !r.1 ==> r.0 == st
    ensures r.0.events == st.events && |r.0.signals| == |st.signals|
    ensures r.1 ==> IsInterrupted(r.0, e)
    ensures forall i :: 0 <= i < |st.signals| && i != st.events[e].signal ==> r.0.signals[i] == st.signals[i]
  {
    if !st.events[e].isInterruptible then (st, false)
    else (st.(signals := st.signals[st.events[e].signal := true]), true)
  }

  /** Interrupting twice is interrupting once. */
  lemma InterruptIdempotent<P>(st: Store<P>, e: nat)
    requires IsEvent(st, e)
    ensures var r := Interrupt(st, e);
      IsEvent(r.0, e) && Interrupt(r.0, e) == r
  {
    var r := Interrupt(st, e);
    var sig := st.events[e].signal;
    if st.events[e].isInterruptible {
      assert r.0.signals[sig := true] == r.0.signals;
    }
  }

  /** Events built on one shared signal are interrupted together. */
  lemma SharedSignalInterruptsBoth<P>(st: Store<P>, a: nat, b: nat)
    requires IsEvent(st, a) && IsEvent(st, b)
    requires st.events[a].signal == st.events[b].signal
    requires st.events[a].isInterruptible && st.events[b].isInterruptible
    ensures IsEvent(Interrupt(st, a).0, b) && IsInterrupted(Interrupt(st, a).0, b)
  {
  }

  /** Marking an event non-interruptible (as the worker does when its task
      ends). */
  function MarkNonInterruptible<P>(st: Store<P>, e: nat): (r: Store<P>)
    requires IsEvent(st, e)
    ensures IsEvent(r, e) && !r.events[e].isInterruptible && !IsInterrupted(r, e)
    ensures r.signals == st.signals && |r.events| == |st.events|
    ensures forall i :: 0 <= i < |st.events| && i != e ==> r.events[i] == st.events[i]
    ensures r.events[e].payload == st.events[e].payload && r.events[e].signal == st.events[e].signal
  {
    st.(events := st.events[e := st.events[e].(isInterruptible := false)])
  }

  /** After it is marked non-interruptible, an event is no longer reported
      interrupted even if its signal was set, and a later `interrupt()`
      returns False. */
  lemma NonInterruptibleIgnoresSignal<P>(st: Store<P>, e: nat)
    requires IsEvent(st, e) && st.signals[st.events[e].signal]
    ensures var r := MarkNonInterruptible(st, e);
      !IsInterrupted(r, e) && Interrupt(r, e) == (r, false)
  {
  }

  // ---------------------------------------------------------------------------
  // InterruptibleWorker

  datatype TaskStatus = Running | Finished(outcome: Outcome)

  /** The asyncio task created for one event. */
  datatype Task = Task(event: nat, status: TaskStatus, cancelRequested: bool)

  /** `current` is `current_task`, `lastEvent` is `interruptible_event`
      (which keeps pointing at the last event after its task is cleared), and
      `processed` lists the events handed to `process`, in order. */
  datatype InterruptibleWorker = InterruptibleWorker(
    base: AsyncWorker<nat>,
    current: Option<Task>,
    lastEvent: Option<nat>,
    processed: seq<nat>)

  /** A new worker on the caller's queue of events: no current task, no
      `interruptible_event` yet, nothing processed. */
  function NewInterruptibleWorker(inputQueue: seq<nat>): (w: InterruptibleWorker)
    ensures w.base.inputQueue == inputQueue && w.base.workerTask.NotStarted?
    ensures w.current.None? && w.lastEvent.None? && w.processed == []
  {
    InterruptibleWorker(NewAsyncWorker(inputQueue), None, None, [])
  }

  /** The worker's standing invariant: at most one task, and it belongs to
      `interruptible_event`; every queued or processed id is an event. */
  ghost predicate WorkerInv<P>(w: InterruptibleWorker, st: Store<P>)
  {
    && ValidStore(st)
    && (w.current.Some? ==> w.lastEvent == Some(w.current.value.event))
    && (w.lastEvent.Some? ==> w.lastEvent.value < |st.events|)
    && (forall i :: 0 <= i < |w.base.inputQueue| ==> w.base.inputQueue[i] < |st.events|)
  }

  /** A new worker over a queue of known events satisfies the invariant. */
  lemma NewWorkerInv<P>(inputQueue: seq<nat>, st: Store<P>)
    requires ValidStore(st)
    requires forall i :: 0 <= i < |inputQueue| ==> inputQueue[i] < |st.events|
    ensures WorkerInv(NewInterruptibleWorker(inputQueue), st)
  {
  }

  /** The loop is waiting on the input queue and can take the head. */
  predicate CanDequeue(w: InterruptibleWorker)
  {
    w.base.workerTask.Pending? && w.current.None? && |w.base.inputQueue| > 0
  }

  /** One dequeue: an event already interrupted is dropped unprocessed;
      otherwise it becomes `interruptible_event` and its task starts. */
  function Dequeue<P>(w: InterruptibleWorker, st: Store<P>): (r: InterruptibleWorker)
    requires CanDequeue(w) && WorkerInv(w, st)
    ensures r.base.inputQueue == w.base.inputQueue[1..]
    ensures var e := w.base.inputQueue[0];
      if IsInterrupted(st, e) then r.current.None? && r.processed == w.processed && r.lastEvent == w.lastEvent
      else r.current == Some(Task(e, Running, false)) && r.processed == w.processed + [e] && r.lastEvent == Some(e)
    ensures WorkerInv(r, st)
  {
    var e := w.base.inputQueue[0];
    var w' := w.(base := w.base.(inputQueue := w.base.inputQueue[1..]));
    if IsInterrupted(st, e) then w'
    else w'.(current := Some(Task(e, Running, false)), lastEvent := Some(e), processed := w.processed + [e])
  }

  /** The running task ends (the environment decides how). */
  function TaskEnds(w: InterruptibleWorker, outcome: Outcome): (r: InterruptibleWorker)
    requires w.current.Some? && w.current.value.status == Running
    ensures r.current == Some(w.current.value.(status := Finished(outcome)))
    ensures r.base == w.base && r.lastEvent == w.lastEvent && r.processed == w.processed
  {
    w.(current := Some(w.current.value.(status := Finished(outcome))))
  }

  /** The loop resumes after `await self.current_task`. A cancellation that
      escaped the task makes the loop return at once, leaving the task and
      its event as they are; otherwise the event becomes non-interruptible
      and `current_task` is cleared. */
  function Resume<P>(w: InterruptibleWorker, st: Store<P>): (r: (InterruptibleWorker, Store<P>))
    requires WorkerInv(w, st) && w.base.workerTask.Pending?
    requires w.current.Some? && w.current.value.status.Finished?
    ensures var e := w.current.value.event;
      if w.current.value.status.outcome == CancelledOut then
        r.0 == w.(base := w.base.(workerTask := Done)) && r.1 == st
      else
        && r.0 == w.(current := None)
        && IsEvent(r.1, e) && !r.1.events[e].isInterruptible
        && r.1.signals == st.signals && |r.1.events| == |st.events|
        && (forall i :: 0 <= i < |st.events| && i != e ==> r.1.events[i] == st.events[i])
    ensures WorkerInv(r.0, r.1)
  {
    var e := w.current.value.event;
    if w.current.value.status.outcome == CancelledOut then
      (w.(base := w.base.(workerTask := Done)), st)
    else
      (w.(current := None), MarkNonInterruptible(st, e))
  }

  /** `cancel_current_task()`: issues a cancellation only for a current,
      unfinished task whose event is still interruptible. */
  function CancelCurrentTask<P>(w: InterruptibleWorker, st: Store<P>): (r: (InterruptibleWorker, bool))
    requires WorkerInv(w, st)
    ensures r.1 <==>
      w.current.Some? && w.current.value.status == Running && st.events[w.current.value.event].isInterruptible
    ensures r.1 ==> r.0 == w.(current := Some(w.current.value.(cancelRequested := true)))
    ensures !r.1 ==> r.0 == w
  {
    if w.current.Some? && w.current.value.status == Running && st.events[w.lastEvent.value].isInterruptible then
      (w.(current := Some(w.current.value.(cancelRequested := true))), true)
    else (w, false)
  }

  /** Once a task has ended normally or by an ordinary exception and the loop
      has resumed, interrupting its event and cancelling the worker's task
      are both refused. */
  lemma FinishedTaskIsReleased<P>(w: InterruptibleWorker, st: Store<P>, outcome: Outcome)
    requires WorkerInv(w, st) && w.base.workerTask.Pending?
    requires w.current.Some? && w.current.value.status == Running && outcome != CancelledOut
    ensures var w1 := TaskEnds(w, outcome);
      var r := Resume(w1, st);
      var e := w.current.value.event;
      && WorkerInv(w1, st)
      && IsEvent(r.1, e) && Interrupt(r.1, e) == (r.1, false)
      && CancelCurrentTask(r.0, r.1) == (r.0, false)
  {
  }

  /** The loop of a started, idle worker run until its queue is empty, every
      task ending without an escaping cancellation: each event is dequeued
      and, unless interrupted, processed and then released. The queue ends
      empty, the invariant holds, and no event becomes interruptible again. */
  function Drain<P>(w: InterruptibleWorker, st: Store<P>, outcome: nat -> Outcome): (r: (InterruptibleWorker, Store<P>))
    requires WorkerInv(w, st) && w.base.workerTask.Pending? && w.current.None?
    requires forall i :: 0 <= i < |w.base.inputQueue| ==> outcome(w.base.inputQueue[i]) != CancelledOut
    ensures WorkerInv(r.0, r.1) && r.0.base.inputQueue == [] && r.0.current.None?
    ensures r.0.base.workerTask.Pending?
    ensures |r.1.events| == |st.events|
    ensures forall i :: 0 <= i < |st.events| && !st.events[i].isInterruptible ==> !r.1.events[i].isInterruptible
    decreases |w.base.inputQueue|
  {
    if |w.base.inputQueue| == 0 then (w, st)
    else
      var w1 := Dequeue(w, st);
      if w1.current.None? then Drain(w1, st, outcome)
      else
        var r := Resume(TaskEnds(w1, outcome(w1.current.value.event)), st);
        Drain(r.0, r.1, outcome)
  }

  /** The events of `queue` not interrupted in `st`, in order. */
  function NotInterrupted<P>(st: Store<P>, queue: seq<nat>): seq<nat>
    requires forall i :: 0 <= i < |queue| ==> IsEvent(st, queue[i])
  {
    if |queue| == 0 then []
    else if IsInterrupted(st, queue[0]) then NotInterrupted(st, queue[1..])
    else [queue[0]] + NotInterrupted(st, queue[1..])
  }

  lemma {:induction false} NotInterruptedAfterMark<P>(st: Store<P>, queue: seq<nat>, e: nat)
    requires ValidStore(st) && e < |st.events| && e !in queue
    requires forall i :: 0 <= i < |queue| ==> queue[i] < |st.events|
    ensures forall i :: 0 <= i < |queue| ==> IsEvent(MarkNonInterruptible(st, e), queue[i])
    ensures NotInterrupted(MarkNonInterruptible(st, e), queue) == NotInterrupted(st, queue)
  {
    if |queue| > 0 {
      NotInterruptedAfterMark(st, queue[1..], e);
    }
  }

  /** With a queue of distinct events, draining processes exactly the events
      that were not interrupted when the drain began, in queue order, and
      leaves each of them non-interruptible. */
  lemma {:induction false} DrainProcessesUninterrupted<P>(w: InterruptibleWorker, st: Store<P>, outcome: nat -> Outcome)
    requires WorkerInv(w, st) && w.base.workerTask.Pending? && w.current.None?
    requires forall i :: 0 <= i < |w.base.inputQueue| ==> outcome(w.base.inputQueue[i]) != CancelledOut
    requires forall i, j :: 0 <= i < j < |w.base.inputQueue| ==> w.base.inputQueue[i] != w.base.inputQueue[j]
    ensures var r := Drain(w, st, outcome);
      r.0.processed == w.processed + NotInterrupted(st, w.base.inputQueue)
      && forall e :: e in NotInterrupted(st, w.base.inputQueue) ==> e < |r.1.events| && !r.1.events[e].isInterruptible
    decreases |w.base.inputQueue|
  {
    var q := w.base.inputQueue;
    if |q| > 0 {
      var w1 := Dequeue(w, st);
      assert forall i :: 0 <= i < |w1.base.inputQueue| ==> w1.base.inputQueue[i] == q[i + 1];
      if w1.current.None? {
        DrainProcessesUninterrupted(w1, st, outcome);
      } else {
        var r := Resume(TaskEnds(w1, outcome(w1.current.value.event)), st);
        assert r.1 == MarkNonInterruptible(st, q[0]);
        assert q[0] !in q[1..] by {
          forall j | 0 <= j < |q[1..]| ensures q[1..][j] != q[0] {
            assert q[1..][j] == q[j + 1];
          }
        }
        NotInterruptedAfterMark(st, q[1..], q[0]);
        DrainProcessesUninterrupted(r.0, r.1, outcome);
        var rest := NotInterrupted(st, q[1..]);
        forall e | e in rest ensures e != q[0] {
          NotInterruptedSubset(st, q[1..], e);
        }
      }
    }
  }

  lemma {:induction false} NotInterruptedSubset<P>(st: Store<P>, queue: seq<nat>, e: nat)
    requires forall i :: 0 <= i < |queue| ==> IsEvent(st, queue[i])
    requires e in NotInterrupted(st, queue)
    ensures e in queue
  {
    if |queue| > 0 && e != queue[0] {
      NotInterruptedSubset(st, queue[1..], e);
    }
  }
}
