/** `EventsManager`: a subscription filter in front of a FIFO queue, a
    consuming loop started by `start()`, and `end()`, which hands every
    queued event to `handle_event` before returning. `handled` records the
    calls of the `handle_event` hook, in order. */
module EventsManager {
  import opened Events

  /** Where the coroutine of `start()` is: not started, suspended in
      `queue.get()`, or returned. */
  datatype LoopState = NotStarted | Waiting | Exited

  datatype EventsManager = EventsManager(
    queue: seq<Event>,
    subscriptions: set<EventType>,
    active: bool,
    handled: seq<Event>,
    loop: LoopState)

  /** `EventsManager(subscriptions)`; the default subscription list is empty. */
  function NewEventsManager(subscriptions: seq<EventType>): (m: EventsManager)
    ensures m.queue == [] && m.handled == [] && !m.active && m.loop == NotStarted
    ensures forall t :: t in m.subscriptions <==> t in subscriptions
  {
    EventsManager([], set t | t in subscriptions, false, [], NotStarted)
  }

  /** `publish_event`: subscribed events join the tail of the queue, others
      are dropped. `active` is not consulted. */
  function PublishEvent(m: EventsManager, e: Event): (r: EventsManager)
    ensures e.Type() in m.subscriptions ==> r == m.(queue := m.queue + [e])
    ensures e.Type() !in m.subscriptions ==> r == m
  {
    if e.Type() in m.subscriptions then m.(queue := m.queue + [e]) else m
  }

  /** `start()`: set `active` and wait on the queue. */
  function Start(m: EventsManager): (r: EventsManager)
    ensures r.active && r.loop == Waiting
    ensures r.queue == m.queue && r.handled == m.handled && r.subscriptions == m.subscriptions
  {
    m.(active := true, loop := Waiting)
  }

  /** One turn of the `start()` loop once `queue.get()` returns: the head is
      handled, then the loop goes on only while `active`. */
  function LoopStep(m: EventsManager): (r: EventsManager)
    requires m.loop == Waiting && |m.queue| > 0
    ensures r.handled == m.handled + [m.queue[0]] && r.queue == m.queue[1..]
    ensures r.loop == (if m.active then Waiting else Exited)
    ensures r.active == m.active && r.subscriptions == m.subscriptions
  {
    m.(handled := m.handled + [m.queue[0]], queue := m.queue[1..], loop := if m.active then Waiting else Exited)
  }

  /** `end()`: clear `active`, then hand every queued event to
      `handle_event` in queue order until the queue is empty. */
  function End(m: EventsManager): (r: EventsManager)
    ensures !r.active && r.queue == []
    ensures r.handled == m.handled + m.queue
    ensures r.loop == m.loop && r.subscriptions == m.subscriptions
  {
    m.(active := false, handled := m.handled + m.queue, queue := [])
  }

  /** With no subscriptions, every publish is dropped. */
  lemma DefaultDropsEverything(e: Event)
    ensures PublishEvent(NewEventsManager([]), e) == NewEventsManager([])
  {
  }

  /** A second `end()` handles nothing more. */
  lemma EndTwice(m: EventsManager)
    ensures End(End(m)) == End(m)
  {
  }

  /** Publishing after `end()` still enqueues a subscribed event, and a
      coroutine of `start()` still suspended in `queue.get()` handles it
      before it notices that `active` is false. */
  lemma PublishAfterEnd(m: EventsManager, e: Event)
    requires m.loop == Waiting && e.Type() in m.subscriptions
    ensures var r := PublishEvent(End(m), e);
      r.queue == [e] && !r.active
      && LoopStep(r).handled == m.handled + m.queue + [e] && LoopStep(r).loop == Exited
  {
  }

  /** The `start()` loop of an active manager, run until the queue is empty. */
  function RunLoop(m: EventsManager): (r: EventsManager)
    requires m.loop == Waiting && m.active
    ensures r.loop == Waiting && r.active && r.queue == []
    decreases |m.queue|
  {
    if |m.queue| == 0 then m else RunLoop(LoopStep(m))
  }

  /** While active, the loop hands the queued events to `handle_event` in
      queue order, each exactly once. */
  lemma {:induction false} RunLoopFifo(m: EventsManager)
    requires m.loop == Waiting && m.active
    ensures RunLoop(m).handled == m.handled + m.queue
    decreases |m.queue|
  {
    if |m.queue| > 0 {
      RunLoopFifo(LoopStep(m));
      assert m.queue == [m.queue[0]] + m.queue[1..];
    }
  }

  /** Subscribed events published before `end()` are all handled by it,
      after the events already queued and in publication order. */
  lemma {:induction false} PublishThenEndHandlesAll(m: EventsManager, es: seq<Event>)
    requires forall i :: 0 <= i < |es| ==> es[i].Type() in m.subscriptions
    ensures End(PublishAll(m, es)).handled == m.handled + m.queue + es
  {
    PublishAllAppends(m, es);
  }

  function PublishAll(m: EventsManager, es: seq<Event>): EventsManager
    decreases |es|
  {
    if |es| == 0 then m else PublishAll(PublishEvent(m, es[0]), es[1..])
  }

  lemma {:induction false} PublishAllAppends(m: EventsManager, es: seq<Event>)
    requires forall i :: 0 <= i < |es| ==> es[i].Type() in m.subscriptions
    ensures PublishAll(m, es) == m.(queue := m.queue + es)
    decreases |es|
  {
    if |es| > 0 {
      var m1 := PublishEvent(m, es[0]);
      PublishAllAppends(m1, es[1..]);
      assert m1.queue + es[1..] == m.queue + es;
    }
  }
}
