/**
 * The entry barrier: a two-state flag that starts closed. Opening it also
 * starts a timer that closes it later; the timers are modelled as a count of
 * closes still pending, and a timer going off as the step FireTimer.
 */
module Barrier {
  const DefaultPort := "/dev/ttyUSB0"

  datatype Status = Open | Closed

  /** The barrier's status together with the number of timers not yet fired. */
  datatype BarrierState = BarrierState(status: Status, pending: nat)

  /** What can happen to the barrier: an open, a direct close, or a timer going off. */
  datatype Event = OpenEvent | CloseEvent | TimerEvent

  const Initial := BarrierState(Closed, 0)

  /** The effect of one event; a timer event with no timer pending changes nothing. */
  function Step(s: BarrierState, e: Event): BarrierState {
    match e
    case OpenEvent => BarrierState(Open, s.pending + 1)
    case CloseEvent => BarrierState(Closed, s.pending)
    case TimerEvent => if s.pending > 0 then BarrierState(Closed, s.pending - 1) else s
  }

  /** The state after a sequence of events, in order. */
  function Run(s: BarrierState, events: seq<Event>): BarrierState
    decreases |events|
  {
    if events == [] then s else Run(Step(s, events[0]), events[1..])
  }

  /** An open barrier always has a close pending: it is never left open for good. */
  ghost predicate Safe(s: BarrierState) {
    s.status == Open ==> s.pending > 0
  }

  /** Every event keeps the barrier safe. */
  lemma StepSafe(s: BarrierState, e: Event)
    requires Safe(s)
    ensures Safe(Step(s, e))
  {
  }

  /** Every sequence of events from a safe state ends in a safe state. */
  lemma {:induction false} RunSafe(s: BarrierState, events: seq<Event>)
    requires Safe(s)
    ensures Safe(Run(s, events))
    decreases |events|
  {
    if events != [] {
      StepSafe(s, events[0]);
      RunSafe(Step(s, events[0]), events[1..]);
    }
  }

  /** Closing twice is the same as closing once. */
  lemma CloseIdempotent(s: BarrierState)
    ensures Step(Step(s, CloseEvent), CloseEvent) == Step(s, CloseEvent)
  {
  }

  function Repeat(e: Event, n: nat): (r: seq<Event>)
    ensures |r| == n && forall i :: 0 <= i < n ==> r[i] == e
  {
    if n == 0 then [] else [e] + Repeat(e, n - 1)
  }

  /** Opens are not de-duplicated: n opens leave n more timers pending. */
  lemma {:induction false} OpensAccumulate(s: BarrierState, n: nat)
    ensures Run(s, Repeat(OpenEvent, n)).pending == s.pending + n
    ensures n > 0 ==> Run(s, Repeat(OpenEvent, n)).status == Open
    decreases n
  {
    if n > 0 {
      assert Repeat(OpenEvent, n)[1..] == Repeat(OpenEvent, n - 1);
      OpensAccumulate(Step(s, OpenEvent), n - 1);
    }
  }

  /** Once every pending timer has gone off, the barrier is closed and nothing is pending. */
  lemma {:induction false} TimersDrain(s: BarrierState)
    requires Safe(s)
    ensures Run(s, Repeat(TimerEvent, s.pending)) == BarrierState(Closed, 0)
    decreases s.pending
  {
    if s.pending > 0 {
      var events := Repeat(TimerEvent, s.pending);
      assert events[1..] == Repeat(TimerEvent, s.pending - 1);
      TimersDrain(Step(s, TimerEvent));
    }
  }

  /**
   * With no intervening open, the timer an open schedules closes the barrier.
   * A second open before it goes off cannot stop the first timer either: the
   * barrier closes at the first timer while the second is still pending.
   */
  lemma OpenThenTimerCloses(s: BarrierState)
    requires s == Initial
    ensures Run(s, [OpenEvent]) == BarrierState(Open, 1)
    ensures Run(s, [OpenEvent, TimerEvent]) == BarrierState(Closed, 0)
    ensures Run(s, [OpenEvent, OpenEvent, TimerEvent]) == BarrierState(Closed, 1)
  {
    assert [OpenEvent, TimerEvent][1..] == [TimerEvent];
    assert [OpenEvent, OpenEvent, TimerEvent][1..] == [OpenEvent, TimerEvent];
  }

  class BarrierControl {
    const port: string
    var status: Status
    /** Closes scheduled by opens whose timers have not gone off yet. */
    var pendingCloses: nat

    function State(): BarrierState
      reads this
    {
      BarrierState(status, pendingCloses)
    }

    ghost predicate Valid()
      reads this
    {
      Safe(State())
    }

    constructor (port: string := DefaultPort)
      ensures this.port == port && State() == Initial && Valid()
    {
      this.port := port;
      status := Closed;
      pendingCloses := 0;
    }

    /** Opens the barrier and schedules one more close, even if already open. */
    method OpenBarrier()
      requires Valid()
      modifies this
      ensures Valid()
      ensures State() == Step(old(State()), OpenEvent)
      ensures status == Open && pendingCloses == old(pendingCloses) + 1
    {
      status := Open;
      ScheduleClose();
    }

    /** Closes the barrier; timers already scheduled stay scheduled. */
    method CloseBarrier()
      requires Valid()
      modifies this
      ensures Valid()
      ensures State() == Step(old(State()), CloseEvent)
      ensures status == Closed && pendingCloses == old(pendingCloses)
    {
      status := Closed;
    }

    /** Registers one delayed close. */
    method ScheduleClose()
      modifies this
      ensures status == old(status) && pendingCloses == old(pendingCloses) + 1
    {
      pendingCloses := pendingCloses + 1;
    }

    /** One scheduled timer goes off and closes the barrier; `fired` is false if none was pending. */
    method FireTimer() returns (fired: bool)
      requires Valid()
      modifies this
      ensures Valid()
      ensures fired == (old(pendingCloses) > 0)
      ensures State() == Step(old(State()), TimerEvent)
      ensures fired ==> status == Closed && pendingCloses == old(pendingCloses) - 1
    {
      fired := pendingCloses > 0;
      if fired {
        CloseBarrier();
        pendingCloses := pendingCloses - 1;
      }
    }
  }
}
