/**
  The poll-and-deadline wait the system provisioner is built on: a
  periodic poller that samples a predicate and, once it holds, cancels
  itself and acts; and a one-shot deadline timer that, unless the poller
  already succeeded, cancels the poller and raises an error. Time is
  abstract: only the order in which ticks and the deadline arrive matters.
 */
module Poll {

  /**
    One wait: whether its poller is still scheduled, whether a sample found
    the predicate true (the provisioner's `all_complete` / `all_created` flag),
    and whether its deadline has yet to fire.
   */
  datatype Wait = Wait(polling: bool, satisfied: bool, armed: bool)

  /** Both timers scheduled; `satisfiedNow` when the predicate is known to hold already. */
  function Start(satisfiedNow: bool): (w: Wait)
    ensures w.polling && w.armed && w.satisfied == satisfiedNow
  {
    Wait(true, satisfiedNow, true)
  }

  /** Only the deadline scheduled, with no poller. */
  function DeadlineOnly(): (w: Wait)
    ensures !w.polling && w.armed
  {
    Wait(false, false, true)
  }

  datatype TickOutcome = TickOutcome(wait: Wait, fired: bool)

  /** A tick of the poller, which finds the predicate `ready` or not. */
  function OnTick(w: Wait, ready: bool): (r: TickOutcome)
    ensures r.fired <==> w.polling && ready
    ensures r.fired ==> r.wait == w.(polling := false, satisfied := true)
    ensures !r.fired ==> r.wait == w
  {
    if w.polling && ready then TickOutcome(w.(polling := false, satisfied := true), true)
    else TickOutcome(w, false)
  }

  datatype DeadlineOutcome = DeadlineOutcome(wait: Wait, timedOut: bool)

  /**
    The deadline of a polled wait: raises unless a tick succeeded, and then
    also cancels the poller. It consults the flag, not the predicate.
   */
  function OnDeadline(w: Wait): (r: DeadlineOutcome)
    ensures r.timedOut <==> w.armed && !w.satisfied
    ensures !r.wait.armed && r.wait.satisfied == w.satisfied
    ensures r.wait.polling == (w.polling && !r.timedOut)
  {
    if !w.armed then DeadlineOutcome(w, false)
    else if w.satisfied then DeadlineOutcome(w.(armed := false), false)
    else DeadlineOutcome(w.(armed := false, polling := false), true)
  }

  /** The deadline of a wait without a poller: raises unless the predicate holds right now. */
  function OnFinalCheck(w: Wait, holdsNow: bool): (r: DeadlineOutcome)
    ensures r.timedOut <==> w.armed && !holdsNow
    ensures !r.wait.armed && r.wait.polling == w.polling
  {
    DeadlineOutcome(w.(armed := false), w.armed && !holdsNow)
  }

  /** What reaches a polled wait: a tick with the sampled predicate, or its deadline. */
  datatype Signal = Tick(ready: bool) | Deadline

  /** The wait after a run of signals, with how often it acted and how often it raised. */
  datatype Tally = Tally(wait: Wait, fired: nat, timedOut: nat)

  function Run(w: Wait, trace: seq<Signal>): Tally
    decreases |trace|
  {
    if trace == [] then Tally(w, 0, 0)
    else
      match trace[0]
      case Tick(ready) =>
        var o := OnTick(w, ready);
        var t := Run(o.wait, trace[1..]);
        t.(fired := t.fired + if o.fired then 1 else 0)
      case Deadline =>
        var o := OnDeadline(w);
        var t := Run(o.wait, trace[1..]);
        t.(timedOut := t.timedOut + if o.timedOut then 1 else 0)
  }

  /** A tick that finds the predicate true arrives before the deadline. */
  predicate ReadyBeforeDeadline(trace: seq<Signal>)
    decreases |trace|
  {
    trace != [] && trace[0].Tick? && (trace[0].ready || ReadyBeforeDeadline(trace[1..]))
  }

  /** The deadline arrives before any tick finds the predicate true. */
  predicate DeadlineBeforeReady(trace: seq<Signal>)
    decreases |trace|
  {
    trace != [] && (trace[0].Deadline? || (!trace[0].ready && DeadlineBeforeReady(trace[1..])))
  }

  /** Some tick finds the predicate true, whenever it arrives. */
  predicate SomeReadyTick(trace: seq<Signal>)
  {
    exists i :: 0 <= i < |trace| && trace[i] == Tick(true)
  }

  /** A wait whose poller is gone and whose deadline cannot raise does nothing more. */
  lemma {:induction false} DormantStaysQuiet(w: Wait, trace: seq<Signal>)
    requires !w.polling && (w.satisfied || !w.armed)
    ensures Run(w, trace).fired == 0 && Run(w, trace).timedOut == 0
    decreases |trace|
  {
    if trace != [] {
      match trace[0]
      case Tick(ready) => DormantStaysQuiet(OnTick(w, ready).wait, trace[1..]);
      case Deadline => DormantStaysQuiet(OnDeadline(w).wait, trace[1..]);
    }
  }

  /**
    A wait started with the predicate false acts at most once, on the first
    ready tick before the deadline, and raises at most once, when the
    deadline comes first; never both.
   */
  lemma {:induction false} PendingWait(trace: seq<Signal>)
    ensures var t := Run(Start(false), trace);
            && t.fired + t.timedOut <= 1
            && (t.fired == 1 <==> ReadyBeforeDeadline(trace))
            && (t.timedOut == 1 <==> DeadlineBeforeReady(trace))
    decreases |trace|
  {
    if trace != [] {
      match trace[0]
      case Tick(ready) =>
        if ready {
          DormantStaysQuiet(Wait(false, true, true), trace[1..]);
        } else {
          PendingWait(trace[1..]);
        }
      case Deadline =>
        DormantStaysQuiet(Wait(false, false, false), trace[1..]);
    }
  }

  /**
    A wait started with the predicate already true (a node without parents)
    never raises, and its poller still acts once, on the first ready tick,
    even after the deadline.
   */
  lemma {:induction false} SatisfiedWait(armed: bool, trace: seq<Signal>)
    ensures var t := Run(Wait(true, true, armed), trace);
            && t.timedOut == 0
            && (t.fired == if SomeReadyTick(trace) then 1 else 0)
    decreases |trace|
  {
    if trace != [] {
      match trace[0]
      case Tick(ready) =>
        if ready {
          DormantStaysQuiet(Wait(false, true, armed), trace[1..]);
        } else {
          SatisfiedWait(armed, trace[1..]);
          SomeReadyTickTail(trace);
        }
      case Deadline =>
        SatisfiedWait(false, trace[1..]);
        SomeReadyTickTail(trace);
    }
  }

  lemma SomeReadyTickTail(trace: seq<Signal>)
    requires trace != [] && trace[0] != Tick(true)
    ensures SomeReadyTick(trace) <==> SomeReadyTick(trace[1..])
  {
    if SomeReadyTick(trace) {
      var i :| 0 <= i < |trace| && trace[i] == Tick(true);
      assert trace[1..][i - 1] == trace[i];
    }
    if SomeReadyTick(trace[1..]) {
      var i :| 0 <= i < |trace[1..]| && trace[1..][i] == Tick(true);
      assert trace[i + 1] == Tick(true);
    }
  }
}
