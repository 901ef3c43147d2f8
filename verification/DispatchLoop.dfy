/**
 The loop that runs the pipeline: a one-token queue of requests, and a cooldown
 counted from the moment the previous request was dequeued.
 */
module DispatchLoop {
  import opened Trees

  datatype Phase = Waiting | Dequeued(at: int) | Running

  /** `notifies` and `starts` record when requests came and when runs fetched their fragments. */
  datatype Loop = Loop(
    token: bool,
    phase: Phase,
    lastDequeued: Option<int>,
    now: int,
    notifies: seq<int>,
    served: nat,
    starts: seq<int>,
    dequeues: seq<int>)

  const INITIAL := Loop(false, Waiting, None, 0, [], 0, [], [])

  /** `at` is the time of the event. */
  datatype Event = Notify(at: int) | Dequeue(at: int) | Start(at: int) | Finish(at: int)

  /** The instant until which a dequeued request waits for the cooldown. */
  function CooldownEnd(loop: Loop, cooldown: int): Option<int> {
    if cooldown <= 0 || loop.lastDequeued.None? then None else Some(loop.lastDequeued.value + cooldown)
  }

  predicate Enabled(loop: Loop, e: Event, cooldown: int) {
    && e.at >= loop.now
    && match e
       case Notify(at) => true
       case Dequeue(at) => loop.phase.Waiting? && loop.token
       case Start(at) => loop.phase.Dequeued? && (CooldownEnd(loop, cooldown).Some? ==> at >= CooldownEnd(loop, cooldown).value)
       case Finish(at) => loop.phase.Running?
  }

  function Next(loop: Loop, e: Event): Loop
    requires e.Start? ==> loop.phase.Dequeued?
  {
    var l := loop.(now := e.at);
    match e
    case Notify(at) => l.(token := true, notifies := l.notifies + [at])
    case Dequeue(at) => l.(token := false, phase := Dequeued(at), dequeues := l.dequeues + [at])
    case Start(at) =>
      l.(phase := Running, lastDequeued := Some(l.phase.at), served := |l.notifies|, starts := l.starts + [at])
    case Finish(at) => l.(phase := Waiting)
  }

  function Run(events: seq<Event>, cooldown: int): Option<Loop>
    decreases |events|
  {
    if events == [] then Some(INITIAL)
    else
      var before, e := Run(events[..|events| - 1], cooldown), events[|events| - 1];
      if before.Some? && Enabled(before.value, e, cooldown) then Some(Next(before.value, e)) else None
  }

  // ---------- No request is lost ----------

  /** A request that no run has fetched after has a token, or a run that is about to fetch. */
  ghost predicate NoneLost(loop: Loop) {
    && loop.served <= |loop.notifies|
    && (loop.served < |loop.notifies| ==> loop.token || loop.phase.Dequeued?)
    && (forall i | 0 <= i < |loop.notifies| :: loop.notifies[i] <= loop.now)
    && (loop.served > 0 ==> loop.starts != [])
    && (forall i | 0 <= i < loop.served :: loop.notifies[i] <= loop.starts[|loop.starts| - 1])
  }

  lemma NoneLostStep(loop: Loop, e: Event, cooldown: int)
    requires NoneLost(loop) && Enabled(loop, e, cooldown)
    ensures NoneLost(Next(loop, e))
  {}

  lemma {:induction false} NoNotifyIsLost(events: seq<Event>, cooldown: int)
    requires Run(events, cooldown).Some?
    ensures NoneLost(Run(events, cooldown).value)
    decreases |events|
  {
    if events != [] {
      NoNotifyIsLost(events[..|events| - 1], cooldown);
      NoneLostStep(Run(events[..|events| - 1], cooldown).value, events[|events| - 1], cooldown);
    }
  }

  /** When the loop is waiting without a token, some run has fetched after every request so far. */
  lemma IdleHasServedAll(events: seq<Event>, cooldown: int, i: nat)
    requires Run(events, cooldown).Some?
    requires var loop := Run(events, cooldown).value;
             loop.phase.Waiting? && !loop.token && i < |loop.notifies|
    ensures var loop := Run(events, cooldown).value;
            loop.starts != [] && loop.notifies[i] <= loop.starts[|loop.starts| - 1]
  {
    NoNotifyIsLost(events, cooldown);
  }

  // ---------- Every run was asked for ----------

  /** Each dequeue took a request of its own: as many had come by then. */
  ghost predicate Requested(loop: Loop) {
    && |loop.dequeues| + (if loop.token then 1 else 0) <= |loop.notifies|
    && |loop.starts| <= |loop.dequeues|
    && (loop.phase.Dequeued? ==> |loop.starts| < |loop.dequeues|)
    && (forall i | 0 <= i < |loop.notifies| :: loop.notifies[i] <= loop.now)
    && (forall i | 0 <= i < |loop.dequeues| :: loop.notifies[i] <= loop.dequeues[i])
  }

  lemma RequestedStep(loop: Loop, e: Event, cooldown: int)
    requires Requested(loop) && Enabled(loop, e, cooldown)
    ensures Requested(Next(loop, e))
  {}

  /** In every run there are no more runs than requests, and run `i` was dequeued after request `i`. */
  lemma {:induction false} RunsAreRequested(events: seq<Event>, cooldown: int)
    requires Run(events, cooldown).Some?
    ensures Requested(Run(events, cooldown).value)
    decreases |events|
  {
    if events != [] {
      RunsAreRequested(events[..|events| - 1], cooldown);
      RequestedStep(Run(events[..|events| - 1], cooldown).value, events[|events| - 1], cooldown);
    }
  }

  // ---------- The rate of runs ----------

  /** Runs and dequeues alternate, and each run starts a cooldown after the dequeue before its own. */
  ghost predicate Paced(loop: Loop, cooldown: int) {
    && |loop.dequeues| == |loop.starts| + (if loop.phase.Dequeued? then 1 else 0)
    && (loop.phase.Dequeued? ==> loop.phase.at == loop.dequeues[|loop.starts|])
    && (loop.lastDequeued.Some? <==> loop.starts != [])
    && (loop.starts != [] ==> loop.lastDequeued == Some(loop.dequeues[|loop.starts| - 1]))
    && (forall i | 0 <= i < |loop.starts| :: loop.dequeues[i] <= loop.starts[i] <= loop.now)
    && (forall i | 0 <= i && i + 1 < |loop.dequeues| :: loop.starts[i] <= loop.dequeues[i + 1])
    && (forall i | 0 <= i < |loop.dequeues| :: loop.dequeues[i] <= loop.now)
    && (cooldown > 0 ==> forall i | 0 <= i && i + 1 < |loop.starts| :: loop.starts[i + 1] >= loop.dequeues[i] + cooldown)
  }

  lemma PacedStep(loop: Loop, e: Event, cooldown: int)
    requires Paced(loop, cooldown) && Enabled(loop, e, cooldown)
    ensures Paced(Next(loop, e), cooldown)
  {
    match e {
      case Notify(at) =>
      case Dequeue(at) =>
      case Start(at) =>
      case Finish(at) =>
    }
  }

  lemma {:induction false} RunIsPaced(events: seq<Event>, cooldown: int)
    requires Run(events, cooldown).Some?
    ensures Paced(Run(events, cooldown).value, cooldown)
    decreases |events|
  {
    if events != [] {
      RunIsPaced(events[..|events| - 1], cooldown);
      PacedStep(Run(events[..|events| - 1], cooldown).value, events[|events| - 1], cooldown);
    }
  }

  /** Every second run is a cooldown apart. */
  lemma SecondNextRun(events: seq<Event>, cooldown: nat, m: nat)
    requires Run(events, cooldown).Some?
    requires m + 2 < |Run(events, cooldown).value.starts|
    ensures Run(events, cooldown).value.starts[m + 2] >= Run(events, cooldown).value.starts[m] + cooldown
  {
    RunIsPaced(events, cooldown);
    var loop := Run(events, cooldown).value;
    assert loop.starts[m] <= loop.dequeues[m + 1];
    assert loop.starts[m + 1] <= loop.dequeues[m + 2] <= loop.starts[m + 2];
    assert loop.dequeues[m + 1] <= loop.starts[m + 1];
    assert cooldown > 0 ==> loop.starts[m + 1 + 1] >= loop.dequeues[m + 1] + cooldown;
  }

  lemma OneMore(k: nat, c: nat)
    requires k > 0
    ensures k * c == (k - 1) * c + c
  {}

  /** Whatever the arrivals and run times, run `n + 2k` starts at least `k` cooldowns after run `n`. */
  lemma {:induction false} RateBound(events: seq<Event>, cooldown: nat, n: nat, k: nat)
    requires Run(events, cooldown).Some?
    requires n + 2 * k < |Run(events, cooldown).value.starts|
    ensures Run(events, cooldown).value.starts[n + 2 * k] >= Run(events, cooldown).value.starts[n] + k * cooldown
    decreases k
  {
    if k > 0 {
      RateBound(events, cooldown, n, k - 1);
      SecondNextRun(events, cooldown, n + 2 * (k - 1));
      OneMore(k, cooldown);
    }
  }

  /** Consecutive runs are a cooldown apart less the time the first of them waited. */
  lemma ConsecutiveRuns(events: seq<Event>, cooldown: nat, n: nat)
    requires Run(events, cooldown).Some?
    requires n + 1 < |Run(events, cooldown).value.starts|
    ensures var loop := Run(events, cooldown).value;
            && |loop.dequeues| >= |loop.starts|
            && loop.starts[n + 1] >= loop.starts[n]
            && loop.starts[n + 1] - loop.starts[n] >= cooldown - (loop.starts[n] - loop.dequeues[n])
  {
    RunIsPaced(events, cooldown);
    var loop := Run(events, cooldown).value;
    assert loop.starts[n] <= loop.dequeues[n + 1] <= loop.starts[n + 1];
  }

  /** A continued run keeps its runs and dequeues, and adds later ones. */
  lemma {:induction false} RunContinued(events: seq<Event>, more: seq<Event>, cooldown: int)
    requires Run(events + more, cooldown).Some?
    ensures Run(events, cooldown).Some?
    ensures var loop, after := Run(events, cooldown).value, Run(events + more, cooldown).value;
            && loop.starts <= after.starts && loop.dequeues <= after.dequeues && loop.now <= after.now
            && forall i | |loop.starts| <= i < |after.starts| :: after.starts[i] >= loop.now
    decreases |more|
  {
    if more == [] {
      assert events + more == events;
    } else {
      var init := more[..|more| - 1];
      assert (events + more)[..|events + more| - 1] == events + init;
      RunContinued(events, init, cooldown);
    }
  }

  /** Whatever happens after `events`, the next run starts at or after `bound`. */
  ghost predicate NextRunFrom(events: seq<Event>, cooldown: int, bound: int)
    requires Run(events, cooldown).Some?
  {
    var n := |Run(events, cooldown).value.starts|;
    forall more | Run(events + more, cooldown).Some? && |Run(events + more, cooldown).value.starts| > n ::
      Run(events + more, cooldown).value.starts[n] >= bound
  }

  /** The earliest continuation: the run finishes, a request arrives at once and waits for the cooldown only. */
  lemma EarliestNextRun(events: seq<Event>, cooldown: int) returns (more: seq<Event>)
    requires Run(events, cooldown).Some? && Run(events, cooldown).value.phase.Running?
    ensures var loop := Run(events, cooldown).value;
            var end := CooldownEnd(loop, cooldown);
            && Run(events + more, cooldown).Some?
            && Run(events + more, cooldown).value.starts
            == loop.starts + [if end.Some? && end.value > loop.now then end.value else loop.now]
  {
    var loop := Run(events, cooldown).value;
    var now, end := loop.now, CooldownEnd(loop, cooldown);
    var start := if end.Some? && end.value > now then end.value else now;
    var e1 := events + [Finish(now)];
    RunSnoc(events, Finish(now), cooldown);
    var e2 := e1 + [Notify(now)];
    RunSnoc(e1, Notify(now), cooldown);
    var e3 := e2 + [Dequeue(now)];
    RunSnoc(e2, Dequeue(now), cooldown);
    RunSnoc(e3, Start(start), cooldown);
    more := [Finish(now), Notify(now), Dequeue(now), Start(start)];
    assert events + more == e3 + [Start(start)];
  }

  /**
   While a run is under way, the next one is bound to start a cooldown after it if and
   only if it did not wait before it started, or has lasted a cooldown already.
   */
  lemma NextRunIsApartIff(events: seq<Event>, cooldown: nat)
    requires Run(events, cooldown).Some? && Run(events, cooldown).value.phase.Running?
    ensures var loop := Run(events, cooldown).value;
            var n := |loop.starts|;
            && n > 0 && |loop.dequeues| == n
            && (NextRunFrom(events, cooldown, loop.starts[n - 1] + cooldown) <==>
                  loop.starts[n - 1] == loop.dequeues[n - 1] || loop.now >= loop.starts[n - 1] + cooldown)
  {
    var loop := Run(events, cooldown).value;
    WhileRunning(events, cooldown);
    var n := |loop.starts|;
    var s, d := loop.starts[n - 1], loop.dequeues[n - 1];
    var more := EarliestNextRun(events, cooldown);
    assert Run(events + more, cooldown).value.starts[n] < s + cooldown || s == d || loop.now >= s + cooldown;
    if s == d || loop.now >= s + cooldown {
      forall more | Run(events + more, cooldown).Some? && |Run(events + more, cooldown).value.starts| > n
        ensures Run(events + more, cooldown).value.starts[n] >= s + cooldown
      {
        NextRunBound(events, more, cooldown);
      }
    }
  }

  /** The next run starts no earlier than now, and a cooldown after the dequeue before its own. */
  lemma NextRunBound(events: seq<Event>, more: seq<Event>, cooldown: nat)
    requires Run(events, cooldown).Some? && Run(events + more, cooldown).Some?
    requires var loop := Run(events, cooldown).value;
             loop.starts != [] && |loop.dequeues| == |loop.starts|
             && |Run(events + more, cooldown).value.starts| > |loop.starts|
    ensures var loop, after := Run(events, cooldown).value, Run(events + more, cooldown).value;
            var n := |loop.starts|;
            after.starts[n] >= loop.now && (cooldown > 0 ==> after.starts[n] >= loop.dequeues[n - 1] + cooldown)
  {
    var loop, after := Run(events, cooldown).value, Run(events + more, cooldown).value;
    var n := |loop.starts|;
    RunContinued(events, more, cooldown);
    RunIsPaced(events + more, cooldown);
    assert after.dequeues[n - 1] == loop.dequeues[n - 1];
    assert cooldown > 0 ==> after.starts[n - 1 + 1] >= after.dequeues[n - 1] + cooldown;
  }

  lemma WhileRunning(events: seq<Event>, cooldown: int)
    requires Run(events, cooldown).Some? && Run(events, cooldown).value.phase.Running?
    ensures var loop := Run(events, cooldown).value;
            var n := |loop.starts|;
            && n > 0 && |loop.dequeues| == n && loop.dequeues[n - 1] <= loop.starts[n - 1] <= loop.now
            && loop.lastDequeued == Some(loop.dequeues[n - 1])
  {
    RunningHasStarted(events, cooldown);
    RunIsPaced(events, cooldown);
  }

  lemma {:induction false} RunningHasStarted(events: seq<Event>, cooldown: int)
    requires Run(events, cooldown).Some? && Run(events, cooldown).value.phase.Running?
    ensures Run(events, cooldown).value.starts != []
    decreases |events|
  {
    var init := events[..|events| - 1];
    if Run(init, cooldown).value.phase.Running? {
      RunningHasStarted(init, cooldown);
    }
  }

  lemma RunSnoc(events: seq<Event>, e: Event, cooldown: int)
    requires Run(events, cooldown).Some? && Enabled(Run(events, cooldown).value, e, cooldown)
    ensures Run(events + [e], cooldown) == Some(Next(Run(events, cooldown).value, e))
  {
    assert (events + [e])[..|events|] == events;
  }

  /** Two consecutive runs may start at the same instant, however long the cooldown. */
  lemma ConsecutiveRunsMayMeet(c: nat)
    requires c > 0
    ensures exists events :: Run(events, c).Some? && Run(events, c).value.starts == [0, c, c]
  {
    var e1 := [Notify(0)];
    RunSnoc([], Notify(0), c);
    assert [] + e1 == e1;
    var e2 := e1 + [Dequeue(0)];
    RunSnoc(e1, Dequeue(0), c);
    var e3 := e2 + [Start(0)];
    RunSnoc(e2, Start(0), c);
    var e4 := e3 + [Finish(0)];
    RunSnoc(e3, Finish(0), c);
    var e5 := e4 + [Notify(0)];
    RunSnoc(e4, Notify(0), c);
    var e6 := e5 + [Dequeue(0)];
    RunSnoc(e5, Dequeue(0), c);
    var e7 := e6 + [Start(c)];
    RunSnoc(e6, Start(c), c);
    var e8 := e7 + [Finish(c)];
    RunSnoc(e7, Finish(c), c);
    var e9 := e8 + [Notify(c)];
    RunSnoc(e8, Notify(c), c);
    var e10 := e9 + [Dequeue(c)];
    RunSnoc(e9, Dequeue(c), c);
    RunSnoc(e10, Start(c), c);
  }

  // ---------- The dispatcher ----------

  class Dispatcher {
    const cooldown: int
    var token: bool
    var lastDequeued: Option<int>
    ghost var phase: Phase
    ghost var now: int
    ghost var notifies: seq<int>
    ghost var served: nat
    ghost var starts: seq<int>
    ghost var dequeues: seq<int>

    ghost function Abs(): Loop
      reads this
    {
      Loop(token, phase, lastDequeued, now, notifies, served, starts, dequeues)
    }

    constructor (cooldown: int)
      ensures this.cooldown == cooldown && Abs() == INITIAL
    {
      this.cooldown := cooldown;
      token, lastDequeued, phase, now, notifies, served, starts, dequeues := false, None, Waiting, 0, [], 0, [], [];
    }

    method Notify(at: int)
      requires Enabled(Abs(), Event.Notify(at), cooldown)
      modifies this
      ensures Abs() == Next(old(Abs()), Event.Notify(at))
    {
      token := true;
      now, notifies := at, notifies + [at];
    }

    /** How long to sleep before a run may start. */
    method WaitForCooldown(at: int) returns (remaining: int)
      ensures remaining >= 0
      ensures remaining == match CooldownEnd(Abs(), cooldown)
                           case None => 0
                           case Some(end) => if end > at then end - at else 0
    {
      if cooldown <= 0 || lastDequeued.None? {
        return 0;
      }
      remaining := cooldown - (at - lastDequeued.value);
      if remaining <= 0 {
        return 0;
      }
    }

    /** One turn of the loop, up to the start of the run; `oversleep` is what the timer adds. */
    method Turn(at: int, oversleep: nat)
      requires Enabled(Abs(), Dequeue(at), cooldown)
      modifies this
      ensures exists start :: start >= at && Enabled(Next(old(Abs()), Dequeue(at)), Start(start), cooldown)
                              && Abs() == Next(Next(old(Abs()), Dequeue(at)), Start(start))
    {
      token := false;
      phase, now, dequeues := Dequeued(at), at, dequeues + [at];
      ghost var mid := Abs();
      assert mid == Next(old(Abs()), Dequeue(at));
      var remaining := WaitForCooldown(at);
      ghost var start := at + remaining + oversleep;
      lastDequeued := Some(at);
      phase, now, served, starts := Running, start, |notifies|, starts + [start];
      assert Enabled(mid, Start(start), cooldown) && Abs() == Next(mid, Start(start));
    }
  }
}
