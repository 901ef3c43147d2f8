/**
 The client end of the stream. The loop keeps the newest accepted event as `target`
 and hands it to a worker; the worker reads the shared `inflight` variable, applies
 it, publishes it, and reports on a channel of capacity one.
 */
module SseClient {
  import opened Trees

  datatype Reply = Reply(at: int, data: seq<bv8>)

  /** `Applying` carries the reply the worker read; `Reporting` the outcome it will send. */
  datatype Worker = NoWorker | Starting | Applying(read: Reply) | Reporting(ok: bool)

  /**
   `results` is the channel of completions and `reply` the config the client serves.
   `started` and `outcomes` record the replies handed to a worker and the completions
   the loop has received.
   */
  datatype State = State(
    inflight: Option<Reply>,
    target: Option<Reply>,
    worker: Worker,
    results: seq<bool>,
    reply: Option<Reply>,
    started: seq<Reply>,
    outcomes: seq<bool>)

  datatype Action =
    | Event(event: Reply)
    | WorkerReads
    | WorkerApplies(ok: bool)
    | WorkerReports
    | Completion

  /** A new stream; the client may already serve a config from an earlier one. */
  function Initial(reply: Option<Reply>): State {
    State(None, None, NoWorker, [], reply, [], [])
  }

  predicate Newer(event: Reply, target: Option<Reply>) {
    target.None? || event.at > target.value.at
  }

  function ForwardTarget(st: State): State
    requires st.target.Some?
  {
    if st.inflight.Some? then st
    else st.(inflight := st.target, worker := Starting, started := st.started + [st.target.value])
  }

  /** What an action needs so as to happen at all; what it needs so as not to panic is proved. */
  predicate Enabled(st: State, a: Action) {
    match a
    case Event(event) => true
    case WorkerReads => st.worker.Starting?
    case WorkerApplies(ok) => st.worker.Applying?
    case WorkerReports => st.worker.Reporting?
    case Completion => st.results != []
  }

  /** No nil pointer is dereferenced, and the channel has room for what is sent. */
  predicate Safe(st: State, a: Action) {
    match a
    case Event(event) => true
    case WorkerReads => st.inflight.Some?
    case WorkerApplies(ok) => st.worker.Applying? && st.inflight == Some(st.worker.read)
    case WorkerReports => st.results == []
    case Completion => st.inflight.Some? && st.target.Some? && st.worker.NoWorker?
  }

  function Next(st: State, a: Action): State
    requires Enabled(st, a) && Safe(st, a)
  {
    match a
    case Event(event) =>
      if Newer(event, st.target) then ForwardTarget(st.(target := Some(event))) else st
    case WorkerReads => st.(worker := Applying(st.inflight.value))
    case WorkerApplies(ok) => st.(worker := Reporting(ok), reply := if ok then st.inflight else st.reply)
    case WorkerReports => st.(worker := NoWorker, results := st.results + [st.worker.ok])
    case Completion =>
      var ok := st.results[0];
      var received := st.(inflight := None, results := st.results[1..], outcomes := st.outcomes + [ok]);
      if ok && st.target.value.at > st.inflight.value.at then ForwardTarget(received) else received
  }

  // ---------- Runs ----------

  /** The state after the actions; an unsafe action ends the run. */
  function Run(reply: Option<Reply>, actions: seq<Action>): Option<State>
    decreases |actions|
  {
    if actions == [] then Some(Initial(reply))
    else
      var before, a := Run(reply, actions[..|actions| - 1]), actions[|actions| - 1];
      if before.Some? && Enabled(before.value, a) && Safe(before.value, a) then Some(Next(before.value, a)) else None
  }

  ghost predicate StrictlyIncreasing(s: seq<Reply>) {
    forall i, j | 0 <= i < j < |s| :: s[i].at < s[j].at
  }

  predicate Last(s: seq<Reply>, r: Reply) {
    s != [] && s[|s| - 1] == r
  }

  /** A worker that exists works for the reply in flight, and one completion is owed for it. */
  ghost predicate Inv(st: State) {
    && (st.inflight.Some? <==> !st.worker.NoWorker? || st.results != [])
    && (st.worker.NoWorker? || st.results == []) && |st.results| <= 1
    && (st.worker.Applying? ==> st.inflight == Some(st.worker.read))
    && (st.inflight.Some? ==> st.target.Some? && Last(st.started, st.inflight.value))
    && |st.started| == |st.outcomes| + (if st.inflight.Some? then 1 else 0)
    && StrictlyIncreasing(st.started)
    && (st.started != [] <==> st.target.Some?)
    && (st.started != [] ==> st.started[|st.started| - 1].at <= st.target.value.at)
    && (st.inflight.Some? && st.inflight.value.at == st.target.value.at ==> st.inflight == st.target)
    && ((st.worker == Reporting(true) || (st.results != [] && st.results[0])) ==> st.reply == st.inflight)
    && (st.inflight.None? && st.target.Some? && st.outcomes[|st.outcomes| - 1] ==>
          Last(st.started, st.target.value) && st.reply == st.target)
  }

  lemma IncreasingSnoc(s: seq<Reply>, r: Reply)
    requires StrictlyIncreasing(s)
    requires s == [] || s[|s| - 1].at < r.at
    ensures StrictlyIncreasing(s + [r])
  {}

  /** Every enabled action is safe: completions arrive while something is in flight and sends never block. */
  lemma EnabledIsSafe(st: State, a: Action)
    requires Inv(st) && Enabled(st, a)
    ensures Safe(st, a)
  {}

  lemma StepKeepsInv(st: State, a: Action)
    requires Inv(st) && Enabled(st, a) && Safe(st, a)
    ensures Inv(Next(st, a))
  {
    match a {
      case Event(event) =>
        if Newer(event, st.target) && st.inflight.None? {
          IncreasingSnoc(st.started, event);
        }
      case WorkerReads =>
      case WorkerApplies(ok) =>
      case WorkerReports =>
      case Completion =>
        if st.target.value.at > st.inflight.value.at {
          IncreasingSnoc(st.started, st.target.value);
        }
    }
  }

  lemma {:induction false} RunKeepsInv(reply: Option<Reply>, actions: seq<Action>)
    requires Run(reply, actions).Some?
    ensures Inv(Run(reply, actions).value)
    decreases |actions|
  {
    if actions != [] {
      RunKeepsInv(reply, actions[..|actions| - 1]);
      StepKeepsInv(Run(reply, actions[..|actions| - 1]).value, actions[|actions| - 1]);
    }
  }

  /** No run ends on an unsafe action. */
  lemma RunsAreSafe(reply: Option<Reply>, actions: seq<Action>, a: Action)
    requires Run(reply, actions).Some? && Enabled(Run(reply, actions).value, a)
    ensures Run(reply, actions + [a]).Some?
  {
    RunKeepsInv(reply, actions);
    EnabledIsSafe(Run(reply, actions).value, a);
    assert (actions + [a])[..|actions|] == actions;
  }

  predicate Idle(st: State) {
    st.inflight.None? && st.worker.NoWorker? && st.results == []
  }

  /** The newest event among those accepted or ignored so far. */
  function Newest(actions: seq<Action>): Option<Reply>
    decreases |actions|
  {
    if actions == [] then None
    else
      var before, a := Newest(actions[..|actions| - 1]), actions[|actions| - 1];
      if a.Event? && Newer(a.event, before) then Some(a.event) else before
  }

  lemma {:induction false} TargetIsNewest(reply: Option<Reply>, actions: seq<Action>)
    requires Run(reply, actions).Some?
    ensures Run(reply, actions).value.target == Newest(actions)
    decreases |actions|
  {
    if actions != [] {
      TargetIsNewest(reply, actions[..|actions| - 1]);
    }
  }

  /** Applied times strictly increase, and at most one apply has started that has not completed. */
  lemma AppliesAreOrdered(reply: Option<Reply>, actions: seq<Action>)
    requires Run(reply, actions).Some?
    ensures var st := Run(reply, actions).value;
            && StrictlyIncreasing(st.started)
            && |st.outcomes| <= |st.started| <= |st.outcomes| + 1
            && (!st.worker.NoWorker? ==> |st.started| == |st.outcomes| + 1 && st.inflight.Some? && Last(st.started, st.inflight.value))
  {
    RunKeepsInv(reply, actions);
  }

  /** Idle after a successful apply, the client serves the newest event it was sent. */
  lemma IdleAfterSuccessIsCurrent(reply: Option<Reply>, actions: seq<Action>)
    requires Run(reply, actions).Some?
    requires var st := Run(reply, actions).value;
             Idle(st) && st.outcomes != [] && st.outcomes[|st.outcomes| - 1]
    ensures Run(reply, actions).value.reply == Newest(actions)
    ensures Newest(actions).Some? && Last(Run(reply, actions).value.started, Newest(actions).value)
  {
    RunKeepsInv(reply, actions);
    TargetIsNewest(reply, actions);
  }

  lemma RunSnoc(reply: Option<Reply>, actions: seq<Action>, a: Action)
    requires Run(reply, actions).Some? && Enabled(Run(reply, actions).value, a) && Safe(Run(reply, actions).value, a)
    ensures Run(reply, actions + [a]) == Some(Next(Run(reply, actions).value, a))
  {
    assert (actions + [a])[..|actions|] == actions;
  }

  /**
   A completion starts the target if and only if the apply succeeded and a newer event
   was accepted meanwhile; that event is left unattempted if and only if the apply failed.
   */
  lemma CompletionForwardsIff(st: State)
    requires Inv(st) && Enabled(st, Completion)
    ensures Safe(st, Completion)
    ensures Next(st, Completion).inflight.Some? <==> st.results[0] && st.target != st.inflight
    ensures Next(st, Completion).inflight.Some? ==> Next(st, Completion).inflight == st.target
    ensures !Last(Next(st, Completion).started, st.target.value) <==> !st.results[0] && st.target != st.inflight
  {}

  /**
   After a failed apply nothing is retried: an event accepted while the apply was
   running is not even started, and the client stays idle on its old config.
   */
  lemma FailureIsNotRetried(e1: Reply, e2: Reply)
    requires e1.at < e2.at
    ensures var end := Run(None, [Event(e1)] + [Event(e2)] + [WorkerReads] + [WorkerApplies(false)] + [WorkerReports] + [Completion]);
            && end.Some? && Idle(end.value) && end.value.target == Some(e2)
            && end.value.started == [e1] && end.value.reply == None
  {
    RunSnoc(None, [], Event(e1));
    assert [] + [Event(e1)] == [Event(e1)];
    RunSnoc(None, [Event(e1)], Event(e2));
    RunSnoc(None, [Event(e1)] + [Event(e2)], WorkerReads);
    RunSnoc(None, [Event(e1)] + [Event(e2)] + [WorkerReads], WorkerApplies(false));
    RunSnoc(None, [Event(e1)] + [Event(e2)] + [WorkerReads] + [WorkerApplies(false)], WorkerReports);
    RunSnoc(None, [Event(e1)] + [Event(e2)] + [WorkerReads] + [WorkerApplies(false)] + [WorkerReports], Completion);
  }

  // ---------- What is served ----------

  /** The outcomes of the applies that have ended, in order, received or not. */
  function Ended(st: State): seq<bool> {
    st.outcomes + st.results + if st.worker.Reporting? then [st.worker.ok] else []
  }

  /** The apply at `i` is the last that succeeded. */
  predicate LastOk(ended: seq<bool>, i: int) {
    0 <= i < |ended| && ended[i] && NoneOk(ended, i + 1)
  }

  predicate NoneOk(ended: seq<bool>, from: int) {
    forall j | from <= j < |ended| && 0 <= j :: !ended[j]
  }

  /** The reply of the last apply that succeeded, or the one served before. */
  ghost predicate ServesLast(reply: Option<Reply>, st: State) {
    var ended := Ended(st);
    && |ended| <= |st.started|
    && (NoneOk(ended, 0) ==> st.reply == reply)
    && (forall i | LastOk(ended, i) :: st.reply == Some(st.started[i]))
  }

  lemma LastOkSnoc(before: seq<bool>, ok: bool, i: int)
    ensures LastOk(before + [ok], i) <==> if ok then i == |before| else LastOk(before, i)
    ensures NoneOk(before + [ok], 0) <==> NoneOk(before, 0) && !ok
  {
    var ended := before + [ok];
    assert forall j | 0 <= j < |before| :: ended[j] == before[j];
    assert ended[|before|] == ok;
  }

  /** Nothing has ended since. */
  lemma ServesSame(reply: Option<Reply>, st: State, next: State)
    requires ServesLast(reply, st) && Ended(next) == Ended(st) && next.reply == st.reply && st.started <= next.started
    ensures ServesLast(reply, next)
  {}

  /** One more apply has ended. */
  lemma ServesMore(reply: Option<Reply>, st: State, next: State, ok: bool)
    requires ServesLast(reply, st) && |Ended(st)| < |st.started|
    requires Ended(next) == Ended(st) + [ok] && next.started == st.started
    requires next.reply == if ok then Some(st.started[|Ended(st)|]) else st.reply
    ensures ServesLast(reply, next)
  {
    forall i ensures LastOk(Ended(next), i) <==> if ok then i == |Ended(st)| else LastOk(Ended(st), i) {
      LastOkSnoc(Ended(st), ok, i);
    }
    LastOkSnoc(Ended(st), ok, 0);
    hide LastOk, NoneOk, Ended;
    assert forall i | LastOk(Ended(next), i) :: next.reply == Some(next.started[i]);
  }

  /** An apply ends when the worker has its outcome, and not before or after. */
  lemma EndsWhenApplied(st: State, a: Action)
    requires Inv(st) && Enabled(st, a) && Safe(st, a)
    ensures var next := Next(st, a);
            if a.WorkerApplies? then
              && Ended(next) == Ended(st) + [a.ok] && next.started == st.started && |Ended(st)| < |st.started|
              && next.reply == if a.ok then Some(st.started[|Ended(st)|]) else st.reply
            else Ended(next) == Ended(st) && next.reply == st.reply && st.started <= next.started
  {
    var next := Next(st, a);
    if a.WorkerApplies? {
      assert Ended(st) == st.outcomes;
    } else if a.Completion? {
      assert st.results == [st.results[0]];
    }
  }

  lemma ServesStep(reply: Option<Reply>, st: State, a: Action)
    requires Inv(st) && ServesLast(reply, st) && Enabled(st, a) && Safe(st, a)
    ensures ServesLast(reply, Next(st, a))
  {
    hide ServesLast, Inv, Next, Ended;
    EndsWhenApplied(st, a);
    if a.WorkerApplies? {
      ServesMore(reply, st, Next(st, a), a.ok);
    } else {
      ServesSame(reply, st, Next(st, a));
    }
  }

  /**
   In every run the client serves the reply of the last apply that succeeded, whatever
   has failed since, and what it served before when none has.
   */
  lemma {:induction false} ServesLastSuccess(reply: Option<Reply>, actions: seq<Action>)
    requires Run(reply, actions).Some?
    ensures ServesLast(reply, Run(reply, actions).value)
    decreases |actions|
  {
    if actions != [] {
      var init := actions[..|actions| - 1];
      ServesLastSuccess(reply, init);
      RunKeepsInv(reply, init);
      ServesStep(reply, Run(reply, init).value, actions[|actions| - 1]);
    }
  }

  /** While an apply is under way, one of its steps can be taken: the stream is never stuck. */
  lemma NeverStuck(reply: Option<Reply>, actions: seq<Action>)
    requires Run(reply, actions).Some? && !Idle(Run(reply, actions).value)
    ensures exists a: Action :: !a.Event? && Run(reply, actions + [a]).Some?
  {
    RunKeepsInv(reply, actions);
    var st := Run(reply, actions).value;
    var a := match st.worker
             case Starting => WorkerReads
             case Applying(_) => WorkerApplies(true)
             case Reporting(_) => WorkerReports
             case NoWorker => Completion;
    RunsAreSafe(reply, actions, a);
    assert !a.Event? && Run(reply, actions + [a]).Some?;
  }

  /** An idle client that is sent a newer event and whose apply succeeds serves that event. */
  lemma IdleCatchesUp(reply: Option<Reply>, actions: seq<Action>, event: Reply)
    requires Run(reply, actions).Some? && Idle(Run(reply, actions).value)
    requires Newer(event, Run(reply, actions).value.target)
    ensures var end := Run(reply, actions + [Event(event)] + [WorkerReads] + [WorkerApplies(true)] + [WorkerReports] + [Completion]);
            end.Some? && Idle(end.value) && end.value.reply == Some(event)
  {
    var a1 := actions + [Event(event)];
    RunSnoc(reply, actions, Event(event));
    var a2 := a1 + [WorkerReads];
    RunSnoc(reply, a1, WorkerReads);
    var a3 := a2 + [WorkerApplies(true)];
    RunSnoc(reply, a2, WorkerApplies(true));
    var a4 := a3 + [WorkerReports];
    RunSnoc(reply, a3, WorkerReports);
    RunSnoc(reply, a4, Completion);
  }

  // ---------- The loop ----------

  class Stream {
    var inflight: Option<Reply>
    var target: Option<Reply>
    var worker: Worker
    var results: seq<bool>
    var reply: Option<Reply>
    ghost var started: seq<Reply>
    ghost var outcomes: seq<bool>

    ghost function Abs(): State
      reads this
    {
      State(inflight, target, worker, results, reply, started, outcomes)
    }

    constructor (reply: Option<Reply>)
      ensures Abs() == Initial(reply)
    {
      inflight, target, worker, results, this.reply := None, None, NoWorker, [], reply;
      started, outcomes := [], [];
    }

    method Forward()
      requires target.Some?
      modifies this
      ensures Abs() == ForwardTarget(old(Abs()))
    {
      if inflight.Some? {
        return;
      }
      inflight := target;
      worker := Starting;
      started := started + [target.value];
    }

    method OnEvent(event: Reply)
      modifies this
      ensures Abs() == Next(old(Abs()), Event(event))
    {
      if target.Some? && !(event.at > target.value.at) {
        return;
      }
      target := Some(event);
      Forward();
    }

    /** The body of the worker's goroutine, in its three steps. */
    method Work(step: Action)
      requires step.WorkerReads? || step.WorkerApplies? || step.WorkerReports?
      requires Inv(Abs()) && Enabled(Abs(), step)
      modifies this
      ensures Abs() == Next(old(Abs()), step) && Inv(Abs())
    {
      EnabledIsSafe(Abs(), step);
      StepKeepsInv(Abs(), step);
      match step {
        case WorkerReads => worker := Applying(inflight.value);
        case WorkerApplies(ok) =>
          if ok {
            reply := inflight;
          }
          worker := Reporting(ok);
        case WorkerReports =>
          results := results + [worker.ok];
          worker := NoWorker;
      }
    }

    method OnCompletion()
      requires Inv(Abs()) && Enabled(Abs(), Completion)
      modifies this
      ensures old(Safe(Abs(), Completion)) && Abs() == Next(old(Abs()), Completion) && Inv(Abs())
    {
      EnabledIsSafe(Abs(), Completion);
      StepKeepsInv(Abs(), Completion);
      var ok := results[0];
      results := results[1..];
      outcomes := outcomes + [ok];
      var inflightAt := inflight.value.at;
      inflight := None;
      if !ok {
        return;
      }
      if target.value.at > inflightAt {
        Forward();
      }
    }
  }
}
