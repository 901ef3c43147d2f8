/**
 Distribution of configs to SSE subscribers. A handler subscribes, then takes a
 snapshot of the record of its gateway, and afterwards re-reads the record for each
 notification it takes from its channel. Channels are bounded and sending never
 blocks, so notifications are lost; no state is.

 Each action of the protocol is one critical section or one write. `at` is the time
 of a record; successive applies carry strictly increasing times.
 */
module SseServer {
  import opened Trees

  const BUFFER: nat := 8

  datatype Chan = Chan(buffer: seq<string>, closed: bool)

  /** Where a handler is; `rec` is the record it has read and not yet written. */
  datatype Phase =
    | Watching
    | Snapshot(rec: Option<nat>)
    | Waiting
    | Dequeued
    | Reread(rec: Option<nat>)
    | Ended

  /** `sent` is the time of the record written last. */
  datatype Handler = Handler(gateway: string, phase: Phase, sent: Option<nat>)

  datatype State = State(
    records: map<string, nat>,
    subs: map<nat, string>,
    chans: map<nat, Chan>,
    handlers: map<nat, Handler>)

  const INITIAL := State(map[], map[], map[], map[])

  /** `skipped` are the subscribers that a notification cut short by a cancelled context does not reach. */
  datatype Action =
    | Apply(gateway: string, at: nat, skipped: set<nat>)
    | Watch(id: nat, gateway: string)
    | TakeSnapshot(id: nat)
    | Write(id: nat)
    | Dequeue(id: nat)
    | ReadAgain(id: nat)
    | Unsubscribe(id: nat)
    | CloseChannel(id: nat)

  predicate Matches(topic: string, req: string) {
    topic == "" || req == "" || topic == req
  }

  /** A send that does not block: the value is dropped when the buffer is full. */
  function Offer(c: Chan, v: string): Chan {
    if |c.buffer| < BUFFER then c.(buffer := c.buffer + [v]) else c
  }

  function Reached(st: State, v: string, skipped: set<nat>): set<nat> {
    set id | id in st.subs && Matches(v, st.subs[id]) && id !in skipped
  }

  function Notify(chans: map<nat, Chan>, reached: set<nat>, v: string): map<nat, Chan> {
    map id | id in chans :: if id in reached then Offer(chans[id], v) else chans[id]
  }

  function SetPhase(st: State, id: nat, phase: Phase): State
    requires id in st.handlers
  {
    st.(handlers := st.handlers[id := st.handlers[id].(phase := phase)])
  }

  function RecordOf(st: State, gateway: string): Option<nat> {
    Get(st.records, gateway)
  }

  predicate InPhase(st: State, id: nat) {
    id in st.handlers && id in st.chans
  }

  predicate Enabled(st: State, a: Action) {
    match a
    case Apply(gateway, at, skipped) => forall g | g in st.records :: st.records[g] < at
    case Watch(id, gateway) => id !in st.handlers && id !in st.chans
    case TakeSnapshot(id) => InPhase(st, id) && st.handlers[id].phase.Watching?
    case Write(id) => InPhase(st, id) && (st.handlers[id].phase.Snapshot? || st.handlers[id].phase.Reread?)
    case Dequeue(id) => InPhase(st, id) && st.handlers[id].phase.Waiting? && st.chans[id].buffer != []
    case ReadAgain(id) => InPhase(st, id) && st.handlers[id].phase.Dequeued?
    case Unsubscribe(id) => InPhase(st, id) && id in st.subs
    case CloseChannel(id) => InPhase(st, id) && st.handlers[id].phase.Ended? && id !in st.subs && !st.chans[id].closed
  }

  function Next(st: State, a: Action): State
    requires Enabled(st, a)
  {
    match a
    case Apply(gateway, at, skipped) =>
      st.(records := st.records[gateway := at], chans := Notify(st.chans, Reached(st, gateway, skipped), gateway))
    case Watch(id, gateway) =>
      st.(subs := st.subs[id := gateway], chans := st.chans[id := Chan([], false)],
          handlers := st.handlers[id := Handler(gateway, Watching, None)])
    case TakeSnapshot(id) => SetPhase(st, id, Snapshot(RecordOf(st, st.handlers[id].gateway)))
    case Write(id) =>
      var h := st.handlers[id];
      // Without a record only a keep-alive comment is written.
      st.(handlers := st.handlers[id := h.(phase := Waiting, sent := if h.phase.rec.Some? then h.phase.rec else h.sent)])
    case Dequeue(id) =>
      var c := st.chans[id];
      // A notification for another gateway ends the stream with an error.
      SetPhase(st.(chans := st.chans[id := c.(buffer := c.buffer[1..])]), id,
               if c.buffer[0] == st.handlers[id].gateway then Dequeued else Ended)
    case ReadAgain(id) => SetPhase(st, id, Reread(RecordOf(st, st.handlers[id].gateway)))
    case Unsubscribe(id) => SetPhase(st.(subs := st.subs - {id}), id, Ended)
    case CloseChannel(id) => st.(chans := st.chans[id := st.chans[id].(closed := true)])
  }

  // ---------- Runs ----------

  /** The state after the actions, if each was enabled when it was taken. */
  function Run(actions: seq<Action>): Option<State>
    decreases |actions|
  {
    if actions == [] then Some(INITIAL)
    else
      match Run(actions[..|actions| - 1])
      case None => None
      case Some(st) =>
        var a := actions[|actions| - 1];
        if Enabled(st, a) then Some(Next(st, a)) else None
  }

  predicate Complete(a: Action) {
    a.Apply? ==> a.skipped == {}
  }

  // ---------- Safety of the subscriptions ----------

  /** Subscribed channels exist, are open, and carry the gateway of their handler. */
  ghost predicate Consistent(st: State) {
    && st.chans.Keys == st.handlers.Keys
    && (forall id | id in st.subs :: id in st.handlers && !st.chans[id].closed && st.subs[id] == st.handlers[id].gateway)
    && (forall id | id in st.chans :: |st.chans[id].buffer| <= BUFFER)
    && (forall id | id in st.handlers :: !st.handlers[id].phase.Ended? ==> id in st.subs)
    && (forall id | id in st.chans :: st.chans[id].closed ==> st.handlers[id].phase.Ended?)
  }

  /** What a handler has read or written is not newer than the record of its gateway. */
  ghost predicate NotAhead(st: State) {
    forall id | id in st.handlers ::
      var h, rec := st.handlers[id], RecordOf(st, st.handlers[id].gateway);
      && Leq(h.sent, rec)
      && ((h.phase.Snapshot? || h.phase.Reread?) ==> Leq(h.phase.rec, rec) && Leq(h.sent, h.phase.rec))
  }

  predicate Leq(x: Option<nat>, y: Option<nat>) {
    x.None? || (y.Some? && x.value <= y.value)
  }

  // ---------- Lossy notification loses no state ----------

  /** The handler shows, or is about to show, the current record, or a wake-up is still to come. */
  ghost predicate UpToDate(st: State, id: nat)
    requires InPhase(st, id)
  {
    var h, rec, pending := st.handlers[id], RecordOf(st, st.handlers[id].gateway), st.chans[id].buffer != [];
    match h.phase
    case Watching => true
    case Snapshot(r) => r == rec || pending
    case Waiting => h.sent == rec || pending
    case Dequeued => true
    case Reread(r) => r == rec || pending
    case Ended => true
  }

  ghost predicate NothingLost(st: State) {
    forall id | id in st.handlers && id in st.chans :: UpToDate(st, id)
  }

  ghost predicate Inv(st: State) {
    Consistent(st) && NotAhead(st) && NothingLost(st)
  }

  lemma ConsistentStep(st: State, a: Action)
    requires Consistent(st) && Enabled(st, a)
    ensures Consistent(Next(st, a))
  {
    match a {
      case Apply(gateway, at, skipped) =>
      case Watch(id, gateway) =>
      case TakeSnapshot(id) =>
      case Write(id) =>
      case Dequeue(id) =>
      case ReadAgain(id) =>
      case Unsubscribe(id) =>
      case CloseChannel(id) =>
    }
  }

  lemma NotAheadStep(st: State, a: Action)
    requires NotAhead(st) && Enabled(st, a)
    ensures NotAhead(Next(st, a))
  {
    match a {
      case Apply(gateway, at, skipped) =>
      case Watch(id, gateway) =>
      case TakeSnapshot(id) =>
      case Write(id) =>
      case Dequeue(id) =>
      case ReadAgain(id) =>
      case Unsubscribe(id) =>
      case CloseChannel(id) =>
    }
  }

  lemma SentStep(st: State, a: Action, id: nat)
    requires Consistent(st) && NotAhead(st) && Enabled(st, a) && id in st.handlers
    ensures id in Next(st, a).handlers && Leq(st.handlers[id].sent, Next(st, a).handlers[id].sent)
  {}

  /** Order and subscriptions hold in every run, whatever the notifications skip. */
  lemma {:induction false} RunIsOrdered(actions: seq<Action>)
    requires Run(actions).Some?
    ensures Consistent(Run(actions).value) && NotAhead(Run(actions).value)
    decreases |actions|
  {
    if actions != [] {
      var init := actions[..|actions| - 1];
      RunIsOrdered(init);
      ConsistentStep(Run(init).value, actions[|actions| - 1]);
      NotAheadStep(Run(init).value, actions[|actions| - 1]);
    }
  }

  /** Between any two points of any run, what a handler has written last does not go back in time. */
  lemma {:induction false} SentNeverGoesBack(actions: seq<Action>, n: nat, id: nat)
    requires Run(actions).Some? && n <= |actions|
    ensures Run(actions[..n]).Some?
    ensures id in Run(actions[..n]).value.handlers ==>
              && id in Run(actions).value.handlers
              && Leq(Run(actions[..n]).value.handlers[id].sent, Run(actions).value.handlers[id].sent)
    decreases |actions|
  {
    if n == |actions| {
      assert actions[..n] == actions;
    } else {
      var init := actions[..|actions| - 1];
      assert init[..n] == actions[..n];
      SentNeverGoesBack(init, n, id);
      RunIsOrdered(init);
      if id in Run(init).value.handlers {
        SentStep(Run(init).value, actions[|actions| - 1], id);
      }
    }
  }

  /** Every send of a notification is on an open channel, and at most the buffer is kept. */
  lemma SendsAreSafe(st: State, gateway: string, skipped: set<nat>, id: nat)
    requires Consistent(st) && id in Reached(st, gateway, skipped)
    ensures id in st.chans && !st.chans[id].closed
    ensures Offer(st.chans[id], gateway).buffer != []
  {}

  /** The handlers that an apply would strand if it did not reach them. */
  ghost predicate WouldStrand(st: State, gateway: string, id: nat) {
    && InPhase(st, id) && st.handlers[id].gateway == gateway
    && st.chans[id].buffer == []
    && (st.handlers[id].phase.Snapshot? || st.handlers[id].phase.Waiting? || st.handlers[id].phase.Reread?)
  }

  /** An apply loses no state if and only if its notification reaches every handler it would strand. */
  lemma ApplyKeepsIff(st: State, gateway: string, at: nat, skipped: set<nat>)
    requires Inv(st) && Enabled(st, Apply(gateway, at, skipped))
    ensures NothingLost(Next(st, Apply(gateway, at, skipped))) <==> forall id | id in skipped :: !WouldStrand(st, gateway, id)
  {
    var next := Next(st, Apply(gateway, at, skipped));
    forall id | id in st.handlers
      ensures UpToDate(next, id) <==> !(id in skipped && WouldStrand(st, gateway, id))
    {
      assert UpToDate(st, id);
      if id in Reached(st, gateway, skipped) {
        SendsAreSafe(st, gateway, skipped, id);
      }
    }
  }

  lemma StepKeepsInv(st: State, a: Action)
    requires Inv(st) && Enabled(st, a) && Complete(a)
    ensures Inv(Next(st, a))
  {
    ConsistentStep(st, a);
    NotAheadStep(st, a);
    if a.Apply? {
      ApplyKeepsIff(st, a.gateway, a.at, a.skipped);
    } else {
      forall id | id in Next(st, a).handlers && id in Next(st, a).chans ensures UpToDate(Next(st, a), id) {
        if id in st.handlers {
          assert UpToDate(st, id);
        }
      }
    }
  }

  lemma {:induction false} RunKeepsInv(actions: seq<Action>)
    requires Run(actions).Some?
    requires forall i | 0 <= i < |actions| :: Complete(actions[i])
    ensures Inv(Run(actions).value)
    decreases |actions|
  {
    if actions != [] {
      var init, last := actions[..|actions| - 1], actions[|actions| - 1];
      RunKeepsInv(init);
      StepKeepsInv(Run(init).value, last);
    }
  }

  /** After any run, a handler waiting with nothing buffered has written the current record. */
  lemma IdleHandlersAreCurrent(actions: seq<Action>, id: nat)
    requires Run(actions).Some?
    requires forall i | 0 <= i < |actions| :: Complete(actions[i])
    requires id in Run(actions).value.handlers && Run(actions).value.handlers[id].phase.Waiting?
    requires id in Run(actions).value.chans ==> Run(actions).value.chans[id].buffer == []
    ensures Run(actions).value.handlers[id].sent == RecordOf(Run(actions).value, Run(actions).value.handlers[id].gateway)
  {
    RunKeepsInv(actions);
    assert UpToDate(Run(actions).value, id);
  }

  lemma RunSnoc(actions: seq<Action>, a: Action)
    requires Run(actions).Some?
    ensures Run(actions + [a]) == if Enabled(Run(actions).value, a) then Some(Next(Run(actions).value, a)) else None
  {
    assert (actions + [a])[..|actions|] == actions;
  }

  /** One apply under a cancelled context is enough to leave a waiting handler stale with nothing to wake it. */
  lemma CancelledApplyStrands()
    ensures var end := Run([Watch(0, "gw")] + [TakeSnapshot(0)] + [Write(0)] + [Apply("gw", 1, {0})]);
            && end.Some? && 0 in end.value.handlers && 0 in end.value.chans
            && end.value.handlers[0] == Handler("gw", Waiting, None)
            && end.value.chans[0].buffer == []
            && RecordOf(end.value, "gw") == Some(1)
  {
    var a1 := [Watch(0, "gw")];
    RunSnoc([], Watch(0, "gw"));
    assert [] + a1 == a1;
    var a2 := a1 + [TakeSnapshot(0)];
    RunSnoc(a1, TakeSnapshot(0));
    var a3 := a2 + [Write(0)];
    RunSnoc(a2, Write(0));
    assert a3 == [Watch(0, "gw")] + [TakeSnapshot(0)] + [Write(0)];
    var st := Run(a3).value;
    assert st.handlers == map[0 := Handler("gw", Waiting, None)] && st.chans == map[0 := Chan([], false)] && st.records == map[];
    hide Run;
    RunSnoc(a3, Apply("gw", 1, {0}));
  }

  // ---------- Handlers go on, and catch up ----------

  predicate IsNamed(a: Action) {
    (a.Apply? ==> a.gateway != "") && (a.Watch? ==> a.gateway != "")
  }

  /** Every gateway has a name. */
  ghost predicate Named(actions: seq<Action>) {
    forall i | 0 <= i < |actions| :: IsNamed(actions[i])
  }

  /** A channel holds notifications for the gateway of its handler only. */
  ghost predicate OwnOnly(st: State) {
    && (forall id | id in st.handlers :: st.handlers[id].gateway != "")
    && (forall id | id in st.handlers && id in st.chans ::
          forall v | v in st.chans[id].buffer :: v == st.handlers[id].gateway)
  }

  lemma OwnOnlyStep(st: State, a: Action)
    requires Consistent(st) && OwnOnly(st) && Enabled(st, a) && IsNamed(a)
    ensures OwnOnly(Next(st, a))
  {
    var next := Next(st, a);
    forall id, v | id in next.handlers && id in next.chans && v in next.chans[id].buffer ensures v == next.handlers[id].gateway {
      if id in st.handlers {
        assert id in st.chans && next.handlers[id].gateway == st.handlers[id].gateway;
        if v !in st.chans[id].buffer {
          assert a.Apply? && id in Reached(st, a.gateway, a.skipped) && v == a.gateway;
          assert st.subs[id] == st.handlers[id].gateway;
        }
      }
    }
  }

  /** A handler that has ended had unsubscribed. */
  ghost predicate EndedUnsubscribed(actions: seq<Action>, st: State) {
    forall id | id in st.handlers && st.handlers[id].phase.Ended? :: Unsubscribe(id) in actions
  }

  lemma EndsStep(st: State, a: Action, id: nat)
    requires Consistent(st) && OwnOnly(st) && Enabled(st, a)
    requires id in Next(st, a).handlers && Next(st, a).handlers[id].phase.Ended?
    ensures a == Unsubscribe(id) || (id in st.handlers && st.handlers[id].phase.Ended?)
  {
    if a.Dequeue? {
      assert st.chans[a.id].buffer[0] in st.chans[a.id].buffer;
    }
  }

  /** When gateways have names, no notification ends a stream: only its own end does. */
  lemma {:induction false} EndsOnlyUnsubscribed(actions: seq<Action>)
    requires Run(actions).Some? && Named(actions)
    ensures OwnOnly(Run(actions).value) && EndedUnsubscribed(actions, Run(actions).value)
    decreases |actions|
  {
    if actions != [] {
      var init, a := actions[..|actions| - 1], actions[|actions| - 1];
      assert actions == init + [a];
      EndsOnlyUnsubscribed(init);
      RunIsOrdered(init);
      var st := Run(init).value;
      OwnOnlyStep(st, a);
      hide Next, Enabled, Run, OwnOnly, Consistent;
      forall id | id in Next(st, a).handlers && Next(st, a).handlers[id].phase.Ended? ensures Unsubscribe(id) in actions {
        EndsStep(st, a, id);
      }
    }
  }

  /** How far a handler is from the next notification. */
  function StepsLeft(phase: Phase): nat {
    match phase
    case Watching => 2
    case Dequeued => 2
    case Snapshot(_) => 1
    case Reread(_) => 1
    case _ => 0
  }

  /** A handler that is not idle can take a step of its own, which brings it closer. */
  lemma OwnStep(st: State, id: nat) returns (a: Action)
    requires Consistent(st) && OwnOnly(st) && id in st.handlers && !st.handlers[id].phase.Ended?
    requires id in st.chans && !(st.handlers[id].phase.Waiting? && st.chans[id].buffer == [])
    ensures a in {TakeSnapshot(id), Write(id), Dequeue(id), ReadAgain(id)} && Enabled(st, a)
    ensures var next := Next(st, a);
            && next.records == st.records && id in next.handlers && id in next.chans
            && !next.handlers[id].phase.Ended? && next.handlers[id].gateway == st.handlers[id].gateway
            && (|next.chans[id].buffer| < |st.chans[id].buffer|
                || (next.chans[id].buffer == st.chans[id].buffer
                    && StepsLeft(next.handlers[id].phase) < StepsLeft(st.handlers[id].phase)))
  {
    var phase := st.handlers[id].phase;
    if phase.Watching? {
      a := TakeSnapshot(id);
    } else if phase.Dequeued? {
      a := ReadAgain(id);
    } else if phase.Snapshot? || phase.Reread? {
      a := Write(id);
    } else {
      assert st.chans[id].buffer[0] in st.chans[id].buffer;
      a := Dequeue(id);
    }
  }

  /** The own steps that take a handler to waiting with an empty channel. */
  lemma {:induction false} Drains(actions: seq<Action>, id: nat) returns (more: seq<Action>)
    requires Run(actions).Some? && Named(actions)
    requires id in Run(actions).value.handlers && !Run(actions).value.handlers[id].phase.Ended?
    ensures Run(actions + more).Some? && Run(actions + more).value.records == Run(actions).value.records
    ensures forall a | a in more :: a in {TakeSnapshot(id), Write(id), Dequeue(id), ReadAgain(id)}
    ensures var end := Run(actions + more).value;
            id in end.handlers && end.handlers[id].phase.Waiting? && id in end.chans && end.chans[id].buffer == []
            && end.handlers[id].gateway == Run(actions).value.handlers[id].gateway
    decreases var st := Run(actions).value; if id in st.chans then |st.chans[id].buffer| else 0,
              StepsLeft(Run(actions).value.handlers[id].phase)
  {
    RunIsOrdered(actions);
    EndsOnlyUnsubscribed(actions);
    var st := Run(actions).value;
    assert id in st.chans;
    if st.handlers[id].phase.Waiting? && st.chans[id].buffer == [] {
      more := [];
      assert actions + more == actions;
    } else {
      var a := OwnStep(st, id);
      RunSnoc(actions, a);
      hide Next, Enabled, Run, Consistent, OwnOnly;
      var rest := Drains(actions + [a], id);
      more := [a] + rest;
      assert actions + more == (actions + [a]) + rest;
    }
  }

  /** From every point of a run, a handler that has not ended can, by steps of its own, come to have written the current record. */
  lemma CatchesUp(actions: seq<Action>, id: nat) returns (more: seq<Action>)
    requires Run(actions).Some? && Named(actions)
    requires forall i | 0 <= i < |actions| :: Complete(actions[i])
    requires id in Run(actions).value.handlers && !Run(actions).value.handlers[id].phase.Ended?
    ensures Run(actions + more).Some? && Run(actions + more).value.records == Run(actions).value.records
    ensures forall a | a in more :: a in {TakeSnapshot(id), Write(id), Dequeue(id), ReadAgain(id)}
    ensures id in Run(actions + more).value.handlers
    ensures Run(actions + more).value.handlers[id].sent
         == RecordOf(Run(actions).value, Run(actions).value.handlers[id].gateway)
  {
    more := Drains(actions, id);
    var all := actions + more;
    forall i | 0 <= i < |all| ensures Complete(all[i]) {
      if i >= |actions| {
        assert all[i] == more[i - |actions|] && more[i - |actions|] in more;
      }
    }
    IdleHandlersAreCurrent(all, id);
  }

  // ---------- The reloader ----------

  class Reloader {
    var records: map<string, nat>
    var subs: map<nat, string>
    var chans: map<nat, Chan>
    ghost var handlers: map<nat, Handler>

    ghost function Abs(): State
      reads this
    {
      State(records, subs, chans, handlers)
    }

    constructor ()
      ensures Abs() == INITIAL
    {
      records, subs, chans, handlers := map[], map[], map[], map[];
    }

    /**
     Stores and announces a config that the nested reloader has accepted, if it can be
     encoded as a reply and as an event. `stopAt` is how many subscribers it reaches
     when its context ends before it has reached them all.
     */
    method Apply(gateway: string, nestedOk: bool, encodedOk: bool, now: nat, stopAt: Option<nat>)
        returns (ok: bool, ghost skipped: set<nat>)
      requires Consistent(Abs())
      requires Enabled(Abs(), Action.Apply(gateway, now, {}))
      modifies this
      ensures ok == (nestedOk && encodedOk) && (stopAt.None? ==> skipped == {})
      ensures Abs() == if ok then Next(old(Abs()), Action.Apply(gateway, now, skipped)) else old(Abs())
    {
      skipped := {};
      if !nestedOk {
        return false, {};
      }
      if !encodedOk {
        return false, {};
      }
      records := records[gateway := now];
      skipped := NotifyAllLocked(gateway, stopAt);
      return true, skipped;
    }

    /**
     Offers `v` to every matching subscriber; a full channel misses it. A context that
     ends cuts the loop short, and the subscribers that are left are skipped.
     */
    method NotifyAllLocked(v: string, stopAt: Option<nat>) returns (ghost skipped: set<nat>)
      requires subs.Keys <= chans.Keys
      modifies `chans
      ensures chans == Notify(old(chans), Reached(Abs(), v, skipped), v)
      ensures skipped <= subs.Keys && (stopAt.None? ==> skipped == {})
    {
      var ids, reached := subs.Keys, 0;
      while ids != {}
        invariant ids <= subs.Keys && chans.Keys == old(chans).Keys
        invariant forall id | id in chans ::
          chans[id] == if id in Reached(Abs(), v, ids) then Offer(old(chans)[id], v) else old(chans)[id]
        decreases ids
      {
        var sub :| sub in ids;
        var req := subs[sub];
        if v == "" || req == "" || v == req {
          if stopAt == Some(reached) {
            return ids;
          }
          chans := chans[sub := Offer(chans[sub], v)];
          reached := reached + 1;
        }
        ids := ids - {sub};
      }
      return {};
    }

    /** Registers a channel; the caller is the handler `id`. */
    method Watch(id: nat, gateway: string)
      requires Enabled(Abs(), Action.Watch(id, gateway))
      modifies this
      ensures Abs() == Next(old(Abs()), Action.Watch(id, gateway))
    {
      chans := chans[id := Chan([], false)];
      subs := subs[id := gateway];
      handlers := handlers[id := Handler(gateway, Watching, None)];
    }

    /** Closing a subscription removes it under the lock before its channel is closed. */
    method Close(id: nat)
      requires Enabled(Abs(), Unsubscribe(id)) && !chans[id].closed
      modifies this
      ensures var mid := Next(old(Abs()), Unsubscribe(id));
              Enabled(mid, CloseChannel(id)) && Abs() == Next(mid, CloseChannel(id))
    {
      subs := subs - {id};
      handlers := handlers[id := handlers[id].(phase := Ended)];
      chans := chans[id := chans[id].(closed := true)];
    }
  }
}
