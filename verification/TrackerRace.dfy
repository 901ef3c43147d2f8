/**
 Requesting certificates while others are being removed. Critical sections on the
 set of tracked identities alternate with calls to the provider made outside the
 lock. Any number of requesters and removers interleave; all belong to one provider.
 */
module TrackerRace {
  import opened Trees

  /** `Owner` has inserted its key and owes the provider request; `Failed` owes the delete. */
  datatype Requester = Owner(key: string) | Failed(key: string) | Served(key: string)

  /**
   `Expired` has found its keys stale and dropped them, and owes all of their removal;
   `Untracked` owes the provider removal, `Unmanaged` the re-check, `Rolling` the
   rollbacks of `pending`.
   */
  datatype Remover =
    | Expired(remains: set<string>)
    | Untracked(remains: set<string>)
    | Unmanaged(remains: set<string>)
    | Rolling(pending: set<string>)

  datatype State = State(
    track: set<string>,
    managed: set<string>,
    requesters: map<nat, Requester>,
    removers: map<nat, Remover>)

  const INITIAL := State({}, {}, map[], map[])

  datatype Action =
    | Claim(id: nat, key: string)
    | Provision(id: nat, ok: bool)
    | GiveUp(id: nat)
    | Expire(id: nat, keys: set<string>)
    | Untrack(id: nat)
    | Unmanage(id: nat)
    | Recheck(id: nat)
    | Rollback(id: nat, key: string, ok: bool)

  predicate Enabled(st: State, a: Action) {
    match a
    case Claim(id, key) => id !in st.requesters
    case Provision(id, ok) => id in st.requesters && st.requesters[id].Owner?
    case GiveUp(id) => id in st.requesters && st.requesters[id].Failed?
    case Expire(id, keys) => id !in st.removers
    case Untrack(id) => id in st.removers && st.removers[id].Expired?
    case Unmanage(id) => id in st.removers && st.removers[id].Untracked?
    case Recheck(id) => id in st.removers && st.removers[id].Unmanaged?
    case Rollback(id, key, ok) => id in st.removers && st.removers[id].Rolling? && key in st.removers[id].pending
  }

  function Next(st: State, a: Action): State
    requires Enabled(st, a)
  {
    match a
    case Claim(id, key) =>
      if key in st.track then st.(requesters := st.requesters[id := Served(key)])
      else st.(track := st.track + {key}, requesters := st.requesters[id := Owner(key)])
    case Provision(id, ok) =>
      var key := st.requesters[id].key;
      if ok then st.(managed := st.managed + {key}, requesters := st.requesters[id := Served(key)])
      else st.(requesters := st.requesters[id := Failed(key)])
    case GiveUp(id) =>
      var key := st.requesters[id].key;
      st.(track := st.track - {key}, requesters := st.requesters[id := Served(key)])
    case Expire(id, keys) =>
      st.(track := st.track - keys, removers := st.removers[id := Expired(keys)])
    case Untrack(id) =>
      var remains := st.removers[id].remains;
      st.(track := st.track - remains, removers := st.removers[id := Untracked(remains)])
    case Unmanage(id) =>
      var remains := st.removers[id].remains;
      st.(managed := st.managed - remains, removers := st.removers[id := Unmanaged(remains)])
    case Recheck(id) =>
      st.(removers := st.removers[id := Rolling(st.removers[id].remains * st.track)])
    case Rollback(id, key, ok) =>
      st.(managed := if ok then st.managed + {key} else st.managed,
          removers := st.removers[id := Rolling(st.removers[id].pending - {key})])
  }

  function Run(actions: seq<Action>): Option<State>
    decreases |actions|
  {
    if actions == [] then Some(INITIAL)
    else
      var before, a := Run(actions[..|actions| - 1]), actions[|actions| - 1];
      if before.Some? && Enabled(before.value, a) then Some(Next(before.value, a)) else None
  }

  // ---------- Tracked keys are managed, or someone still owes it ----------

  predicate OwedByRequester(r: Requester, key: string) {
    !r.Served? && r.key == key
  }

  predicate OwedByRemover(r: Remover, key: string) {
    match r
    case Expired(remains) => false
    case Untracked(remains) => false
    case Unmanaged(remains) => key in remains
    case Rolling(pending) => key in pending
  }

  ghost predicate Owed(st: State, key: string) {
    || (exists id :: id in st.requesters && OwedByRequester(st.requesters[id], key))
    || (exists id :: id in st.removers && OwedByRemover(st.removers[id], key))
  }

  ghost predicate Covered(st: State, key: string) {
    key in st.track ==> key in st.managed || Owed(st, key)
  }

  ghost predicate Inv(st: State) {
    forall key :: Covered(st, key)
  }

  /** Every debt for a key other than those an action settles is still owed after it. */
  lemma DebtsStay(st: State, a: Action, key: string)
    requires Enabled(st, a) && Owed(st, key)
    ensures var next := Next(st, a);
            || Owed(next, key)
            || (a.Provision? && a.ok && key in next.managed)
            || (a.GiveUp? && key !in next.track)
            || (a.Recheck? && key !in next.track)
            || (a.Rollback? && a.key == key)
  {
    var next := Next(st, a);
    if id :| id in st.requesters && OwedByRequester(st.requesters[id], key) {
      assert id in next.requesters;
      assert OwedByRequester(next.requesters[id], key)
          || (a.Provision? && a.ok && key in next.managed) || (a.GiveUp? && key !in next.track);
    } else if id :| id in st.removers && OwedByRemover(st.removers[id], key) {
      assert id in next.removers;
      assert OwedByRemover(next.removers[id], key)
          || (a.Recheck? && key !in next.track) || (a.Rollback? && a.key == key);
    }
  }

  /** The keys of a removal are owed once the provider has dropped them. */
  lemma RemovalIsOwed(st: State, id: nat, key: string)
    requires Enabled(st, Unmanage(id)) && key in st.removers[id].remains
    ensures Owed(Next(st, Unmanage(id)), key)
  {
    assert OwedByRemover(Next(st, Unmanage(id)).removers[id], key);
  }

  lemma ClaimIsOwed(st: State, id: nat, key: string)
    requires Enabled(st, Claim(id, key)) && key !in st.track
    ensures Owed(Next(st, Claim(id, key)), key)
  {
    assert OwedByRequester(Next(st, Claim(id, key)).requesters[id], key);
  }

  /** Every action but a failed rollback keeps every key covered. */
  lemma StepKeepsInv(st: State, a: Action)
    requires Inv(st) && Enabled(st, a)
    requires a.Rollback? ==> a.ok
    ensures Inv(Next(st, a))
  {
    var next := Next(st, a);
    forall key ensures Covered(next, key) {
      assert Covered(st, key);
      if Owed(st, key) {
        DebtsStay(st, a, key);
      } else if a.Claim? && a.key == key && key !in st.track {
        ClaimIsOwed(st, a.id, key);
      } else if a.Unmanage? && key in st.removers[a.id].remains {
        RemovalIsOwed(st, a.id, key);
      }
    }
  }

  /** The key of a rollback is untracked, managed, or still owed by someone else. */
  ghost predicate CoveredByOthers(st: State, id: nat, key: string) {
    || key !in st.track || key in st.managed
    || (exists r :: r in st.requesters && OwedByRequester(st.requesters[r], key))
    || (exists r :: r in st.removers && r != id && OwedByRemover(st.removers[r], key))
  }

  /** A failed rollback keeps every key covered if and only if others cover its key. */
  lemma FailedRollbackKeepsIff(st: State, id: nat, key: string)
    requires Inv(st) && Enabled(st, Rollback(id, key, false))
    ensures Inv(Next(st, Rollback(id, key, false))) <==> CoveredByOthers(st, id, key)
  {
    var a := Rollback(id, key, false);
    var next := Next(st, a);
    forall k | k != key ensures Covered(next, k) {
      assert Covered(st, k);
      if Owed(st, k) {
        DebtsStay(st, a, k);
      }
    }
    if r :| r in st.removers && r != id && OwedByRemover(st.removers[r], key) {
      assert OwedByRemover(next.removers[r], key);
    }
    assert Inv(next) <==> Covered(next, key);
    if Owed(next, key) {
      if r :| r in next.removers && OwedByRemover(next.removers[r], key) {
        assert r != id;
      }
    }
  }

  /** A rollback that failed did no harm when it did. */
  ghost predicate Harmless(st: State, a: Action) {
    a.Rollback? && !a.ok ==> CoveredByOthers(st, a.id, a.key)
  }

  ghost predicate AlwaysHarmless(actions: seq<Action>) {
    forall n: nat | n < |actions| :: Run(actions[..n]).Some? ==> Harmless(Run(actions[..n]).value, actions[n])
  }

  ghost predicate AlwaysInv(actions: seq<Action>) {
    forall n: nat | n <= |actions| :: Run(actions[..n]).Some? ==> Inv(Run(actions[..n]).value)
  }

  predicate RollbacksSucceed(actions: seq<Action>) {
    forall i | 0 <= i < |actions| :: actions[i].Rollback? ==> actions[i].ok
  }

  lemma PrefixRuns(actions: seq<Action>, n: nat)
    requires Run(actions).Some? && n <= |actions|
    ensures Run(actions[..n]).Some?
    ensures n < |actions| ==> Enabled(Run(actions[..n]).value, actions[n])
                              && Run(actions[..n + 1]) == Some(Next(Run(actions[..n]).value, actions[n]))
    decreases |actions|
  {
    if n < |actions| {
      var init := actions[..|actions| - 1];
      assert actions[..n + 1][..n] == actions[..n];
      if n < |init| {
        assert init[..n] == actions[..n] && init[..n + 1] == actions[..n + 1];
        PrefixRuns(init, n);
      } else {
        assert actions[..n] == init && actions[..n + 1] == actions;
      }
    } else {
      assert actions[..n] == actions;
    }
  }

  /** Every key is covered throughout a run if and only if every failed rollback was harmless when it failed. */
  lemma RunKeepsInvIff(actions: seq<Action>)
    requires Run(actions).Some?
    ensures AlwaysInv(actions) <==> AlwaysHarmless(actions)
  {
    if AlwaysHarmless(actions) {
      forall n: nat | n <= |actions| && Run(actions[..n]).Some? ensures Inv(Run(actions[..n]).value) {
        HarmlessPrefix(actions, n);
      }
    }
    if AlwaysInv(actions) {
      forall n: nat | n < |actions| && Run(actions[..n]).Some? ensures Harmless(Run(actions[..n]).value, actions[n]) {
        PrefixRuns(actions, n);
        var st, a := Run(actions[..n]).value, actions[n];
        assert Run(actions[..n + 1]) == Some(Next(st, a));
        if a.Rollback? && !a.ok {
          FailedRollbackKeepsIff(st, a.id, a.key);
        }
      }
    }
  }

  lemma {:induction false} HarmlessPrefix(actions: seq<Action>, n: nat)
    requires Run(actions).Some? && AlwaysHarmless(actions) && n <= |actions|
    ensures Run(actions[..n]).Some? && Inv(Run(actions[..n]).value)
    decreases n
  {
    PrefixRuns(actions, n);
    if n > 0 {
      HarmlessPrefix(actions, n - 1);
      PrefixRuns(actions, n - 1);
      var st, a := Run(actions[..n - 1]).value, actions[n - 1];
      assert Harmless(st, a);
      if a.Rollback? && !a.ok {
        FailedRollbackKeepsIff(st, a.id, a.key);
      } else {
        StepKeepsInv(st, a);
      }
    } else {
      assert actions[..0] == [];
    }
  }

  lemma RunKeepsInv(actions: seq<Action>)
    requires Run(actions).Some? && AlwaysHarmless(actions)
    ensures Inv(Run(actions).value)
  {
    HarmlessPrefix(actions, |actions|);
    assert actions[..|actions|] == actions;
  }

  /** Successful rollbacks are harmless. */
  lemma SuccessIsHarmless(actions: seq<Action>)
    requires RollbacksSucceed(actions)
    ensures AlwaysHarmless(actions)
  {}

  predicate Quiescent(st: State) {
    && (forall id | id in st.requesters :: st.requesters[id].Served?)
    && (forall id | id in st.removers :: st.removers[id].Rolling? && st.removers[id].pending == {})
  }

  /** When every requester and remover has finished, what is tracked is managed. */
  lemma TrackedIsManaged(actions: seq<Action>)
    requires Run(actions).Some? && AlwaysHarmless(actions)
    requires Quiescent(Run(actions).value)
    ensures Run(actions).value.track <= Run(actions).value.managed
  {
    var st := Run(actions).value;
    RunKeepsInv(actions);
    forall key | key in st.track ensures key in st.managed {
      assert Covered(st, key);
    }
  }

  // ---------- Managed keys are tracked, or a remover still owes their removal ----------

  predicate OwesRemoval(r: Remover, key: string) {
    (r.Expired? || r.Untracked?) && key in r.remains
  }

  ghost predicate RemovalOwed(st: State, key: string) {
    exists id :: id in st.removers && OwesRemoval(st.removers[id], key)
  }

  ghost predicate Wanted(st: State, key: string) {
    key in st.track || RemovalOwed(st, key)
  }

  /** No key is managed that nobody tracks and nobody is about to remove. */
  ghost predicate NoStray(st: State) {
    forall key | key in st.managed :: Wanted(st, key)
  }

  /**
   A provider request that succeeds finds its key still tracked, or about to be removed
   anyway; a request that gives up does not untrack a key that someone has had managed.
   */
  ghost predicate Settled(st: State, a: Action)
    requires Enabled(st, a)
  {
    match a
    case Provision(id, ok) => ok ==> Wanted(st, st.requesters[id].key)
    case GiveUp(id) => st.requesters[id].key !in st.managed || RemovalOwed(st, st.requesters[id].key)
    case Rollback(id, key, ok) => ok ==> Wanted(st, key)
    case _ => true
  }

  /** Removals stay owed until the provider has dropped the key. */
  lemma RemovalStaysOwed(st: State, a: Action, key: string)
    requires Enabled(st, a) && RemovalOwed(st, key)
    ensures RemovalOwed(Next(st, a), key) || key !in Next(st, a).managed
  {
    var id :| id in st.removers && OwesRemoval(st.removers[id], key);
    assert id in Next(st, a).removers;
    assert OwesRemoval(Next(st, a).removers[id], key) || key !in Next(st, a).managed;
  }

  /** No new removal is owed but by a remover that has just found its keys stale. */
  lemma RemovalWasOwed(st: State, a: Action, key: string)
    requires Enabled(st, a) && RemovalOwed(Next(st, a), key) && !a.Expire?
    ensures RemovalOwed(st, key)
  {
    var id :| id in Next(st, a).removers && OwesRemoval(Next(st, a).removers[id], key);
    assert OwesRemoval(st.removers[id], key);
  }

  /** An action leaves no stray key if and only if it is settled. */
  lemma StrayIff(st: State, a: Action)
    requires NoStray(st) && Enabled(st, a)
    ensures NoStray(Next(st, a)) <==> Settled(st, a)
  {
    var next := Next(st, a);
    if Settled(st, a) {
      forall key | key in next.managed ensures Wanted(next, key) {
        SettledKeeps(st, a, key);
      }
    } else {
      var key := if a.Rollback? then a.key else st.requesters[a.id].key;
      assert key in next.managed && key !in next.track;
      if RemovalOwed(next, key) {
        RemovalWasOwed(st, a, key);
      }
      assert !Wanted(next, key);
    }
  }

  lemma SettledKeeps(st: State, a: Action, key: string)
    requires NoStray(st) && Enabled(st, a) && Settled(st, a) && key in Next(st, a).managed
    ensures Wanted(Next(st, a), key)
  {
    var next := Next(st, a);
    assert key in st.managed ==> Wanted(st, key);
    if RemovalOwed(st, key) {
      RemovalStaysOwed(st, a, key);
    } else if a.Expire? && key in a.keys {
      assert OwesRemoval(next.removers[a.id], key);
    }
  }

  ghost predicate AlwaysSettled(actions: seq<Action>)
    requires Run(actions).Some?
  {
    forall n: nat | n < |actions| :: SettledAt(actions, n)
  }

  ghost predicate SettledAt(actions: seq<Action>, n: nat)
    requires Run(actions).Some? && n < |actions|
  {
    PrefixRuns(actions, n);
    Settled(Run(actions[..n]).value, actions[n])
  }

  ghost predicate NeverStray(actions: seq<Action>) {
    forall n: nat | n <= |actions| :: Run(actions[..n]).Some? ==> NoStray(Run(actions[..n]).value)
  }

  /** A run never has a stray key if and only if each of its actions was settled when it was taken. */
  lemma NeverStrayIff(actions: seq<Action>)
    requires Run(actions).Some?
    ensures NeverStray(actions) <==> AlwaysSettled(actions)
  {
    if AlwaysSettled(actions) {
      forall n: nat | n <= |actions| && Run(actions[..n]).Some? ensures NoStray(Run(actions[..n]).value) {
        SettledPrefix(actions, n);
      }
    }
    if NeverStray(actions) {
      forall n: nat | n < |actions| ensures SettledAt(actions, n) {
        PrefixRuns(actions, n);
        assert Run(actions[..n + 1]) == Some(Next(Run(actions[..n]).value, actions[n]));
        StrayIff(Run(actions[..n]).value, actions[n]);
      }
    }
  }

  lemma {:induction false} SettledPrefix(actions: seq<Action>, n: nat)
    requires Run(actions).Some? && AlwaysSettled(actions) && n <= |actions|
    ensures Run(actions[..n]).Some? && NoStray(Run(actions[..n]).value)
    decreases n
  {
    PrefixRuns(actions, n);
    if n > 0 {
      SettledPrefix(actions, n - 1);
      PrefixRuns(actions, n - 1);
      assert SettledAt(actions, n - 1);
      StrayIff(Run(actions[..n - 1]).value, actions[n - 1]);
    } else {
      assert actions[..0] == [];
    }
  }

  /** When every requester and remover has finished, exactly the tracked keys are managed. */
  lemma ManagedIsTracked(actions: seq<Action>)
    requires Run(actions).Some? && AlwaysSettled(actions) && AlwaysHarmless(actions)
    requires Quiescent(Run(actions).value)
    ensures Run(actions).value.managed == Run(actions).value.track
  {
    var st := Run(actions).value;
    TrackedIsManaged(actions);
    SettledPrefix(actions, |actions|);
    assert actions[..|actions|] == actions;
    forall key | key in st.managed ensures key in st.track {
      assert Wanted(st, key);
    }
  }

  // ---------- What does not hold ----------

  lemma RunSnoc(actions: seq<Action>, a: Action)
    requires Run(actions).Some? && Enabled(Run(actions).value, a)
    ensures Run(actions + [a]) == Some(Next(Run(actions).value, a))
  {
    assert (actions + [a])[..|actions|] == actions;
  }

  /**
   A requester that is re-tracked during a removal whose rollback fails stays tracked
   and unmanaged after everyone has finished.
   */
  lemma FailedRollbackStrands(k: string)
    ensures var end := Run([Claim(0, k)] + [Provision(0, true)] + [Expire(0, {k})] + [Untrack(0)] + [Claim(1, k)]
                           + [Provision(1, true)] + [Unmanage(0)] + [Recheck(0)] + [Rollback(0, k, false)]);
            end.Some? && Quiescent(end.value) && k in end.value.track && k !in end.value.managed
  {
    var a1 := [Claim(0, k)];
    RunSnoc([], Claim(0, k));
    assert [] + a1 == a1;
    var a2 := a1 + [Provision(0, true)];
    RunSnoc(a1, Provision(0, true));
    var a3 := a2 + [Expire(0, {k})];
    RunSnoc(a2, Expire(0, {k}));
    var a31 := a3 + [Untrack(0)];
    RunSnoc(a3, Untrack(0));
    var a4 := a31 + [Claim(1, k)];
    RunSnoc(a31, Claim(1, k));
    var a5 := a4 + [Provision(1, true)];
    RunSnoc(a4, Provision(1, true));
    var a6 := a5 + [Unmanage(0)];
    RunSnoc(a5, Unmanage(0));
    var a7 := a6 + [Recheck(0)];
    RunSnoc(a6, Recheck(0));
    assert {k} * {k} == {k};
    RunSnoc(a7, Rollback(0, k, false));
    assert {k} - {k} == {};
  }

  /**
   A requester whose request failed deletes the key that another has meanwhile claimed
   and provisioned, after a remover has come and gone: it stays managed and untracked.
   */
  lemma ManagedMayBeUntracked(k: string)
    ensures var end := Run([Claim(0, k)] + [Expire(0, {k})] + [Untrack(0)] + [Unmanage(0)] + [Recheck(0)]
                           + [Claim(1, k)] + [Provision(1, true)] + [Provision(0, false)] + [GiveUp(0)]);
            end.Some? && Quiescent(end.value) && k !in end.value.track && k in end.value.managed
  {
    var a5 := RemovedWhileOwned(k);
    var a6 := a5 + [Claim(1, k)];
    RunSnoc(a5, Claim(1, k));
    var a7 := a6 + [Provision(1, true)];
    RunSnoc(a6, Provision(1, true));
    var a8 := a7 + [Provision(0, false)];
    RunSnoc(a7, Provision(0, false));
    RunSnoc(a8, GiveUp(0));
  }

  /** A provider request that takes longer than a whole removal leaves its key managed and untracked. */
  lemma LateProvisionStrays(k: string)
    ensures var end := Run([Claim(0, k)] + [Expire(0, {k})] + [Untrack(0)] + [Unmanage(0)] + [Recheck(0)] + [Provision(0, true)]);
            end.Some? && Quiescent(end.value) && k !in end.value.track && k in end.value.managed
  {
    var a5 := RemovedWhileOwned(k);
    RunSnoc(a5, Provision(0, true));
  }

  lemma RemovedWhileOwned(k: string) returns (actions: seq<Action>)
    ensures actions == [Claim(0, k)] + [Expire(0, {k})] + [Untrack(0)] + [Unmanage(0)] + [Recheck(0)]
    ensures Run(actions).Some?
    ensures var st := Run(actions).value;
            st.track == {} && st.managed == {} && st.requesters == map[0 := Owner(k)] && st.removers == map[0 := Rolling({})]
  {
    var a1 := [Claim(0, k)];
    RunSnoc([], Claim(0, k));
    assert [] + a1 == a1;
    var a2 := a1 + [Expire(0, {k})];
    RunSnoc(a1, Expire(0, {k}));
    var a3 := a2 + [Untrack(0)];
    RunSnoc(a2, Untrack(0));
    var a4 := a3 + [Unmanage(0)];
    RunSnoc(a3, Unmanage(0));
    RunSnoc(a4, Recheck(0));
    actions := a4 + [Recheck(0)];
    assert {k} - {k} == {} && {k} * {} == {};
  }
}
