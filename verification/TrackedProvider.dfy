/**
 The requester's and the remover's code, section by section, with any number of others
 at work in between. `trace` records the steps taken since the tracker was made; it is
 always a run, so what is proved of all runs holds of the code, however it interleaves.
 */
module TrackedProvider {
  import opened Trees
  import opened TrackerRace

  datatype Who = Requester(id: nat) | Remover(id: nat)

  predicate By(a: Action, who: Who) {
    match a
    case Claim(id, _) => who == Requester(id)
    case Provision(id, _) => who == Requester(id)
    case GiveUp(id) => who == Requester(id)
    case Expire(id, _) => who == Remover(id)
    case Untrack(id) => who == Remover(id)
    case Unmanage(id) => who == Remover(id)
    case Recheck(id) => who == Remover(id)
    case Rollback(id, _, _) => who == Remover(id)
  }

  /** The steps that `who` has taken. */
  ghost function Own(actions: seq<Action>, who: Who): seq<Action>
    decreases |actions|
  {
    if actions == [] then []
    else
      var last := actions[|actions| - 1];
      Own(actions[..|actions| - 1], who) + if By(last, who) then [last] else []
  }

  lemma OwnSnoc(actions: seq<Action>, a: Action, who: Who)
    ensures Own(actions + [a], who) == Own(actions, who) + if By(a, who) then [a] else []
  {
    assert (actions + [a])[..|actions|] == actions;
  }

  /** The rollbacks of a remover, in the order it made them. */
  ghost function Rollbacks(id: nat, keys: seq<string>, succeeds: string -> bool): seq<Action>
    decreases |keys|
  {
    if keys == [] then []
    else
      var last := keys[|keys| - 1];
      Rollbacks(id, keys[..|keys| - 1], succeeds) + [Rollback(id, last, succeeds(last))]
  }

  lemma RollbacksStart(id: nat, succeeds: string -> bool)
    ensures Rollbacks(id, [], succeeds) == []
  {}

  lemma RollbacksSnoc(id: nat, keys: seq<string>, key: string, succeeds: string -> bool)
    ensures Rollbacks(id, keys + [key], succeeds) == Rollbacks(id, keys, succeeds) + [Rollback(id, key, succeeds(key))]
  {
    assert (keys + [key])[..|keys|] == keys;
  }

  lemma Together(own: seq<Action>, first: seq<Action>, second: seq<Action>)
    ensures own + first + second == own + (first + second)
  {}

  class Provider {
    var track: set<string>
    ghost var managed: set<string>
    ghost var requesters: map<nat, TrackerRace.Requester>
    ghost var removers: map<nat, TrackerRace.Remover>
    ghost var trace: seq<Action>

    ghost function Abs(): State
      reads this
    {
      State(track, managed, requesters, removers)
    }

    ghost predicate Valid()
      reads this
    {
      Run(trace) == Some(Abs())
    }

    constructor ()
      ensures Valid() && trace == []
    {
      track, managed, requesters, removers, trace := {}, {}, map[], map[], [];
    }

    /** A section has changed the tracked keys as its step does; the rest of the step is recorded. */
    ghost method Record(a: Action, before: State)
      requires Run(trace) == Some(before) && Enabled(before, a) && track == Next(before, a).track
      modifies `managed, `requesters, `removers, `trace
      ensures Valid() && Abs() == Next(before, a)
      ensures trace == old(trace) + [a]
      ensures forall who :: Own(trace, who) == Own(old(trace), who) + if By(a, who) then [a] else []
    {
      RunSnoc(trace, a);
      forall who ensures Own(trace + [a], who) == Own(trace, who) + if By(a, who) then [a] else [] {
        OwnSnoc(trace, a, who);
      }
      var next := Next(before, a);
      managed, requesters, removers, trace := next.managed, next.requesters, next.removers, trace + [a];
    }

    /**
     What others do while `who` does not hold the lock: any steps, this contract says,
     but those of `who`.
     */
    method Others(ghost who: Who)
      requires Valid()
      modifies this
      ensures Valid() && old(trace) <= trace && Own(trace, who) == Own(old(trace), who)
      ensures who.Requester? && who.id in old(requesters) ==>
                who.id in requesters && requesters[who.id] == old(requesters)[who.id]
      ensures who.Remover? && who.id in old(removers) ==>
                who.id in removers && removers[who.id] == old(removers)[who.id]
    {}

    /** Claims the key under the lock, asks the provider outside it, and gives the key up if the provider fails. */
    method RequestCertificate(ghost id: nat, key: string, providerOk: bool) returns (ok: bool)
      requires Valid() && id !in requesters
      modifies this
      ensures Valid() && old(trace) <= trace
      ensures ok <==> key in old(track) || providerOk
      ensures id in requesters && requesters[id] == Served(key)
      ensures Own(trace, Requester(id)) == Own(old(trace), Requester(id)) +
                if key in old(track) then [Claim(id, key)]
                else if providerOk then [Claim(id, key), Provision(id, true)]
                else [Claim(id, key), Provision(id, false), GiveUp(id)]
    {
      ghost var before, own := Abs(), Own(trace, Requester(id));
      var found := key in track;
      if !found {
        track := track + {key};
      }
      Record(Claim(id, key), before);
      if !found {
        ok := Ask(id, key, providerOk);
        Together(own, [Claim(id, key)], if providerOk then [Provision(id, true)] else [Provision(id, false), GiveUp(id)]);
        return;
      }
      return true;
    }

    /** The owner of a key asks the provider, and deletes the key under the lock if it fails. */
    method Ask(ghost id: nat, key: string, providerOk: bool) returns (ok: bool)
      requires Valid() && id in requesters && requesters[id] == Owner(key)
      modifies this
      ensures Valid() && old(trace) <= trace && ok == providerOk
      ensures id in requesters && requesters[id] == Served(key)
      ensures Own(trace, Requester(id)) == Own(old(trace), Requester(id)) +
                if providerOk then [Provision(id, true)] else [Provision(id, false), GiveUp(id)]
    {
      ghost var own := Own(trace, Requester(id));
      Others(Requester(id));
      Record(Provision(id, providerOk), Abs());
      if !providerOk {
        Others(Requester(id));
        ghost var before := Abs();
        track := track - {key};
        Record(GiveUp(id), before);
        Together(own, [Provision(id, false)], [GiveUp(id)]);
        return false;
      }
      return true;
    }

    /** The walk's section: the stale keys are dropped, and their removal is owed from here on. */
    method Expire(ghost id: nat, keys: set<string>)
      requires Valid() && id !in removers
      modifies this
      ensures Valid() && track == old(track) - keys
      ensures id in removers && removers[id] == Expired(keys)
      ensures trace == old(trace) + [Action.Expire(id, keys)]
    {
      ghost var before := Abs();
      track := track - keys;
      Record(Action.Expire(id, keys), before);
    }

    /**
     Drops the keys, has the provider drop them, and asks it again for those that
     somebody has claimed meanwhile: each of them once, in some order.
     */
    method RemoveManaged(ghost id: nat, remains: seq<string>, succeeds: string -> bool) returns (ghost again: seq<string>)
      requires Valid() && id in removers && removers[id] == Expired(set k | k in remains)
      modifies this
      ensures Valid() && old(trace) <= trace
      ensures id in removers && removers[id] == Rolling({})
      ensures forall k | k in again :: k in remains
      ensures forall i, j | 0 <= i < j < |again| :: again[i] != again[j]
      ensures Own(trace, Remover(id)) == Own(old(trace), Remover(id)) + [Untrack(id), Unmanage(id), Recheck(id)]
                                         + Rollbacks(id, again, succeeds)
    {
      hide Run, Own, Rollbacks;
      ghost var own := Own(trace, Remover(id));
      DropAndUnmanage(id, remains);
      Others(Remover(id));
      var rollbacks := FindAgain(remains);
      Record(Recheck(id), Abs());
      Together(own, [Untrack(id), Unmanage(id)], [Recheck(id)]);
      again := RollBack(id, rollbacks, succeeds);
      Together(own, [Untrack(id), Unmanage(id), Recheck(id)], Rollbacks(id, again, succeeds));
    }

    /** The first section, and the provider's removal outside the lock. */
    method DropAndUnmanage(ghost id: nat, remains: seq<string>)
      requires Valid() && id in removers && removers[id] == Expired(set k | k in remains)
      modifies this
      ensures Valid() && old(trace) <= trace
      ensures id in removers && removers[id] == Unmanaged(set k | k in remains)
      ensures Own(trace, Remover(id)) == Own(old(trace), Remover(id)) + [Untrack(id), Unmanage(id)]
    {
      ghost var before, own := Abs(), Own(trace, Remover(id));
      DropAll(remains);
      Record(Untrack(id), before);
      Others(Remover(id));
      Record(Unmanage(id), Abs());
      Together(own, [Untrack(id)], [Unmanage(id)]);
    }

    /** The loop that drops the keys, under the lock. */
    method DropAll(remains: seq<string>)
      modifies `track
      ensures track == old(track) - set k | k in remains
    {
      for i := 0 to |remains|
        invariant track == old(track) - set k | k in remains[..i]
      {
        track := track - {remains[i]};
        assert remains[..i + 1] == remains[..i] + [remains[i]];
      }
      assert remains[..|remains|] == remains;
    }

    /** The loop that looks for the keys that are tracked again, under the lock. */
    method FindAgain(remains: seq<string>) returns (rollbacks: set<string>)
      ensures rollbacks == (set k | k in remains) * track
    {
      rollbacks := {};
      for i := 0 to |remains|
        invariant rollbacks == (set k | k in remains[..i]) * track
      {
        assert remains[..i + 1] == remains[..i] + [remains[i]];
        if remains[i] in track {
          rollbacks := rollbacks + {remains[i]};
        }
      }
      assert remains[..|remains|] == remains;
    }

    /** The loop of the rollbacks: others work before each of them. */
    method RollBack(ghost id: nat, rollbacks: set<string>, succeeds: string -> bool) returns (ghost again: seq<string>)
      requires Valid() && id in removers && removers[id] == Rolling(rollbacks)
      modifies this
      ensures Valid() && old(trace) <= trace
      ensures id in removers && removers[id] == Rolling({})
      ensures forall k :: k in again <==> k in rollbacks
      ensures forall i, j | 0 <= i < j < |again| :: again[i] != again[j]
      ensures Own(trace, Remover(id)) == Own(old(trace), Remover(id)) + Rollbacks(id, again, succeeds)
    {
      hide Run, Own, Rollbacks;
      RollbacksStart(id, succeeds);
      ghost var own := Own(trace, Remover(id));
      again := [];
      var pending := rollbacks;
      while pending != {}
        invariant Valid() && old(trace) <= trace && pending <= rollbacks
        invariant id in removers && removers[id] == Rolling(pending)
        invariant forall k :: k in again <==> k in rollbacks && k !in pending
        invariant forall i, j | 0 <= i < j < |again| :: again[i] != again[j]
        invariant Own(trace, Remover(id)) == own + Rollbacks(id, again, succeeds)
        decreases pending
      {
        var key :| key in pending;
        Others(Remover(id));
        Record(Rollback(id, key, succeeds(key)), Abs());
        RollbacksSnoc(id, again, key, succeeds);
        Together(own, Rollbacks(id, again, succeeds), [Rollback(id, key, succeeds(key))]);
        pending, again := pending - {key}, again + [key];
      }
    }
  }
}
