/**
 The certificate tracker on its own: what committing a set of certificates does to
 the tracked ones, and how expiry dates evolve. Times are naturals; zero is the
 zero time of a certificate that has not arrived yet.
 */
module TrackerCommit {
  import opened Trees

  datatype Key = Key(provider: string, identity: string)
  datatype Cert = Cert(notAfter: nat, pem: seq<bv8>)
  datatype Tracked = Tracked(cert: Cert, trackedAt: int)

  type Track = map<Key, Tracked>

  // ---------- Updates ----------

  /** A certificate replaces the tracked one when none has arrived yet or when it expires later. */
  predicate Replaces(t: Tracked, best: Cert) {
    t.cert.notAfter == 0 || best.notAfter > t.cert.notAfter
  }

  function Updated(track: Track, key: Key, best: Cert): Track {
    if key in track && Replaces(track[key], best) then
      track[key := track[key].(cert := best)]
    else track
  }

  /** A requester inserts an empty entry for a key that is not tracked. */
  function Claimed(track: Track, key: Key, now: int): Track {
    if key in track then track else track[key := Tracked(Cert(0, []), now)]
  }

  // ---------- Commit, for one provider ----------

  /** The tracker, the dates to commit, and the certificates the providers keep renewing. */
  datatype State = State(track: Track, committed: map<Key, nat>, managed: set<Key>)

  function Polled(t: Tracked, key: Key, polled: map<Key, Cert>): Cert {
    if key in polled && polled[key].notAfter > t.cert.notAfter then polled[key] else t.cert
  }

  /** Tracked, not committed, and older than the deadline. */
  predicate Stale(st: State, key: Key, deadline: int) {
    key in st.track && key !in st.committed && st.track[key].trackedAt < deadline
  }

  function Stales(st: State, deadline: int): set<Key> {
    set key | key in st.track && Stale(st, key, deadline)
  }

  /** The walk over all tracked keys under the lock. */
  function Walked(st: State, polled: map<Key, Cert>, now: int, deadline: int): State {
    st.(track := map key | key in st.track && !Stale(st, key, deadline) ::
          if key in st.committed then Tracked(Polled(st.track[key], key, polled), now) else st.track[key],
        committed := map key | key in st.committed ::
          if key in st.track then Polled(st.track[key], key, polled).notAfter else st.committed[key])
  }

  /** The keys of a provider with the given identities. */
  function KeysOf(name: string, identities: set<string>): set<Key> {
    set identity | identity in identities :: Key(name, identity)
  }

  function Identities(keys: set<Key>): set<string> {
    set key | key in keys :: key.identity
  }

  function Removed(st: State, keys: set<Key>): State {
    st.(track := st.track - keys, managed := st.managed - keys)
  }

  /** The walk collects identities only, and removes them from the provider at hand. */
  function CommitOne(st: State, name: string, polled: map<Key, Cert>, now: int, grace: int): State {
    Removed(Walked(st, polled, now, now - grace), KeysOf(name, Identities(Stales(st, now - grace))))
  }

  function Changed(before: map<Key, nat>, after: map<Key, nat>): set<Key> {
    set key | key in before && key in after && before[key] != after[key]
  }

  // ---------- What commit promises ----------

  /** Exactly the stale keys are dropped and unmanaged. */
  ghost predicate Precise(st: State, next: State, deadline: int) {
    && next.track.Keys == st.track.Keys - Stales(st, deadline)
    && next.managed == st.managed - Stales(st, deadline)
  }

  /** A stale key of another provider is harmless: neither it nor its namesake is affected by removing the wrong one. */
  predicate Harmless(st: State, name: string, key: Key, deadline: int) {
    var namesake := Key(name, key.identity);
    key !in st.managed && (Stale(st, namesake, deadline) || (namesake !in st.track && namesake !in st.managed))
  }

  /** The keys that the provider `name` is told to remove. */
  function Hit(st: State, name: string, deadline: int): set<Key> {
    KeysOf(name, Identities(Stales(st, deadline)))
  }

  lemma HitKeys(st: State, name: string, deadline: int)
    ensures forall key: Key :: key in Hit(st, name, deadline) <==>
              key.provider == name && exists s :: s in Stales(st, deadline) && s.identity == key.identity
  {
    forall key: Key | key.provider == name && exists s :: s in Stales(st, deadline) && s.identity == key.identity
      ensures key in Hit(st, name, deadline)
    {
      assert key == Key(name, key.identity);
    }
  }

  lemma SameKept(track: set<Key>, managed: set<Key>, stales: set<Key>, hit: set<Key>)
    requires forall key | key in hit :: key in stales || (key !in track && key !in managed)
    requires forall key | key in stales :: key in hit || key !in managed
    ensures track - stales - hit == track - stales
    ensures managed - hit == managed - stales
  {}

  lemma HarmlessHits(st: State, name: string, deadline: int, key: Key)
    requires forall s | s in Stales(st, deadline) && s.provider != name :: Harmless(st, name, s, deadline)
    ensures key in Hit(st, name, deadline) ==> key in Stales(st, deadline) || (key !in st.track && key !in st.managed)
    ensures key in Stales(st, deadline) ==> key in Hit(st, name, deadline) || key !in st.managed
  {
    HitKeys(st, name, deadline);
    if key in Hit(st, name, deadline) {
      var s :| s in Stales(st, deadline) && s.identity == key.identity;
      assert s.provider == name ==> s == key;
    }
  }

  lemma CommitOneKeys(st: State, name: string, polled: map<Key, Cert>, now: int, grace: int)
    ensures CommitOne(st, name, polled, now, grace).track.Keys
         == st.track.Keys - Stales(st, now - grace) - Hit(st, name, now - grace)
    ensures CommitOne(st, name, polled, now, grace).managed == st.managed - Hit(st, name, now - grace)
  {
    var walked := Walked(st, polled, now, now - grace);
    assert walked.track.Keys == st.track.Keys - Stales(st, now - grace);
    var hit := Hit(st, name, now - grace);
    assert (walked.track - hit).Keys == walked.track.Keys - hit;
  }

  lemma HarmlessIsPrecise(st: State, name: string, polled: map<Key, Cert>, now: int, grace: int)
    requires forall key | key in Stales(st, now - grace) && key.provider != name :: Harmless(st, name, key, now - grace)
    ensures Precise(st, CommitOne(st, name, polled, now, grace), now - grace)
  {
    var deadline := now - grace;
    CommitOneKeys(st, name, polled, now, grace);
    forall key
      ensures key in Hit(st, name, deadline) ==> key in Stales(st, deadline) || (key !in st.track && key !in st.managed)
      ensures key in Stales(st, deadline) ==> key in Hit(st, name, deadline) || key !in st.managed
    {
      HarmlessHits(st, name, deadline, key);
    }
    SameKept(st.track.Keys, st.managed, Stales(st, deadline), Hit(st, name, deadline));
  }

  lemma PreciseIsHarmless(st: State, name: string, polled: map<Key, Cert>, now: int, grace: int, key: Key)
    requires Precise(st, CommitOne(st, name, polled, now, grace), now - grace)
    requires key in Stales(st, now - grace) && key.provider != name
    ensures Harmless(st, name, key, now - grace)
  {
    var next, namesake := CommitOne(st, name, polled, now, grace), Key(name, key.identity);
    HitKeys(st, name, now - grace);
    assert namesake !in next.track.Keys && namesake !in next.managed;
    assert key in st.managed ==> key in next.managed;
  }

  /** Commit drops the right keys if and only if every stale key of another provider is harmless. */
  lemma CommitPreciseIff(st: State, name: string, polled: map<Key, Cert>, now: int, grace: int)
    ensures Precise(st, CommitOne(st, name, polled, now, grace), now - grace) <==>
              forall key | key in Stales(st, now - grace) && key.provider != name :: Harmless(st, name, key, now - grace)
  {
    if Precise(st, CommitOne(st, name, polled, now, grace), now - grace) {
      forall key | key in Stales(st, now - grace) && key.provider != name ensures Harmless(st, name, key, now - grace) {
        PreciseIsHarmless(st, name, polled, now, grace, key);
      }
    } else if forall key | key in Stales(st, now - grace) && key.provider != name :: Harmless(st, name, key, now - grace) {
      HarmlessIsPrecise(st, name, polled, now, grace);
    }
  }

  predicate SingleProvider(st: State, name: string) {
    forall key | key in st.track :: key.provider == name
  }

  /**
   With one provider: committed keys stay with a fresh time and a date that does not
   go back, the committed dates agree with the tracked ones, other keys keep their
   entry, and exactly the stale keys are dropped and unmanaged.
   */
  lemma CommitSingleProvider(st: State, name: string, polled: map<Key, Cert>, now: int, grace: int)
    requires SingleProvider(st, name)
    ensures var next := CommitOne(st, name, polled, now, grace);
            && Precise(st, next, now - grace)
            && SingleProvider(next, name)
            && next.committed.Keys == st.committed.Keys
            && (forall key | key in st.track && key in st.committed ::
                  && key in next.track && next.track[key].trackedAt == now
                  && next.track[key].cert.notAfter >= st.track[key].cert.notAfter
                  && next.committed[key] == next.track[key].cert.notAfter)
            && (forall key | key in next.track && key !in st.committed :: next.track[key] == st.track[key])
            && (forall key | key in st.committed && key !in st.track :: next.committed[key] == st.committed[key])
  {
    CommitPreciseIff(st, name, polled, now, grace);
  }

  /** Two providers with one identity: the stale key of one takes the committed key of the other with it. */
  lemma CommitMixesProviders(now: int, grace: int, cert: Cert)
    requires grace >= 0
    ensures var mine, other := Key("p", "example.org"), Key("q", "example.org");
            var st := State(map[mine := Tracked(cert, now), other := Tracked(cert, now - grace - 1)],
                            map[mine := cert.notAfter], {mine, other});
            var next := CommitOne(st, "p", map[], now, grace);
            mine in st.committed && mine !in next.track && mine !in next.managed && other in next.managed && other !in next.track
  {
    var mine, other := Key("p", "example.org"), Key("q", "example.org");
    var st := State(map[mine := Tracked(cert, now), other := Tracked(cert, now - grace - 1)],
                    map[mine := cert.notAfter], {mine, other});
    assert other in Stales(st, now - grace);
    assert "example.org" in Identities(Stales(st, now - grace));
    assert mine in KeysOf("p", Identities(Stales(st, now - grace)));
  }

  // ---------- Which entries stay, and what they hold ----------

  /**
   A tracked key stays if and only if it is committed or tracked since the deadline, and
   is not the namesake, at this provider, of a key that has gone stale.
   */
  lemma StaysIff(st: State, name: string, polled: map<Key, Cert>, now: int, grace: int, key: Key)
    ensures key in CommitOne(st, name, polled, now, grace).track <==>
              && key in st.track && (key in st.committed || st.track[key].trackedAt >= now - grace)
              && !(key.provider == name
                   && exists s :: s in st.track && s !in st.committed && st.track[s].trackedAt < now - grace
                                  && s.identity == key.identity)
  {
    CommitOneKeys(st, name, polled, now, grace);
    HitKeys(st, name, now - grace);
    var next := CommitOne(st, name, polled, now, grace);
    assert key in next.track <==> key in next.track.Keys;
    assert key in st.track.Keys - Stales(st, now - grace) <==>
             key in st.track && (key in st.committed || st.track[key].trackedAt >= now - grace);
    if key in Hit(st, name, now - grace) {
      var s :| s in Stales(st, now - grace) && s.identity == key.identity;
      assert s in st.track && s !in st.committed && st.track[s].trackedAt < now - grace;
    } else if key.provider == name {
      forall s | s in st.track && s !in st.committed && st.track[s].trackedAt < now - grace ensures s.identity != key.identity {
        assert s in Stales(st, now - grace);
      }
    }
  }

  /**
   A committed key that stays holds the polled certificate, whole, when that expires
   later, and its own otherwise, and the time of the turn; any other key keeps its entry.
   */
  lemma TurnCerts(st: State, name: string, polled: map<Key, Cert>, now: int, grace: int, key: Key)
    requires key in CommitOne(st, name, polled, now, grace).track
    ensures key in st.track
    ensures var before, after := st.track[key], CommitOne(st, name, polled, now, grace).track[key];
            if key !in st.committed then after == before
            else
              && after.trackedAt == now
              && (key in polled && polled[key].notAfter > before.cert.notAfter ==> after.cert == polled[key])
              && (key !in polled || polled[key].notAfter <= before.cert.notAfter ==> after.cert == before.cert)
  {
    CommitOneKeys(st, name, polled, now, grace);
  }

  /** A claim adds an empty entry with its own time, or nothing; an update replaces a certificate whole, or nothing. */
  lemma EntriesAre(track: Track, key: Key, now: int, best: Cert)
    ensures Claimed(track, key, now).Keys == track.Keys + {key}
    ensures Claimed(track, key, now)[key] == if key in track then track[key] else Tracked(Cert(0, []), now)
    ensures Updated(track, key, best).Keys == track.Keys
    ensures key in track && (track[key].cert.notAfter == 0 || best.notAfter > track[key].cert.notAfter) ==>
              Updated(track, key, best)[key] == Tracked(best, track[key].trackedAt)
    ensures key in track && track[key].cert.notAfter != 0 && best.notAfter <= track[key].cert.notAfter ==>
              Updated(track, key, best)[key] == track[key]
    ensures forall k | k in track && k != key :: Claimed(track, key, now)[k] == track[k] && Updated(track, key, best)[k] == track[k]
  {}

  // ---------- All providers, one after the other ----------

  /** A provider of some committed key, what polling it returned, and the time of its turn. */
  datatype Turn = Turn(name: string, polled: map<Key, Cert>, now: int)

  function CommitAll(st: State, turns: seq<Turn>, grace: int): State
    decreases |turns|
  {
    if turns == [] then st
    else
      var last := turns[|turns| - 1];
      CommitOne(CommitAll(st, turns[..|turns| - 1], grace), last.name, last.polled, last.now, grace)
  }

  /** No key is left that is stale at the same instant. */
  lemma NothingStaleLeft(st: State, name: string, polled: map<Key, Cert>, now: int, grace: int)
    ensures Stales(CommitOne(st, name, polled, now, grace), now - grace) == {}
  {}

  lemma NothingStaleStays(st: State, name: string, polled: map<Key, Cert>, now: int, grace: int)
    requires Stales(st, now - grace) == {}
    ensures var next := CommitOne(st, name, polled, now, grace);
            next.track.Keys == st.track.Keys && next.managed == st.managed && Stales(next, now - grace) == {}
  {
    CommitOneKeys(st, name, polled, now, grace);
    NothingStaleLeft(st, name, polled, now, grace);
    assert Hit(st, name, now - grace) == {};
  }

  /** After the turn that comes first, the others at the same instant drop and unmanage nothing. */
  lemma {:induction false} LaterTurnsKeep(st: State, turns: seq<Turn>, now: int, grace: int)
    requires turns != [] && forall i | 0 <= i < |turns| :: turns[i].now == now
    ensures var first, all := CommitAll(st, turns[..1], grace), CommitAll(st, turns, grace);
            all.track.Keys == first.track.Keys && all.managed == first.managed && Stales(all, now - grace) == {}
    decreases |turns|
  {
    var last := turns[|turns| - 1];
    if |turns| == 1 {
      assert turns[..1] == turns && turns[..0] == [];
      NothingStaleLeft(st, last.name, last.polled, now, grace);
    } else {
      var init := turns[..|turns| - 1];
      assert init[..1] == turns[..1];
      LaterTurnsKeep(st, init, now, grace);
      NothingStaleStays(CommitAll(st, init, grace), last.name, last.polled, now, grace);
    }
  }

  /**
   A whole commit, all of whose turns are at one instant, drops and unmanages exactly the
   stale keys if and only if every stale key of a provider other than the one whose turn
   comes first is harmless to that one. The order of a map picks that provider.
   */
  lemma CommitAllPreciseIff(st: State, turns: seq<Turn>, now: int, grace: int)
    requires turns != [] && forall i | 0 <= i < |turns| :: turns[i].now == now
    ensures Precise(st, CommitAll(st, turns, grace), now - grace) <==>
              forall key | key in Stales(st, now - grace) && key.provider != turns[0].name ::
                Harmless(st, turns[0].name, key, now - grace)
  {
    LaterTurnsKeep(st, turns, now, grace);
    assert turns[..1] == [turns[0]] && turns[..1][..0] == [];
    assert CommitAll(st, turns[..1], grace) == CommitOne(st, turns[0].name, turns[0].polled, now, grace);
    CommitPreciseIff(st, turns[0].name, turns[0].polled, now, grace);
  }

  // ---------- The number of dates modified ----------

  /** Each provider has one turn, in which its own keys are polled. */
  ghost predicate ByProvider(turns: seq<Turn>) {
    && (forall i | 0 <= i < |turns| :: forall key | key in turns[i].polled :: key.provider == turns[i].name)
    && (forall i, j | 0 <= i < j < |turns| :: turns[i].name != turns[j].name)
  }

  /** What the program counts: the dates that each turn changes. */
  function Updates(st: State, turns: seq<Turn>, grace: int): nat
    decreases |turns|
  {
    if turns == [] then 0
    else
      var init := turns[..|turns| - 1];
      Updates(st, init, grace) + |Changed(CommitAll(st, init, grace).committed, CommitAll(st, turns, grace).committed)|
  }

  /** The committed date of every tracked key is that of its certificate. */
  predicate Agrees(st: State) {
    forall key | key in st.committed && key in st.track :: st.committed[key] == st.track[key].cert.notAfter
  }

  /** What one turn does to the dates. */
  lemma TurnDates(st: State, name: string, polled: map<Key, Cert>, now: int, grace: int)
    ensures var next := CommitOne(st, name, polled, now, grace);
            && Agrees(next) && next.committed.Keys == st.committed.Keys
            && (forall key | key in st.committed ::
                  next.committed[key] == if key in st.track then Polled(st.track[key], key, polled).notAfter else st.committed[key])
            && (forall key | key in next.track :: key in st.track)
            && (forall key | key in st.committed && key in st.track ::
                  && (key.provider != name ==> key in next.track)
                  && (key in next.track ==> next.track[key].cert == Polled(st.track[key], key, polled)))
  {
    CommitOneKeys(st, name, polled, now, grace);
    HitKeys(st, name, now - grace);
  }

  /** A date to correct, and a certificate newer than the tracked one, which a later turn finds. */
  predicate CountedTwice(st: State, turn: Turn, key: Key) {
    && key in st.committed && key in st.track && key in turn.polled
    && st.committed[key] != st.track[key].cert.notAfter
    && turn.polled[key].notAfter > st.track[key].cert.notAfter
  }

  /** The committed keys for which a turn finds a newer certificate than the tracked one. */
  function NewerKeys(st: State, turn: Turn): set<Key> {
    set key | key in st.committed && key in st.track && key in turn.polled && turn.polled[key].notAfter > st.track[key].cert.notAfter
  }

  /** The keys of providers whose turn has not come, as they were found. */
  ghost predicate Untouched(st: State, next: State, turns: seq<Turn>) {
    forall key | key in st.committed && key in st.track && (forall i | 0 <= i < |turns| :: key.provider != turns[i].name) ::
      key in next.track && next.track[key].cert == st.track[key].cert
  }

  /** Where the turns have got to: after the first, a date changes in its own provider's turn only. */
  ghost predicate DatesAre(st: State, first: State, all: State, turns: seq<Turn>, updates: nat) {
    && Agrees(all) && first.committed.Keys == all.committed.Keys == st.committed.Keys
    && all.track.Keys <= st.track.Keys && Untouched(st, all, turns)
    && (forall key :: key in Changed(first.committed, all.committed) <==> FoundBy(st, turns, key))
    && updates == |Changed(st.committed, first.committed)| + |Changed(first.committed, all.committed)|
  }

  /** A turn but the first finds a newer certificate. */
  ghost predicate FoundBy(st: State, turns: seq<Turn>, key: Key) {
    exists i :: 0 < i < |turns| && key in NewerKeys(st, turns[i])
  }

  ghost predicate DatesAfter(st: State, turns: seq<Turn>, grace: int)
    requires turns != []
  {
    DatesAre(st, CommitAll(st, turns[..1], grace), CommitAll(st, turns, grace), turns, Updates(st, turns, grace))
  }

  lemma {:induction false} DatesOfTurns(st: State, turns: seq<Turn>, grace: int)
    requires turns != [] && ByProvider(turns)
    ensures DatesAfter(st, turns, grace)
    decreases |turns|
  {
    var init, last := turns[..|turns| - 1], turns[|turns| - 1];
    if init == [] {
      assert turns[..1] == turns;
      TurnDates(st, last.name, last.polled, last.now, grace);
      FirstTurn(st, turns, grace);
    } else {
      assert init[..1] == turns[..1];
      assert init + [last] == turns;
      DatesOfTurns(st, init, grace);
      LaterTurn(st, CommitAll(st, turns[..1], grace), CommitAll(st, init, grace), init, last, Updates(st, init, grace), grace);
    }
  }

  lemma FirstTurn(st: State, turns: seq<Turn>, grace: int)
    requires |turns| == 1 && ByProvider(turns)
    ensures DatesAfter(st, turns, grace)
  {
    var t := turns[0];
    assert turns[..1] == turns && turns[..0] == [];
    assert CommitAll(st, turns, grace) == CommitOne(st, t.name, t.polled, t.now, grace);
    TurnDates(st, t.name, t.polled, t.now, grace);
    var all := CommitAll(st, turns, grace).committed;
    assert Updates(st, [], grace) == 0;
    assert Changed(all, all) == {};
  }

  /** The dates that a later turn changes are those for which it finds a newer certificate. */
  lemma LaterChanges(st: State, init: seq<Turn>, last: Turn, before: State, grace: int)
    requires init != [] && ByProvider(init + [last])
    requires Agrees(before) && before.committed.Keys == st.committed.Keys
    requires before.track.Keys <= st.track.Keys && Untouched(st, before, init)
    ensures Changed(before.committed, CommitOne(before, last.name, last.polled, last.now, grace).committed) == NewerKeys(st, last)
  {
    TurnDates(before, last.name, last.polled, last.now, grace);
    var after := CommitOne(before, last.name, last.polled, last.now, grace);
    hide CommitOne;
    var turns := init + [last];
    assert turns[|init|] == last;
    forall key | key in last.polled ensures forall i | 0 <= i < |init| :: key.provider != init[i].name {
      assert key.provider == last.name;
      forall i | 0 <= i < |init| ensures init[i].name != last.name {
        assert turns[i].name != turns[|init|].name;
      }
    }
    assert Changed(before.committed, after.committed) == NewerKeys(st, last);
  }

  /** Only the keys of its own provider are touched by a later turn. */
  lemma LaterUntouched(st: State, init: seq<Turn>, last: Turn, before: State, grace: int)
    requires Untouched(st, before, init) && before.committed.Keys == st.committed.Keys
    requires forall key | key in last.polled :: key.provider == last.name
    ensures Untouched(st, CommitOne(before, last.name, last.polled, last.now, grace), init + [last])
  {
    var turns, next := init + [last], CommitOne(before, last.name, last.polled, last.now, grace);
    TurnDates(before, last.name, last.polled, last.now, grace);
    forall key | key in st.committed && key in st.track && (forall i | 0 <= i < |turns| :: key.provider != turns[i].name)
      ensures key in next.track && next.track[key].cert == st.track[key].cert
    {
      assert turns[|init|] == last && key.provider != last.name;
      forall i | 0 <= i < |init| ensures key.provider != init[i].name {
        assert turns[i] == init[i];
      }
    }
  }

  /** What some turn of a sequence but the first finds, and what one more finds. */
  lemma FoundLater(st: State, init: seq<Turn>, last: Turn, key: Key)
    requires init != []
    ensures FoundBy(st, init + [last], key) <==> key in NewerKeys(st, last) || FoundBy(st, init, key)
  {
    var turns := init + [last];
    if i :| 0 < i < |init| && key in NewerKeys(st, init[i]) {
      assert key in NewerKeys(st, turns[i]);
    }
    if key in NewerKeys(st, last) {
      assert key in NewerKeys(st, turns[|init|]);
    }
  }

  /** No two turns find newer certificates for one key. */
  lemma FoundOnce(st: State, init: seq<Turn>, last: Turn, key: Key)
    requires ByProvider(init + [last])
    requires FoundBy(st, init, key)
    ensures key !in NewerKeys(st, last)
  {
    var turns := init + [last];
    var i :| 0 < i < |init| && key in NewerKeys(st, init[i]);
    assert turns[i] == init[i] && turns[|init|] == last && turns[i].name != turns[|init|].name;
    assert key in turns[i].polled;
  }

  lemma LaterTurn(st: State, first: State, before: State, init: seq<Turn>, last: Turn, updates: nat, grace: int)
    requires init != [] && ByProvider(init + [last]) && DatesAre(st, first, before, init, updates)
    ensures var all := CommitOne(before, last.name, last.polled, last.now, grace);
            DatesAre(st, first, all, init + [last], updates + |Changed(before.committed, all.committed)|)
  {
    var all := CommitOne(before, last.name, last.polled, last.now, grace);
    LaterChanges(st, init, last, before, grace);
    TurnDates(before, last.name, last.polled, last.now, grace);
    assert ByProvider(init + [last]) ==> forall key | key in last.polled :: key.provider == last.name by {
      assert (init + [last])[|init|] == last;
    }
    LaterUntouched(st, init, last, before, grace);
    hide CommitOne, Agrees, Untouched, NewerKeys, FoundBy, ByProvider;
    forall key ensures !(key in Changed(first.committed, before.committed) && key in NewerKeys(st, last)) {
      if FoundBy(st, init, key) {
        FoundOnce(st, init, last, key);
      }
    }
    ChangedInSteps(first.committed, before.committed, all.committed);
    forall key ensures key in Changed(first.committed, all.committed) <==> FoundBy(st, init + [last], key) {
      FoundLater(st, init, last, key);
    }
  }

  /** Two sets of changes to different dates add up. */
  lemma ChangedInSteps(a: map<Key, nat>, b: map<Key, nat>, c: map<Key, nat>)
    requires a.Keys == b.Keys == c.Keys && Changed(a, b) !! Changed(b, c)
    ensures Changed(a, c) == Changed(a, b) + Changed(b, c)
    ensures |Changed(a, c)| == |Changed(a, b)| + |Changed(b, c)|
  {}

  /** Otherwise the number of changes is too high. */
  lemma ChangedTwice(a: map<Key, nat>, b: map<Key, nat>, c: map<Key, nat>)
    requires a.Keys == b.Keys == c.Keys && !(Changed(a, b) !! Changed(b, c))
    ensures |Changed(a, c)| < |Changed(a, b)| + |Changed(b, c)|
  {
    var both, all := Changed(a, b) * Changed(b, c), Changed(a, b) + Changed(b, c);
    assert Changed(a, c) <= all;
    SmallerSet(Changed(a, c), all);
    assert |all| + |both| == |Changed(a, b)| + |Changed(b, c)|;
    var key :| key in Changed(a, b) && key in Changed(b, c);
    assert key in both;
  }

  lemma SmallerSet(a: set<Key>, b: set<Key>)
    requires a <= b
    ensures |a| <= |b|
  {
    assert b == a + (b - a);
  }

  /**
   The count returned is the number of dates modified if and only if no turn but the
   first finds a newer certificate for a key whose date the first turn had to correct.
   Otherwise it is higher.
   */
  lemma CommitCountIff(st: State, turns: seq<Turn>, grace: int)
    requires ByProvider(turns)
    ensures var modified := Changed(st.committed, CommitAll(st, turns, grace).committed);
            && |modified| <= Updates(st, turns, grace)
            && (|modified| == Updates(st, turns, grace) <==>
                  forall i, key | 0 < i < |turns| && key in st.committed :: !CountedTwice(st, turns[i], key))
  {
    if turns == [] {
      assert Changed(st.committed, st.committed) == {};
    } else {
      DatesOfTurns(st, turns, grace);
      var t := turns[0];
      assert turns[..1] == [t] && turns[..1][..0] == [];
      var first, all := CommitAll(st, turns[..1], grace), CommitAll(st, turns, grace);
      assert first == CommitOne(st, t.name, t.polled, t.now, grace);
      TurnDates(st, t.name, t.polled, t.now, grace);
      assert t == turns[0];
      CountOfTurns(st, turns, first.committed, all.committed, grace);
    }
  }

  lemma CountOfTurns(st: State, turns: seq<Turn>, first: map<Key, nat>, all: map<Key, nat>, grace: int)
    requires turns != [] && ByProvider(turns) && st.committed.Keys == first.Keys == all.Keys
    requires forall key | key in st.committed ::
               first[key] == if key in st.track then Polled(st.track[key], key, turns[0].polled).notAfter else st.committed[key]
    requires forall key :: key in Changed(first, all) <==> FoundBy(st, turns, key)
    ensures |Changed(st.committed, all)| <= |Changed(st.committed, first)| + |Changed(first, all)|
    ensures |Changed(st.committed, all)| == |Changed(st.committed, first)| + |Changed(first, all)| <==>
              forall i, key | 0 < i < |turns| && key in st.committed :: !CountedTwice(st, turns[i], key)
  {
    forall i, key | 0 < i < |turns| && key in NewerKeys(st, turns[i])
      ensures key in Changed(st.committed, first) <==> CountedTwice(st, turns[i], key)
    {
      assert key.provider == turns[i].name != turns[0].name;
      assert key !in turns[0].polled;
    }
    if Changed(st.committed, first) !! Changed(first, all) {
      ChangedInSteps(st.committed, first, all);
      forall i, key | 0 < i < |turns| && key in NewerKeys(st, turns[i]) ensures !CountedTwice(st, turns[i], key) {
        assert key in Changed(first, all);
      }
      forall i, key | 0 < i < |turns| && key in st.committed ensures !CountedTwice(st, turns[i], key) {
        assert CountedTwice(st, turns[i], key) ==> key in NewerKeys(st, turns[i]);
      }
    } else {
      ChangedTwice(st.committed, first, all);
      var key :| key in Changed(st.committed, first) && key in Changed(first, all);
      var i :| 0 < i < |turns| && key in NewerKeys(st, turns[i]);
      assert CountedTwice(st, turns[i], key);
    }
  }

  /** The turn of "p" corrects a date of "q", and the turn of "q" finds a newer one: one date is counted twice. */
  lemma CommitCountsTwice(now: int, grace: int)
    requires grace >= 0
    ensures var mine, other := Key("p", "a"), Key("q", "b");
            var st := State(map[other := Tracked(Cert(5, []), now)], map[mine := 1, other := 3], {other});
            var turns := [Turn("p", map[], now), Turn("q", map[other := Cert(9, [])], now)];
            && Changed(st.committed, CommitAll(st, turns, grace).committed) == {other}
            && Updates(st, turns, grace) == 2
  {
    hide CommitOne;
    var mine, other := Key("p", "a"), Key("q", "b");
    var st := State(map[other := Tracked(Cert(5, []), now)], map[mine := 1, other := 3], {other});
    var p, q := Turn("p", map[], now), Turn("q", map[other := Cert(9, [])], now);
    var turns := [p, q];
    assert turns[..1] == [p] && [p][..0] == [];
    var s1 := CommitOne(st, "p", map[], now, grace);
    TurnDates(st, "p", map[], now, grace);
    TurnDates(s1, "q", q.polled, now, grace);
    assert s1.committed == map[mine := 1, other := 5];
    var s2 := CommitOne(s1, "q", q.polled, now, grace);
    assert other in s1.track;
    assert s2.committed == map[mine := 1, other := 9];
    assert CommitAll(st, [p], grace) == s1 && CommitAll(st, turns, grace) == s2;
    assert Changed(st.committed, s1.committed) == {other};
    assert Changed(s1.committed, s2.committed) == {other};
    assert Updates(st, [p], grace) == Updates(st, [], grace) + 1;
    assert Updates(st, turns, grace) == Updates(st, [p], grace) + 1;
    assert Changed(st.committed, s2.committed) == {other};
  }

  // ---------- Expiry dates never go back while a key is tracked ----------

  datatype Op =
    | Update(key: Key, best: Cert)
    | Claim(key: Key, now: int)
    | Forget(keys: set<Key>)
    | CommitStep(name: string, committed: map<Key, nat>, polled: map<Key, Cert>, now: int, grace: int)

  function Do(track: Track, op: Op): Track {
    match op
    case Update(key, best) => Updated(track, key, best)
    case Claim(key, now) => Claimed(track, key, now)
    case Forget(keys) => track - keys
    case CommitStep(name, committed, polled, now, grace) =>
      CommitOne(State(track, committed, {}), name, polled, now, grace).track
  }

  function DoAll(track: Track, ops: seq<Op>): Track
    decreases |ops|
  {
    if ops == [] then track else Do(DoAll(track, ops[..|ops| - 1]), ops[|ops| - 1])
  }

  /** `key` is tracked before and after each of the operations. */
  ghost predicate Throughout(track: Track, ops: seq<Op>, key: Key) {
    forall n: nat | n <= |ops| :: key in DoAll(track, ops[..n])
  }

  /** Whatever the operations and providers, a key tracked throughout keeps or advances its date. */
  lemma {:induction false} DatesNeverGoBack(track: Track, ops: seq<Op>, key: Key)
    requires Throughout(track, ops, key)
    ensures key in track && key in DoAll(track, ops)
    ensures DoAll(track, ops)[key].cert.notAfter >= track[key].cert.notAfter
    decreases |ops|
  {
    assert ops[..|ops|] == ops;
    assert key in DoAll(track, ops[..|ops|]);
    if ops == [] {
      assert DoAll(track, ops[..0]) == track;
    } else {
      var init := ops[..|ops| - 1];
      forall n: nat | n <= |init| ensures key in DoAll(track, init[..n]) {
        assert init[..n] == ops[..n];
      }
      DatesNeverGoBack(track, init, key);
    }
  }

  /** An operation supplies the certificate for the key: an update, a poll, or the empty one of a claim. */
  predicate Supplies(op: Op, key: Key, cert: Cert) {
    match op
    case Update(k, best) => k == key && best == cert
    case Claim(k, _) => k == key && cert == Cert(0, [])
    case Forget(_) => false
    case CommitStep(_, _, polled, _, _) => key in polled && polled[key] == cert
  }

  /** Whatever the operations, the certificate tracked for a key is one that it had or was supplied, whole. */
  lemma {:induction false} CertsAreSupplied(track: Track, ops: seq<Op>, key: Key)
    requires key in DoAll(track, ops)
    ensures var cert := DoAll(track, ops)[key].cert;
            (key in track && cert == track[key].cert) || exists i :: 0 <= i < |ops| && Supplies(ops[i], key, cert)
    decreases |ops|
  {
    if ops != [] {
      var init, op := ops[..|ops| - 1], ops[|ops| - 1];
      var before, after := DoAll(track, init), DoAll(track, ops);
      var cert := after[key].cert;
      SuppliedStep(before, op, key);
      if !Supplies(op, key, cert) {
        CertsAreSupplied(track, init, key);
        if !(key in track && cert == track[key].cert) {
          var i :| 0 <= i < |init| && Supplies(init[i], key, before[key].cert);
          assert ops[i] == init[i];
        }
      }
    }
  }

  lemma SuppliedStep(track: Track, op: Op, key: Key)
    requires key in Do(track, op)
    ensures Supplies(op, key, Do(track, op)[key].cert) || (key in track && track[key].cert == Do(track, op)[key].cert)
  {
    if op.CommitStep? {
      TurnCerts(State(track, op.committed, {}), op.name, op.polled, op.now, op.grace, key);
    }
  }

  // ---------- The tracker ----------

  class Tracker {
    var track: Track
    /** What the providers keep renewing. */
    ghost var managed: set<Key>

    constructor ()
      ensures track == map[] && managed == {}
    {
      track, managed := map[], {};
    }

    /** Delivers the certificate when told to always, or when told to and it was recorded. */
    method UpdateTrack(key: Key, best: Cert, notify: bool, notifyAlways: bool) returns (delivered: Option<Cert>)
      modifies `track
      ensures track == Updated(old(track), key, best)
      ensures delivered == if key in old(track) && (notifyAlways || (notify && Replaces(old(track)[key], best)))
                           then Some(best) else None
    {
      delivered := None;
      if key in track {
        var tracked, always := track[key], notifyAlways;
        if tracked.cert.notAfter == 0 || best.notAfter > tracked.cert.notAfter {
          tracked := tracked.(cert := best);
          track := track[key := tracked];
          if notify {
            always := true;
          }
        }
        if always {
          delivered := Some(best);
        }
      }
    }

    /** The section of `RequestCertificate` under the lock: true when the caller must ask the provider. */
    method Claim(key: Key, now: int) returns (owner: bool)
      modifies `track
      ensures track == Claimed(old(track), key, now)
      ensures owner <==> key !in old(track)
    {
      if key in track {
        return false;
      }
      track := track[key := Tracked(Cert(0, []), now)];
      return true;
    }

    /**
     `RequestCertificate` with nobody else at work. A request that fails leaves the
     tracker as it was; otherwise the key is tracked, a certificate that has arrived by
     now is recorded unless one was recorded before, and what is recorded is delivered.
     */
    method RequestCertificate(key: Key, now: int, providerOk: bool, best: Option<Cert>) returns (ok: bool, delivered: Option<Cert>)
      modifies this
      ensures ok <==> key in old(track) || providerOk
      ensures !ok ==> track == old(track) && managed == old(managed) && delivered == None
      ensures ok ==> managed == old(managed) + (if key in old(track) then {} else {key})
      ensures ok ==> key in track && track.Keys == old(track).Keys + {key}
      ensures ok ==> track == if best.Some? && Claimed(old(track), key, now)[key].cert.notAfter == 0
                              then Updated(Claimed(old(track), key, now), key, best.value)
                              else Claimed(old(track), key, now)
      ensures ok ==> delivered == if Claimed(old(track), key, now)[key].cert.notAfter != 0
                                  then Some(old(track)[key].cert) else best
    {
      var owner := Claim(key, now);
      var tracked := track[key];
      delivered := if !owner && tracked.cert.notAfter != 0 then Some(tracked.cert) else None;
      if owner {
        if !providerOk {
          track := track - {key};
          return false, None;
        }
        managed := managed + {key};
      }
      if tracked.cert.notAfter == 0 && best.Some? {
        delivered := UpdateTrack(key, best.value, true, false);
      }
      return true, delivered;
    }

    /** The walk of `Commit`: refreshes committed entries and unloads stale ones. */
    method Walk(committed: map<Key, nat>, polled: map<Key, Cert>, now: int, deadline: int)
      returns (after: map<Key, nat>, remains: seq<string>, updates: nat)
      modifies `track
      ensures var st := State(old(track), committed, managed);
              && State(track, after, managed) == Walked(st, polled, now, deadline)
              && (forall identity :: identity in remains <==> identity in Identities(Stales(st, deadline)))
              && updates == |Changed(committed, after)|
    {
      ghost var st := State(track, committed, managed);
      after, remains, updates := committed, [], 0;
      ghost var w := Walking(track, after, remains, updates);
      var keys := track.Keys;
      while keys != {}
        invariant keys <= st.track.Keys && w == Walking(track, after, remains, updates)
        invariant SoFar(w, st, keys, polled, now, deadline)
        decreases keys
      {
        var key :| key in keys;
        WalkKeySoFar(w, st, keys, key, polled, now, deadline);
        w := WalkKey(w, key, polled, now, deadline);
        keys := keys - {key};
        var cert := track[key];
        if key in after {
          var notAfter := after[key];
          if key in polled && polled[key].notAfter > cert.cert.notAfter {
            cert := cert.(cert := polled[key]);
          }
          if notAfter != cert.cert.notAfter {
            after := after[key := cert.cert.notAfter];
            updates := updates + 1;
          }
          track := track[key := cert.(trackedAt := now)];
        } else if cert.trackedAt < deadline {
          track := track - {key};
          remains := remains + [key.identity];
        }
      }
      WalkEnds(w, st, polled, now, deadline);
    }

    /** `RemoveManaged` with nobody else at work: no rollback is needed. */
    method RemoveManaged(name: string, remains: seq<string>) returns (ghost identities: set<string>)
      modifies this
      ensures forall identity :: identity in identities <==> identity in remains
      ensures track == old(track) - KeysOf(name, identities)
      ensures managed == old(managed) - KeysOf(name, identities)
    {
      identities := {};
      for i := 0 to |remains|
        invariant forall identity :: identity in identities <==> identity in remains[..i]
        invariant track == old(track) - KeysOf(name, identities) && managed == old(managed)
      {
        track := track - {Key(name, remains[i])};
        identities := identities + {remains[i]};
        assert KeysOf(name, identities) == KeysOf(name, identities - {remains[i]}) + {Key(name, remains[i])};
      }
      assert remains[..|remains|] == remains;
      managed := managed - KeysOf(name, identities);
      var rollbacks: set<Key> := {};
      for i := 0 to |remains|
        invariant rollbacks <= track.Keys * KeysOf(name, identities)
      {
        var key := Key(name, remains[i]);
        if key in track {
          rollbacks := rollbacks + {key};
        }
      }
      managed := managed + rollbacks;
    }

    /** One provider's turn in `Commit`. */
    method CommitProvider(name: string, committed: map<Key, nat>, polled: map<Key, Cert>, now: int, grace: int)
      returns (after: map<Key, nat>, updates: nat)
      modifies this
      ensures State(track, after, managed) == CommitOne(State(old(track), committed, old(managed)), name, polled, now, grace)
      ensures updates == |Changed(committed, after)|
    {
      var remains: seq<string>;
      after, remains, updates := Walk(committed, polled, now, now - grace);
      var identities := RemoveManaged(name, remains);
      assert identities == Identities(Stales(State(old(track), committed, old(managed)), now - grace));
    }
  }

  // ---------- All providers ----------

  method Commit(tracker: Tracker, committed: map<Key, nat>, turns: seq<Turn>, grace: int) returns (after: map<Key, nat>, updates: nat)
    modifies tracker
    ensures State(tracker.track, after, tracker.managed)
         == CommitAll(State(old(tracker.track), committed, old(tracker.managed)), turns, grace)
    ensures updates == Updates(State(old(tracker.track), committed, old(tracker.managed)), turns, grace)
  {
    ghost var st := State(tracker.track, committed, tracker.managed);
    after, updates := committed, 0;
    for i := 0 to |turns|
      invariant State(tracker.track, after, tracker.managed) == CommitAll(st, turns[..i], grace)
      invariant updates == Updates(st, turns[..i], grace)
    {
      assert turns[..i + 1][..i] == turns[..i];
      var n;
      after, n := tracker.CommitProvider(turns[i].name, after, turns[i].polled, turns[i].now, grace);
      updates := updates + n;
    }
    assert turns[..|turns|] == turns;
  }

  // ---------- One key of the walk ----------

  /** The track, the dates, the identities to unmanage and the number of changed dates. */
  datatype Walking = Walking(track: Track, committed: map<Key, nat>, remains: seq<string>, updates: nat)

  /** The body of the loop for one key. */
  function WalkKey(w: Walking, key: Key, polled: map<Key, Cert>, now: int, deadline: int): Walking
    requires key in w.track
  {
    var cert := w.track[key];
    if key in w.committed then
      var update := Polled(cert, key, polled);
      var changed := w.committed[key] != update.notAfter;
      w.(track := w.track[key := Tracked(update, now)],
         committed := if changed then w.committed[key := update.notAfter] else w.committed,
         updates := if changed then w.updates + 1 else w.updates)
    else if cert.trackedAt < deadline then w.(track := w.track - {key}, remains := w.remains + [key.identity])
    else w
  }

  ghost predicate TrackSoFar(w: Walking, st: State, keys: set<Key>, polled: map<Key, Cert>, now: int, deadline: int) {
    var goal := Walked(st, polled, now, deadline).track;
    && w.track.Keys == goal.Keys + (keys * Stales(st, deadline))
    && forall key | key in w.track :: w.track[key] == if key in keys then st.track[key] else goal[key]
  }

  ghost predicate DatesSoFar(w: Walking, st: State, keys: set<Key>, polled: map<Key, Cert>, now: int, deadline: int) {
    var goal := Walked(st, polled, now, deadline).committed;
    && w.committed.Keys == st.committed.Keys
    && (forall key | key in st.committed :: w.committed[key] == if key in keys then st.committed[key] else goal[key])
    && w.updates == |Changed(st.committed, w.committed)|
  }

  ghost predicate RemainsSoFar(w: Walking, st: State, keys: set<Key>, deadline: int) {
    forall identity :: identity in w.remains <==> identity in Identities(Stales(st, deadline) - keys)
  }

  ghost predicate SoFar(w: Walking, st: State, keys: set<Key>, polled: map<Key, Cert>, now: int, deadline: int)
    requires keys <= st.track.Keys
  {
    TrackSoFar(w, st, keys, polled, now, deadline) && DatesSoFar(w, st, keys, polled, now, deadline)
    && RemainsSoFar(w, st, keys, deadline)
  }

  lemma WalkKeyTrack(w: Walking, st: State, keys: set<Key>, key: Key, polled: map<Key, Cert>, now: int, deadline: int)
    requires keys <= st.track.Keys && key in keys && w.committed.Keys == st.committed.Keys
    requires TrackSoFar(w, st, keys, polled, now, deadline)
    ensures key in w.track && w.track[key] == st.track[key]
    ensures TrackSoFar(WalkKey(w, key, polled, now, deadline), st, keys - {key}, polled, now, deadline)
  {}

  lemma WalkKeyDates(w: Walking, st: State, keys: set<Key>, key: Key, polled: map<Key, Cert>, now: int, deadline: int)
    requires keys <= st.track.Keys && key in keys
    requires key in w.track && w.track[key] == st.track[key]
    requires DatesSoFar(w, st, keys, polled, now, deadline)
    ensures DatesSoFar(WalkKey(w, key, polled, now, deadline), st, keys - {key}, polled, now, deadline)
  {
    var next := WalkKey(w, key, polled, now, deadline);
    if next.committed != w.committed {
      assert Changed(st.committed, next.committed) == Changed(st.committed, w.committed) + {key};
    }
  }

  lemma WalkKeyRemains(w: Walking, st: State, keys: set<Key>, key: Key, polled: map<Key, Cert>, now: int, deadline: int)
    requires keys <= st.track.Keys && key in keys && w.committed.Keys == st.committed.Keys
    requires key in w.track && w.track[key] == st.track[key]
    requires RemainsSoFar(w, st, keys, deadline)
    ensures RemainsSoFar(WalkKey(w, key, polled, now, deadline), st, keys - {key}, deadline)
  {
    var before, after := Stales(st, deadline) - keys, Stales(st, deadline) - (keys - {key});
    if Stale(st, key, deadline) {
      assert after == before + {key};
      assert Identities(after) == Identities(before) + {key.identity};
    } else {
      assert after == before;
    }
  }

  lemma WalkKeySoFar(w: Walking, st: State, keys: set<Key>, key: Key, polled: map<Key, Cert>, now: int, deadline: int)
    requires keys <= st.track.Keys && key in keys
    requires SoFar(w, st, keys, polled, now, deadline)
    ensures key in w.track
    ensures SoFar(WalkKey(w, key, polled, now, deadline), st, keys - {key}, polled, now, deadline)
  {
    WalkKeyTrack(w, st, keys, key, polled, now, deadline);
    WalkKeyDates(w, st, keys, key, polled, now, deadline);
    WalkKeyRemains(w, st, keys, key, polled, now, deadline);
  }

  lemma WalkEnds(w: Walking, st: State, polled: map<Key, Cert>, now: int, deadline: int)
    requires SoFar(w, st, {}, polled, now, deadline)
    ensures st.(track := w.track, committed := w.committed) == Walked(st, polled, now, deadline)
    ensures forall identity :: identity in w.remains <==> identity in Identities(Stales(st, deadline))
  {
    assert Stales(st, deadline) - {} == Stales(st, deadline);
    var goal := Walked(st, polled, now, deadline);
    assert w.track == goal.track;
    assert w.committed == goal.committed;
  }
}
