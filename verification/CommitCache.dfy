/**
 The commit cache. A gateway remembers the payload it last applied and whether the
 last cycle succeeded; its serializer remembers the hash of what it last committed
 and answers "no change" on a hit. The outcomes of the stages, the certificates
 recorded by the SSL plugin, and what a failed apply leaves behind are inputs.
 */
module CommitCache {
  import opened Trees

  type Bytes = seq<bv8>
  type Certs = map<string, int>

  /** The hash, and the post-cache plugins with their possible failure. */
  datatype Stages = Stages(hash: Bytes -> bv64, post: Bytes -> Result<Bytes>)

  /**
   One call of `handleGateway`. `rendered` is the outcome of the SSL and pre-render
   plugins and the serializer on the merged value. When `applied` is false the
   reloader failed and left `wreck` as the live config.
   */
  datatype Cycle = Cycle(
    mergeOk: bool,
    rendered: Result<Bytes>,
    certs: Certs,
    valid: Result<bool>,
    applied: bool,
    wreck: Option<Bytes>)

  /** The fields of the gateway and of its serializer, and the config APISIX runs. */
  datatype State = State(
    lastCommit: Option<Bytes>,
    commitSuccess: bool,
    hash: bv64,
    commitHash: bv64,
    hasCommit: bool,
    record: Certs,
    committedCerts: Certs,
    live: Option<Bytes>)

  /** The outcome of a cycle: the new state, whether it returned no error, and the payload sent to the reloader. */
  datatype Outcome = Outcome(st: State, ok: bool, sent: Option<Bytes>)

  const INITIAL := State(None, false, 0, 0, false, map[], map[], None)

  // ---------- What one cycle does ----------

  /** `Ok(None)` is a cache hit. */
  function Serialized(st: State, c: Cycle, stages: Stages): Result<Option<Bytes>> {
    match c.rendered
    case Err => Err
    case Ok(result) =>
      if st.hasCommit && stages.hash(result) == st.commitHash then Ok(None)
      else
        match stages.post(result)
        case Ok(output) => Ok(Some(output))
        case Err => Err
  }

  function Step(st: State, c: Cycle, stages: Stages): Outcome {
    var cleared := st.(commitSuccess := false);
    if !c.mergeOk then Outcome(cleared, false, None)
    else
      var ran := cleared.(record := c.certs, hash := if c.rendered.Ok? then stages.hash(c.rendered.value) else 0);
      match Serialized(st, c, stages)
      case Err => Outcome(ran, false, None)
      case Ok(output) =>
        if output.None? && st.commitSuccess then Outcome(ran.(commitSuccess := true), true, None)
        else
          var payload := if output.Some? then output.value else if st.lastCommit.Some? then st.lastCommit.value else [];
          if c.valid != Ok(true) then Outcome(ran, false, None)
          else if !c.applied then Outcome(ran.(live := c.wreck), false, Some(payload))
          else Outcome(ran.(lastCommit := Some(payload), commitSuccess := true, commitHash := ran.hash, hasCommit := true,
                            committedCerts := ran.record, live := Some(payload)), true, Some(payload))
  }

  function Run(cycles: seq<Cycle>, stages: Stages): State
    decreases |cycles|
  {
    if cycles == [] then INITIAL
    else Step(Run(cycles[..|cycles| - 1], stages), cycles[|cycles| - 1], stages).st
  }

  // ---------- The pipeline without a cache ----------

  /** The payload that rendering, validating and applying every cycle would make live. */
  function AlwaysApply(c: Cycle, stages: Stages): Result<Bytes> {
    if !c.mergeOk || c.rendered.Err? then Err
    else
      match stages.post(c.rendered.value)
      case Err => Err
      case Ok(payload) => if c.valid == Ok(true) && c.applied then Ok(payload) else Err
  }

  // ---------- The linked state of the two objects ----------

  ghost predicate Committed(st: State, stages: Stages, result: Bytes) {
    stages.hash(result) == st.commitHash && st.lastCommit.Some? && stages.post(result) == Ok(st.lastCommit.value)
  }

  /** `result` was rendered in one of the cycles. */
  ghost predicate Occurs(cycles: seq<Cycle>, result: Bytes) {
    exists i :: 0 <= i < |cycles| && cycles[i].rendered == Ok(result)
  }

  /** What shares a hash with a payload the plugins accept is rendered like it. */
  ghost predicate SameRendering(x: Bytes, y: Bytes, stages: Stages) {
    stages.hash(x) == stages.hash(y) && stages.post(x).Ok? ==> stages.post(x) == stages.post(y)
  }

  ghost predicate HashSeparates(cycles: seq<Cycle>, stages: Stages) {
    forall x, y | Occurs(cycles, x) && Occurs(cycles, y) :: SameRendering(x, y, stages)
  }

  ghost predicate Linked(st: State, cycles: seq<Cycle>, stages: Stages) {
    && (st.hasCommit <==> st.lastCommit.Some?)
    && (st.hasCommit ==> exists result :: Occurs(cycles, result) && Committed(st, stages, result))
    && (st.commitSuccess ==> st.hasCommit && st.live == st.lastCommit)
  }

  lemma OccursExtends(cycles: seq<Cycle>, c: Cycle, result: Bytes)
    ensures Occurs(cycles, result) ==> Occurs(cycles + [c], result)
    ensures c.rendered == Ok(result) ==> Occurs(cycles + [c], result)
  {
    var all := cycles + [c];
    if Occurs(cycles, result) {
      var i :| 0 <= i < |cycles| && cycles[i].rendered == Ok(result);
      assert all[i].rendered == Ok(result);
    }
    if c.rendered == Ok(result) {
      assert all[|cycles|].rendered == Ok(result);
    }
  }

  /** One cycle keeps the link, and if it returns no error its rendering is live. */
  lemma StepKeepsLinked(st: State, cycles: seq<Cycle>, c: Cycle, stages: Stages)
    requires Linked(st, cycles, stages)
    requires HashSeparates(cycles + [c], stages)
    ensures Linked(Step(st, c, stages).st, cycles + [c], stages)
    ensures Step(st, c, stages).ok ==>
              && c.mergeOk && c.rendered.Ok?
              && stages.post(c.rendered.value).Ok?
              && Step(st, c, stages).st.live == Some(stages.post(c.rendered.value).value)
    ensures AlwaysApply(c, stages).Ok? ==> Step(st, c, stages).ok
  {
    var next := Step(st, c, stages);
    if st.hasCommit {
      var result :| Occurs(cycles, result) && Committed(st, stages, result);
      OccursExtends(cycles, c, result);
      assert c.rendered.Ok? ==> Occurs(cycles + [c], c.rendered.value) by { if c.rendered.Ok? { OccursExtends(cycles, c, c.rendered.value); } }
      assert c.rendered.Ok? ==> SameRendering(result, c.rendered.value, stages);
      if next.st.commitHash == st.commitHash && next.st.lastCommit == st.lastCommit {
        assert Committed(next.st, stages, result);
      }
    }
    if c.rendered.Ok? {
      OccursExtends(cycles, c, c.rendered.value);
      if next.st.hasCommit && next.sent.Some? && next.ok {
        assert Committed(next.st, stages, c.rendered.value);
      }
    }
  }

  lemma {:induction false} RunIsLinked(cycles: seq<Cycle>, stages: Stages)
    requires HashSeparates(cycles, stages)
    ensures Linked(Run(cycles, stages), cycles, stages)
    decreases |cycles|
  {
    if cycles != [] {
      var init, last := cycles[..|cycles| - 1], cycles[|cycles| - 1];
      assert cycles == init + [last];
      forall x | Occurs(init, x) ensures Occurs(cycles, x) {
        OccursExtends(init, last, x);
      }
      RunIsLinked(init, stages);
      StepKeepsLinked(Run(init, stages), init, last, stages);
    }
  }

  /**
   Over every run whose payloads the hash separates: a cycle that returns no error
   leaves the rendering of its own merged value live, and a cycle whose stages would
   all succeed without the cache returns no error and makes the same payload live.
   */
  lemma CacheRefinesAlwaysApply(cycles: seq<Cycle>, c: Cycle, stages: Stages)
    requires HashSeparates(cycles + [c], stages)
    ensures var out := Step(Run(cycles, stages), c, stages);
            && (out.ok ==> c.mergeOk && c.rendered.Ok? && stages.post(c.rendered.value).Ok?
                           && out.st.live == Some(stages.post(c.rendered.value).value))
            && (AlwaysApply(c, stages).Ok? ==> out.ok && out.st.live == Some(AlwaysApply(c, stages).value))
  {
    forall x | Occurs(cycles, x) ensures Occurs(cycles + [c], x) {
      OccursExtends(cycles, c, x);
    }
    RunIsLinked(cycles, stages);
    StepKeepsLinked(Run(cycles, stages), cycles, c, stages);
  }

  /** A gateway whose last cycle failed is never skipped, whatever the hash says. */
  lemma FailureIsRetried(cycles: seq<Cycle>, bad: Cycle, c: Cycle, stages: Stages)
    requires !Step(Run(cycles, stages), bad, stages).ok
    ensures var out := Step(Run(cycles + [bad], stages), c, stages);
            out.ok ==> out.sent.Some? && out.st.live == out.sent
  {
    assert (cycles + [bad])[..|cycles|] == cycles;
  }

  // ---------- Exactly what the hash must satisfy ----------

  /** The cycle failed, or it left the rendering of its own merged value live. */
  ghost predicate Fresh(st: State, c: Cycle, stages: Stages) {
    var out := Step(st, c, stages);
    out.ok ==> c.rendered.Ok? && stages.post(c.rendered.value).Ok?
               && out.st.live == Some(stages.post(c.rendered.value).value)
  }

  function Good(result: Bytes): Cycle {
    Cycle(true, Ok(result), map[], Ok(true), true, None)
  }

  /** After a clean cycle for `x`, a cycle for any `y` with the same hash is skipped and leaves `x` live. */
  lemma CollisionIsSkipped(x: Bytes, y: Bytes, stages: Stages)
    requires stages.hash(x) == stages.hash(y) && stages.post(x).Ok?
    ensures var out := Step(Run([Good(x)], stages), Good(y), stages);
            out.ok && out.sent.None? && out.st.live == Some(stages.post(x).value)
  {
    assert [Good(x)][..0] == [];
    assert Run([Good(x)], stages) == Step(INITIAL, Good(x), stages).st;
  }

  ghost predicate AlwaysFresh(stages: Stages) {
    forall cycles, c :: Fresh(Run(cycles, stages), c, stages)
  }

  ghost predicate NoCollision(stages: Stages) {
    forall x, y :: SameRendering(x, y, stages)
  }

  /** No cycle of any run leaves stale config live without an error, if and only if the hash has no such collision. */
  lemma FreshIffNoCollision(stages: Stages)
    ensures AlwaysFresh(stages) <==> NoCollision(stages)
  {
    if NoCollision(stages) {
      forall cycles, c ensures Fresh(Run(cycles, stages), c, stages) {
        CacheRefinesAlwaysApply(cycles, c, stages);
      }
    }
    if AlwaysFresh(stages) {
      forall x, y ensures SameRendering(x, y, stages) {
        if stages.hash(x) == stages.hash(y) && stages.post(x).Ok? {
          CollisionIsSkipped(x, y, stages);
          assert Fresh(Run([Good(x)], stages), Good(y), stages);
        }
      }
    }
  }

  // ---------- Exactly when a cycle leaves stale config live ----------

  /** What holds of every run, whatever the hash does. */
  ghost predicate Recorded(st: State) {
    && (st.hasCommit <==> st.lastCommit.Some?)
    && (st.commitSuccess ==> st.hasCommit && st.live == st.lastCommit)
  }

  lemma {:induction false} RunIsRecorded(cycles: seq<Cycle>, stages: Stages)
    ensures Recorded(Run(cycles, stages))
    decreases |cycles|
  {
    if cycles != [] {
      RunIsRecorded(cycles[..|cycles| - 1], stages);
    }
  }

  /** The serializer answers "no change". */
  predicate Hits(st: State, c: Cycle, stages: Stages) {
    c.mergeOk && c.rendered.Ok? && st.hasCommit && stages.hash(c.rendered.value) == st.commitHash
  }

  /**
   After any run, a cycle succeeds without making its own rendering live if and only if
   the serializer answers "no change", the last commit is not that rendering, and either
   it is live already or it is validated and applied again.
   */
  lemma StaleIff(cycles: seq<Cycle>, c: Cycle, stages: Stages)
    ensures var st := Run(cycles, stages);
            !Fresh(st, c, stages) <==>
              && Hits(st, c, stages) && st.lastCommit.Some? && stages.post(c.rendered.value) != Ok(st.lastCommit.value)
              && (st.commitSuccess || (c.valid == Ok(true) && c.applied))
  {
    RunIsRecorded(cycles, stages);
  }

  // ---------- Only accepted payloads are applied ----------

  /** A cycle sends a payload exactly when every stage before the reloader lets it, and it is not skipped. */
  lemma SendsIff(st: State, c: Cycle, stages: Stages)
    requires Recorded(st)
    ensures var sent := Step(st, c, stages).sent;
            && (sent.Some? <==>
                  && c.mergeOk && c.rendered.Ok? && c.valid == Ok(true)
                  && if Hits(st, c, stages) then !st.commitSuccess else stages.post(c.rendered.value).Ok?)
            && (sent.Some? ==>
                  sent == if Hits(st, c, stages) then st.lastCommit else Some(stages.post(c.rendered.value).value))
  {}

  /** A rejected payload is not sent and changes nothing; the cycle fails unless it is a hit after a success. */
  lemma RejectedIsNotApplied(st: State, c: Cycle, stages: Stages)
    requires c.valid != Ok(true)
    ensures var out := Step(st, c, stages);
            && out.sent.None? && out.st.live == st.live && out.st.lastCommit == st.lastCommit
            && out.st.hasCommit == st.hasCommit && out.st.commitHash == st.commitHash
            && out.st.committedCerts == st.committedCerts
            && (out.ok <==> Hits(st, c, stages) && st.commitSuccess)
  {}

  /** A payload that is applied becomes the last commit, with its hash and certificates; one that fails leaves its wreck. */
  lemma SentIsCommitted(st: State, c: Cycle, stages: Stages)
    requires Step(st, c, stages).sent.Some?
    ensures var out := Step(st, c, stages);
            && out.ok == c.applied && out.st.live == (if c.applied then out.sent else c.wreck)
            && (c.applied ==> out.st.lastCommit == out.sent && out.st.commitHash == stages.hash(c.rendered.value)
                              && out.st.hasCommit && out.st.committedCerts == c.certs)
            && (!c.applied ==> out.st.lastCommit == st.lastCommit && out.st.commitHash == st.commitHash
                               && out.st.hasCommit == st.hasCommit && out.st.committedCerts == st.committedCerts)
  {}

  /** A cycle that sends nothing leaves what is live and committed. */
  lemma UnsentKeeps(st: State, c: Cycle, stages: Stages)
    requires Step(st, c, stages).sent.None?
    ensures var out := Step(st, c, stages);
            && out.st.live == st.live && out.st.lastCommit == st.lastCommit && out.st.hasCommit == st.hasCommit
            && out.st.commitHash == st.commitHash && out.st.committedCerts == st.committedCerts
  {}

  /** What the cycle at `i` of a run sends to the reloader. */
  function SentAt(cycles: seq<Cycle>, i: nat, stages: Stages): Option<Bytes>
    requires i < |cycles|
  {
    Step(Run(cycles[..i], stages), cycles[i], stages).sent
  }

  /** The cycle at `i` is the last that sent anything. */
  ghost predicate LastSent(cycles: seq<Cycle>, i: int, stages: Stages) {
    0 <= i < |cycles| && SentAt(cycles, i, stages).Some? && forall j | i < j < |cycles| :: SentAt(cycles, j, stages).None?
  }

  /** The cycle at `i` is the last whose payload was applied. */
  ghost predicate LastApplied(cycles: seq<Cycle>, i: int, stages: Stages) {
    && 0 <= i < |cycles| && SentAt(cycles, i, stages).Some? && cycles[i].applied
    && forall j | i < j < |cycles| :: SentAt(cycles, j, stages).None? || !cycles[j].applied
  }

  lemma RunSnoc(cycles: seq<Cycle>, c: Cycle, stages: Stages)
    ensures Run(cycles + [c], stages) == Step(Run(cycles, stages), c, stages).st
    ensures SentAt(cycles + [c], |cycles|, stages) == Step(Run(cycles, stages), c, stages).sent
    ensures forall i | 0 <= i < |cycles| :: SentAt(cycles + [c], i, stages) == SentAt(cycles, i, stages)
  {
    assert (cycles + [c])[..|cycles|] == cycles;
    forall i | 0 <= i < |cycles| ensures SentAt(cycles + [c], i, stages) == SentAt(cycles, i, stages) {
      assert (cycles + [c])[..i] == cycles[..i];
    }
  }

  /**
   Over every run: what is live was sent by the last cycle that sent anything, which the
   validator accepted, or is the wreck of its failed apply; nothing is live before that.
   */
  lemma {:induction false} LiveWasAccepted(cycles: seq<Cycle>, stages: Stages)
    ensures Run(cycles, stages).live == None || exists i :: LastSent(cycles, i, stages)
    ensures forall i | LastSent(cycles, i, stages) ::
              && cycles[i].mergeOk && cycles[i].rendered.Ok? && cycles[i].valid == Ok(true)
              && Run(cycles, stages).live == if cycles[i].applied then SentAt(cycles, i, stages) else cycles[i].wreck
    decreases |cycles|
  {
    if cycles != [] {
      var init, c := cycles[..|cycles| - 1], cycles[|cycles| - 1];
      assert cycles == init + [c];
      RunSnoc(init, c, stages);
      RunIsRecorded(init, stages);
      LiveWasAccepted(init, stages);
      var st := Run(init, stages);
      if Step(st, c, stages).sent.Some? {
        SendsIff(st, c, stages);
        SentIsCommitted(st, c, stages);
        assert LastSent(cycles, |init|, stages);
        forall i | LastSent(cycles, i, stages) ensures i == |init| {}
      } else {
        UnsentKeeps(st, c, stages);
        forall i | LastSent(cycles, i, stages) ensures LastSent(init, i, stages) {
          assert i != |init|;
        }
        if i :| LastSent(init, i, stages) {
          assert LastSent(cycles, i, stages);
        }
      }
    }
  }

  /** Over every run: the committed certificates and payload are those of the last cycle that was applied. */
  lemma {:induction false} CommittedIsApplied(cycles: seq<Cycle>, stages: Stages)
    ensures Run(cycles, stages).hasCommit <==> exists i :: LastApplied(cycles, i, stages)
    ensures forall i | LastApplied(cycles, i, stages) ::
              && cycles[i].rendered.Ok? && Run(cycles, stages).committedCerts == cycles[i].certs
              && Run(cycles, stages).lastCommit == SentAt(cycles, i, stages)
              && Run(cycles, stages).commitHash == stages.hash(cycles[i].rendered.value)
    decreases |cycles|
  {
    if cycles != [] {
      var init, c := cycles[..|cycles| - 1], cycles[|cycles| - 1];
      assert cycles == init + [c];
      RunSnoc(init, c, stages);
      RunIsRecorded(init, stages);
      CommittedIsApplied(init, stages);
      var st := Run(init, stages);
      if Step(st, c, stages).sent.Some? && c.applied {
        SendsIff(st, c, stages);
        SentIsCommitted(st, c, stages);
        assert LastApplied(cycles, |init|, stages);
        forall i | LastApplied(cycles, i, stages) ensures i == |init| {}
      } else {
        if Step(st, c, stages).sent.Some? {
          SentIsCommitted(st, c, stages);
        } else {
          UnsentKeeps(st, c, stages);
        }
        forall i | LastApplied(cycles, i, stages) ensures LastApplied(init, i, stages) {
          assert i != |init|;
        }
        if i :| LastApplied(init, i, stages) {
          assert LastApplied(cycles, i, stages);
        }
      }
    }
  }

  // ---------- The two objects ----------

  class SerializerInstance {
    var commitHash: bv64
    var hasCommit: bool
    var committedCerts: Certs
    var record: Certs
    var hash: bv64
    const stages: Stages

    constructor (stages: Stages)
      ensures this.stages == stages
      ensures commitHash == 0 && !hasCommit && committedCerts == map[] && record == map[] && hash == 0
    {
      this.stages := stages;
      commitHash, hasCommit, committedCerts, record, hash := 0, false, map[], map[], 0;
    }

    method Reset()
      modifies this
      ensures record == map[] && hash == 0
      ensures unchanged(`commitHash) && unchanged(`hasCommit) && unchanged(`committedCerts)
    {
      record := map[];
      hash := 0;
    }

    method Commit()
      modifies this
      ensures commitHash == hash && hasCommit && committedCerts == record
      ensures unchanged(`hash) && unchanged(`record)
    {
      commitHash := hash;
      hasCommit := true;
      committedCerts := record;
    }

    /** The outcome of the plugins and the serializer is an input; nil output is a cache hit. */
    method Serialize(rendered: Result<Bytes>, certs: Certs) returns (r: Result<Option<Bytes>>)
      modifies `record, `hash
      ensures record == certs
      ensures rendered.Ok? ==> hash == stages.hash(rendered.value)
      ensures rendered.Err? ==> hash == old(hash) && r == Err
      ensures rendered.Ok? && hasCommit && hash == commitHash ==> r == Ok(None)
      ensures rendered.Ok? && !(hasCommit && hash == commitHash) ==>
                r == match stages.post(rendered.value)
                     case Ok(output) => Ok(Some(output))
                     case Err => Err
    {
      record := certs;
      if rendered.Err? {
        return Err;
      }
      hash := stages.hash(rendered.value);
      if hasCommit && hash == commitHash {
        return Ok(None);
      }
      var output := stages.post(rendered.value);
      if output.Err? {
        return Err;
      }
      return Ok(Some(output.value));
    }
  }

  class VirtualGateway {
    const serializer: SerializerInstance
    var lastCommit: Option<Bytes>
    var commitSuccess: bool
    /** The config the data plane runs, changed by the reloader only. */
    ghost var live: Option<Bytes>

    ghost function Abs(): State
      reads this, serializer
    {
      State(lastCommit, commitSuccess, serializer.hash, serializer.commitHash, serializer.hasCommit,
            serializer.record, serializer.committedCerts, live)
    }

    constructor (serializer: SerializerInstance)
      requires serializer.commitHash == 0 && !serializer.hasCommit && serializer.committedCerts == map[]
      requires serializer.record == map[] && serializer.hash == 0
      ensures this.serializer == serializer
      ensures Abs() == INITIAL
    {
      this.serializer := serializer;
      lastCommit, commitSuccess, live := None, false, None;
    }

    method HandleGateway(c: Cycle) returns (ok: bool, ghost sent: Option<Bytes>)
      modifies this, serializer
      ensures Outcome(Abs(), ok, sent) == Step(old(Abs()), c, serializer.stages)
      ensures sent.Some? ==> c.mergeOk && c.rendered.Ok? && c.valid == Ok(true)
      ensures c.valid != Ok(true) ==> live == old(live) && lastCommit == old(lastCommit)
    {
      var wasSuccessful := commitSuccess;
      commitSuccess := false;
      sent := None;
      if !c.mergeOk {
        return false, None;
      }
      serializer.Reset();
      var output := serializer.Serialize(c.rendered, c.certs);
      if output.Err? {
        return false, None;
      }
      var serialized := output.value;
      if serialized.None? {
        if wasSuccessful {
          commitSuccess := true;
          return true, None;
        }
        serialized := lastCommit;
      }
      // A nil payload is sent as an empty one.
      var payload := if serialized.Some? then serialized.value else [];
      if c.valid.Err? || !c.valid.value {
        return false, None;
      }
      sent := Some(payload);
      if !c.applied {
        live := c.wreck;
        return false, sent;
      }
      live := Some(payload);
      lastCommit := Some(payload);
      commitSuccess := true;
      serializer.Commit();
      return true, sent;
    }
  }
}
