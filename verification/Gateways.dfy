/**
 Hierarchical virtual gateways. A dotted name such as "a.b" belongs to the gateways
 "a.b" and "a"; a fragment is merged into every gateway of its hierarchy. So what a
 gateway merges is a sub-sequence of what each of its ancestors merges.
 */
module Gateways {
  import opened Strings
  import opened Trees
  import opened MergeRules
  import opened Fragments

  const VIRTUALGW_SEP := '.'
  const DEFAULT_VIRTUALGW := "default"

  // ---------- Names and their parts ----------

  /** The characters with the Unicode property White_Space. */
  predicate IsSpace(c: char) {
    || '\t' <= c <= '\r' || c == ' ' || c == '\U{85}' || c == '\U{A0}' || c == '\U{1680}'
    || '\U{2000}' <= c <= '\U{200A}' || c == '\U{2028}' || c == '\U{2029}' || c == '\U{202F}'
    || c == '\U{205F}' || c == '\U{3000}'
  }

  function TrimSpace(s: string): (r: string)
    ensures forall c | c in r :: c in s
    ensures r == "" || (!IsSpace(r[0]) && !IsSpace(r[|r| - 1]))
    ensures s == "" || (!IsSpace(s[0]) && !IsSpace(s[|s| - 1])) ==> r == s
    decreases |s|
  {
    if s == "" then s
    else if IsSpace(s[0]) then TrimSpace(s[1..])
    else if IsSpace(s[|s| - 1]) then TrimSpace(s[..|s| - 1])
    else s
  }

  /** The parts that are not blank, trimmed. */
  function NonBlank(parts: seq<string>): seq<string>
    decreases |parts|
  {
    if parts == [] then []
    else
      var c := TrimSpace(parts[|parts| - 1]);
      NonBlank(parts[..|parts| - 1]) + if c != "" then [c] else []
  }

  predicate CleanPart(part: string) {
    TrimSpace(part) == part && part != "" && VIRTUALGW_SEP !in part
  }

  /** A path of gateway names, from the outermost to the innermost. */
  predicate CleanLeaf(leaf: seq<string>) {
    leaf != [] && forall i | 0 <= i < |leaf| :: CleanPart(leaf[i])
  }

  function LeafOf(name: string): seq<string> {
    var clean := NonBlank(Split(name, VIRTUALGW_SEP));
    if clean == [] then [DEFAULT_VIRTUALGW] else clean
  }

  /** The names of a gateway and its ancestors, the leaf first. */
  function HierarchyOf(leaf: seq<string>): (names: seq<string>)
    ensures |names| == |leaf|
    ensures forall i | 0 <= i < |leaf| :: names[i] == Join(leaf[..|leaf| - i], VIRTUALGW_SEP)
  {
    seq(|leaf|, i requires 0 <= i < |leaf| => Join(leaf[..|leaf| - i], VIRTUALGW_SEP))
  }

  datatype GatewayPath = GatewayPath(hierarchy: seq<string>)

  method FromLeaf(leaf: seq<string>) returns (vg: GatewayPath)
    ensures vg.hierarchy == HierarchyOf(leaf)
  {
    var hierarchy: seq<string> := [];
    var i := |leaf|;
    while i > 0
      invariant 0 <= i <= |leaf| && |hierarchy| == |leaf| - i
      invariant forall j | 0 <= j < |hierarchy| :: hierarchy[j] == Join(leaf[..|leaf| - j], VIRTUALGW_SEP)
    {
      hierarchy := hierarchy + [Join(leaf[..i], VIRTUALGW_SEP)];
      i := i - 1;
    }
    return GatewayPath(hierarchy);
  }

  method FromKey(name: string) returns (vg: GatewayPath)
    ensures vg.hierarchy == HierarchyOf(LeafOf(name))
  {
    var parts := Split(name, VIRTUALGW_SEP);
    var clean: seq<string> := [];
    for i := 0 to |parts|
      invariant clean == NonBlank(parts[..i])
    {
      assert parts[..i + 1][..i] == parts[..i];
      var c := TrimSpace(parts[i]);
      if c != "" {
        clean := clean + [c];
      }
    }
    assert parts[..|parts|] == parts;
    if |clean| == 0 {
      clean := [DEFAULT_VIRTUALGW];
    }
    vg := FromLeaf(clean);
  }

  // ---------- Names and paths correspond ----------

  lemma NonBlankIsClean(parts: seq<string>)
    requires forall i | 0 <= i < |parts| :: VIRTUALGW_SEP !in parts[i]
    ensures forall i | 0 <= i < |NonBlank(parts)| :: CleanPart(NonBlank(parts)[i])
    decreases |parts|
  {
    if parts != [] {
      NonBlankIsClean(parts[..|parts| - 1]);
    }
  }

  /** Every name stands for a clean path. */
  lemma LeafIsClean(name: string)
    ensures CleanLeaf(LeafOf(name))
  {
    SplitHasNoSeparator(name, VIRTUALGW_SEP);
    NonBlankIsClean(Split(name, VIRTUALGW_SEP));
  }

  lemma {:induction false} NonBlankOfClean(leaf: seq<string>)
    requires forall i | 0 <= i < |leaf| :: CleanPart(leaf[i])
    ensures NonBlank(leaf) == leaf
    decreases |leaf|
  {
    if leaf != [] {
      var init, last := leaf[..|leaf| - 1], leaf[|leaf| - 1];
      NonBlankOfClean(init);
      assert CleanPart(last);
      assert NonBlank(leaf) == init + [last];
    }
  }

  /** Reading back the name of a clean path gives the path. */
  lemma LeafOfJoin(leaf: seq<string>)
    requires CleanLeaf(leaf)
    ensures LeafOf(Join(leaf, VIRTUALGW_SEP)) == leaf
  {
    SplitOfJoin(leaf, VIRTUALGW_SEP);
    NonBlankOfClean(leaf);
  }

  /** The hierarchy of an ancestor is what is left of the hierarchy from that ancestor on. */
  lemma HierarchyOfAncestor(leaf: seq<string>, i: nat)
    requires CleanLeaf(leaf) && i < |leaf|
    ensures HierarchyOf(LeafOf(HierarchyOf(leaf)[i])) == HierarchyOf(leaf)[i..]
  {
    var above := leaf[..|leaf| - i];
    assert CleanLeaf(above);
    LeafOfJoin(above);
    forall j | 0 <= j < |above| ensures HierarchyOf(above)[j] == HierarchyOf(leaf)[i + j] {
      assert above[..|above| - j] == leaf[..|leaf| - (i + j)];
    }
  }

  /** No gateway occurs twice in a hierarchy. */
  lemma HierarchyDistinct(leaf: seq<string>, i: nat, j: nat)
    requires CleanLeaf(leaf) && i < j < |leaf|
    ensures HierarchyOf(leaf)[i] != HierarchyOf(leaf)[j]
  {
    LeafOfJoin(leaf[..|leaf| - i]);
    LeafOfJoin(leaf[..|leaf| - j]);
  }

  // ---------- Spaces and blank parts ----------

  predicate Blank(s: string) {
    forall c | c in s :: IsSpace(c)
  }

  /** The part is `clean` with spaces around it. */
  ghost predicate Pads(part: string, clean: string) {
    exists pre, post :: Blank(pre) && Blank(post) && part == pre + clean + post
  }

  lemma {:induction false} TrimBlank(s: string)
    requires Blank(s)
    ensures TrimSpace(s) == ""
    decreases |s|
  {
    if s != "" {
      assert s[0] in s;
      TrimBlank(s[1..]);
    }
  }

  lemma {:induction false} TrimPadded(pre: string, clean: string, post: string)
    requires Blank(pre) && Blank(post) && CleanPart(clean)
    ensures TrimSpace(pre + clean + post) == clean
    decreases |pre| + |post|
  {
    var s := pre + clean + post;
    if pre != "" {
      assert pre[0] in pre;
      assert s[1..] == pre[1..] + clean + post;
      TrimPadded(pre[1..], clean, post);
    } else if post != "" {
      assert post[|post| - 1] in post;
      assert s[0] == clean[0];
      assert s[..|s| - 1] == pre + clean + post[..|post| - 1];
      TrimPadded(pre, clean, post[..|post| - 1]);
    } else {
      assert s == clean;
    }
  }

  /** The parts at `at` are those of the path with spaces around them, and all others are blank. */
  ghost predicate PadsAll(parts: seq<string>, at: seq<nat>, leaf: seq<string>) {
    && |at| == |leaf| && Rising(at, |parts|)
    && (forall j | 0 <= j < |at| :: CleanPart(leaf[j]) && Pads(parts[at[j]], leaf[j]))
    && (forall i | 0 <= i < |parts| && i !in at :: Blank(parts[i]))
  }

  ghost predicate Rising(at: seq<nat>, n: nat) {
    (forall i, j | 0 <= i < j < |at| :: at[i] < at[j]) && forall j | 0 <= j < |at| :: at[j] < n
  }

  /** Positions up to `n` either end with `n` or stay below it. */
  lemma RisingInit(at: seq<nat>, n: nat)
    requires Rising(at, n + 1)
    ensures at != [] && at[|at| - 1] == n ==>
              Rising(at[..|at| - 1], n) && forall i | 0 <= i < n :: i in at[..|at| - 1] <==> i in at
    ensures !(at != [] && at[|at| - 1] == n) ==> Rising(at, n) && n !in at
  {
    if at != [] && at[|at| - 1] == n {
      assert at == at[..|at| - 1] + [n];
    }
  }

  lemma PadsAllInit(parts: seq<string>, at: seq<nat>, leaf: seq<string>)
    requires parts != [] && PadsAll(parts, at, leaf)
    ensures var n, init := |parts| - 1, parts[..|parts| - 1];
            if at != [] && at[|at| - 1] == n then
              PadsAll(init, at[..|at| - 1], leaf[..|leaf| - 1]) && CleanPart(leaf[|leaf| - 1]) && Pads(parts[n], leaf[|leaf| - 1])
            else PadsAll(init, at, leaf) && Blank(parts[n])
  {
    hide Pads, CleanPart, Blank;
    var n, init := |parts| - 1, parts[..|parts| - 1];
    RisingInit(at, n);
    hide Rising;
    assert forall i | 0 <= i < n :: init[i] == parts[i];
  }

  lemma TrimPads(part: string, clean: string)
    requires CleanPart(clean) && Pads(part, clean)
    ensures TrimSpace(part) == clean && clean != ""
  {
    var pre, post :| Blank(pre) && Blank(post) && part == pre + clean + post;
    TrimPadded(pre, clean, post);
  }

  lemma PadsSomething(parts: seq<string>, at: seq<nat>, leaf: seq<string>)
    requires PadsAll(parts, at, leaf)
    ensures leaf != [] ==> parts != []
    ensures parts == [] ==> NonBlank(parts) == []
  {
    if at != [] {
      assert at[0] < |parts|;
    }
  }

  lemma NonBlankStep(parts: seq<string>)
    requires parts != []
    ensures var c := TrimSpace(parts[|parts| - 1]);
            NonBlank(parts) == NonBlank(parts[..|parts| - 1]) + if c != "" then [c] else []
  {}

  lemma {:induction false} NonBlankOfPadded(parts: seq<string>, at: seq<nat>, leaf: seq<string>)
    requires PadsAll(parts, at, leaf)
    ensures NonBlank(parts) == leaf
    decreases |parts|
  {
    hide NonBlank, TrimSpace, Pads, Blank, CleanPart;
    PadsSomething(parts, at, leaf);
    if parts != [] {
      var n := |parts| - 1;
      PadsAllInit(parts, at, leaf);
      NonBlankStep(parts);
      if at != [] && at[|at| - 1] == n {
        NonBlankOfPadded(parts[..n], at[..|at| - 1], leaf[..|leaf| - 1]);
        TrimPads(parts[n], leaf[|leaf| - 1]);
        assert leaf == leaf[..|leaf| - 1] + [leaf[|leaf| - 1]];
      } else {
        NonBlankOfPadded(parts[..n], at, leaf);
        TrimBlank(parts[n]);
      }
    }
  }

  /**
   A name stands for its parts without the spaces around them and without the blank
   ones; when all are blank, for the default gateway.
   */
  lemma LeafOfPadded(parts: seq<string>, at: seq<nat>, leaf: seq<string>)
    requires parts != [] && (forall i | 0 <= i < |parts| :: '.' !in parts[i]) && PadsAll(parts, at, leaf)
    ensures LeafOf(Join(parts, '.')) == if leaf == [] then ["default"] else leaf
  {
    SplitOfJoin(parts, '.');
    NonBlankOfPadded(parts, at, leaf);
  }

  // ---------- Grouping the fragments by gateway ----------

  datatype Snippet = Snippet(leaf: seq<string>, data: Fragment)

  predicate Belongs(s: Snippet, gateway: string) {
    s.data.Map? && gateway in HierarchyOf(s.leaf)
  }

  /** The fragments merged into a gateway, in fetch order. */
  function Group(fetched: seq<Snippet>, gateway: string): seq<Fragment>
    decreases |fetched|
  {
    if fetched == [] then []
    else
      var last := fetched[|fetched| - 1];
      Group(fetched[..|fetched| - 1], gateway) + if Belongs(last, gateway) then [last.data] else []
  }

  /** Appending to an absent entry of a map starts from nil. */
  function GroupAt(groups: map<string, seq<Fragment>>, gateway: string): seq<Fragment> {
    if gateway in groups then groups[gateway] else []
  }

  /** The groups are exactly the non-empty ones, each in fetch order. */
  ghost predicate Grouped(groups: map<string, seq<Fragment>>, fetched: seq<Snippet>) {
    (forall g :: GroupAt(groups, g) == Group(fetched, g)) && (forall g | g in groups :: groups[g] != [])
  }

  /**
   The fetch stage: an error aborts the run, a fragment with nil data is skipped, and
   any other fragment is appended once to each gateway of its hierarchy.
   */
  method GroupByGateway(fetched: seq<Result<Snippet>>) returns (r: Result<map<string, seq<Fragment>>>)
    requires forall i | 0 <= i < |fetched| :: fetched[i].Ok? ==> CleanLeaf(fetched[i].value.leaf)
    ensures r.Ok? <==> forall i | 0 <= i < |fetched| :: fetched[i].Ok?
    ensures r.Ok? ==> forall i | 0 <= i < |fetched| :: fetched[i].Ok?
    ensures r.Ok? ==> Grouped(r.value, seq(|fetched|, i requires 0 <= i < |fetched| && fetched[i].Ok? => fetched[i].value))
  {
    var groups: map<string, seq<Fragment>> := map[];
    ghost var done: seq<Snippet> := [];
    for i := 0 to |fetched|
      invariant |done| == i
      invariant forall j | 0 <= j < i :: fetched[j] == Ok(done[j])
      invariant Grouped(groups, done)
    {
      if fetched[i].Err? {
        return Err;
      }
      var snippet := fetched[i].value;
      if snippet.data.Map? {
        groups := AddToGroups(groups, snippet);
      }
      forall g ensures GroupAt(groups, g) == Group(done + [snippet], g) {
        GroupSnoc(done, snippet, g);
      }
      done := done + [snippet];
    }
    assert done == seq(|fetched|, i requires 0 <= i < |fetched| && fetched[i].Ok? => fetched[i].value);
    return Ok(groups);
  }

  lemma GroupSnoc(done: seq<Snippet>, snippet: Snippet, g: string)
    ensures Group(done + [snippet], g) == if Belongs(snippet, g) then Group(done, g) + [snippet.data] else Group(done, g)
  {
    assert (done + [snippet])[..|done|] == done;
  }

  /** The fragment at `p` has data and the gateway in its hierarchy. */
  predicate InGroup(fetched: seq<Snippet>, p: int, gateway: string) {
    0 <= p < |fetched| && fetched[p].data.Map? && gateway in HierarchyOf(fetched[p].leaf)
  }

  /** `at` are the positions of a group's fragments, in order. */
  ghost predicate GroupPositions(at: seq<nat>, fetched: seq<Snippet>, gateway: string) {
    (forall i, j | 0 <= i < j < |at| :: at[i] < at[j]) && (forall p :: p in at <==> InGroup(fetched, p, gateway))
  }

  ghost predicate HoldsData(at: seq<nat>, fetched: seq<Snippet>, group: seq<Fragment>) {
    |group| == |at| && forall i | 0 <= i < |at| :: at[i] < |fetched| && group[i] == fetched[at[i]].data
  }

  lemma GroupPositionsSnoc(at: seq<nat>, fetched: seq<Snippet>, gateway: string, group: seq<Fragment>)
    requires fetched != [] && GroupPositions(at, fetched[..|fetched| - 1], gateway) && HoldsData(at, fetched[..|fetched| - 1], group)
    ensures var n := |fetched| - 1;
            var belongs := Belongs(fetched[n], gateway);
            && GroupPositions(if belongs then at + [n] else at, fetched, gateway)
            && HoldsData(if belongs then at + [n] else at, fetched, group + if belongs then [fetched[n].data] else [])
  {
    hide HierarchyOf;
    var n, init := |fetched| - 1, fetched[..|fetched| - 1];
    var after := if Belongs(fetched[n], gateway) then at + [n] else at;
    forall p ensures p in after <==> InGroup(fetched, p, gateway) {
      assert p in at <==> InGroup(init, p, gateway);
    }
  }

  /** A group holds the data of exactly the fragments that have data and the gateway in their hierarchy, in order. */
  lemma {:induction false} GroupIs(fetched: seq<Snippet>, gateway: string) returns (at: seq<nat>)
    ensures GroupPositions(at, fetched, gateway) && HoldsData(at, fetched, Group(fetched, gateway))
    decreases |fetched|
  {
    at := [];
    if fetched != [] {
      var before := GroupIs(fetched[..|fetched| - 1], gateway);
      GroupPositionsSnoc(before, fetched, gateway, Group(fetched[..|fetched| - 1], gateway));
      at := if Belongs(fetched[|fetched| - 1], gateway) then before + [|fetched| - 1] else before;
    }
  }

  /** The loop over the hierarchy of one fragment. */
  method AddToGroups(before: map<string, seq<Fragment>>, snippet: Snippet) returns (groups: map<string, seq<Fragment>>)
    requires CleanLeaf(snippet.leaf)
    requires forall g | g in before :: before[g] != []
    ensures forall g | g in HierarchyOf(snippet.leaf) :: GroupAt(groups, g) == GroupAt(before, g) + [snippet.data]
    ensures forall g | g !in HierarchyOf(snippet.leaf) :: GroupAt(groups, g) == GroupAt(before, g)
    ensures forall g | g in groups :: groups[g] != []
  {
    hide HierarchyOf, CleanLeaf;
    groups := before;
    var hierarchy := HierarchyOf(snippet.leaf);
    ghost var placed: set<string> := {};
    for j := 0 to |hierarchy|
      invariant forall i | 0 <= i < j :: hierarchy[i] in placed
      invariant forall g | g in placed :: exists i :: 0 <= i < j && hierarchy[i] == g
      invariant forall g | g in placed :: GroupAt(groups, g) == GroupAt(before, g) + [snippet.data]
      invariant forall g | g !in placed :: GroupAt(groups, g) == GroupAt(before, g)
      invariant forall g | g in groups :: groups[g] != []
    {
      var virtualgw := hierarchy[j];
      forall i | 0 <= i < j ensures hierarchy[i] != virtualgw {
        HierarchyDistinct(snippet.leaf, i, j);
      }
      groups := groups[virtualgw := GroupAt(groups, virtualgw) + [snippet.data]];
      placed := placed + {virtualgw};
    }
    assert forall g :: g in placed <==> g in hierarchy;
  }

  // ---------- Descendants merge when their ancestors do ----------

  /** Strictly increasing positions below `n`. */
  ghost predicate Increasing(at: seq<nat>, n: nat) {
    && (forall i, j | 0 <= i < j < |at| :: at[i] < at[j])
    && (forall i | i in at :: i < n)
  }

  lemma IncreasingSnoc(at: seq<nat>, n: nat)
    requires Increasing(at, n)
    ensures Increasing(at + [n], n + 1)
  {
    var s := at + [n];
    forall i, j | 0 <= i < j < |s| ensures s[i] < s[j] {
      assert at[i] in at;
    }
  }

  lemma PickExtended(s: seq<Fragment>, more: seq<Fragment>, at: seq<nat>)
    requires Increasing(at, |s|)
    ensures Increasing(at, |s + more|)
    ensures Pick(s + more, at) == Pick(s, at)
  {
    forall i | 0 <= i < |at| ensures Pick(s + more, at)[i] == Pick(s, at)[i] {
      assert at[i] in at;
    }
  }

  lemma PickSnoc(s: seq<Fragment>, at: seq<nat>, n: nat)
    requires Increasing(at, n) && n < |s|
    ensures forall i | i in at + [n] :: i < |s|
    ensures Pick(s, at + [n]) == Pick(s, at) + [s[n]]
  {}

  /** The fragments of a gateway are found, in order, among those of each of its ancestors. */
  lemma {:induction false} GroupIsSubsequence(fetched: seq<Snippet>, gateway: string, parent: string) returns (at: seq<nat>)
    requires forall i | 0 <= i < |fetched| :: CleanLeaf(fetched[i].leaf)
    requires parent in HierarchyOf(LeafOf(gateway))
    ensures Increasing(at, |Group(fetched, parent)|)
    ensures Group(fetched, gateway) == Pick(Group(fetched, parent), at)
    decreases |fetched|
  {
    if fetched == [] {
      return [];
    }
    var init, last := fetched[..|fetched| - 1], fetched[|fetched| - 1];
    at := GroupIsSubsequence(init, gateway, parent);
    var before := Group(init, parent);
    PickExtended(before, if Belongs(last, parent) then [last.data] else [], at);
    if Belongs(last, gateway) {
      BelongsToParent(last, gateway, parent);
      IncreasingSnoc(at, |before|);
      PickSnoc(before + [last.data], at, |before|);
      at := at + [|before|];
    }
  }

  lemma BelongsToParent(s: Snippet, gateway: string, parent: string)
    requires CleanLeaf(s.leaf) && Belongs(s, gateway)
    requires parent in HierarchyOf(LeafOf(gateway))
    ensures Belongs(s, parent)
  {
    var i :| 0 <= i < |HierarchyOf(s.leaf)| && HierarchyOf(s.leaf)[i] == gateway;
    HierarchyOfAncestor(s.leaf, i);
    assert parent in HierarchyOf(s.leaf)[i..];
  }

  /** If the fragments of a gateway merge, then so do those of each of its descendants. */
  lemma DescendantMerges(fetched: seq<Snippet>, gateway: string, parent: string, root: Rule)
    requires forall i | 0 <= i < |fetched| :: CleanLeaf(fetched[i].leaf)
    requires parent in HierarchyOf(LeafOf(gateway))
    requires MergeAll(Group(fetched, parent), root).Ok?
    ensures MergeAll(Group(fetched, gateway), root).Ok?
  {
    var at := GroupIsSubsequence(fetched, gateway, parent);
    SelectionMerges(Group(fetched, parent), at, root);
  }
}
