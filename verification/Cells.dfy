/**
 Decoded documents on the heap. The maps and lists of a document are objects, which
 documents may share. A `Cell` is a tree together with the objects that hold it; what
 the program does in place is stated as a change of the cell that the heap holds.
 */
module Cells {
  import opened Trees

  class MapNode {
    var m: map<string, Value>

    constructor (m: map<string, Value>)
      ensures this.m == m
    {
      this.m := m;
    }
  }

  class ListNode {
    var items: seq<Value>

    constructor (items: seq<Value>)
      ensures this.items == items
    {
      this.items := items;
    }
  }

  datatype Value = VNil | VScalar(v: Scalar) | VMap(node: MapNode) | VList(list: ListNode)

  // ---------- Trees with the objects they are made of ----------

  /** A tree together with the object of each of its maps and lists; objects may occur more than once. */
  datatype Cell =
    | CNull
    | CLeaf(v: Scalar)
    | CMap(node: MapNode, m: map<string, Cell>)
    | CList(list: ListNode, items: seq<Cell>)

  function ValueOf(c: Cell): Value {
    match c
    case CNull => VNil
    case CLeaf(v) => VScalar(v)
    case CMap(node, _) => VMap(node)
    case CList(list, _) => VList(list)
  }

  function TreeOf(c: Cell): Tree
    decreases c
  {
    match c
    case CNull => Null
    case CLeaf(v) => Leaf(v)
    case CMap(_, m) => Map(map k | k in m :: TreeOf(m[k]))
    case CList(_, items) => List(seq(|items|, i requires 0 <= i < |items| => TreeOf(items[i])))
  }

  ghost function Nodes(c: Cell): set<object>
    decreases c, 1
  {
    match c
    case CMap(node, _) => {node} + Below(c)
    case CList(list, _) => {list} + Below(c)
    case _ => {}
  }

  ghost function Below(c: Cell): set<object>
    decreases c, 0
  {
    match c
    case CMap(_, m) => set k, o | k in m && o in Nodes(m[k]) :: o
    case CList(_, items) => set i, o | 0 <= i < |items| && o in Nodes(items[i]) :: o
    case _ => {}
  }

  lemma EntryWithin(c: Cell, k: string)
    requires c.CMap? && k in c.m
    ensures Nodes(c.m[k]) <= Nodes(c)
  {
    forall o | o in Nodes(c.m[k]) ensures o in Nodes(c) {
      assert o in Below(c);
    }
  }

  lemma ItemWithin(c: Cell, i: nat)
    requires c.CList? && i < |c.items|
    ensures Nodes(c.items[i]) <= Nodes(c)
  {
    forall o | o in Nodes(c.items[i]) ensures o in Nodes(c) {
      assert o in Below(c);
    }
  }

  /** The heap holds the tree `c` in its objects, all of them in `nodes`. */
  ghost predicate Holds(c: Cell, nodes: set<object>)
    reads nodes
    decreases c
  {
    match c
    case CMap(node, m) =>
      && node in nodes && node.m.Keys == m.Keys
      && forall k | k in m :: node.m[k] == ValueOf(m[k]) && Holds(m[k], nodes)
    case CList(list, items) =>
      && list in nodes && |list.items| == |items|
      && forall i | 0 <= i < |items| :: list.items[i] == ValueOf(items[i]) && Holds(items[i], nodes)
    case _ => true
  }

  lemma {:induction false} HoldsWithin(c: Cell, nodes: set<object>, other: set<object>)
    requires Holds(c, nodes) && Nodes(c) <= other
    ensures Holds(c, other)
    decreases c
  {
    match c
    case CMap(_, m) =>
      forall k | k in m ensures Holds(m[k], other) {
        EntryWithin(c, k);
        HoldsWithin(m[k], nodes, other);
      }
    case CList(_, items) =>
      forall i | 0 <= i < |items| ensures Holds(items[i], other) {
        ItemWithin(c, i);
        HoldsWithin(items[i], nodes, other);
      }
    case _ =>
  }

  /** No object occurs twice. */
  ghost predicate Separated(c: Cell)
    decreases c
  {
    match c
    case CMap(node, m) =>
      && (forall k | k in m :: node !in Nodes(m[k]) && Separated(m[k]))
      && (forall k, l | k in m && l in m && k != l :: Nodes(m[k]) !! Nodes(m[l]))
    case CList(list, items) =>
      && (forall i | 0 <= i < |items| :: list !in Nodes(items[i]) && Separated(items[i]))
      && (forall i, j | 0 <= i < j < |items| :: Nodes(items[i]) !! Nodes(items[j]))
    case _ => true
  }

  // ---------- New objects ----------

  /** `out` is the tree `t`, made of the objects `made`, none of them twice. */
  ghost predicate Made(t: Tree, out: Value, d: Cell, made: set<object>)
    reads made
  {
    && out == ValueOf(d) && Holds(d, made) && Nodes(d) <= made
    && Separated(d) && TreeOf(d) == t
  }

  ghost predicate EntriesMade(ts: map<string, Tree>, out: map<string, Value>, parts: map<string, Cell>, made: set<object>)
    reads made
  {
    && out.Keys == parts.Keys == ts.Keys
    && (forall k | k in ts :: Made(ts[k], out[k], parts[k], made))
    && (forall k, l | k in ts && l in ts && k != l :: Nodes(parts[k]) !! Nodes(parts[l]))
  }

  ghost predicate ItemsMade(ts: seq<Tree>, out: seq<Value>, parts: seq<Cell>, made: set<object>)
    reads made
  {
    && |out| == |parts| == |ts|
    && (forall i | 0 <= i < |ts| :: Made(ts[i], out[i], parts[i], made))
    && (forall i, j | 0 <= i < j < |ts| :: Nodes(parts[i]) !! Nodes(parts[j]))
  }

  lemma EntryAdded(ts: map<string, Tree>, out: map<string, Value>, parts: map<string, Cell>, made: set<object>,
                   k: string, t: Tree, v: Value, d: Cell, more: set<object>)
    requires EntriesMade(ts, out, parts, made) && Made(t, v, d, more) && made !! more && k !in ts
    ensures EntriesMade(ts[k := t], out[k := v], parts[k := d], made + more)
  {
    HoldsWithin(d, more, made + more);
    forall l | l in ts ensures Made(ts[l], out[l], parts[l], made + more) {
      HoldsWithin(parts[l], made, made + more);
    }
  }

  lemma ItemAdded(ts: seq<Tree>, out: seq<Value>, parts: seq<Cell>, made: set<object>,
                  t: Tree, v: Value, d: Cell, more: set<object>)
    requires ItemsMade(ts, out, parts, made) && Made(t, v, d, more) && made !! more
    ensures ItemsMade(ts + [t], out + [v], parts + [d], made + more)
  {
    HoldsWithin(d, more, made + more);
    forall i | 0 <= i < |ts| ensures Made(ts[i], out[i], parts[i], made + more) {
      HoldsWithin(parts[i], made, made + more);
    }
  }

  lemma MapMade(ts: map<string, Tree>, node: MapNode, parts: map<string, Cell>, made: set<object>)
    requires EntriesMade(ts, node.m, parts, made) && node !in made
    ensures Made(Map(ts), VMap(node), CMap(node, parts), made + {node})
  {
    forall k | k in parts ensures Holds(parts[k], made + {node}) {
      HoldsWithin(parts[k], made, made + {node});
    }
    var d := CMap(node, parts);
    assert TreeOf(d).m == ts;
  }

  lemma ListMade(ts: seq<Tree>, list: ListNode, parts: seq<Cell>, made: set<object>)
    requires ItemsMade(ts, list.items, parts, made) && list !in made
    ensures Made(List(ts), VList(list), CList(list, parts), made + {list})
  {
    forall i | 0 <= i < |parts| ensures Holds(parts[i], made + {list}) {
      HoldsWithin(parts[i], made, made + {list});
    }
    var d := CList(list, parts);
    assert TreeOf(d).items == ts;
  }

  /** What a decoder does: a document for a tree, in new objects. */
  method Decode(t: Tree) returns (out: Value, ghost d: Cell, ghost made: set<object>)
    ensures Made(t, out, d, made) && fresh(made)
    decreases t, 1
  {
    match t {
      case Null => out, d, made := VNil, CNull, {};
      case Leaf(v) => out, d, made := VScalar(v), CLeaf(v), {};
      case Map(ts) =>
        var m: map<string, Value>;
        ghost var parts: map<string, Cell>;
        m, parts, made := DecodeEntries(ts, t);
        var node := new MapNode(m);
        MapMade(ts, node, parts, made);
        out, d, made := VMap(node), CMap(node, parts), made + {node};
      case List(ts) =>
        var items: seq<Value>;
        ghost var parts: seq<Cell>;
        items, parts, made := DecodeItems(ts, t);
        var list := new ListNode(items);
        ListMade(ts, list, parts, made);
        out, d, made := VList(list), CList(list, parts), made + {list};
    }
  }

  method DecodeEntries(ts: map<string, Tree>, ghost t: Tree)
      returns (out: map<string, Value>, ghost parts: map<string, Cell>, ghost made: set<object>)
    requires t == Map(ts)
    ensures EntriesMade(ts, out, parts, made) && fresh(made)
    decreases t, 0
  {
    out, parts, made := map[], map[], {};
    ghost var done: map<string, Tree> := map[];
    var keys := ts.Keys;
    while keys != {}
      invariant keys <= ts.Keys && done.Keys == ts.Keys - keys && forall k | k in done :: done[k] == ts[k]
      invariant EntriesMade(done, out, parts, made) && fresh(made)
      decreases keys
    {
      var key :| key in keys;
      keys := keys - {key};
      var value;
      ghost var d, more;
      value, d, more := Decode(ts[key]);
      EntryAdded(done, out, parts, made, key, ts[key], value, d, more);
      done, out, parts, made := done[key := ts[key]], out[key := value], parts[key := d], made + more;
    }
    assert done == ts;
  }

  method DecodeItems(ts: seq<Tree>, ghost t: Tree)
      returns (out: seq<Value>, ghost parts: seq<Cell>, ghost made: set<object>)
    requires t == List(ts)
    ensures ItemsMade(ts, out, parts, made) && fresh(made)
    decreases t, 0
  {
    out, parts, made := [], [], {};
    for i := 0 to |ts|
      invariant ItemsMade(ts[..i], out, parts, made) && fresh(made)
    {
      var value;
      ghost var d, more;
      value, d, more := Decode(ts[i]);
      ItemAdded(ts[..i], out, parts, made, ts[i], value, d, more);
      assert ts[..i] + [ts[i]] == ts[..i + 1];
      out, parts, made := out + [value], parts + [d], made + more;
    }
    assert ts[..|ts|] == ts;
  }

  // ---------- Changes in place ----------

  /** `d` is `c` as changed in place: the same object, in which the heap now holds the tree `t`. */
  ghost predicate Became(c: Cell, d: Cell, t: Tree, nodes: set<object>, made: set<object>)
    reads nodes, made
  {
    && ValueOf(d) == ValueOf(c) && TreeOf(d) == t
    && Holds(d, nodes + made) && Nodes(d) <= Nodes(c) + made && Nodes(c) <= nodes
  }

  lemma EntryReplaced(c: Cell, k: string, e: Cell)
    requires c.CMap?
    ensures TreeOf(CMap(c.node, c.m[k := e])) == Map(TreeOf(c).m[k := TreeOf(e)])
    ensures Nodes(CMap(c.node, c.m[k := e])) <= Nodes(c) + Nodes(e)
  {
    var d := CMap(c.node, c.m[k := e]);
    assert TreeOf(d).m == TreeOf(c).m[k := TreeOf(e)];
    forall o | o in Nodes(d) ensures o in Nodes(c) + Nodes(e) {
      if o in Below(d) {
        var l :| l in d.m && o in Nodes(d.m[l]);
        if l != k {
          EntryWithin(c, l);
        }
      }
    }
  }

  /** The entries of an object, each held in its own objects. */
  lemma EntriesHeld(c: Cell, nodes: set<object>)
    requires c.CMap? && Holds(c, nodes) && Nodes(c) <= nodes
    ensures forall k | k in c.m :: Nodes(c.m[k]) <= nodes && Holds(c.m[k], Nodes(c.m[k]))
  {
    forall k | k in c.m ensures Nodes(c.m[k]) <= nodes && Holds(c.m[k], Nodes(c.m[k])) {
      EntryWithin(c, k);
      HoldsWithin(c.m[k], nodes, Nodes(c.m[k]));
    }
  }

  // ---------- One entry changes, the others stay ----------

  /** A document that shares nothing. */
  ghost predicate Proper(c: Cell)
    reads Nodes(c)
  {
    Holds(c, Nodes(c)) && Separated(c)
  }

  ghost function OfEntry(c: Cell, k: string): set<object> {
    if c.CMap? && k in c.m then Nodes(c.m[k]) else {}
  }

  /** The entries of an object but one are held by `region`. */
  ghost predicate OtherEntries(c: Cell, k: string, region: set<object>)
    reads region
  {
    c.CMap? ==> forall l | l in c.m && l != k :: Holds(c.m[l], region) && Nodes(c.m[l]) <= region
  }

  lemma EntryApart(c: Cell, k: string)
    requires c.CMap? && Proper(c)
    ensures OtherEntries(c, k, Nodes(c) - {c.node} - OfEntry(c, k))
    ensures OfEntry(c, k) <= Nodes(c) - {c.node}
    ensures k in c.m ==> Proper(c.m[k])
  {
    var region := Nodes(c) - {c.node} - OfEntry(c, k);
    forall l | l in c.m && l != k ensures Holds(c.m[l], region) && Nodes(c.m[l]) <= region {
      EntryWithin(c, l);
      HoldsWithin(c.m[l], Nodes(c), region);
    }
    if k in c.m {
      EntryWithin(c, k);
      HoldsWithin(c.m[k], Nodes(c), Nodes(c.m[k]));
    }
  }

  lemma EntrySeparated(c: Cell, k: string, e: Cell, made: set<object>)
    requires c.CMap? && Separated(c) && Separated(e) && Nodes(e) <= OfEntry(c, k) + made && made !! Nodes(c)
    ensures Separated(CMap(c.node, c.m[k := e])) && Nodes(CMap(c.node, c.m[k := e])) <= Nodes(c) + made
  {
    EntryReplaced(c, k, e);
    if k in c.m {
      EntryWithin(c, k);
    }
    forall l | l in c.m && l != k ensures Nodes(e) !! Nodes(c.m[l]) {
      EntryWithin(c, l);
    }
  }

  /** After a change of one entry, which may be new, the object holds the changed tree. */
  lemma EntryRebuilt(c: Cell, k: string, e: Cell, made: set<object>)
    requires c.CMap? && Separated(c) && OtherEntries(c, k, Nodes(c) - {c.node} - OfEntry(c, k))
    requires Proper(e) && Nodes(e) <= OfEntry(c, k) + made && made !! Nodes(c)
    requires c.node.m.Keys == c.m.Keys + {k} && c.node.m[k] == ValueOf(e)
    requires forall l | l in c.m && l != k :: c.node.m[l] == ValueOf(c.m[l])
    ensures Proper(CMap(c.node, c.m[k := e])) && Nodes(CMap(c.node, c.m[k := e])) <= Nodes(c) + made
    ensures TreeOf(CMap(c.node, c.m[k := e])) == Map(TreeOf(c).m[k := TreeOf(e)])
  {
    var d := CMap(c.node, c.m[k := e]);
    EntryReplaced(c, k, e);
    EntrySeparated(c, k, e, made);
    EntryWithin(d, k);
    HoldsWithin(e, Nodes(e), Nodes(d));
    forall l | l in c.m && l != k ensures Holds(c.m[l], Nodes(d)) {
      EntryWithin(d, l);
      HoldsWithin(c.m[l], Nodes(c) - {c.node} - OfEntry(c, k), Nodes(d));
    }
  }

  ghost function OfItem(c: Cell, i: nat): set<object> {
    if c.CList? && i < |c.items| then Nodes(c.items[i]) else {}
  }

  ghost predicate OtherItems(c: Cell, i: nat, region: set<object>)
    reads region
  {
    c.CList? ==> forall j | 0 <= j < |c.items| && j != i :: Holds(c.items[j], region) && Nodes(c.items[j]) <= region
  }

  lemma ItemApart(c: Cell, i: nat)
    requires c.CList? && Proper(c) && i < |c.items|
    ensures OtherItems(c, i, Nodes(c) - {c.list} - OfItem(c, i))
    ensures OfItem(c, i) <= Nodes(c) - {c.list} && Proper(c.items[i])
  {
    var region := Nodes(c) - {c.list} - OfItem(c, i);
    forall j | 0 <= j < |c.items| && j != i ensures Holds(c.items[j], region) && Nodes(c.items[j]) <= region {
      ItemWithin(c, j);
      HoldsWithin(c.items[j], Nodes(c), region);
    }
    ItemWithin(c, i);
    HoldsWithin(c.items[i], Nodes(c), Nodes(c.items[i]));
  }

  lemma ItemReplaced(c: Cell, i: nat, e: Cell)
    requires c.CList? && i < |c.items|
    ensures TreeOf(CList(c.list, c.items[i := e])) == List(TreeOf(c).items[i := TreeOf(e)])
    ensures Nodes(CList(c.list, c.items[i := e])) <= Nodes(c) + Nodes(e)
  {
    var d := CList(c.list, c.items[i := e]);
    assert TreeOf(d).items == TreeOf(c).items[i := TreeOf(e)];
    forall o | o in Nodes(d) ensures o in Nodes(c) + Nodes(e) {
      if o in Below(d) {
        var j :| 0 <= j < |d.items| && o in Nodes(d.items[j]);
        if j != i {
          ItemWithin(c, j);
        }
      }
    }
  }

  lemma ItemRebuilt(c: Cell, i: nat, e: Cell, made: set<object>)
    requires c.CList? && i < |c.items| && Separated(c) && OtherItems(c, i, Nodes(c) - {c.list} - OfItem(c, i))
    requires Proper(e) && Nodes(e) <= OfItem(c, i) + made && made !! Nodes(c)
    requires |c.list.items| == |c.items| && c.list.items[i] == ValueOf(e)
    requires forall j | 0 <= j < |c.items| && j != i :: c.list.items[j] == ValueOf(c.items[j])
    ensures Proper(CList(c.list, c.items[i := e])) && Nodes(CList(c.list, c.items[i := e])) <= Nodes(c) + made
    ensures TreeOf(CList(c.list, c.items[i := e])) == List(TreeOf(c).items[i := TreeOf(e)])
  {
    var d := CList(c.list, c.items[i := e]);
    var region := Nodes(c) - {c.list} - OfItem(c, i);
    ItemReplaced(c, i, e);
    ItemWithin(c, i);
    forall j | 0 <= j < |d.items| ensures Holds(d.items[j], Nodes(d)) {
      ItemWithin(d, j);
      HoldsWithin(d.items[j], if j == i then Nodes(e) else region, Nodes(d));
    }
  }
}
