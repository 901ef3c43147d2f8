/**
 The values that YAML and JSON decoders produce: null, scalars, maps with string
 keys, and lists. Ids are strings or numbers; `AsString` is the
 program's normalisation of an id to its decimal or literal string.
 */
module Trees {

  datatype Option<+T> = None | Some(value: T)

  /** All error messages are collapsed to `Err`. */
  datatype Result<+T> = Err | Ok(value: T)

  datatype Scalar = Str(s: string) | Int(i: int) | Float(r: real) | Bool(b: bool)

  datatype Tree =
    | Null
    | Leaf(v: Scalar)
    | Map(m: map<string, Tree>)
    | List(items: seq<Tree>)

  function Get<K, V>(m: map<K, V>, k: K): Option<V> {
    if k in m then Some(m[k]) else None
  }

  function Digits(n: nat): string {
    (if n < 10 then [] else Digits(n / 10)) + [['0', '1', '2', '3', '4', '5', '6', '7', '8', '9'][n % 10]]
  }

  function FormatInt(i: int): string {
    if i < 0 then "-" + Digits(-i) else Digits(i)
  }

  /** Conversion of a float to an integer drops the fraction, towards zero. */
  function Truncate(r: real): int {
    if r >= 0.0 then r.Floor else -((-r).Floor)
  }

  function AsString(t: Tree): Option<string> {
    match t
    case Leaf(Str(s)) => Some(s)
    case Leaf(Int(i)) => Some(FormatInt(i))
    case Leaf(Float(r)) => Some(FormatInt(Truncate(r)))
    case _ => None
  }

  // ---------- A height, for the termination of recursion over trees ----------

  ghost function Max(s: set<nat>): (m: nat)
    ensures forall x | x in s :: x <= m
    ensures m in s || (m == 0 && s == {})
  {
    if s == {} then 0
    else
      var x :| x in s;
      var rest := Max(s - {x});
      assert s == (s - {x}) + {x};
      if x > rest then x else rest
  }

  ghost function Height(t: Tree): nat
  {
    match t
    case Map(m) => 1 + Max(set k | k in m :: Height(m[k]))
    case List(items) => 1 + Max(set i | 0 <= i < |items| :: Height(items[i]))
    case _ => 0
  }

  ghost function Heights(m: map<string, Tree>): (h: nat)
    ensures forall k | k in m :: Height(m[k]) <= h
    ensures Height(Map(m)) == h + 1
  {
    var hs := set k | k in m :: Height(m[k]);
    assert forall k | k in m :: Height(m[k]) in hs;
    Max(hs)
  }

  lemma HeightOfItem(items: seq<Tree>, i: nat)
    requires i < |items|
    ensures Height(items[i]) < Height(List(items))
  {
    var hs := set i | 0 <= i < |items| :: Height(items[i]);
    assert Height(items[i]) in hs;
  }

  /** A map whose values all occur in a list is lower than the list. */
  lemma HeightsBelow(m: map<string, Tree>, items: seq<Tree>)
    requires forall k | k in m :: m[k] in items
    ensures Heights(m) < Height(List(items))
  {
    var hs := set k | k in m :: Height(m[k]);
    if hs != {} {
      var k :| k in m && Height(m[k]) == Heights(m);
      var i :| 0 <= i < |items| && items[i] == m[k];
      HeightOfItem(items, i);
    }
  }
}
