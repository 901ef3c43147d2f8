/**
 Merging a sequence of fragments. The decoded data of a fragment is a map, or nil
 for an empty file; the result is nil while nothing was merged.
 */
module Fragments {
  import opened Trees
  import opened MergeRules
  import opened MergeFacts
  import opened Associativity
  import opened Compatibility
  import opened Equivalence

  type Fragment = t: Tree | t.Null? || t.Map? witness Null

  function MergeStep(merged: Fragment, data: Fragment, root: Rule): Result<Fragment> {
    if merged.Null? then Ok(data)
    else
      match Apply(merged, data, root)
      case Ok(t) => if t.Map? then Ok(t) else Err
      case Err => Err
  }

  function MergeAll(s: seq<Fragment>, root: Rule): Result<Fragment>
    decreases |s|
  {
    if s == [] then Ok(Null)
    else
      match MergeAll(s[..|s| - 1], root)
      case Err => Err
      case Ok(merged) => MergeStep(merged, s[|s| - 1], root)
  }

  /** The check that the merged value is a map never fails. */
  lemma StepIsApply(merged: Fragment, data: Fragment, root: Rule)
    ensures MergeStep(merged, data, root) == Apply(merged, data, root)
  {
    if Apply(merged, data, root).Ok? {
      ShapeOfMerged(merged, data, root);
    }
  }

  lemma MergeAllSnoc(s: seq<Fragment>, x: Fragment, root: Rule)
    ensures MergeAll(s + [x], root) == Merge2(MergeAll(s, root), Ok(x), root)
  {
    assert (s + [x])[..|s|] == s;
    if MergeAll(s, root).Ok? {
      StepIsApply(MergeAll(s, root).value, x, root);
    }
  }

  /** Nothing merges to nil, and one fragment to itself. */
  lemma MergeAllOfOne(x: Fragment, root: Rule)
    ensures MergeAll([], root) == Ok(Null) && MergeAll([x], root) == Ok(x)
  {
    MergeAllSnoc([], x, root);
    assert [] + [x] == [x];
  }

  /** Fragments may be merged in two halves. */
  lemma {:induction false} MergeAllConcat(s: seq<Fragment>, t: seq<Fragment>, root: Rule)
    ensures MergeAll(s + t, root) == Merge2(MergeAll(s, root), MergeAll(t, root), root)
    decreases |t|
  {
    if t == [] {
      assert s + t == s;
    } else {
      var init, last := t[..|t| - 1], t[|t| - 1];
      assert s + t == (s + init) + [last] && t == init + [last];
      MergeAllSnoc(s + init, last, root);
      MergeAllSnoc(init, last, root);
      MergeAllConcat(s, init, root);
      if MergeAll(s, root).Ok? && MergeAll(init, root).Ok? {
        MergeIsAssociative(MergeAll(s, root).value, MergeAll(init, root).value, last, root);
      }
    }
  }

  // ---------- Success is decided by pairs ----------

  ghost predicate PairwiseMergeable(s: seq<Fragment>, root: Rule) {
    forall i, j | 0 <= i < j < |s| :: Apply(s[i], s[j], root).Ok?
  }

  /** A merged prefix takes one more fragment exactly when each of its fragments does. */
  lemma {:induction false} PrefixCompatible(s: seq<Fragment>, x: Fragment, root: Rule)
    requires MergeAll(s, root).Ok?
    ensures Apply(MergeAll(s, root).value, x, root).Ok? <==> forall i | 0 <= i < |s| :: Apply(s[i], x, root).Ok?
    decreases |s|
  {
    if s != [] {
      var init, last := s[..|s| - 1], s[|s| - 1];
      assert s == init + [last];
      MergeAllSnoc(init, last, root);
      PrefixCompatible(init, x, root);
      MergedCompatible(MergeAll(init, root).value, last, x, root);
    }
  }

  /** A sequence of fragments merges if and only if every two of them do. */
  lemma {:induction false} MergesIffPairwise(s: seq<Fragment>, root: Rule)
    ensures MergeAll(s, root).Ok? <==> PairwiseMergeable(s, root)
    decreases |s|
  {
    if s != [] {
      var init, last := s[..|s| - 1], s[|s| - 1];
      assert s == init + [last];
      MergeAllSnoc(init, last, root);
      MergesIffPairwise(init, root);
      if MergeAll(init, root).Ok? {
        PrefixCompatible(init, last, root);
      } else {
        var i, j :| 0 <= i < j < |init| && !Apply(init[i], init[j], root).Ok?;
        assert !Apply(s[i], s[j], root).Ok?;
      }
    }
  }

  /** The fragments at the given positions, in the given order. */
  function Pick(s: seq<Fragment>, at: seq<nat>): seq<Fragment>
    requires forall i | i in at :: i < |s|
  {
    seq(|at|, i requires 0 <= i < |at| => assert at[i] in at; s[at[i]])
  }

  /** Any fragments out of a mergeable sequence merge, in any order. */
  lemma SelectionMerges(s: seq<Fragment>, at: seq<nat>, root: Rule)
    requires forall i | i in at :: i < |s|
    requires forall i, j | 0 <= i < j < |at| :: at[i] != at[j]
    requires MergeAll(s, root).Ok?
    ensures MergeAll(Pick(s, at), root).Ok?
  {
    MergesIffPairwise(s, root);
    MergesIffPairwise(Pick(s, at), root);
    forall i, j | 0 <= i < j < |at| ensures Apply(Pick(s, at)[i], Pick(s, at)[j], root).Ok? {
      assert at[i] in at && at[j] in at;
      if at[i] > at[j] {
        MergeIsCommutative(s[at[j]], s[at[i]], root);
      }
    }
  }

  // ---------- The order of the fragments ----------

  lemma EquivMerge2(x: Result<Tree>, x': Result<Tree>, y: Result<Tree>, y': Result<Tree>, root: Rule)
    requires EquivRes(x, x', root) && EquivRes(y, y', root)
    ensures EquivRes(Merge2(x, y, root), Merge2(x', y', root), root)
  {
    if x.Ok? && y.Ok? {
      MergeIsCongruent(x.value, x'.value, y.value, y'.value, root);
    }
  }

  lemma EquivResTransitive(x: Result<Tree>, y: Result<Tree>, z: Result<Tree>, root: Rule)
    requires EquivRes(x, y, root) && EquivRes(y, z, root)
    ensures EquivRes(x, z, root)
  {
    if x.Ok? {
      EquivTransitive(x.value, y.value, z.value, root);
    }
  }

  /** The last two of three parts may be swapped. */
  lemma SwapParts(u: seq<Fragment>, v: seq<Fragment>, w: seq<Fragment>, root: Rule)
    ensures EquivRes(MergeAll(u + v + w, root), MergeAll(u + w + v, root), root)
  {
    assert u + v + w == u + (v + w) && u + w + v == u + (w + v);
    MergeAllConcat(u, v + w, root);
    MergeAllConcat(u, w + v, root);
    MergeAllConcat(v, w, root);
    MergeAllConcat(w, v, root);
    if MergeAll(v, root).Ok? && MergeAll(w, root).Ok? {
      MergeIsCommutative(MergeAll(v, root).value, MergeAll(w, root).value, root);
    }
    EquivMerge2(MergeAll(u, root), MergeAll(u, root), MergeAll(v + w, root), MergeAll(w + v, root), root);
  }

  /** A permutation of a non-empty sequence holds its last element somewhere. */
  lemma FindLast<T>(s: seq<T>, t: seq<T>) returns (u: seq<T>, w: seq<T>)
    requires s != [] && multiset(s) == multiset(t)
    ensures t == u + [s[|s| - 1]] + w
    ensures multiset(s[..|s| - 1]) == multiset(u + w)
  {
    var init, last := s[..|s| - 1], s[|s| - 1];
    assert s == init + [last];
    assert last in multiset(t);
    var i :| 0 <= i < |t| && t[i] == last;
    u, w := t[..i], t[i + 1..];
    assert t == u + [last] + w;
    assert multiset(s) == multiset(init) + multiset{last};
    assert multiset(t) == multiset(u) + multiset{last} + multiset(w);
    assert multiset(init) == multiset(s) - multiset{last} == multiset(u) + multiset(w) == multiset(u + w);
  }

  /** Permuted fragments fail together or merge to equivalent trees. */
  lemma {:induction false} OrderIrrelevant(s: seq<Fragment>, t: seq<Fragment>, root: Rule)
    requires multiset(s) == multiset(t)
    ensures EquivRes(MergeAll(s, root), MergeAll(t, root), root)
    decreases |s|
  {
    if s == [] {
      assert |multiset(t)| == 0;
    } else {
      var init, last := s[..|s| - 1], s[|s| - 1];
      assert s == init + [last];
      var u, w := FindLast(s, t);
      OrderIrrelevant(init, u + w, root);
      MergeAllConcat(init, [last], root);
      MergeAllConcat(u + w, [last], root);
      EquivMerge2(MergeAll(init, root), MergeAll(u + w, root), MergeAll([last], root), MergeAll([last], root), root);
      SwapParts(u, w, [last], root);
      EquivResTransitive(MergeAll(s, root), MergeAll(u + w + [last], root), MergeAll(t, root), root);
    }
  }
}
