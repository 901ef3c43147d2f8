/**
 Every node of a document, but the document itself, is what the pointer to it resolves to:
 the keys on the way escaped, the positions in decimal.
 */
module Pointers {
  import opened Trees
  import opened Strings
  import opened SchemaRefs
  import opened IdStrings

  datatype Step = Key(key: string) | At(i: nat)

  /** The node that a path leads to, if it leads anywhere. */
  function NodeAt(root: Tree, path: seq<Step>): Option<Tree>
    decreases |path|
  {
    if path == [] then Some(root)
    else
      match (NodeAt(root, path[..|path| - 1]), path[|path| - 1])
      case (Some(Map(m)), Key(k)) => if k in m then Some(m[k]) else None
      case (Some(List(items)), At(i)) => if i < |items| then Some(items[i]) else None
      case _ => None
  }

  function Token(step: Step): string {
    match step
    case Key(k) => EscapeJSONPointer(k)
    case At(i) => FormatInt(i)
  }

  function Tokens(path: seq<Step>): (tokens: seq<string>)
    ensures |tokens| == |path|
  {
    seq(|path|, i requires 0 <= i < |path| => Token(path[i]))
  }

  function Pointer(path: seq<Step>): string {
    "#/" + Join(Tokens(path), '/')
  }

  lemma PlainDecimal(i: nat)
    ensures '/' !in FormatInt(i) && '~' !in FormatInt(i)
    ensures UnescapeToken(FormatInt(i)) == FormatInt(i) && Atoi(FormatInt(i)) == Some(i)
  {
    DigitsRead(i);
    FormatIntReads(i);
    UnescapePlain(FormatInt(i));
  }

  lemma TokenHasNoSlash(step: Step)
    ensures '/' !in Token(step)
  {
    match step {
      case Key(k) => EscapedHasNoSlash(k);
      case At(i) => PlainDecimal(i);
    }
  }

  lemma {:induction false} FollowsPath(root: Tree, path: seq<Step>)
    requires NodeAt(root, path).Some?
    ensures Follow(root, Tokens(path)) == NodeAt(root, path).value
    decreases |path|
  {
    hide EscapeJSONPointer, UnescapeToken, Atoi, FormatInt;
    if path != [] {
      var init, last := path[..|path| - 1], path[|path| - 1];
      assert Tokens(path)[..|path| - 1] == Tokens(init);
      FollowsPath(root, init);
      match last {
        case Key(k) => UnescapeInvertsEscape(k);
        case At(i) => PlainDecimal(i);
      }
    }
  }

  lemma PointerSplits(path: seq<Step>)
    requires path != []
    ensures |Pointer(path)| >= 2 && Pointer(path)[..2] == "#/" && Split(Pointer(path)[2..], '/') == Tokens(path)
  {
    var tokens := Tokens(path);
    forall i | 0 <= i < |tokens| ensures '/' !in tokens[i] {
      TokenHasNoSlash(path[i]);
    }
    SplitOfJoin(tokens, '/');
    assert Pointer(path)[2..] == Join(tokens, '/');
  }

  /** The pointer to a node resolves to it. */
  lemma NodeResolves(root: Tree, path: seq<Step>)
    requires path != [] && NodeAt(root, path).Some?
    ensures Resolved(root, Pointer(path)) == NodeAt(root, path).value
  {
    PointerSplits(path);
    FollowsPath(root, path);
  }

  lemma ResolvedByTokens(root: Tree, path: seq<Step>)
    requires path != []
    ensures Resolved(root, Pointer(path)) == Follow(root, Tokens(path))
  {
    PointerSplits(path);
  }

  /** The step leads nowhere: an absent key, a position beyond the end, or anything below a scalar. */
  predicate Nowhere(node: Tree, step: Step) {
    || node.Null? || node.Leaf?
    || (node.Map? && step.Key? && step.key !in node.m)
    || (node.List? && step.At? && step.i >= |node.items|)
  }

  /** A pointer with such a step resolves to nothing. */
  lemma NothingResolves(root: Tree, path: seq<Step>, n: nat)
    requires n < |path| && NodeAt(root, path[..n]).Some? && Nowhere(NodeAt(root, path[..n]).value, path[n])
    ensures Resolved(root, Pointer(path)).Null?
  {
    hide Pointer, Resolved;
    ResolvedByTokens(root, path);
    FollowsPath(root, path[..n]);
    assert Tokens(path)[..n] == Tokens(path[..n]);
    match path[n] {
      case Key(k) => UnescapeInvertsEscape(k);
      case At(i) => PlainDecimal(i);
    }
    FollowStep(root, Tokens(path), n);
    FollowNull(root, Tokens(path), n + 1);
  }
}
