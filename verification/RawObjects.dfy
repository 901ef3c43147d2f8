/**
 Which objects a fragment holds, read off the fragment itself: a list holds an item under
 the id that its attribute normalises to, the last one when an id is repeated, and a set
 holds its objects under their keys. What is looked up, listed and indexed is this.
 */
module RawObjects {
  import opened Trees
  import opened MergeRules
  import opened Fragments
  import opened Provenance

  /** The item is an object whose id attribute normalises to `id`. */
  predicate HasId(item: Tree, idAttr: string, id: string) {
    item.Map? && idAttr in item.m && AsString(item.m[idAttr]) == Some(id)
  }

  /** The last position of a list that holds the id holds this item. */
  ghost predicate LastWithId(items: seq<Tree>, idAttr: string, id: string, item: Tree) {
    exists p :: 0 <= p < |items| && items[p] == item && HasId(items[p], idAttr, id)
                && forall q | p < q < |items| :: !HasId(items[q], idAttr, id)
  }

  /** The fragment holds `item` as the object (kind, id). */
  ghost predicate HasObject(root: Rule, data: Fragment, kind: string, id: string, item: Tree) {
    && data.Map? && kind in data.m && kind in root.children
    && ((root.children[kind].kind == ListKind && data.m[kind].List?
           && LastWithId(data.m[kind].items, root.children[kind].idAttr, id, item))
        || (root.children[kind].kind == SetKind && data.m[kind].Map?
              && id in data.m[kind].m && data.m[kind].m[id] == item && item.Map?))
  }

  ghost predicate HasSome(root: Rule, data: Fragment, kind: string, id: string) {
    exists item :: HasObject(root, data, kind, id, item)
  }

  /** The source holds an object of that kind and id. */
  ghost predicate Contributes(root: Rule, sources: map<string, Fragment>, kind: string, id: string, path: string) {
    path in sources && HasSome(root, sources[path], kind, id)
  }

  lemma {:induction false} ByIdIs(items: seq<Tree>, idAttr: string, id: string)
    ensures id in ById(items, idAttr) <==> exists p :: 0 <= p < |items| && HasId(items[p], idAttr, id)
    ensures id in ById(items, idAttr) ==> LastWithId(items, idAttr, id, ById(items, idAttr)[id])
    decreases |items|
  {
    if items != [] {
      var n, init := |items| - 1, items[..|items| - 1];
      ByIdIs(init, idAttr, id);
      if HasId(items[n], idAttr, id) {
        assert LastWithId(items, idAttr, id, items[n]);
      } else if id in ById(items, idAttr) {
        var p :| 0 <= p < |init| && init[p] == ById(init, idAttr)[id] && HasId(init[p], idAttr, id)
                 && forall q | p < q < |init| :: !HasId(init[q], idAttr, id);
        assert items[p] == init[p];
        forall q | p < q < |items| ensures !HasId(items[q], idAttr, id) {
          assert q < |init| ==> items[q] == init[q];
        }
      }
      if p :| 0 <= p < |items| && HasId(items[p], idAttr, id) {
        assert p < n ==> init[p] == items[p];
      }
    }
  }

  lemma LastIsOne(items: seq<Tree>, idAttr: string, id: string, a: Tree, b: Tree)
    requires LastWithId(items, idAttr, id, a) && LastWithId(items, idAttr, id, b)
    ensures a == b
  {}

  /** What is looked up is the object that the fragment holds, and nothing if it holds none. */
  lemma LookupIs(root: Rule, data: Fragment, kind: string, id: string)
    ensures forall item :: Lookup(root, data, kind, id) == Some(item) <==> HasObject(root, data, kind, id, item)
    ensures Lookup(root, data, kind, id).None? <==> !HasSome(root, data, kind, id)
  {
    LookupIsFind(root, data, kind, id);
    if data.Map? && kind in data.m && kind in root.children {
      var child, val := root.children[kind], data.m[kind];
      if child.kind == ListKind && val.List? {
        ByIdIs(val.items, child.idAttr, id);
        assert Objects(child, val) == Some(ById(val.items, child.idAttr));
        forall item ensures Lookup(root, data, kind, id) == Some(item) <==> HasObject(root, data, kind, id, item) {
          if LastWithId(val.items, child.idAttr, id, item) {
            LastIsOne(val.items, child.idAttr, id, item, ById(val.items, child.idAttr)[id]);
          }
        }
      }
    }
    if Lookup(root, data, kind, id).Some? {
      assert HasObject(root, data, kind, id, Lookup(root, data, kind, id).value);
    }
  }

  /** A source defines an object if and only if it holds one of that kind and id. */
  lemma DefinesIs(root: Rule, sources: map<string, Fragment>, kind: string, id: string, path: string)
    ensures Defines(root, sources, kind, id, path) <==> Contributes(root, sources, kind, id, path)
  {
    if path in sources {
      LookupIs(root, sources[path], kind, id);
    }
  }
}
