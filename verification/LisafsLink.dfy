/** The tree of pkg/lisafs and its reference counts, side by side: the nodes are
    the same, and each holds a reference on its parent. */
module LisafsLink {
  import opened Options
  import opened LisafsTree
  import opened LisafsServer
  import Refs = LisafsRefs

  ghost predicate SameNodes(t: Tree, w: Refs.World) {
    && t.root == w.root
    && (forall n :: n in t.nodes <==> n in w.objs && w.objs[n].kind == Refs.NodeKind)
    && (forall n <- t.nodes :: w.objs[n].target == t.nodes[n].parent)
  }

  /** A node whose last reference is given back has no children and is not the
      root. */
  lemma LastReferenceIsChildless(t: Tree, w: Refs.World, n: Id)
    requires SameNodes(t, w) && Refs.Inv(w) && n in t.nodes && n in w.temps && w.objs[n].refs == 1
    ensures n != t.root && Childless(t, n)
  {
    Refs.LastInHand(w, n);
    forall m <- t.nodes
      ensures t.nodes[m].parent != Some(n)
    {
      assert m !in Refs.Holders(w, n);
    }
  }

  /** Destroying a node with its last reference always keeps the counts right and
      the nodes the same, and keeps the tree exactly if no other live node has
      taken its name. */
  lemma LastReferenceDestroys(t: Tree, w: Refs.World, n: Id)
    requires TreeInv(t, {}) && SameNodes(t, w) && Refs.Inv(w) && n in t.nodes && n in w.temps && w.objs[n].refs == 1
    ensures n != t.root && HasParent(t, n) && w.objs[n].target.Some?
    ensures Refs.Inv(Refs.Destroyed(w, n)) && SameNodes(Destroyed(t, n), Refs.Destroyed(w, n))
    ensures TreeInv(Destroyed(t, n), {}) <==> !NameReused(t, n)
  {
    LastReferenceIsChildless(t, w, n);
    assert HasParent(t, n);
    DestroyKeepsIffNameFree(t, n);
    Refs.DestroyedKeeps(w, n);
    DestroyedKeys(t, n);
    forall m <- Destroyed(t, n).nodes
      ensures Destroyed(t, n).nodes[m].parent == t.nodes[m].parent
    {
      DestroyedRecord(t, n, m);
    }
  }

  /** Moving a node in the tree and moving its reference keep the two together. */
  lemma MoveMovesReference(t: Tree, w: Refs.World, x: Id, d: Id, k: Name)
    requires Rooted(t) && Movable(t, x, d, k) && SameNodes(t, w) && Refs.Shaped(w)
    requires w.objs[x].target.Some? && w.objs[x].target.value in w.objs && w.objs[w.objs[x].target.value].refs > 0
    ensures SameNodes(Move(t, x, d, k), Refs.Moved(w, x, d))
  {
    Refs.MovedObjs(w, x, d);
    MoveParents(t, x, d, k);
    hide Rooted;
    hide Movable;
    hide Move;
    hide Refs.Shaped;
    hide Refs.Moved;
  }

  lemma MoveParents(t: Tree, x: Id, d: Id, k: Name)
    requires Rooted(t) && Movable(t, x, d, k)
    ensures x in t.nodes && d in t.nodes
    ensures var t' := Move(t, x, d, k);
            && t'.root == t.root && t'.nodes.Keys == t.nodes.Keys
            && forall n <- t.nodes :: t'.nodes[n].parent == if n == x then Some(d) else t.nodes[n].parent
  {
    hide Rooted;
    assert x != d;
    hide Under;
  }
}
