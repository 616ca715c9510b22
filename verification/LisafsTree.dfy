/** The node tree of pkg/lisafs: nodes know their parent and their name in it,
    and each node has a table of children by name. Unlinked nodes leave the
    table but keep their parent. */
module LisafsTree {
  import opened Options

  type Name = string
  type Id = nat

  datatype Node = Node(name: Name, parent: Option<Id>, deleted: bool, children: map<Name, Id>)

  /** All live nodes. depth is the number of steps up to the root; it is there
      for the proofs only. */
  datatype Tree = Tree(nodes: map<Id, Node>, root: Id, depth: map<Id, nat>)

  // ---------------------------------------------------------------------
  // The invariant
  // ---------------------------------------------------------------------

  /** Every node leads up to the root. */
  ghost predicate Rooted(t: Tree) {
    && t.root in t.nodes && t.nodes[t.root].parent == None && !t.nodes[t.root].deleted
    && t.depth.Keys == t.nodes.Keys && t.depth[t.root] == 0
    && forall n <- t.nodes :: n != t.root ==> HasParent(t, n)
  }

  ghost predicate HasParent(t: Tree, n: Id)
    requires n in t.nodes && t.depth.Keys == t.nodes.Keys
  {
    && t.nodes[n].parent.Some? && t.nodes[n].parent.value in t.nodes
    && t.depth[n] == t.depth[t.nodes[n].parent.value] + 1
  }

  function Parent(t: Tree, n: Id): Id
    requires n in t.nodes && t.nodes[n].parent.Some?
  {
    t.nodes[n].parent.value
  }

  /** The parent's table leads back to n. */
  predicate Linked(t: Tree, n: Id)
    requires n in t.nodes && t.nodes[n].parent.Some? && Parent(t, n) in t.nodes
  {
    var table := t.nodes[Parent(t, n)].children;
    t.nodes[n].name in table && table[t.nodes[n].name] == n
  }

  /** Tables lead to nodes that know this parent and this name. */
  ghost predicate TablesAgree(t: Tree) {
    forall p <- t.nodes :: forall k <- t.nodes[p].children :: EntryAgrees(t, p, k)
  }

  predicate EntryAgrees(t: Tree, p: Id, k: Name)
    requires p in t.nodes && k in t.nodes[p].children
  {
    var c := t.nodes[p].children[k];
    c in t.nodes && c != t.root && t.nodes[c].parent == Some(p) && t.nodes[c].name == k
  }

  /** Apart from the loose nodes, a node that is not deleted is in the table of
      its parent, which is not deleted either. */
  ghost predicate LiveLinked(t: Tree, loose: set<Id>)
    requires Rooted(t)
  {
    forall n <- t.nodes :: n != t.root && !t.nodes[n].deleted && n !in loose ==> LinkedLive(t, n)
  }

  predicate LinkedLive(t: Tree, n: Id)
    requires n in t.nodes && t.nodes[n].parent.Some? && Parent(t, n) in t.nodes
  {
    Linked(t, n) && !t.nodes[Parent(t, n)].deleted
  }

  ghost predicate TreeInv(t: Tree, loose: set<Id>) {
    Rooted(t) && TablesAgree(t) && LiveLinked(t, loose)
  }

  // ---------------------------------------------------------------------
  // Paths
  // ---------------------------------------------------------------------

  /** The names from the root down to n. */
  ghost function Path(t: Tree, n: Id): seq<Name>
    requires Rooted(t) && n in t.nodes
    decreases t.depth[n]
  {
    if n == t.root then []
    else
      assert HasParent(t, n);
      Path(t, Parent(t, n)) + [t.nodes[n].name]
  }

  /** x is n or above it. */
  ghost predicate Under(t: Tree, n: Id, x: Id)
    requires Rooted(t) && n in t.nodes
    decreases t.depth[n]
  {
    n == x ||
    (n != t.root && (assert HasParent(t, n); Under(t, Parent(t, n), x)))
  }

  /** The names from x down to n. */
  ghost function Below(t: Tree, n: Id, x: Id): seq<Name>
    requires Rooted(t) && n in t.nodes && Under(t, n, x)
    decreases t.depth[n]
  {
    if n == x then []
    else
      assert HasParent(t, n);
      Below(t, Parent(t, n), x) + [t.nodes[n].name]
  }

  lemma {:induction false} PathSplits(t: Tree, n: Id, x: Id)
    requires Rooted(t) && n in t.nodes && x in t.nodes && Under(t, n, x)
    ensures Path(t, n) == Path(t, x) + Below(t, n, x)
    decreases t.depth[n]
  {
    if n != x {
      assert HasParent(t, n);
      PathSplits(t, Parent(t, n), x);
    }
  }

  lemma {:induction false} UnderIsDeeper(t: Tree, n: Id, x: Id)
    requires Rooted(t) && n in t.nodes && Under(t, n, x)
    ensures x in t.nodes && t.depth[x] <= t.depth[n] && (t.depth[x] == t.depth[n] ==> n == x)
    decreases t.depth[n]
  {
    if n != x {
      assert HasParent(t, n);
      UnderIsDeeper(t, Parent(t, n), x);
    }
  }

  /** Two nodes that are not deleted never have the same path. */
  lemma {:induction false} PathsAreUnique(t: Tree, n: Id, m: Id)
    requires TreeInv(t, {}) && n in t.nodes && m in t.nodes
    requires !t.nodes[n].deleted && !t.nodes[m].deleted && Path(t, n) == Path(t, m)
    ensures n == m
    decreases t.depth[n]
  {
    if n != t.root && m != t.root {
      assert HasParent(t, n) && HasParent(t, m);
      assert LinkedLive(t, n) && LinkedLive(t, m);
      var p, q := Path(t, Parent(t, n)), Path(t, Parent(t, m));
      assert p == Path(t, n)[..|p|] && q == Path(t, m)[..|q|];
      PathsAreUnique(t, Parent(t, n), Parent(t, m));
    } else {
      assert |Path(t, n)| == |Path(t, m)|;
    }
  }

  // ---------------------------------------------------------------------
  // Steps that move no node
  // ---------------------------------------------------------------------

  /** The same nodes with the same names and parents. */
  ghost predicate SameShape(t: Tree, t': Tree) {
    && t'.nodes.Keys == t.nodes.Keys && t'.root == t.root && t'.depth == t.depth
    && forall n <- t.nodes :: t'.nodes[n].name == t.nodes[n].name && t'.nodes[n].parent == t.nodes[n].parent
  }

  lemma {:induction false} SameShapeSamePath(t: Tree, t': Tree, n: Id, x: Id)
    requires Rooted(t) && Rooted(t') && SameShape(t, t') && n in t.nodes
    ensures Path(t', n) == Path(t, n)
    ensures Under(t', n, x) == Under(t, n, x)
    ensures Under(t, n, x) ==> Below(t', n, x) == Below(t, n, x)
    decreases t.depth[n]
  {
    if n != t.root {
      assert HasParent(t, n) && HasParent(t', n);
      SameShapeSamePath(t, t', Parent(t, n), x);
    }
  }

  function Child(t: Tree, d: Id, k: Name): Option<Id>
    requires d in t.nodes
  {
    if k in t.nodes[d].children then Some(t.nodes[d].children[k]) else None
  }

  ghost function Ids(o: Option<Id>): set<Id> {
    if o.Some? then {o.value} else {}
  }

  /** removeChildLocked. */
  function Detach(t: Tree, d: Id, k: Name): Tree
    requires d in t.nodes
  {
    t.(nodes := t.nodes[d := t.nodes[d].(children := t.nodes[d].children - {k})])
  }

  lemma DetachKeeps(t: Tree, loose: set<Id>, d: Id, k: Name)
    requires TreeInv(t, loose) && d in t.nodes
    ensures TreeInv(Detach(t, d, k), loose + Ids(Child(t, d, k))) && SameShape(t, Detach(t, d, k))
  {
    var t' := Detach(t, d, k);
    forall n <- t'.nodes | n != t'.root
      ensures HasParent(t', n)
    {
      assert HasParent(t, n);
    }
    forall p <- t'.nodes, k' <- t'.nodes[p].children
      ensures EntryAgrees(t', p, k')
    {
      assert EntryAgrees(t, p, k');
    }
    forall n <- t'.nodes | n != t'.root && !t'.nodes[n].deleted && n !in loose + Ids(Child(t, d, k))
      ensures LinkedLive(t', n)
    {
      assert HasParent(t, n) && LinkedLive(t, n);
    }
  }

  /** The whole subtree of x is deleted. */
  ghost function Buried(t: Tree, x: Id): Tree
    requires Rooted(t)
  {
    t.(nodes := map n <- t.nodes :: if Under(t, n, x) then t.nodes[n].(deleted := true) else t.nodes[n])
  }

  lemma BuriedShape(t: Tree, x: Id)
    requires Rooted(t)
    ensures SameShape(t, Buried(t, x))
  {
    hide Under;
  }

  lemma BuriedKeeps(t: Tree, loose: set<Id>, x: Id)
    requires TreeInv(t, loose) && x in t.nodes && x != t.root
    ensures TreeInv(Buried(t, x), loose - {x}) && SameShape(t, Buried(t, x))
  {
    var t' := Buried(t, x);
    assert !Under(t, t.root, x);
    forall n <- t'.nodes | n != t'.root
      ensures HasParent(t', n)
    {
      assert HasParent(t, n);
    }
    forall p <- t'.nodes, k <- t'.nodes[p].children
      ensures EntryAgrees(t', p, k)
    {
      assert EntryAgrees(t, p, k);
    }
    forall n <- t'.nodes | n != t'.root && !t'.nodes[n].deleted && n !in loose - {x}
      ensures LinkedLive(t', n)
    {
      assert HasParent(t, n) && !Under(t, n, x) && !Under(t, Parent(t, n), x);
      assert LinkedLive(t, n);
    }
  }

  // ---------------------------------------------------------------------
  // Moving a subtree
  // ---------------------------------------------------------------------

  ghost predicate Movable(t: Tree, x: Id, d: Id, k: Name)
    requires Rooted(t)
  {
    && x in t.nodes && x != t.root && d in t.nodes && !Under(t, d, x)
    && k !in t.nodes[d].children
    && HasParent(t, x) && !Linked(t, x)
  }

  /** x becomes the child of d named k, with everything below it. */
  ghost function Move(t: Tree, x: Id, d: Id, k: Name): Tree
    requires Rooted(t) && Movable(t, x, d, k)
  {
    var moved := t.nodes[x].(name := k, parent := Some(d));
    var home := t.nodes[d].(children := t.nodes[d].children[k := x]);
    Tree(t.nodes[x := moved][d := home], t.root,
         map n <- t.nodes :: if Under(t, n, x) then Deeper(t, n, x) - t.depth[x] + t.depth[d] + 1 else t.depth[n])
  }

  /** The depth of n, which is at least that of x. */
  ghost function Deeper(t: Tree, n: Id, x: Id): (r: nat)
    requires Rooted(t) && n in t.nodes && Under(t, n, x)
    ensures x in t.nodes && r >= t.depth[x]
  {
    UnderIsDeeper(t, n, x);
    t.depth[n]
  }

  lemma MoveRooted(t: Tree, x: Id, d: Id, k: Name)
    requires Rooted(t) && Movable(t, x, d, k)
    ensures Rooted(Move(t, x, d, k))
  {
    var t' := Move(t, x, d, k);
    assert !Under(t, t.root, x);
    forall n <- t'.nodes | n != t'.root
      ensures HasParent(t', n)
    {
      assert HasParent(t, n);
    }
  }

  lemma MoveTables(t: Tree, x: Id, d: Id, k: Name)
    requires Rooted(t) && TablesAgree(t) && Movable(t, x, d, k)
    ensures TablesAgree(Move(t, x, d, k))
  {
    var t' := Move(t, x, d, k);
    assert d != x;
    forall p <- t'.nodes, k' <- t'.nodes[p].children
      ensures EntryAgrees(t', p, k')
    {
      if p != d || k' != k {
        assert k' in t.nodes[p].children && EntryAgrees(t, p, k');
        assert t.nodes[p].children[k'] != x;
      }
    }
  }

  lemma MoveLinked(t: Tree, x: Id, d: Id, k: Name, n: Id)
    requires Rooted(t) && Movable(t, x, d, k) && !t.nodes[d].deleted
    requires n in t.nodes && n != t.root && (n == x || (HasParent(t, n) && LinkedLive(t, n)))
    ensures HasParent(Move(t, x, d, k), n) && LinkedLive(Move(t, x, d, k), n)
  {
    MoveRooted(t, x, d, k);
  }

  lemma MoveKeeps(t: Tree, loose: set<Id>, x: Id, d: Id, k: Name)
    requires TreeInv(t, loose) && Movable(t, x, d, k) && !t.nodes[d].deleted
    ensures TreeInv(Move(t, x, d, k), loose - {x})
  {
    hide TablesAgree;
    hide LinkedLive;
    var t' := Move(t, x, d, k);
    MoveRooted(t, x, d, k);
    MoveTables(t, x, d, k);
    forall n <- t'.nodes | n != t'.root && !t'.nodes[n].deleted && n !in loose - {x}
      ensures LinkedLive(t', n)
    {
      MoveLinked(t, x, d, k, n);
    }
  }

  lemma {:induction false} MovePath(t: Tree, x: Id, d: Id, k: Name, n: Id)
    requires Rooted(t) && Movable(t, x, d, k) && n in t.nodes
    ensures Rooted(Move(t, x, d, k))
    ensures Path(Move(t, x, d, k), n) == if Under(t, n, x) then Path(t, d) + [k] + Below(t, n, x) else Path(t, n)
    decreases if Under(t, n, x) then 1 else 0, t.depth[n]
  {
    var t' := Move(t, x, d, k);
    MoveRooted(t, x, d, k);
    if n == x {
      MovePath(t, x, d, k, d);
    } else if n != t.root {
      assert HasParent(t, n) && HasParent(t', n);
      MovePath(t, x, d, k, Parent(t, n));
    }
  }

  lemma {:induction false} Comparable(t: Tree, n: Id, x: Id, y: Id)
    requires Rooted(t) && n in t.nodes && Under(t, n, x) && Under(t, n, y)
    ensures x in t.nodes && y in t.nodes && (Under(t, x, y) || Under(t, y, x))
    decreases t.depth[n]
  {
    UnderIsDeeper(t, n, x);
    UnderIsDeeper(t, n, y);
    if n != x && n != y {
      assert HasParent(t, n);
      Comparable(t, Parent(t, n), x, y);
    }
  }

  /** Moving y changes nothing about what is under x, if y's subtree and its new
      place have nothing to do with x. */
  lemma {:induction false} MoveAside(t: Tree, y: Id, d: Id, k: Name, x: Id, n: Id)
    requires Rooted(t) && Movable(t, y, d, k) && n in t.nodes && x in t.nodes
    requires !Under(t, x, y) && !Under(t, y, x) && !Under(t, d, x)
    ensures Rooted(Move(t, y, d, k))
    ensures Under(Move(t, y, d, k), n, x) == Under(t, n, x)
    ensures Under(t, n, x) ==> !Under(t, n, y) && Below(Move(t, y, d, k), n, x) == Below(t, n, x)
    decreases if Under(t, n, y) then 1 else 0, t.depth[n]
  {
    var t' := Move(t, y, d, k);
    MoveRooted(t, y, d, k);
    if Under(t, n, x) && Under(t, n, y) { Comparable(t, n, x, y); }
    if n == y {
      MoveAside(t, y, d, k, x, d);
    } else if n != t.root && n != x {
      assert HasParent(t, n) && HasParent(t', n);
      MoveAside(t, y, d, k, x, Parent(t, n));
    }
  }

  // ---------------------------------------------------------------------
  // Rename
  // ---------------------------------------------------------------------

  datatype Rename = Rename(oldDir: Id, oldName: Name, newDir: Id, newName: Name, exchange: bool)

  /** What the host allows: a rename neither into the renamed node's own subtree
      nor out of that of the node it replaces. */
  ghost predicate Allowed(t: Tree, r: Rename)
    requires Rooted(t)
  {
    && r.oldDir in t.nodes && r.newDir in t.nodes
    && !t.nodes[r.oldDir].deleted && !t.nodes[r.newDir].deleted
    && (r.oldDir != r.newDir || r.oldName != r.newName)
    && (forall x <- Ids(Child(t, r.oldDir, r.oldName)) :: !Under(t, r.newDir, x))
    && (forall y <- Ids(Child(t, r.newDir, r.newName)) :: !Under(t, r.oldDir, y))
  }

  /** Both names leave their tables. */
  ghost function BothDetached(t: Tree, r: Rename): Tree
    requires r.oldDir in t.nodes && r.newDir in t.nodes
  {
    Detach(Detach(t, r.newDir, r.newName), r.oldDir, r.oldName)
  }

  lemma BothDetachedKeeps(t: Tree, r: Rename)
    requires TreeInv(t, {}) && Allowed(t, r)
    ensures var t' := BothDetached(t, r);
            && TreeInv(t', Ids(Child(t, r.oldDir, r.oldName)) + Ids(Child(t, r.newDir, r.newName))) && SameShape(t, t')
            && (forall n <- t.nodes :: t'.nodes[n].deleted == t.nodes[n].deleted)
            && Child(Detach(t, r.newDir, r.newName), r.oldDir, r.oldName) == Child(t, r.oldDir, r.oldName)
            && r.oldName !in t'.nodes[r.oldDir].children && r.newName !in t'.nodes[r.newDir].children
  {
    hide TreeInv;
    DetachKeeps(t, {}, r.newDir, r.newName);
    assert {} + Ids(Child(t, r.newDir, r.newName)) == Ids(Child(t, r.newDir, r.newName));
    DetachKeeps(Detach(t, r.newDir, r.newName), Ids(Child(t, r.newDir, r.newName)), r.oldDir, r.oldName);
    assert Ids(Child(t, r.newDir, r.newName)) + Ids(Child(t, r.oldDir, r.oldName))
        == Ids(Child(t, r.oldDir, r.oldName)) + Ids(Child(t, r.newDir, r.newName));
  }

  /** A child found in a table: it is not above its directory, and it is under
      another node only with its directory. */
  lemma ChildFacts(t: Tree, d: Id, k: Name, c: Id, z: Id)
    requires Rooted(t) && TablesAgree(t) && d in t.nodes && Child(t, d, k) == Some(c)
    ensures c in t.nodes && c != t.root && HasParent(t, c) && Parent(t, c) == d && t.nodes[c].name == k
    ensures !Under(t, d, c) && (Under(t, c, z) <==> c == z || Under(t, d, z))
  {
    assert EntryAgrees(t, d, k);
    if Under(t, d, c) { UnderIsDeeper(t, d, c); }
  }

  /** The node that is replaced moves to the old place or is deleted. */
  ghost function Displace(t: Tree, r: Rename, y: Option<Id>): Tree
    requires Rooted(t) && (r.exchange && y.Some? ==> Movable(t, y.value, r.oldDir, r.oldName))
  {
    if y.None? then t else if r.exchange then Move(t, y.value, r.oldDir, r.oldName) else Buried(t, y.value)
  }

  ghost function Place(t: Tree, r: Rename, x: Option<Id>): Tree
    requires Rooted(t) && (x.Some? ==> Movable(t, x.value, r.newDir, r.newName))
  {
    if x.None? then t else Move(t, x.value, r.newDir, r.newName)
  }

  lemma DetachedMovable(t: Tree, r: Rename, y: Id)
    requires TreeInv(t, {}) && Allowed(t, r) && Child(t, r.newDir, r.newName) == Some(y)
    ensures Rooted(BothDetached(t, r)) && Movable(BothDetached(t, r), y, r.oldDir, r.oldName)
  {
    var t2 := BothDetached(t, r);
    BothDetachedKeeps(t, r);
    ChildFacts(t, r.newDir, r.newName, y, y);
    assert HasParent(t2, y);
    SameShapeSamePath(t, t2, r.oldDir, y);
  }

  /** The new place is free and live, and the renamed node is still loose. */
  predicate Vacated(t3: Tree, r: Rename, x: Option<Id>) {
    && r.newDir in t3.nodes && r.oldDir in t3.nodes
    && !t3.nodes[r.newDir].deleted && r.newName !in t3.nodes[r.newDir].children
    && (x.Some? ==>
          && x.value in t3.nodes && x.value != t3.root
          && t3.nodes[x.value].parent == Some(r.oldDir) && t3.nodes[x.value].name == r.oldName
          && Child(t3, r.oldDir, r.oldName) != x)
  }

  /** After the replaced node is out of the way. */
  ghost predicate Displaced(t: Tree, r: Rename, t3: Tree)
    requires r.oldDir in t.nodes
  {
    var x := Child(t, r.oldDir, r.oldName);
    TreeInv(t3, Ids(x)) && t3.root == t.root && t3.nodes.Keys == t.nodes.Keys && Vacated(t3, r, x)
  }

  lemma DetachedVacated(t: Tree, r: Rename)
    requires TreeInv(t, {}) && Allowed(t, r)
    ensures Vacated(BothDetached(t, r), r, Child(t, r.oldDir, r.oldName))
  {
    hide LiveLinked;
    hide Under;
    var x := Child(t, r.oldDir, r.oldName);
    BothDetachedKeeps(t, r);
    if x.Some? { ChildFacts(t, r.oldDir, r.oldName, x.value, x.value); }
  }

  lemma MoveVacated(t: Tree, r: Rename, x: Option<Id>, y: Id)
    requires Rooted(t) && Movable(t, y, r.oldDir, r.oldName) && Vacated(t, r, x) && x != Some(y) && y != r.newDir
    requires r.oldDir != r.newDir || r.oldName != r.newName
    ensures Vacated(Move(t, y, r.oldDir, r.oldName), r, x)
  {
    hide Rooted;
  }

  lemma DisplaceExchange(t: Tree, r: Rename, y: Id)
    requires TreeInv(t, {}) && Allowed(t, r) && r.exchange && Child(t, r.newDir, r.newName) == Some(y)
    ensures Rooted(BothDetached(t, r)) && Movable(BothDetached(t, r), y, r.oldDir, r.oldName)
    ensures Displaced(t, r, Move(BothDetached(t, r), y, r.oldDir, r.oldName))
  {
    hide TablesAgree;
    hide LiveLinked;
    hide Under;
    hide Vacated;
    var x := Child(t, r.oldDir, r.oldName);
    if x.Some? { ChildFacts(t, r.oldDir, r.oldName, x.value, y); }
    ChildFacts(t, r.newDir, r.newName, y, y);
    assert Ids(x) + Ids(Some(y)) - {y} == Ids(x);
    BothDetachedKeeps(t, r);
    DetachedMovable(t, r, y);
    DetachedVacated(t, r);
    MoveVacated(BothDetached(t, r), r, x, y);
    MoveKeeps(BothDetached(t, r), Ids(x) + Ids(Some(y)), y, r.oldDir, r.oldName);
  }

  lemma DisplaceBuried(t: Tree, r: Rename, y: Id)
    requires TreeInv(t, {}) && Allowed(t, r) && Child(t, r.newDir, r.newName) == Some(y)
    ensures Rooted(BothDetached(t, r)) && Displaced(t, r, Buried(BothDetached(t, r), y))
  {
    hide TablesAgree;
    hide LiveLinked;
    hide Under;
    var t2 := BothDetached(t, r);
    var x := Child(t, r.oldDir, r.oldName);
    if x.Some? { ChildFacts(t, r.oldDir, r.oldName, x.value, y); }
    ChildFacts(t, r.newDir, r.newName, y, y);
    assert Ids(x) + Ids(Some(y)) - {y} == Ids(x);
    BothDetachedKeeps(t, r);
    DetachedVacated(t, r);
    SameShapeSamePath(t, t2, r.newDir, y);
    BuriedKeeps(t2, Ids(x) + Ids(Some(y)), y);
  }

  ghost function Replaced(t: Tree, r: Rename): Option<Id>
    requires r.newDir in t.nodes
  {
    Child(t, r.newDir, r.newName)
  }

  ghost predicate UnderAny(t: Tree, n: Id, o: Option<Id>)
    requires Rooted(t) && n in t.nodes
  {
    o.Some? && Under(t, n, o.value)
  }

  /** The tree with the replaced node out of the way. */
  ghost function Cleared(t: Tree, r: Rename): Tree
    requires TreeInv(t, {}) && Allowed(t, r)
  {
    BothDetachedKeeps(t, r);
    var y := Replaced(t, r);
    assert y.Some? ==> Movable(BothDetached(t, r), y.value, r.oldDir, r.oldName) by {
      if y.Some? { DetachedMovable(t, r, y.value); }
    }
    Displace(BothDetached(t, r), r, y)
  }

  lemma ClearedIsDisplaced(t: Tree, r: Rename)
    requires TreeInv(t, {}) && Allowed(t, r)
    ensures Displaced(t, r, Cleared(t, r))
  {
    hide TreeInv;
    hide Vacated;
    var y := Replaced(t, r);
    BothDetachedKeeps(t, r);
    if y.None? {
      DetachedVacated(t, r);
      assert Ids(Child(t, r.oldDir, r.oldName)) + {} == Ids(Child(t, r.oldDir, r.oldName));
    } else if r.exchange {
      DisplaceExchange(t, r, y.value);
    } else {
      DisplaceBuried(t, r, y.value);
    }
  }

  lemma ClearedDeleted(t: Tree, r: Rename, n: Id)
    requires TreeInv(t, {}) && Allowed(t, r) && n in t.nodes
    ensures var t3 := Cleared(t, r);
            n in t3.nodes
            && t3.nodes[n].deleted == (t.nodes[n].deleted || (!r.exchange && UnderAny(t, n, Replaced(t, r))))
  {
    hide TablesAgree;
    hide LiveLinked;
    var t2 := BothDetached(t, r);
    var y := Replaced(t, r);
    BothDetachedKeeps(t, r);
    if y.Some? { SameShapeSamePath(t, t2, n, y.value); }
  }

  lemma ClearedPath(t: Tree, r: Rename, n: Id)
    requires TreeInv(t, {}) && Allowed(t, r) && n in t.nodes
    ensures var t3, y := Cleared(t, r), Replaced(t, r);
            Rooted(t3) && n in t3.nodes &&
            Path(t3, n) == if r.exchange && UnderAny(t, n, y) then
              Path(t, r.oldDir) + [r.oldName] + Below(t, n, y.value)
                           else Path(t, n)
  {
    hide TablesAgree;
    hide LiveLinked;
    hide Vacated;
    var t2 := BothDetached(t, r);
    var y := Replaced(t, r);
    BothDetachedKeeps(t, r);
    ClearedIsDisplaced(t, r);
    if y.None? {
      SameShapeSamePath(t, t2, n, n);
    } else {
      SameShapeSamePath(t, t2, n, y.value);
      SameShapeSamePath(t, t2, r.oldDir, y.value);
      if r.exchange {
        DetachedMovable(t, r, y.value);
        MovePath(t2, y.value, r.oldDir, r.oldName, n);
      } else {
        BuriedShape(t2, y.value);
        SameShapeSamePath(t2, Cleared(t, r), n, y.value);
      }
    }
  }

  lemma ClearedUnder(t: Tree, r: Rename, x: Id, n: Id)
    requires TreeInv(t, {}) && Allowed(t, r) && n in t.nodes && Child(t, r.oldDir, r.oldName) == Some(x)
    ensures var t3 := Cleared(t, r);
            && Rooted(t3) && n in t3.nodes && Under(t3, n, x) == Under(t, n, x)
            && (Under(t, n, x) ==> !UnderAny(t, n, Replaced(t, r)) && Below(t3, n, x) == Below(t, n, x))
  {
    hide TablesAgree;
    hide LiveLinked;
    hide Vacated;
    hide Under;
    hide Below;
    var t2 := BothDetached(t, r);
    var y := Replaced(t, r);
    BothDetachedKeeps(t, r);
    ClearedIsDisplaced(t, r);
    SameShapeSamePath(t, t2, n, x);
    if y.Some? {
      Unrelated(t, r, x, y.value, n);
      if r.exchange {
        DetachedMovable(t, r, y.value);
        SameShapeSamePath(t, t2, x, y.value);
        SameShapeSamePath(t, t2, y.value, x);
        SameShapeSamePath(t, t2, r.oldDir, x);
        MoveAside(t2, y.value, r.oldDir, r.oldName, x, n);
      } else {
        BuriedShape(t2, y.value);
        SameShapeSamePath(t2, Cleared(t, r), n, x);
      }
    }
  }

  /** The renamed and the replaced subtree are disjoint. */
  lemma Unrelated(t: Tree, r: Rename, x: Id, y: Id, n: Id)
    requires TreeInv(t, {}) && Allowed(t, r) && n in t.nodes
    requires Child(t, r.oldDir, r.oldName) == Some(x) && Replaced(t, r) == Some(y)
    ensures x in t.nodes && y in t.nodes && !Under(t, x, y) && !Under(t, y, x) && !Under(t, r.oldDir, x)
    ensures !(Under(t, n, x) && Under(t, n, y))
  {
    hide LiveLinked;
    ChildFacts(t, r.oldDir, r.oldName, x, y);
    ChildFacts(t, r.newDir, r.newName, y, x);
    if Under(t, n, x) && Under(t, n, y) { Comparable(t, n, x, y); }
  }

  /** The tree after the rename. */
  ghost function Renamed(t: Tree, r: Rename): Tree
    requires TreeInv(t, {}) && Allowed(t, r)
  {
    var x := Child(t, r.oldDir, r.oldName);
    assert Rooted(Cleared(t, r)) by { ClearedIsDisplaced(t, r); }
    assert x.Some? ==> Movable(Cleared(t, r), x.value, r.newDir, r.newName) by {
      if x.Some? { PlaceMovable(t, r, x.value); }
    }
    Place(Cleared(t, r), r, x)
  }

  lemma PlaceMovable(t: Tree, r: Rename, x: Id)
    requires TreeInv(t, {}) && Allowed(t, r) && Child(t, r.oldDir, r.oldName) == Some(x)
    ensures Rooted(Cleared(t, r)) && Movable(Cleared(t, r), x, r.newDir, r.newName)
  {
    hide TablesAgree;
    hide LiveLinked;
    hide Under;
    ClearedIsDisplaced(t, r);
    ClearedUnder(t, r, x, r.newDir);
    assert HasParent(Cleared(t, r), x);
  }

  lemma RenameDeleted(t: Tree, r: Rename, n: Id)
    requires TreeInv(t, {}) && Allowed(t, r) && n in t.nodes
    ensures var t' := Renamed(t, r);
            && t'.nodes.Keys == t.nodes.Keys
            && t'.nodes[n].deleted == (t.nodes[n].deleted || (!r.exchange && UnderAny(t, n, Replaced(t, r))))
  {
    hide TreeInv;
    hide Vacated;
    hide Cleared;
    ClearedIsDisplaced(t, r);
    ClearedDeleted(t, r, n);
    var x := Child(t, r.oldDir, r.oldName);
    if x.Some? { PlaceMovable(t, r, x.value); }
  }

  lemma RenamePath(t: Tree, r: Rename, n: Id)
    requires TreeInv(t, {}) && Allowed(t, r) && n in t.nodes
    ensures var t', x, y := Renamed(t, r), Child(t, r.oldDir, r.oldName), Replaced(t, r);
            && Rooted(t') && n in t'.nodes
            && Path(t', n) == if UnderAny(t, n, x) then Path(t, r.newDir) + [r.newName] + Below(t, n, x.value)
                              else if r.exchange && UnderAny(t, n, y) then
                                Path(t, r.oldDir) + [r.oldName] + Below(t, n, y.value)
                              else Path(t, n)
  {
    hide TreeInv;
    hide Cleared;
    hide Under;
    hide Below;
    hide Path;
    hide Move;
    hide Movable;
    hide Rooted;
    var x, y := Child(t, r.oldDir, r.oldName), Replaced(t, r);
    ClearedIsDisplaced(t, r);
    ClearedPath(t, r, n);
    RenameDeleted(t, r, n);
    if x.Some? {
      PlaceMovable(t, r, x.value);
      ClearedPath(t, r, r.newDir);
      ClearedUnder(t, r, x.value, n);
      NewDirStays(t, r);
      MovePath(Cleared(t, r), x.value, r.newDir, r.newName, n);
    }
  }

  lemma NewDirStays(t: Tree, r: Rename)
    requires TreeInv(t, {}) && Allowed(t, r)
    ensures !UnderAny(t, r.newDir, Replaced(t, r))
  {
    var y := Replaced(t, r);
    if y.Some? { ChildFacts(t, r.newDir, r.newName, y.value, y.value); }
  }

  /** A rename or exchange keeps the invariant, replaces exactly the prefix of
      every path in each moved subtree, deletes exactly the replaced subtree if
      there is no exchange, and leaves all other paths alone. */
  lemma RenameCorrect(t: Tree, r: Rename, n: Id)
    requires TreeInv(t, {}) && Allowed(t, r) && n in t.nodes
    ensures var t', x, y := Renamed(t, r), Child(t, r.oldDir, r.oldName), Replaced(t, r);
            && TreeInv(t', {}) && t'.nodes.Keys == t.nodes.Keys
            && t'.nodes[n].deleted == (t.nodes[n].deleted || (!r.exchange && UnderAny(t, n, y)))
            && Path(t', n) == if UnderAny(t, n, x) then Path(t, r.newDir) + [r.newName] + Below(t, n, x.value)
                              else if r.exchange && UnderAny(t, n, y) then
                                Path(t, r.oldDir) + [r.oldName] + Below(t, n, y.value)
                              else Path(t, n)
  {
    hide TreeInv;
    hide Renamed;
    RenameDeleted(t, r, n);
    RenamePath(t, r, n);
    RenameKeepsInv(t, r);
  }

  lemma RenameKeepsInv(t: Tree, r: Rename)
    requires TreeInv(t, {}) && Allowed(t, r)
    ensures TreeInv(Renamed(t, r), {})
  {
    hide TreeInv;
    hide Cleared;
    var x := Child(t, r.oldDir, r.oldName);
    ClearedIsDisplaced(t, r);
    if x.Some? { PlaceKeeps(t, r, x.value); }
  }

  lemma PlaceKeeps(t: Tree, r: Rename, x: Id)
    requires TreeInv(t, {}) && Allowed(t, r) && Child(t, r.oldDir, r.oldName) == Some(x)
    ensures TreeInv(Renamed(t, r), {})
  {
    hide TreeInv;
    ClearedIsDisplaced(t, r);
    PlaceMovable(t, r, x);
    MoveKeeps(Cleared(t, r), {x}, x, r.newDir, r.newName);
    assert {x} - {x} == {};
  }
}
