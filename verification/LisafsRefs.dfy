/** Reference counting in pkg/lisafs: open and bound-socket FDs hold a reference
    on their control FD, a control FD on its node, a node on its parent; a
    connection holds one on every FD it tracks, a running handler one on every
    FD or node it looked up, and the server one on the root node. */
module LisafsRefs {
  import opened Options

  type Id = nat
  type Conn = nat

  datatype Key = Key(conn: Conn, fdid: nat)

  /** FDs belong to a connection. */
  datatype Kind = NodeKind | ControlKind(conn: Conn) | OpenKind(conn: Conn) | BoundKind(conn: Conn)

  predicate OfConn(kind: Kind, conn: Conn) {
    !kind.NodeKind? && kind.conn == conn
  }

  /** A live object: what it holds a reference on for its whole lifetime, and
      its own reference count. */
  datatype Obj = Obj(kind: Kind, target: Option<Id>, refs: nat)

  /** All live objects, the FDs that connections track and the references held
      by handlers, in hand. rank is there for the proofs only. */
  datatype World = World(objs: map<Id, Obj>, root: Id, fds: map<Key, Id>, temps: multiset<Id>, rank: map<Id, nat>)

  // ---------------------------------------------------------------------
  // The invariant
  // ---------------------------------------------------------------------

  /** Nodes and control FDs hold nodes; open and bound-socket FDs hold a control
      FD of their own connection. */
  predicate KindsFit(holder: Kind, held: Kind) {
    match holder
    case NodeKind => held == NodeKind
    case ControlKind(_) => held == NodeKind
    case OpenKind(c) => held == ControlKind(c)
    case BoundKind(c) => held == ControlKind(c)
  }

  ghost predicate TargetFits(w: World, o: Id)
    requires o in w.objs
  {
    var t := w.objs[o].target;
    && t.Some? && t.value in w.objs && KindsFit(w.objs[o].kind, w.objs[t.value].kind)
    && o in w.rank && t.value in w.rank && w.rank[t.value] < w.rank[o]
  }

  /** Only the root holds nothing; all else leads to it. */
  ghost predicate Shaped(w: World) {
    && w.root in w.objs && w.objs[w.root].kind == NodeKind && w.objs[w.root].target == None && w.root in w.rank
    && (forall o <- w.objs :: o != w.root ==> TargetFits(w, o))
    && (forall k <- w.fds :: w.fds[k] in w.objs && OfConn(w.objs[w.fds[k]].kind, k.conn))
    && (forall o <- w.temps :: o in w.objs)
  }

  ghost function Holders(w: World, o: Id): set<Id> {
    set x <- w.objs | w.objs[x].target == Some(o)
  }

  ghost function Tracking(w: World, o: Id): set<Key> {
    set k <- w.fds | w.fds[k] == o
  }

  /** The references on o that someone holds. */
  ghost function Count(w: World, o: Id): nat {
    |Holders(w, o)| + |Tracking(w, o)| + w.temps[o] + if o == w.root then 1 else 0
  }

  ghost predicate CountRight(w: World, o: Id)
    requires o in w.objs
  {
    w.objs[o].refs == Count(w, o) > 0
  }

  /** Every reference count is the number of references held, and nothing with
      count zero is left. */
  ghost predicate Inv(w: World) {
    Shaped(w) && forall o <- w.objs :: CountRight(w, o)
  }

  /** No FD is tracked under two numbers. */
  ghost predicate Once(fds: map<Key, Id>) {
    forall j <- fds, k <- fds :: fds[j] == fds[k] ==> j == k
  }

  /** So a connection's reference on an FD is one. */
  lemma TrackedAtMostOnce(w: World, o: Id)
    requires Once(w.fds)
    ensures |Tracking(w, o)| <= 1
  {
    if Tracking(w, o) != {} {
      var k :| k in Tracking(w, o);
      assert Tracking(w, o) == {k};
    }
  }

  lemma OnceMore(fds: map<Key, Id>, k: Key, o: Id)
    requires Once(fds) && k !in fds
    ensures Once(fds[k := o]) <==> forall j <- fds :: fds[j] != o
  {
    if j :| j in fds && fds[j] == o {
      var more := fds[k := o];
      assert j in more && k in more && more[j] == more[k];
    }
  }

  lemma OnceLess(fds: map<Key, Id>, k: Key)
    requires Once(fds)
    ensures Once(fds - {k})
  {
  }

  lemma NewIsUntracked(w: World, id: Id)
    requires Inv(w) && id !in w.objs
    ensures forall k <- w.fds :: w.fds[k] != id
  {
  }

  // ---------------------------------------------------------------------
  // Live means needed
  // ---------------------------------------------------------------------

  /** o is x, or held by something that x leads to. */
  ghost predicate Leads(w: World, x: Id, o: Id)
    requires Shaped(w) && x in w.objs
    decreases w.rank[x]
  {
    x == o || (x != w.root && (assert TargetFits(w, x); Leads(w, w.objs[x].target.value, o)))
  }

  predicate InUse(w: World, x: Id) {
    x in w.temps || exists k <- w.fds :: w.fds[k] == x
  }

  lemma {:induction false} LeadsOn(w: World, y: Id, x: Id, o: Id)
    requires Shaped(w) && y in w.objs && Leads(w, y, x) && x in w.objs && x != w.root && w.objs[x].target == Some(o)
    ensures Leads(w, y, o)
    decreases w.rank[y]
  {
    if y != x {
      assert TargetFits(w, y);
      LeadsOn(w, w.objs[y].target.value, x, o);
    }
  }

  lemma {:induction false} RankBound(rank: map<Id, nat>) returns (bound: nat)
    ensures forall o <- rank :: rank[o] <= bound
    decreases |rank|
  {
    if rank == map[] {
      bound := 0;
    } else {
      var o :| o in rank;
      assert (rank - {o}).Keys == rank.Keys - {o};
      var b := RankBound(rank - {o});
      bound := if rank[o] > b then rank[o] else b;
      forall p <- rank
        ensures rank[p] <= bound
      {
        if p != o { assert (rank - {o})[p] == rank[p]; }
      }
    }
  }

  /** No leak: whatever is live is the root or is needed by an FD that a
      connection tracks, or by something a handler holds. */
  lemma {:induction false} LiveIsNeeded(w: World, o: Id, bound: nat) returns (x: Id)
    requires Inv(w) && o in w.objs && o != w.root
    requires forall p <- w.rank :: w.rank[p] <= bound
    ensures x in w.objs && InUse(w, x) && Leads(w, x, o)
    decreases bound - (assert TargetFits(w, o); w.rank[o])
  {
    assert TargetFits(w, o) && CountRight(w, o);
    if InUse(w, o) {
      x := o;
    } else {
      assert w.temps[o] == 0 && Tracking(w, o) == {};
      assert Holders(w, o) != {};
      var h :| h in Holders(w, o);
      assert TargetFits(w, h);
      x := LiveIsNeeded(w, h, bound);
      LeadsOn(w, x, h, o);
    }
  }

  /** No dangling reference: whatever something live leads to is live. */
  lemma {:induction false} NeededIsLive(w: World, x: Id, o: Id)
    requires Shaped(w) && x in w.objs && Leads(w, x, o)
    ensures o in w.objs
    decreases w.rank[x]
  {
    if x != o {
      assert TargetFits(w, x);
      NeededIsLive(w, w.objs[x].target.value, o);
    }
  }

  /** An object is live exactly when it is the root, or something in use leads
      to it. */
  lemma LiveIffNeeded(w: World, o: Id)
    requires Inv(w)
    ensures o in w.objs <==> o == w.root || exists x <- w.objs :: InUse(w, x) && Leads(w, x, o)
  {
    if o in w.objs && o != w.root {
      var bound := RankBound(w.rank);
      var x := LiveIsNeeded(w, o, bound);
    }
    forall x <- w.objs | Leads(w, x, o)
      ensures o in w.objs
    {
      NeededIsLive(w, x, o);
    }
  }

  /** When nothing is in use, only the root is left. */
  lemma UnusedIsEmpty(w: World)
    requires Inv(w) && w.fds == map[] && w.temps == multiset{}
    ensures w.objs.Keys == {w.root}
  {
    forall o <- w.objs
      ensures o == w.root
    {
      LiveIffNeeded(w, o);
    }
  }

  /** Whatever leads to an FD is an FD of the same connection. */
  lemma {:induction false} LeadsWithinConn(w: World, x: Id, o: Id, conn: Conn)
    requires Shaped(w) && x in w.objs && o in w.objs && Leads(w, x, o) && OfConn(w.objs[o].kind, conn)
    ensures OfConn(w.objs[x].kind, conn)
    decreases w.rank[x]
  {
    if x != o {
      assert TargetFits(w, x);
      LeadsWithinConn(w, w.objs[x].target.value, o, conn);
    }
  }

  /** When a connection tracks nothing, what is left of its FDs is what its FDs
      in hand lead to. */
  lemma UntrackedConn(w: World, conn: Conn)
    requires Inv(w) && forall k <- w.fds :: k.conn != conn
    ensures forall o <- w.objs :: OfConn(w.objs[o].kind, conn) ==>
              exists x <- w.temps :: x in w.objs && OfConn(w.objs[x].kind, conn) && Leads(w, x, o)
  {
    forall o <- w.objs | OfConn(w.objs[o].kind, conn)
      ensures exists x <- w.temps :: x in w.objs && OfConn(w.objs[x].kind, conn) && Leads(w, x, o)
    {
      LiveIffNeeded(w, o);
      var x :| x in w.objs && InUse(w, x) && Leads(w, x, o);
      LeadsWithinConn(w, x, o, conn);
    }
  }

  // ---------------------------------------------------------------------
  // Steps
  // ---------------------------------------------------------------------

  /** One more reference on o, in hand. */
  function Taken(w: World, o: Id): World
    requires o in w.objs
  {
    w.(objs := w.objs[o := w.objs[o].(refs := w.objs[o].refs + 1)], temps := w.temps + multiset{o})
  }

  /** A reference in hand is given back, and it is not the last. */
  function Dropped(w: World, o: Id): World
    requires o in w.objs && w.objs[o].refs > 0
  {
    w.(objs := w.objs[o := w.objs[o].(refs := w.objs[o].refs - 1)], temps := w.temps - multiset{o})
  }

  /** The last reference is given back: the object goes, and the reference it
      held is in hand. */
  function Destroyed(w: World, o: Id): World
    requires o in w.objs && w.objs[o].target.Some?
  {
    w.(objs := w.objs - {o}, temps := w.temps - multiset{o} + multiset{w.objs[o].target.value})
  }

  /** A new object takes over a reference in hand and is itself in hand. */
  function Made(w: World, id: Id, kind: Kind, t: Id): World
    requires t in w.rank
  {
    w.(objs := w.objs[id := Obj(kind, Some(t), 1)], temps := w.temps - multiset{t} + multiset{id},
       rank := w.rank[id := w.rank[t] + 1])
  }

  /** A connection takes over a reference in hand. */
  function Tracked(w: World, k: Key, o: Id): World {
    w.(fds := w.fds[k := o], temps := w.temps - multiset{o})
  }

  function Untracked(w: World, k: Key): World
    requires k in w.fds
  {
    w.(fds := w.fds - {k}, temps := w.temps + multiset{w.fds[k]})
  }

  /** x lets go of what it held and holds d. What leads to x is ranked above d. */
  ghost function Moved(w: World, x: Id, d: Id): World
    requires Shaped(w) && x in w.objs && w.objs[x].target.Some? && w.objs[x].target.value in w.objs && d in w.objs
    requires w.objs[w.objs[x].target.value].refs > 0
  {
    var p := w.objs[x].target.value;
    var objs := w.objs[p := w.objs[p].(refs := w.objs[p].refs - 1)];
    var objs := objs[x := objs[x].(target := Some(d))];
    var objs := objs[d := objs[d].(refs := objs[d].refs + 1)];
    w.(objs := objs, rank := Reranked(w, x, d))
  }

  ghost function Reranked(w: World, x: Id, d: Id): map<Id, nat>
    requires Shaped(w)
  {
    map y <- w.objs | y in w.rank ::
      if Leads(w, y, x) then w.rank[y] + (if d in w.rank then w.rank[d] else 0) + 1 else w.rank[y]
  }

  /** The same objects with the same targets have the same holders. */
  lemma SameHolders(w: World, w': World, o: Id)
    requires w'.objs.Keys == w.objs.Keys && forall x <- w.objs :: w'.objs[x].target == w.objs[x].target
    ensures Holders(w', o) == Holders(w, o)
  {
  }

  /** Only counts change. */
  lemma RefsShaped(w: World, w': World)
    requires Shaped(w) && w'.root == w.root && w'.fds == w.fds && w'.rank == w.rank
    requires w'.objs.Keys == w.objs.Keys && (forall o <- w'.temps :: o in w.objs)
    requires forall x <- w.objs :: w'.objs[x].target == w.objs[x].target && w'.objs[x].kind == w.objs[x].kind
    ensures Shaped(w')
  {
    forall p <- w'.objs | p != w'.root
      ensures TargetFits(w', p)
    {
      assert TargetFits(w, p);
    }
  }

  lemma TakenCount(w: World, o: Id, p: Id)
    requires o in w.objs
    ensures Count(Taken(w, o), p) == Count(w, p) + if p == o then 1 else 0
  {
    SameHolders(w, Taken(w, o), p);
    assert Tracking(Taken(w, o), p) == Tracking(w, p);
  }

  lemma TakenKeeps(w: World, o: Id)
    requires Inv(w) && o in w.objs
    ensures Inv(Taken(w, o))
  {
    hide Count;
    RefsShaped(w, Taken(w, o));
    hide Shaped;
    forall p <- Taken(w, o).objs
      ensures CountRight(Taken(w, o), p)
    {
      assert CountRight(w, p);
      TakenCount(w, o, p);
    }
  }

  lemma DroppedCount(w: World, o: Id, p: Id)
    requires o in w.objs && o in w.temps && w.objs[o].refs > 0
    ensures Count(Dropped(w, o), p) == Count(w, p) - if p == o then 1 else 0
  {
    SameHolders(w, Dropped(w, o), p);
    assert Tracking(Dropped(w, o), p) == Tracking(w, p);
  }

  lemma DroppedKeeps(w: World, o: Id)
    requires Inv(w) && o in w.objs && o in w.temps && w.objs[o].refs > 1
    ensures Inv(Dropped(w, o))
  {
    hide Count;
    RefsShaped(w, Dropped(w, o));
    hide Shaped;
    forall p <- Dropped(w, o).objs
      ensures CountRight(Dropped(w, o), p)
    {
      assert CountRight(w, p);
      DroppedCount(w, o, p);
    }
  }

  lemma LastInHand(w: World, o: Id)
    requires Inv(w) && o in w.objs && o in w.temps && w.objs[o].refs == 1
    ensures o != w.root && TargetFits(w, o)
    ensures Holders(w, o) == {} && Tracking(w, o) == {} && w.temps[o] == 1
  {
    assert CountRight(w, o);
    assert o != w.root ==> TargetFits(w, o);
  }

  lemma DestroyedCount(w: World, o: Id, p: Id)
    requires Inv(w) && o in w.objs && o in w.temps && w.objs[o].refs == 1 && p in w.objs && p != o
    ensures o != w.root && TargetFits(w, o) && Count(Destroyed(w, o), p) == Count(w, p)
  {
    LastInHand(w, o);
    hide Inv;
    hide Shaped;
    var w', t := Destroyed(w, o), w.objs[o].target.value;
    assert Tracking(w', p) == Tracking(w, p);
    assert Holders(w', p) == Holders(w, p) - {o};
    OneElement(Holders(w, p), o);
    assert o in Holders(w, p) <==> p == t;
    assert w'.temps[p] == w.temps[p] + if p == t then 1 else 0;
  }

  lemma DestroyedKeeps(w: World, o: Id)
    requires Inv(w) && o in w.objs && o in w.temps && w.objs[o].refs == 1
    ensures o != w.root && TargetFits(w, o) && Inv(Destroyed(w, o))
  {
    LastInHand(w, o);
    var w' := Destroyed(w, o);
    forall p <- w'.objs
      ensures (p != w'.root ==> TargetFits(w', p)) && CountRight(w', p)
    {
      assert CountRight(w, p) && (p != w.root ==> TargetFits(w, p));
      assert p !in Holders(w, o);
      DestroyedCount(w, o, p);
    }
    forall k <- w'.fds
      ensures w'.fds[k] in w'.objs
    {
      assert k !in Tracking(w, o);
    }
  }

  lemma SwapInHand(m: multiset<Id>, t: Id, id: Id, p: Id)
    requires t in m && p != id
    ensures (m - multiset{t} + multiset{id})[p] == m[p] - if p == t then 1 else 0
  {
  }

  lemma MadeHolders(w: World, id: Id, kind: Kind, t: Id, p: Id)
    requires id !in w.objs && t in w.rank
    ensures |Holders(Made(w, id, kind, t), p)| == |Holders(w, p)| + if p == t then 1 else 0
  {
    var w' := Made(w, id, kind, t);
    if p == t {
      assert Holders(w', p) == Holders(w, p) + {id} && id !in Holders(w, p);
    } else {
      assert Holders(w', p) == Holders(w, p);
    }
  }

  lemma MadeCount(w: World, id: Id, kind: Kind, t: Id, p: Id)
    requires id !in w.objs && t in w.temps && t in w.rank && p != id
    ensures Count(Made(w, id, kind, t), p) == Count(w, p)
  {
    hide Holders;
    SwapInHand(w.temps, t, id, p);
    MadeHolders(w, id, kind, t, p);
    assert Tracking(Made(w, id, kind, t), p) == Tracking(w, p);
  }

  lemma MadeShaped(w: World, id: Id, kind: Kind, t: Id)
    requires Shaped(w) && id !in w.objs && t in w.temps && KindsFit(kind, w.objs[t].kind)
    ensures t in w.rank && Shaped(Made(w, id, kind, t))
  {
    assert t != w.root ==> TargetFits(w, t);
    var w' := Made(w, id, kind, t);
    forall p <- w'.objs | p != w'.root
      ensures TargetFits(w', p)
    {
      if p != id { assert TargetFits(w, p); }
    }
  }

  lemma NewCount(w: World, id: Id, kind: Kind, t: Id)
    requires Shaped(w) && id !in w.objs && t in w.temps && t in w.rank
    ensures Count(Made(w, id, kind, t), id) == 1
  {
    var w' := Made(w, id, kind, t);
    NewHasNoHolders(w, id);
    assert t != id;
    assert Holders(w', id) == Holders(w, id) && Tracking(w', id) == Tracking(w, id);
  }

  lemma MadeKeeps(w: World, id: Id, kind: Kind, t: Id)
    requires Inv(w) && id !in w.objs && t in w.temps && KindsFit(kind, w.objs[t].kind)
    ensures t in w.rank && Inv(Made(w, id, kind, t))
  {
    hide Count;
    hide KindsFit;
    MadeShaped(w, id, kind, t);
    NewCount(w, id, kind, t);
    hide Shaped;
    forall p <- Made(w, id, kind, t).objs
      ensures CountRight(Made(w, id, kind, t), p)
    {
      if p != id {
        assert CountRight(w, p);
        MadeCount(w, id, kind, t, p);
      }
    }
  }

  lemma NewHasNoHolders(w: World, id: Id)
    requires Shaped(w) && id !in w.objs
    ensures Holders(w, id) == {} && Tracking(w, id) == {} && id !in w.temps
  {
    forall x <- w.objs
      ensures w.objs[x].target != Some(id)
    {
      assert x != w.root ==> TargetFits(w, x);
    }
  }

  /** Only what is tracked or in hand changes. */
  lemma TrackingShaped(w: World, w': World)
    requires Shaped(w) && w'.root == w.root && w'.rank == w.rank && w'.objs == w.objs
    requires forall k <- w'.fds :: w'.fds[k] in w.objs && OfConn(w.objs[w'.fds[k]].kind, k.conn)
    requires forall o <- w'.temps :: o in w.objs
    ensures Shaped(w')
  {
    forall p <- w'.objs | p != w'.root
      ensures TargetFits(w', p)
    {
      assert TargetFits(w, p);
    }
  }

  lemma TrackedKeys(w: World, k: Key, o: Id, p: Id)
    requires k !in w.fds
    ensures |Tracking(Tracked(w, k, o), p)| == |Tracking(w, p)| + if p == o then 1 else 0
  {
    var w' := Tracked(w, k, o);
    if p == o {
      assert Tracking(w', p) == Tracking(w, p) + {k} && k !in Tracking(w, p);
    } else {
      assert Tracking(w', p) == Tracking(w, p);
    }
  }

  lemma TrackedCount(w: World, k: Key, o: Id, p: Id)
    requires k !in w.fds && o in w.temps
    ensures Count(Tracked(w, k, o), p) == Count(w, p)
  {
    assert Holders(Tracked(w, k, o), p) == Holders(w, p);
    hide Holders;
    TrackedKeys(w, k, o, p);
  }

  lemma TrackedKeeps(w: World, k: Key, o: Id)
    requires Inv(w) && k !in w.fds && o in w.temps && OfConn(w.objs[o].kind, k.conn)
    ensures Inv(Tracked(w, k, o))
  {
    hide Count;
    TrackingShaped(w, Tracked(w, k, o));
    hide Shaped;
    forall p <- Tracked(w, k, o).objs
      ensures CountRight(Tracked(w, k, o), p)
    {
      assert CountRight(w, p);
      TrackedCount(w, k, o, p);
    }
  }

  lemma UntrackedCount(w: World, k: Key, p: Id)
    requires k in w.fds
    ensures Count(Untracked(w, k), p) == Count(w, p)
  {
    var w' := Untracked(w, k);
    assert Holders(w', p) == Holders(w, p);
    assert k in Tracking(w, p) <==> w.fds[k] == p;
    assert Tracking(w', p) == Tracking(w, p) - {k};
  }

  lemma UntrackedKeeps(w: World, k: Key)
    requires Inv(w) && k in w.fds
    ensures Inv(Untracked(w, k))
  {
    hide Count;
    TrackingShaped(w, Untracked(w, k));
    hide Shaped;
    forall p <- Untracked(w, k).objs
      ensures CountRight(Untracked(w, k), p)
    {
      assert CountRight(w, p);
      UntrackedCount(w, k, p);
    }
  }

  lemma MovedFits(w: World, x: Id, d: Id, y: Id)
    requires Shaped(w) && x in w.objs && x != w.root && w.objs[x].kind == NodeKind
    requires d in w.objs && w.objs[d].kind == NodeKind && !Leads(w, d, x)
    requires TargetFits(w, x) && w.objs[w.objs[x].target.value].refs > 0 && y in w.objs && y != w.root
    ensures TargetFits(Moved(w, x, d), y)
  {
    assert TargetFits(w, y) && (d != w.root ==> TargetFits(w, d));
    var t := w.objs[y].target.value;
    assert t != w.root ==> TargetFits(w, t);
    assert y != x ==> (Leads(w, y, x) <==> Leads(w, t, x));
  }

  lemma MovedObjs(w: World, x: Id, d: Id)
    requires Shaped(w) && x in w.objs && d in w.objs && w.objs[x].target.Some?
    requires w.objs[x].target.value in w.objs && w.objs[w.objs[x].target.value].refs > 0
    ensures var w' := Moved(w, x, d);
            w'.root == w.root && w'.fds == w.fds && w'.temps == w.temps && (w.root in w.rank ==> w.root in w'.rank)
    ensures var objs := Moved(w, x, d).objs;
            && objs.Keys == w.objs.Keys && objs[x].target == Some(d)
            && forall o <- objs :: objs[o].kind == w.objs[o].kind && (o != x ==> objs[o].target == w.objs[o].target)
  {
    assert w.root in w.objs;
    assert w.root in w.rank ==> w.root in Reranked(w, x, d);
    hide Shaped;
    hide Reranked;
  }

  lemma MovedShaped(w: World, x: Id, d: Id)
    requires Shaped(w) && x in w.objs && x != w.root && w.objs[x].kind == NodeKind
    requires d in w.objs && w.objs[d].kind == NodeKind && !Leads(w, d, x)
    requires TargetFits(w, x) && w.objs[w.objs[x].target.value].refs > 0
    ensures Shaped(Moved(w, x, d))
  {
    assert w.objs[x].target.Some? && w.objs[x].target.value in w.objs;
    MovedObjs(w, x, d);
    hide TargetFits;
    hide Leads;
    hide KindsFit;
    hide Moved;
    forall y <- w.objs | y != w.root
      ensures TargetFits(Moved(w, x, d), y)
    {
      MovedFits(w, x, d, y);
    }
  }

  lemma MovedHolders(w: World, x: Id, d: Id, o: Id)
    requires Shaped(w) && x in w.objs && d in w.objs && w.objs[x].target.Some?
    requires w.objs[x].target.value in w.objs && w.objs[w.objs[x].target.value].refs > 0
    ensures var p := w.objs[x].target.value;
            |Holders(Moved(w, x, d), o)| == |Holders(w, o)| - (if o == p then 1 else 0) + (if o == d then 1 else 0)
  {
    var w', p := Moved(w, x, d), w.objs[x].target.value;
    assert x in Holders(w, o) <==> o == p;
    assert Holders(w', o) - {x} == Holders(w, o) - {x};
    assert x in Holders(w', o) <==> o == d;
    OneElement(Holders(w, o), x);
    OneElement(Holders(w', o), x);
  }

  lemma OneElement(s: set<Id>, x: Id)
    ensures |s| == |s - {x}| + if x in s then 1 else 0
  {
    if x !in s { assert s - {x} == s; }
  }

  /** The counts stay right when a reference moves from one parent to another. */
  lemma MovedKeeps(w: World, x: Id, d: Id, oldDir: Id)
    requires Inv(w) && x in w.objs && x != w.root && w.objs[x].kind == NodeKind
    requires d in w.objs && w.objs[d].kind == NodeKind && !Leads(w, d, x)
    requires oldDir in w.objs && oldDir != x && w.objs[oldDir].target == w.objs[x].target
    ensures TargetFits(w, x) && w.objs[w.objs[x].target.value].refs > 1 && Inv(Moved(w, x, d))
  {
    assert TargetFits(w, x);
    var p := w.objs[x].target.value;
    assert CountRight(w, p);
    assert {x, oldDir} <= Holders(w, p);
    TwoElements(Holders(w, p), x, oldDir);
    MovedShaped(w, x, d);
    hide Shaped;
    hide Moved;
    hide Count;
    forall o <- Moved(w, x, d).objs
      ensures CountRight(Moved(w, x, d), o)
    {
      MovedCount(w, x, d, o);
      assert CountRight(w, o);
      if o == p { OneOfTwo(w, o); }
    }
  }

  lemma OneOfTwo(w: World, o: Id)
    requires |Holders(w, o)| >= 2
    ensures Count(w, o) >= 2
  {
  }

  lemma MovedCount(w: World, x: Id, d: Id, o: Id)
    requires Shaped(w) && x in w.objs && d in w.objs && w.objs[x].target.Some?
    requires w.objs[x].target.value in w.objs && w.objs[w.objs[x].target.value].refs > 0
    ensures var p, w' := w.objs[x].target.value, Moved(w, x, d);
            var change := (if o == d then 1 else 0) - (if o == p then 1 else 0);
            && w'.objs.Keys == w.objs.Keys && Count(w', o) == Count(w, o) + change
            && (o in w.objs ==> w'.objs[o].refs == w.objs[o].refs + change)
  {
    hide Holders;
    MovedHolders(w, x, d, o);
    assert Tracking(Moved(w, x, d), o) == Tracking(w, o);
  }

  lemma TwoElements(s: set<Id>, x: Id, y: Id)
    requires x in s && y in s && x != y
    ensures |s| >= 2
  {
    OneElement(s, x);
    OneElement(s - {x}, y);
  }

  // ---------------------------------------------------------------------
  // Connections and FDs
  // ---------------------------------------------------------------------

  ghost predicate IdsBelow(ids: set<Id>, next: Id) {
    forall o <- ids :: o < next
  }

  ghost predicate KeysBelow(fds: map<Key, Id>, next: map<Conn, nat>) {
    forall k <- fds :: k.conn in next && k.fdid < next[k.conn]
  }

  class Server {
    var objs: map<Id, Obj>
    const root: Id
    var fds: map<Key, Id>
    var nextFDID: map<Conn, nat>
    var nextId: Id
    ghost var temps: multiset<Id>
    ghost var rank: map<Id, nat>

    ghost function W(): World
      reads this
    {
      World(objs, root, fds, temps, rank)
    }

    ghost predicate Counted()
      reads this
    {
      Inv(W()) && IdsBelow(objs.Keys, nextId) && KeysBelow(fds, nextFDID)
    }

    ghost predicate Valid()
      reads this
    {
      Counted() && Once(fds)
    }

    constructor ()
      ensures Valid() && objs.Keys == {root} && fds == map[] && temps == multiset{}
    {
      root, nextId := 0, 1;
      objs := map[0 := Obj(NodeKind, None, 1)];
      fds, nextFDID, temps, rank := map[], map[], multiset{}, map[0 := 0];
      new;
      assert Holders(W(), 0) == {} && Tracking(W(), 0) == {};
    }

    method IncRef(o: Id)
      requires Valid() && o in objs
      modifies this`objs, this`temps
      ensures Valid() && W() == Taken(old(W()), o)
    {
      hide Inv;
      TakenKeeps(W(), o);
      objs := objs[o := objs[o].(refs := objs[o].refs + 1)];
      temps := temps + multiset{o};
    }

    /** One reference of several is given back. */
    method Drop(o: Id)
      requires Valid() && o in temps && o in objs && objs[o].refs != 1
      modifies this`objs, this`temps
      ensures Valid() && temps == old(temps) - multiset{o} && objs.Keys == old(objs).Keys && Kept(old(objs), objs)
    {
      hide Inv;
      RefsPositive(W(), o);
      DroppedKeeps(W(), o);
      objs := objs[o := objs[o].(refs := objs[o].refs - 1)];
      temps := temps - multiset{o};
    }

    /** The last reference is given back; the one the object held is in hand. */
    method Destroy(o: Id) returns (t: Id)
      requires Valid() && o in temps && o in objs && objs[o].refs == 1
      modifies this`objs, this`temps
      ensures Valid() && o != root && old(objs)[o].target == Some(t) && t in objs
      ensures objs == old(objs) - {o} && temps == old(temps) - multiset{o} + multiset{t}
    {
      hide Inv;
      LastGone(W(), o);
      RootStays(W(), o);
      t := objs[o].target.value;
      temps := temps - multiset{o} + multiset{t};
      objs := objs - {o};
    }

    /** Give back a reference in hand. The last one destroys the object, which
        gives back the one it held, and so on up: what goes is what o leads to,
        and what stays is as it was. */
    method DecRef(o: Id)
      requires Valid() && o in temps && o in objs
      modifies this`objs, this`temps
      ensures Valid() && temps == old(temps) - multiset{o} && objs.Keys <= old(objs).Keys && Kept(old(objs), objs)
      ensures forall x <- old(objs) :: x !in objs ==> Leads(old(W()), o, x)
    {
      hide Inv;
      hide Shaped;
      hide Leads;
      hide IdsBelow;
      hide KeysBelow;
      hide Kept;
      KeptAll(objs);
      var at := o;
      ghost var others := temps - multiset{o};
      OneInHand(temps, o);
      InvShaped(W());
      LeadsSelf(W(), o);
      while objs[at].refs == 1
        invariant Valid() && at in objs && temps == others + multiset{at} && objs.Keys <= old(objs).Keys
        invariant Kept(old(objs), objs) && Leads(old(W()), o, at)
        invariant forall x <- old(objs) :: x !in objs ==> Leads(old(W()), o, x)
        decreases |objs.Keys|
      {
        GiveBack(others, at);
        ghost var was := at;
        KeptLess(old(objs), objs, at);
        at := Destroy(at);
        LeadsOn(old(W()), o, was, at);
      }
      GiveBack(others, at);
      ghost var left := objs;
      Drop(at);
      KeptOn(old(objs), left, objs);
    }

    /** Node.InitLocked: the new node holds a reference on its parent, and the
        caller one on the node. */
    method InitNode(parent: Id) returns (n: Id)
      requires Valid() && parent in objs && objs[parent].kind == NodeKind
      modifies this
      ensures Valid() && n !in old(objs) && objs.Keys == old(objs).Keys + {n} && Kept(old(objs), objs)
      ensures objs[n] == Obj(NodeKind, Some(parent), 1) && temps == old(temps) + multiset{n} && fds == old(fds)
    {
      n := MakeOn(NodeKind, parent);
    }

    /** A new object with a reference of its own on t. */
    method MakeOn(kind: Kind, t: Id) returns (n: Id)
      requires Valid() && t in objs && KindsFit(kind, objs[t].kind)
      modifies this`objs, this`nextId, this`temps, this`rank
      ensures Valid() && n !in old(objs) && objs.Keys == old(objs).Keys + {n} && Kept(old(objs), objs)
      ensures objs[n] == Obj(kind, Some(t), 1) && temps == old(temps) + multiset{n}
    {
      hide Inv;
      hide IdsBelow;
      hide KeysBelow;
      hide KindsFit;
      IncRef(t);
      GiveBack(old(temps), t);
      n := Make(kind, t);
    }

    /** A new object that takes over the reference in hand on t. */
    method Make(kind: Kind, t: Id) returns (n: Id)
      requires Valid() && t in objs && t in temps && KindsFit(kind, objs[t].kind)
      modifies this`objs, this`nextId, this`temps, this`rank
      ensures Valid() && n !in old(objs) && objs.Keys == old(objs).Keys + {n}
      ensures objs[n] == Obj(kind, Some(t), 1) && temps == old(temps) - multiset{t} + multiset{n}
      ensures forall o <- old(objs) :: objs[o] == old(objs[o])
    {
      hide Inv;
      n := nextId;
      MadeKeeps(W(), n, kind, t);
      objs := objs[n := Obj(kind, Some(t), 1)];
      temps := temps - multiset{t} + multiset{n};
      rank := rank[n := rank[t] + 1];
      nextId := nextId + 1;
    }

    /** Connection.insertFD: the connection takes over the reference in hand. */
    method InsertFD(conn: Conn, o: Id) returns (id: nat)
      requires Valid() && o in temps && o in objs && OfConn(objs[o].kind, conn)
      modifies this`fds, this`nextFDID, this`temps
      ensures Counted() && Key(conn, id) !in old(fds) && fds == old(fds)[Key(conn, id) := o]
      ensures temps == old(temps) - multiset{o}
      ensures Valid() <==> forall k <- old(fds) :: old(fds)[k] != o
    {
      hide Once;
      hide Inv;
      hide IdsBelow;
      hide OfConn;
      id := if conn in nextFDID then nextFDID[conn] else 1;
      KeysMore(fds, nextFDID, conn, id, o);
      hide KeysBelow;
      TrackedKeeps(W(), Key(conn, id), o);
      OnceMore(fds, Key(conn, id), o);
      fds := fds[Key(conn, id) := o];
      temps := temps - multiset{o};
      nextFDID := nextFDID[conn := id + 1];
    }

    /** ControlFD.Init: the caller's reference on the node goes to the FD. */
    method InitControl(conn: Conn, node: Id) returns (fd: Id, id: nat)
      requires Valid() && node in temps && node in objs && objs[node].kind == NodeKind
      modifies this
      ensures Valid() && fd !in old(objs) && Key(conn, id) !in old(fds) && fds == old(fds)[Key(conn, id) := fd]
      ensures objs == old(objs)[fd := Obj(ControlKind(conn), Some(node), 1)] && temps == old(temps) - multiset{node}
    {
      hide Inv;
      hide Once;
      fd := Make(ControlKind(conn), node);
      NewIsUntracked(old(W()), fd);
      id := InsertFD(conn, fd);
      GiveBack(old(temps) - multiset{node}, fd);
    }

    /** OpenFD.Init and BoundSocketFD.Init: the FD takes a reference of its own
        on the control FD, and the control FD's connection tracks it. */
    method InitOn(cfd: Id, bound: bool) returns (fd: Id, id: nat)
      requires Valid() && cfd in objs && objs[cfd].kind.ControlKind?
      modifies this
      ensures var conn := old(objs[cfd].kind.conn);
              && Valid() && fd !in old(objs) && Key(conn, id) !in old(fds) && fds == old(fds)[Key(conn, id) := fd]
              && objs.Keys == old(objs).Keys + {fd} && temps == old(temps) && Kept(old(objs), objs)
              && objs[fd] == Obj(if bound then BoundKind(conn) else OpenKind(conn), Some(cfd), 1)
    {
      hide Inv;
      hide IdsBelow;
      hide KeysBelow;
      hide Kept;
      var conn := objs[cfd].kind.conn;
      hide Once;
      fd := MakeOn(if bound then BoundKind(conn) else OpenKind(conn), cfd);
      NewIsUntracked(old(W()), fd);
      GiveBack(old(temps), fd);
      id := InsertFD(conn, fd);
      GiveBack(old(temps), fd);
    }

    /** Connection.lookupFD: the caller gains a reference, or EBADF. */
    method LookupFD(conn: Conn, id: nat) returns (o: Option<Id>)
      requires Valid()
      modifies this`objs, this`temps
      ensures Valid() && objs.Keys == old(objs).Keys && Kept(old(objs), objs)
      ensures o == if Key(conn, id) in fds then Some(fds[Key(conn, id)]) else None
      ensures o.Some? ==> o.value in objs && OfConn(objs[o.value].kind, conn)
      ensures temps == old(temps) + if o.Some? then multiset{o.value} else multiset{}
    {
      hide Inv;
      if Key(conn, id) !in fds {
        return None;
      }
      FDsLive(W(), Key(conn, id));
      o := Some(fds[Key(conn, id)]);
      IncRef(o.value);
    }

    /** Connection.removeFD. */
    method RemoveFD(conn: Conn, id: nat)
      requires Valid()
      modifies this`objs, this`fds, this`temps
      ensures Valid() && fds == old(fds) - {Key(conn, id)} && temps == old(temps)
      ensures objs.Keys <= old(objs).Keys && Kept(old(objs), objs)
    {
      hide Inv;
      if Key(conn, id) in fds {
        var o := fds[Key(conn, id)];
        FDsLive(W(), Key(conn, id));
        UntrackedKeeps(W(), Key(conn, id));
        OnceLess(fds, Key(conn, id));
        hide Once;
        fds := fds - {Key(conn, id)};
        temps := temps + multiset{o};
        GiveBack(old(temps), o);
        DecRef(o);
      }
    }

    /** The FD part of Connection.close, in whatever order the map gives: an FD of
        the connection is left only if a reference in hand leads to it, and so
        none is when no handler is running on it. */
    method Close(conn: Conn)
      requires Valid()
      modifies this`objs, this`fds, this`temps
      ensures Valid() && temps == old(temps) && fds == OfOthers(old(fds), conn)
      ensures objs.Keys <= old(objs).Keys && Kept(old(objs), objs)
      ensures forall o <- objs :: OfConn(objs[o].kind, conn) ==>
                exists x <- temps :: x in objs && OfConn(objs[x].kind, conn) && Leads(W(), x, o)
      ensures (forall x <- old(temps) :: x in old(objs) ==> !OfConn(old(objs)[x].kind, conn)) ==>
                forall o <- objs :: !OfConn(objs[o].kind, conn)
    {
      hide Inv;
      hide IdsBelow;
      hide KeysBelow;
      hide Leads;
      var todo := set k <- fds | k.conn == conn;
      while todo != {}
        invariant Valid() && temps == old(temps) && todo <= fds.Keys && (forall k <- todo :: k.conn == conn)
        invariant OfOthers(fds, conn) == OfOthers(old(fds), conn)
        invariant objs.Keys <= old(objs).Keys && Kept(old(objs), objs)
        invariant forall k <- fds :: k.conn == conn ==> k in todo
        decreases |todo|
      {
        var k :| k in todo;
        RemoveFD(k.conn, k.fdid);
        todo := todo - {k};
      }
      InvShaped(W());
      UntrackedConn(W(), conn);
    }

    /** The part of rename that moves a node's reference from its old parent to
        the new one. The old parent is held by the FD of the old directory, so it
        is not destroyed on the way, and the host refuses to move a node below
        itself. */
    method Reparent(x: Id, d: Id, ghost oldDir: Id)
      requires Valid() && x in objs && x != root && objs[x].kind == NodeKind && d in objs && objs[d].kind == NodeKind
      requires oldDir in objs && oldDir != x && objs[oldDir].target == objs[x].target
      requires Shaped(W()) && !Leads(W(), d, x)
      modifies this`objs, this`rank
      ensures Valid() && objs.Keys == old(objs).Keys && objs[x].target == Some(d)
      ensures forall o <- objs ::
        objs[o].kind == old(objs[o]).kind && (o != x ==> objs[o].target == old(objs[o]).target)
    {
      hide Inv;
      InvShaped(W());
      MovedKeeps(W(), x, d, oldDir);
      ghost var moved := Moved(W(), x, d);
      MovedObjs(W(), x, d);
      hide Shaped;
      hide Leads;
      hide Reranked;
      var p := objs[x].target.value;
      objs := objs[p := objs[p].(refs := objs[p].refs - 1)];
      objs := objs[x := objs[x].(target := Some(d))];
      objs := objs[d := objs[d].(refs := objs[d].refs + 1)];
      rank := moved.rank;
    }
  }

  /** What is still there is of the same kind and holds the same. */
  ghost predicate Kept(a: map<Id, Obj>, b: map<Id, Obj>) {
    forall o <- b :: o in a ==> b[o].kind == a[o].kind && b[o].target == a[o].target
  }

  lemma InvShaped(w: World)
    requires Inv(w)
    ensures Shaped(w)
  {
  }

  lemma LeadsSelf(w: World, o: Id)
    requires Shaped(w) && o in w.objs
    ensures Leads(w, o, o)
  {
  }

  lemma RootStays(w: World, o: Id)
    requires Inv(w) && o in w.objs && o in w.temps && w.objs[o].refs == 1
    ensures o != w.root
  {
    LastInHand(w, o);
  }

  lemma KeysMore(fds: map<Key, Id>, next: map<Conn, nat>, conn: Conn, id: nat, o: Id)
    requires KeysBelow(fds, next) && id == if conn in next then next[conn] else 1
    ensures Key(conn, id) !in fds && KeysBelow(fds[Key(conn, id) := o], next[conn := id + 1])
  {
  }

  lemma KeptAll(a: map<Id, Obj>)
    ensures Kept(a, a)
  {
  }

  lemma KeptLess(a: map<Id, Obj>, b: map<Id, Obj>, o: Id)
    requires Kept(a, b) && b.Keys <= a.Keys && o in b
    ensures Kept(a, b - {o}) && (b - {o}).Keys == b.Keys - {o} && b[o].target == a[o].target
  {
  }

  lemma KeptOn(a: map<Id, Obj>, b: map<Id, Obj>, c: map<Id, Obj>)
    requires Kept(a, b) && Kept(b, c) && c.Keys <= b.Keys
    ensures Kept(a, c)
  {
  }

  /** The FDs that other connections track. */
  function OfOthers(fds: map<Key, Id>, conn: Conn): map<Key, Id> {
    map k <- fds | k.conn != conn :: fds[k]
  }

  lemma FDsLive(w: World, k: Key)
    requires Inv(w) && k in w.fds
    ensures w.fds[k] in w.objs && OfConn(w.objs[w.fds[k]].kind, k.conn)
  {
  }

  lemma OneInHand(m: multiset<Id>, o: Id)
    requires o in m
    ensures (m - multiset{o}) + multiset{o} == m
  {
  }

  lemma GiveBack(m: multiset<Id>, o: Id)
    ensures (m + multiset{o}) - multiset{o} == m && o in m + multiset{o}
  {
  }

  lemma RefsPositive(w: World, o: Id)
    requires Inv(w) && o in w.objs
    ensures w.objs[o].refs > 0
  {
    assert CountRight(w, o);
  }

  lemma LastGone(w: World, o: Id)
    requires Inv(w) && o in w.objs && o in w.temps && w.objs[o].refs == 1
    ensures w.objs[o].target.Some? && w.objs[o].target.value in w.objs - {o} && Inv(Destroyed(w, o))
    ensures (w.objs - {o}).Keys == w.objs.Keys - {o} && |w.objs - {o}| < |w.objs|
  {
    hide Count;
    DestroyedKeeps(w, o);
    assert (w.objs - {o}).Keys == w.objs.Keys - {o};
  }
}
