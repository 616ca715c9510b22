/** The tree and the reference counts of pkg/lisafs in one state machine: lookups,
    creations, unlinks, renames, exchanges, FDs and the drops that destroy, in any
    order. */
module LisafsRuns {
  import opened Options
  import opened LisafsTree
  import opened LisafsServer
  import opened LisafsLink
  import Refs = LisafsRefs

  datatype State = State(t: Tree, w: Refs.World)

  /** One step: take a reference on a live object or give one back, the last one
      apart from the others; make a node or an FD; hand the reference of an FD to
      its connection or take it back; unlink; rename or exchange. */
  datatype Action =
    | Take(o: Id)
    | Give(o: Id)
    | Last(o: Id)
    | Create(d: Id, k: Name, n: Id)
    | Open(fd: Id, kind: Refs.Kind, target: Id)
    | Track(key: Refs.Key, o: Id)
    | Untrack(key: Refs.Key)
    | Unlink(d: Id, k: Name)
    | Renames(r: Rename)

  ghost predicate Joined(s: State) {
    TreeInv(s.t, {}) && EntriesLive(s.t) && Refs.Inv(s.w) && SameNodes(s.t, s.w)
  }

  /** Some FD is open on the directory. */
  ghost predicate Held(w: Refs.World, d: Id) {
    exists c <- w.objs :: w.objs[c].kind != Refs.NodeKind && w.objs[c].target == Some(d)
  }

  /** A handler that makes or removes an entry has found its directory live, and
      one that renames has FDs open on both directories. */
  ghost predicate Enabled(s: State, a: Action)
    requires Joined(s)
  {
    match a
    case Take(o) => o in s.w.objs
    case Give(o) => o in s.w.objs && o in s.w.temps && s.w.objs[o].refs > 1
    case Last(o) => o in s.w.objs && o in s.w.temps && s.w.objs[o].refs == 1
    case Create(d, k, n) =>
      d in s.t.nodes && !s.t.nodes[d].deleted && k !in s.t.nodes[d].children && n !in s.w.objs
    case Open(fd, kind, target) =>
      && fd !in s.w.objs && kind != Refs.NodeKind && target in s.w.objs && target in s.w.temps
      && Refs.KindsFit(kind, s.w.objs[target].kind)
    case Track(key, o) => key !in s.w.fds && o in s.w.objs && o in s.w.temps && Refs.OfConn(s.w.objs[o].kind, key.conn)
    case Untrack(key) => key in s.w.fds
    case Unlink(d, k) => d in s.t.nodes && !s.t.nodes[d].deleted && k in s.t.nodes[d].children
    case Renames(r) => Allowed(s.t, r) && Held(s.w, r.oldDir) && Held(s.w, r.newDir)
  }

  /** The node on its last reference has lost its name to another. */
  ghost predicate Faulty(s: State, a: Action)
    requires Joined(s) && Enabled(s, a)
  {
    a.Last? && a.o in s.t.nodes && a.o != s.t.root && (assert HasParent(s.t, a.o); NameReused(s.t, a.o))
  }

  ghost function MoveRef(w: Refs.World, x: Id, d: Id): Refs.World {
    if && Refs.Shaped(w) && x in w.objs && d in w.objs && w.objs[x].target.Some?
       && w.objs[x].target.value in w.objs && w.objs[w.objs[x].target.value].refs > 0
    then Refs.Moved(w, x, d) else w
  }

  /** The references that a rename moves. */
  ghost function Displacing(t: Tree, w: Refs.World, r: Rename): Refs.World
    requires r.newDir in t.nodes
  {
    var y := Child(t, r.newDir, r.newName);
    if r.exchange && y.Some? then MoveRef(w, y.value, r.oldDir) else w
  }

  ghost function Placing(t: Tree, w: Refs.World, r: Rename): Refs.World
    requires r.oldDir in t.nodes
  {
    var x := Child(t, r.oldDir, r.oldName);
    if x.Some? then MoveRef(w, x.value, r.newDir) else w
  }

  ghost function Destroying(s: State, o: Id): State
    requires Joined(s) && o in s.w.objs && s.w.objs[o].target.Some?
  {
    var w := Refs.Destroyed(s.w, o);
    if o in s.t.nodes && o != s.t.root then State((assert HasParent(s.t, o); Destroyed(s.t, o)), w) else s.(w := w)
  }

  ghost function Creating(s: State, d: Id, k: Name, n: Id): State
    requires Joined(s) && d in s.t.nodes && d in s.w.objs && d in s.w.rank
  {
    State(Created(s.t, d, k, n), Refs.Made(Refs.Taken(s.w, d), n, Refs.NodeKind, d))
  }

  ghost function Renaming(s: State, r: Rename): State
    requires Joined(s) && Allowed(s.t, r)
  {
    State(Renamed(s.t, r), Placing(s.t, Displacing(s.t, s.w, r), r))
  }

  lemma Steps(s: State, a: Action)
    requires Joined(s) && Enabled(s, a)
    ensures a.Last? ==> s.w.objs[a.o].target.Some?
    ensures a.Create? ==> a.d in s.w.objs && a.d in s.w.rank
    ensures a.Open? ==> a.target in s.w.rank
  {
    match a
    case Last(o) => Refs.LastInHand(s.w, o);
    case Create(d, _, _) => RankOf(s.w, d);
    case Open(_, _, target) => RankOf(s.w, target);
    case _ =>
  }

  ghost function Apply(s: State, a: Action): State
    requires Joined(s) && Enabled(s, a)
  {
    Steps(s, a);
    match a
    case Take(o) => s.(w := Refs.Taken(s.w, o))
    case Give(o) => s.(w := Refs.Dropped(s.w, o))
    case Last(o) => Destroying(s, o)
    case Create(d, k, n) => Creating(s, d, k, n)
    case Open(fd, kind, target) => s.(w := Refs.Made(s.w, fd, kind, target))
    case Track(key, o) => s.(w := Refs.Tracked(s.w, key, o))
    case Untrack(key) => s.(w := Refs.Untracked(s.w, key))
    case Unlink(d, k) => s.(t := Unlinked(s.t, d, k))
    case Renames(r) => Renaming(s, r)
  }

  lemma RankOf(w: Refs.World, o: Id)
    requires Refs.Inv(w) && o in w.objs
    ensures o in w.rank
  {
    if o != w.root { assert Refs.TargetFits(w, o); }
  }

  // ---------------------------------------------------------------------
  // Every step keeps the two together
  // ---------------------------------------------------------------------

  lemma {:induction false} LeadsIsUnder(t: Tree, w: Refs.World, n: Id, x: Id)
    requires Rooted(t) && Refs.Shaped(w) && SameNodes(t, w) && n in t.nodes
    ensures Refs.Leads(w, n, x) <==> Under(t, n, x)
    decreases t.depth[n]
  {
    if n != t.root {
      assert HasParent(t, n) && Refs.TargetFits(w, n);
      LeadsIsUnder(t, w, Parent(t, n), x);
    }
  }

  /** Steps that leave the tree alone and keep kind and target of every object. */
  lemma SameObjects(t: Tree, w: Refs.World, w': Refs.World)
    requires SameNodes(t, w) && w'.root == w.root && w'.objs.Keys == w.objs.Keys
    requires forall o <- w.objs :: w'.objs[o].kind == w.objs[o].kind && w'.objs[o].target == w.objs[o].target
    ensures SameNodes(t, w')
  {
  }

  lemma ReferenceSteps(s: State, a: Action)
    requires Joined(s) && Enabled(s, a) && (a.Take? || a.Give? || a.Track? || a.Untrack?)
    ensures Joined(Apply(s, a))
  {
    hide Refs.Inv;
    hide TreeInv;
    hide EntriesLive;
    hide SameNodes;
    match a
    case Take(o) =>
      Refs.TakenKeeps(s.w, o);
      SameObjects(s.t, s.w, Refs.Taken(s.w, o));
    case Give(o) =>
      Refs.DroppedKeeps(s.w, o);
      SameObjects(s.t, s.w, Refs.Dropped(s.w, o));
    case Track(key, o) =>
      Refs.TrackedKeeps(s.w, key, o);
      SameObjects(s.t, s.w, Refs.Tracked(s.w, key, o));
    case Untrack(key) =>
      Refs.UntrackedKeeps(s.w, key);
      SameObjects(s.t, s.w, Refs.Untracked(s.w, key));
  }

  lemma OpenStep(s: State, fd: Id, kind: Refs.Kind, target: Id)
    requires Joined(s) && Enabled(s, Open(fd, kind, target))
    ensures Joined(Apply(s, Open(fd, kind, target)))
  {
    hide Refs.Inv;
    hide TreeInv;
    hide EntriesLive;
    hide SameNodes;
    hide Refs.KindsFit;
    Refs.MadeKeeps(s.w, fd, kind, target);
    MadeSame(s.t, s.w, fd, kind, target);
  }

  lemma MadeSame(t: Tree, w: Refs.World, fd: Id, kind: Refs.Kind, target: Id)
    requires SameNodes(t, w) && fd !in w.objs && kind != Refs.NodeKind && target in w.rank
    ensures SameNodes(t, Refs.Made(w, fd, kind, target))
  {
  }

  lemma CreateStep(s: State, d: Id, k: Name, n: Id)
    requires Joined(s) && Enabled(s, Create(d, k, n))
    ensures Joined(Apply(s, Create(d, k, n)))
  {
    hide Refs.Inv;
    hide TreeInv;
    hide EntriesLive;
    Steps(s, Create(d, k, n));
    var w := Refs.Taken(s.w, d);
    Refs.TakenKeeps(s.w, d);
    Refs.MadeKeeps(w, n, Refs.NodeKind, d);
    CreatedKeeps(s.t, d, k, n);
    CreatedLive(s.t, d, k, n);
    SameObjects(s.t, s.w, w);
    hide SameNodes;
    CreatedSame(s.t, w, d, k, n);
  }

  lemma CreatedSame(t: Tree, w: Refs.World, d: Id, k: Name, n: Id)
    requires Rooted(t) && SameNodes(t, w) && d in t.nodes && n !in w.objs && d in w.rank
    ensures SameNodes(Created(t, d, k, n), Refs.Made(w, n, Refs.NodeKind, d))
  {
    hide Rooted;
    hide Created;
    CreatedIs(t, d, k, n);
  }

  lemma UnlinkStep(s: State, d: Id, k: Name)
    requires Joined(s) && Enabled(s, Unlink(d, k))
    ensures Joined(Apply(s, Unlink(d, k)))
  {
    hide Refs.Inv;
    hide TreeInv;
    hide EntriesLive;
    UnlinkSteps(s.t, d, k);
    UnlinkedLive(s.t, d, k);
    UnlinkedShape(s.t, d, k);
    hide Unlinked;
    SameShapeSame(s.t, Unlinked(s.t, d, k), s.w);
  }

  lemma UnlinkedShape(t: Tree, d: Id, k: Name)
    requires TreeInv(t, {}) && d in t.nodes && k in t.nodes[d].children
    ensures SameShape(t, Unlinked(t, d, k))
  {
    hide TreeInv;
    DetachKeeps(t, {}, d, k);
    assert Rooted(Detach(t, d, k)) by { UnlinkSteps(t, d, k); }
    BuriedShape(Detach(t, d, k), t.nodes[d].children[k]);
    hide Buried;
  }

  lemma SameShapeSame(t: Tree, t': Tree, w: Refs.World)
    requires SameShape(t, t') && SameNodes(t, w)
    ensures SameNodes(t', w)
  {
  }

  lemma LastStep(s: State, o: Id)
    requires Joined(s) && Enabled(s, Last(o))
    ensures Joined(Apply(s, Last(o))) <==> !Faulty(s, Last(o))
  {
    hide Refs.Inv;
    hide EntriesLive;
    hide Destroyed;
    hide NameReused;
    Refs.LastInHand(s.w, o);
    Refs.DestroyedKeeps(s.w, o);
    if o in s.t.nodes {
      LastReferenceDestroys(s.t, s.w, o);
      DestroyedLive(s.t, o);
      hide TreeInv;
      hide SameNodes;
    } else {
      DestroyedSame(s.t, s.w, o);
    }
  }

  lemma DestroyedSame(t: Tree, w: Refs.World, o: Id)
    requires SameNodes(t, w) && o in w.objs && o !in t.nodes && w.objs[o].target.Some?
    ensures SameNodes(t, Refs.Destroyed(w, o))
  {
  }

  /** One of the moves of a rename. */
  lemma MoveStep(t: Tree, w: Refs.World, x: Id, d: Id, k: Name)
    requires Rooted(t) && Movable(t, x, d, k) && SameNodes(t, w) && Refs.Inv(w)
    requires HasParent(t, x) && Held(w, Parent(t, x))
    ensures var w' := MoveRef(w, x, d); SameNodes(Move(t, x, d, k), w') && Refs.Inv(w')
    ensures forall e: Id :: Held(w, e) ==> Held(MoveRef(w, x, d), e)
  {
    hide Rooted;
    hide Move;
    hide Refs.Moved;
    hide Refs.Count;
    var c :| c in w.objs && w.objs[c].kind != Refs.NodeKind && w.objs[c].target == Some(Parent(t, x));
    LeadsIsUnder(t, w, d, x);
    Refs.MovedKeeps(w, x, d, c);
    Refs.MovedObjs(w, x, d);
    MoveMovesReference(t, w, x, d, k);
    hide Refs.Inv;
    hide Movable;
    StillHeld(w, MoveRef(w, x, d), x);
  }

  lemma StillHeld(w: Refs.World, w': Refs.World, x: Id)
    requires x in w.objs && w.objs[x].kind == Refs.NodeKind && w'.objs.Keys == w.objs.Keys
    requires forall o <- w.objs ::
      w'.objs[o].kind == w.objs[o].kind && (o != x ==> w'.objs[o].target == w.objs[o].target)
    ensures forall e: Id :: Held(w, e) ==> Held(w', e)
  {
    forall e: Id | Held(w, e)
      ensures Held(w', e)
    {
      var b :| b in w.objs && w.objs[b].kind != Refs.NodeKind && w.objs[b].target == Some(e);
      assert w'.objs[b].kind != Refs.NodeKind && w'.objs[b].target == Some(e);
    }
  }

  lemma DisplaceStep(s: State, r: Rename)
    requires Joined(s) && Enabled(s, Renames(r))
    ensures var w := Displacing(s.t, s.w, r);
            SameNodes(Cleared(s.t, r), w) && Refs.Inv(w) && forall e: Id :: Held(s.w, e) ==> Held(w, e)
  {
    BothDetachedKeeps(s.t, r);
    var t2, y := BothDetached(s.t, r), Child(s.t, r.newDir, r.newName);
    assert SameNodes(t2, s.w);
    if y.Some? {
      ChildFacts(s.t, r.newDir, r.newName, y.value, y.value);
      if r.exchange {
        DetachedMovable(s.t, r, y.value);
        assert HasParent(t2, y.value);
        MoveStep(t2, s.w, y.value, r.oldDir, r.oldName);
      } else {
        BuriedShape(t2, y.value);
      }
    }
  }

  lemma RenameStep(s: State, r: Rename)
    requires Joined(s) && Enabled(s, Renames(r))
    ensures Joined(Apply(s, Renames(r)))
  {
    DisplaceStep(s, r);
    RenameKeepsInv(s.t, r);
    RenamedLive(s.t, r);
    var t3, w, x := Cleared(s.t, r), Displacing(s.t, s.w, r), Child(s.t, r.oldDir, r.oldName);
    if x.Some? {
      PlaceMovable(s.t, r, x.value);
      ClearedIsDisplaced(s.t, r);
      MoveStep(t3, w, x.value, r.newDir, r.newName);
    }
  }

  /** Every step but a faulty one keeps the tree, the counts and their agreement. */
  lemma StepKeeps(s: State, a: Action)
    requires Joined(s) && Enabled(s, a)
    ensures Joined(Apply(s, a)) <==> !Faulty(s, a)
  {
    hide Joined;
    hide Apply;
    hide Enabled;
    match a
    case Last(o) => LastStep(s, o);
    case Create(d, k, n) => CreateStep(s, d, k, n);
    case Open(fd, kind, target) => OpenStep(s, fd, kind, target);
    case Unlink(d, k) => UnlinkStep(s, d, k);
    case Renames(r) => RenameStep(s, r);
    case _ => ReferenceSteps(s, a);
  }

  // ---------------------------------------------------------------------
  // Runs
  // ---------------------------------------------------------------------

  /** Every step is enabled when it is taken, and none is faulty. */
  ghost predicate IsRun(s: State, actions: seq<Action>)
    requires Joined(s)
    decreases |actions|
  {
    if actions == [] then true
    else
      && Enabled(s, actions[0]) && !Faulty(s, actions[0])
      && (StepKeeps(s, actions[0]); IsRun(Apply(s, actions[0]), actions[1..]))
  }

  ghost function After(s: State, actions: seq<Action>): (s': State)
    requires Joined(s) && IsRun(s, actions)
    ensures Joined(s')
    decreases |actions|
  {
    if actions == [] then s
    else
      StepKeeps(s, actions[0]);
      After(Apply(s, actions[0]), actions[1..])
  }

  /** A run can go on with every step that is enabled and not faulty; a faulty one
      would leave no tree. */
  lemma {:induction false} RunGoesOn(s: State, actions: seq<Action>, a: Action)
    requires Joined(s) && IsRun(s, actions) && Enabled(After(s, actions), a)
    ensures IsRun(s, actions + [a]) <==> Joined(Apply(After(s, actions), a))
    decreases |actions|
  {
    hide Joined;
    hide Enabled;
    hide Faulty;
    hide Apply;
    if actions == [] {
      assert actions + [a] == [a] && [a][1..] == [];
      StepKeeps(s, a);
    } else {
      assert (actions + [a])[1..] == actions[1..] + [a];
      StepKeeps(s, actions[0]);
      RunGoesOn(Apply(s, actions[0]), actions[1..], a);
    }
  }

  /** A server that has just started. */
  ghost function Start(): State {
    State(Tree(map[0 := Node("", None, false, map[])], 0, map[0 := 0]),
          Refs.World(map[0 := Refs.Obj(Refs.NodeKind, None, 1)], 0, map[], multiset{}, map[0 := 0]))
  }

  lemma StartJoined()
    ensures Joined(Start())
  {
    var w := Start().w;
    assert Refs.Holders(w, 0) == {} && Refs.Tracking(w, 0) == {};
    assert Refs.CountRight(w, 0);
  }

  ghost predicate Happens(actions: seq<Action>) {
    StartJoined();
    IsRun(Start(), actions)
  }

  ghost function Reached(actions: seq<Action>): (s: State)
    requires Happens(actions)
    ensures Joined(s)
  {
    StartJoined();
    After(Start(), actions)
  }

  /** In every run from the start, the nodes of the tree are exactly the live
      ones: the root and those that a tracked FD or a reference in hand leads to,
      through FDs and then up the tree. No two that are not deleted have the same
      path. */
  lemma RunIsSafe(actions: seq<Action>, n: Id, m: Id)
    requires Happens(actions)
    ensures var s := Reached(actions);
            && (n in s.t.nodes <==>
                  && (n == s.t.root || exists x <- s.w.objs :: Refs.InUse(s.w, x) && Refs.Leads(s.w, x, n))
                  && (n in s.w.objs ==> s.w.objs[n].kind == Refs.NodeKind))
            && (Live(s, n) && Live(s, m) && Path(s.t, n) == Path(s.t, m) ==> n == m)
  {
    var s := Reached(actions);
    hide Reached;
    Refs.LiveIffNeeded(s.w, n);
    hide Refs.Inv;
    hide EntriesLive;
    hide Refs.Leads;
    if Live(s, n) && Live(s, m) && Path(s.t, n) == Path(s.t, m) {
      PathsAreUnique(s.t, n, m);
    }
  }

  predicate Live(s: State, n: Id) {
    n in s.t.nodes && !s.t.nodes[n].deleted
  }

  predicate NodeAdded(t: Tree, t': Tree, d: Id, k: Name, n: Id) {
    && d in t.nodes && n !in t.nodes && n in t'.nodes && d in t'.nodes && t'.root == t.root
    && t'.nodes[n] == Node(k, Some(d), false, map[])
    && t'.nodes[d] == t.nodes[d].(children := t.nodes[d].children[k := n])
    && forall m <- t.nodes :: m in t'.nodes && (m != d ==> t'.nodes[m] == t.nodes[m])
  }

  predicate NodeCounted(w: Refs.World, w': Refs.World, d: Id, n: Id) {
    && w'.objs.Keys == w.objs.Keys + {n} && w'.objs[n].refs == 1 && n in w'.temps
    && forall o <- w.objs :: o != d ==> w'.objs[o] == w.objs[o] && w'.temps[o] == w.temps[o]
  }

  predicate EntryGone(t: Tree, t': Tree, d: Id, k: Name) {
    && d in t.nodes && d in t'.nodes && t'.nodes[d] == t.nodes[d].(children := t.nodes[d].children - {k})
  }

  lemma AfterCreate(s: State, d: Id, k: Name, n: Id)
    requires Joined(s) && Enabled(s, Create(d, k, n))
    ensures var s' := Apply(s, Create(d, k, n));
            Joined(s') && NodeAdded(s.t, s'.t, d, k, n) && NodeCounted(s.w, s'.w, d, n)
  {
    StepKeeps(s, Create(d, k, n));
    Steps(s, Create(d, k, n));
    assert n !in s.t.nodes;
    hide Refs.Inv;
    hide TreeInv;
    hide EntriesLive;
    hide SameNodes;
    CreatedFacts(s.t, d, k, n);
    MadeFacts(s.w, d, n);
    hide Created;
    hide Refs.Made;
    hide Refs.Taken;
  }

  lemma CreatedFacts(t: Tree, d: Id, k: Name, n: Id)
    requires Rooted(t) && d in t.nodes && n !in t.nodes
    ensures NodeAdded(t, Created(t, d, k, n), d, k, n)
  {
    hide Rooted;
    CreatedIs(t, d, k, n);
    hide Created;
  }

  lemma MadeFacts(w: Refs.World, d: Id, n: Id)
    requires d in w.objs && d in w.rank && n !in w.objs
    ensures NodeCounted(w, Refs.Made(Refs.Taken(w, d), n, Refs.NodeKind, d), d, n)
  {
  }

  lemma AfterUnlink(s: State, d: Id, k: Name)
    requires Joined(s) && Enabled(s, Unlink(d, k))
    ensures var s' := Apply(s, Unlink(d, k));
            Joined(s') && s'.w == s.w && SameShape(s.t, s'.t) && EntryGone(s.t, s'.t, d, k)
  {
    hide TreeInv;
    hide SameNodes;
    hide Refs.Inv;
    hide EntriesLive;
    StepKeeps(s, Unlink(d, k));
    UnlinkedShape(s.t, d, k);
    UnlinkedTable(s.t, d, k);
    hide Unlinked;
  }

  lemma UnlinkedTable(t: Tree, d: Id, k: Name)
    requires TreeInv(t, {}) && d in t.nodes && k in t.nodes[d].children
    ensures EntryGone(t, Unlinked(t, d, k), d, k)
  {
    var c := t.nodes[d].children[k];
    ChildFacts(t, d, k, c, d);
    hide TreeInv;
    DetachKeeps(t, {}, d, k);
    UnlinkCorrect(t, d, k, d);
    hide Under;
  }

  /** A faulty step can be reached: make a node, unlink it while the reference is
      still in hand, make another of that name, and give the reference back. */
  lemma FaultIsReached()
    ensures var actions := [Create(0, "a", 1), Unlink(0, "a"), Create(0, "a", 2)];
            Happens(actions) && Enabled(Reached(actions), Last(1)) && Faulty(Reached(actions), Last(1))
  {
    hide Joined;
    hide Apply;
    StartJoined();
    var a1, a2, a3 := Create(0, "a", 1), Unlink(0, "a"), Create(0, "a", 2);
    var s0 := Start();
    AfterCreate(s0, 0, "a", 1);
    var s1 := Apply(s0, a1);
    AfterUnlink(s1, 0, "a");
    var s2 := Apply(s1, a2);
    AfterCreate(s2, 0, "a", 2);
    var s3 := Apply(s2, a3);
    assert Child(s3.t, 0, "a") == Some(2);
    assert Enabled(s3, Last(1)) && Faulty(s3, Last(1));
    RunOf(s2, a3, []);
    RunOf(s1, a2, [a3]);
    RunOf(s0, a1, [a2, a3]);
  }

  lemma RunOf(s: State, a: Action, rest: seq<Action>)
    requires Joined(s) && Enabled(s, a) && !a.Last? && Joined(Apply(s, a)) && IsRun(Apply(s, a), rest)
    ensures IsRun(s, [a] + rest) && After(s, [a] + rest) == After(Apply(s, a), rest)
  {
    assert ([a] + rest)[1..] == rest;
  }
}
