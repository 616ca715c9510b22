/** Buffers together with views that are in none of them: views are written,
    trimmed, cloned and given to buffers, and everything still acts as on separate
    byte sequences. */
module BufferPools {
  import opened BufferViews
  import opened Buffers
  import opened BufferRuns

  datatype Contents = Contents(buffers: Model, views: seq<seq<Byte>>)

  /** An operation on the buffers, or on the views by position. A view given to a
      buffer is no longer in the pool. */
  datatype Action =
    | OnBuffers(op: Op)
    | MakeView(bytes: seq<Byte>)
    | WriteView(k: nat, bytes: seq<Byte>)
    | WriteViewAt(k: nat, bytes: seq<Byte>, offset: int)
    | TrimView(k: nat, count: nat)
    | CloneView(k: nat)
    | ReleaseView(k: nat)
    | AppendFrom(i: nat, k: nat)
    | PrependFrom(i: nat, k: nat)

  function Without<T>(s: seq<T>, k: nat): seq<T>
    requires k < |s|
  {
    s[..k] + s[k + 1..]
  }

  /** What a view operation leaves of the bytes it is about. */
  function Edited(s: seq<Byte>, a: Action): seq<Byte> {
    match a
    case WriteView(_, bytes) => s + bytes
    case WriteViewAt(_, bytes, offset) =>
      if 0 <= offset <= |s| then Overwrite(s, offset, bytes[..Clamp(|bytes|, |s| - offset)]) else s
    case TrimView(_, count) => s[Clamp(count, |s|)..]
    case _ => s
  }

  function Together(front: bool, added: seq<Byte>, s: seq<Byte>): seq<Byte> {
    if front then added + s else s + added
  }

  /** The bytes of view k go to buffer i. */
  function Given(m: Contents, i: nat, k: nat, front: bool): Contents
    requires i < |m.buffers| && k < |m.views|
  {
    Contents(m.buffers[i := Together(front, m.views[k], m.buffers[i])], Without(m.views, k))
  }

  function Act(m: Contents, a: Action): Contents {
    match a
    case OnBuffers(op) => m.(buffers := Step(m.buffers, op))
    case MakeView(bytes) => m.(views := m.views + [bytes])
    case CloneView(k) => if k < |m.views| then m.(views := m.views + [m.views[k]]) else m
    case ReleaseView(k) => if k < |m.views| then m.(views := Without(m.views, k)) else m
    case AppendFrom(i, k) => if i < |m.buffers| && k < |m.views| then Given(m, i, k, false) else m
    case PrependFrom(i, k) => if i < |m.buffers| && k < |m.views| then Given(m, i, k, true) else m
    case _ => if a.k < |m.views| then m.(views := m.views[a.k := Edited(m.views[a.k], a)]) else m
  }

  function ActAll(m: Contents, actions: seq<Action>): Contents {
    if actions == [] then m else Act(ActAll(m, actions[..|actions| - 1]), actions[|actions| - 1])
  }

  /** The buffers and the views. */
  datatype World = World(store: seq<Buffer>, pool: seq<View>)

  /** The actions that do not go wrong: a view is not trimmed past its end, which
      is a panic, and Prepend does not take its filling branch with a view that
      does not begin at the start of its chunk. */
  predicate Proper(w: World, a: Action)
    reads w.store, Views(w.store), ChunksOf(w.store), w.pool
  {
    && (a.TrimView? && a.k < |w.pool| ==> a.count <= w.pool[a.k].Size())
    && (a.PrependFrom? && a.i < |w.store| && a.k < |w.pool| ==>
          (PartOf(w.store, a.i); !w.store[a.i].Fills(w.pool[a.k]) || w.pool[a.k].read == 0))
  }

  // ---------------------------------------------------------------------
  // The invariant
  // ---------------------------------------------------------------------

  ghost function PoolChunks(w: World): set<Chunk>
    reads w.pool
  {
    set v | v in w.pool :: v.chunk
  }

  /** All the views there are. */
  ghost function All(w: World): set<View>
    reads w.store
  {
    Views(w.store) + Members(w.pool)
  }

  ghost predicate PoolInv(w: World, views: seq<seq<Byte>>)
    reads w.store, w.pool, PoolChunks(w), Owners(PoolChunks(w))
  {
    && |w.pool| == |views| && Distinct(w.pool)
    && (forall k | 0 <= k < |w.pool| :: w.pool[k] !in Views(w.store) && w.pool[k].Owned())
    && (forall k | 0 <= k < |w.pool| :: w.pool[k].Contents() == views[k])
  }

  /** The buffers and the views show what the model says, and hold all the
      references to their chunks. */
  ghost predicate Inv(w: World, m: Contents)
    reads w.store, Views(w.store), ChunksOf(w.store), Owners(ChunksOf(w.store))
    reads w.pool, PoolChunks(w), Owners(PoolChunks(w))
  {
    StoreInv(w.store, m.buffers) && PoolInv(w, m.views) && NoLeaks(w.store, Members(w.pool))
  }

  /** The chunks of all the views. */
  ghost function Chunks(w: World): set<Chunk>
    reads w.store, Views(w.store), w.pool
  {
    ChunksOf(w.store) + PoolChunks(w)
  }

  /** All the objects. */
  ghost function Reach(w: World): set<object>
    reads w.store, Views(w.store), w.pool
  {
    (set b | b in w.store :: b as object) + (set v | v in All(w) :: v as object)
    + (set c | c in Chunks(w) :: c as object)
  }

  /** Whatever is in the new state and was not in the old one is new. */
  twostate predicate Onward(w: World, new w': World)
    reads w'.store, Views(w'.store), w'.pool
  {
    forall o <- Reach(w') :: o in old(Reach(w)) || fresh(o)
  }

  lemma PoolOutside(w: World, views: seq<seq<Byte>>)
    requires PoolInv(w, views)
    ensures Outside(w.store, Members(w.pool))
  {
  }

  /** All but one view of the pool. */
  ghost function Rest(w: World, k: nat): set<View>
    requires k < |w.pool|
    reads w.store
  {
    Views(w.store) + Members(Without(w.pool, k))
  }

  lemma RestIs(w: World, views: seq<seq<Byte>>, k: nat)
    requires PoolInv(w, views) && k < |w.pool|
    ensures All(w) == Rest(w, k) + {w.pool[k]} && w.pool[k] !in Rest(w, k)
    ensures forall j | 0 <= j < |w.pool| && j != k :: w.pool[j] in Rest(w, k)
  {
    LessOne(w.pool, k);
    hide Without;
    hide Distinct;
    hide View.Owned;
    hide View.Contents;
    assert forall j | 0 <= j < |w.pool| && j != k :: w.pool[j] in Members(Without(w.pool, k));
    assert All(w) == Rest(w, k) + {w.pool[k]};
  }

  lemma LessOne(pool: seq<View>, k: nat)
    requires Distinct(pool) && k < |pool|
    ensures Members(pool) == Members(Without(pool, k)) + {pool[k]} && pool[k] !in Members(Without(pool, k))
    ensures forall j | 0 <= j < |pool| && j != k :: pool[j] in Without(pool, k)
  {
    forall j | 0 <= j < |pool| && j != k
      ensures pool[j] in Without(pool, k) && pool[j] != pool[k]
    {
      assert pool[j] == Without(pool, k)[if j < k then j else j - 1];
    }
    forall v <- Without(pool, k)
      ensures v in pool && v != pool[k]
    {
      var j :| 0 <= j < |Without(pool, k)| && Without(pool, k)[j] == v;
      assert v == pool[if j < k then j else j + 1];
    }
  }

  lemma AllAreOwned(w: World, m: Contents)
    requires StoreInv(w.store, m.buffers) && PoolInv(w, m.views)
    ensures forall u <- All(w) :: u.Owned()
  {
    AllOwned(w.store, m.buffers);
  }

  /** The reference count of every chunk is the number of views on it. */
  lemma CountsAreAllViews(w: World, m: Contents, v: View)
    requires Inv(w, m) && v in All(w)
    ensures v.chunk.refCount == |Sharers(All(w), v.chunk)|
  {
    PoolOutside(w, m.views);
    CountsAreViews(w.store, m.buffers, Members(w.pool), v);
  }

  // ---------------------------------------------------------------------
  // Actions on views
  // ---------------------------------------------------------------------

  /** A view of the pool has been edited, and nothing else shows it. */
  twostate lemma OneEdited(w: World, new m: Contents, new k: nat, new s: seq<Byte>)
    requires k < |w.pool| && old(Inv(w, m)) && w.pool[k].Owned() && w.pool[k].Contents() == s
    requires forall b <- w.store :: b.data == old(b.data) && b.size == old(b.size)
    requires forall u <- old(Rest(w, k)) :: u.Owned() && u.Contents() == old(u.Contents())
    ensures StoreInv(w.store, m.buffers) && PoolInv(w, m.views[k := s]) && All(w) == old(All(w))
  {
    hide View.Owned;
    hide View.Contents;
    NoneChanged(w.store, m.buffers);
    hide StoreInv;
    assert Views(w.store) == old(Views(w.store));
    forall j | 0 <= j < |w.pool| && j != k
      ensures w.pool[j] in old(Rest(w, k))
    {
      assert w.pool[j] == Without(w.pool, k)[if j < k then j else j - 1];
    }
  }

  /** Only the given view has changed, and its chunk is an old or a new one. */
  twostate lemma EditedOnward(w: World, new k: nat)
    requires k < |w.pool| && forall b <- w.store :: b.data == old(b.data)
    requires forall u <- old(All(w)) :: u != w.pool[k] ==> u.chunk == old(u.chunk)
    requires w.pool[k].chunk == old(w.pool[k].chunk) || fresh(w.pool[k].chunk)
    ensures Onward(w, w)
  {
    assert Views(w.store) == old(Views(w.store)) && All(w) == old(All(w));
    forall v <- All(w)
      ensures v.chunk in old(Chunks(w)) || fresh(v.chunk)
    {
      assert old(v.chunk in Chunks(w));
    }
    ReachedFrom(w, w);
  }

  twostate lemma ReachedFrom(w: World, new w': World)
    requires forall b <- w'.store :: b in w.store || fresh(b)
    requires forall v <- All(w') :: v in old(All(w)) || fresh(v)
    requires forall v <- All(w') :: v.chunk in old(Chunks(w)) || fresh(v.chunk)
    ensures Onward(w, w')
  {
    forall c <- Chunks(w')
      ensures c in old(Chunks(w)) || fresh(c)
    {
      var v :| v in All(w') && v.chunk == c;
    }
    forall o <- Reach(w')
      ensures o in old(Reach(w)) || fresh(o)
    {
      if b :| b in w'.store && o == b as object {
      } else if v :| v in All(w') && o == v as object {
      } else {
        var c :| c in Chunks(w') && o == c as object;
      }
    }
  }

  method Edit(w: World, k: nat, a: Action, ghost m: Contents)
    requires Inv(w, m) && k < |w.pool| && (a.WriteView? || a.WriteViewAt? || a.TrimView?) && a.k == k && Proper(w, a)
    modifies w.pool[k], w.pool[k].chunk
    ensures Inv(w, m.(views := m.views[k := Edited(m.views[k], a)])) && Onward(w, w)
  {
    var v := w.pool[k];
    AllAreOwned(w, m);
    RestIs(w, m.views, k);
    SizeIsLength(v);
    hide View.Owned;
    hide View.Contents;
    hide Closed;
    hide StoreInv;
    hide Overwrite;
    FewerOutside(w, m.views, k);
    hide PoolInv;
    hide Onward;
    hide Outside;
    ghost var rest := Rest(w, k);
    if a.WriteView? {
      var _ := v.Write(a.bytes, rest);
    } else if a.WriteViewAt? {
      var _, _ := v.WriteAt(a.bytes, a.offset, rest);
    } else {
      v.TrimFront(a.count, rest);
    }
    OneEdited(w, m, k, Edited(m.views[k], a));
    EditedOnward(w, k);
  }

  method Make(w: World, bytes: seq<Byte>, ghost m: Contents) returns (w': World)
    requires Inv(w, m)
    ensures Inv(w', m.(views := m.views + [bytes])) && Onward(w, w')
  {
    hide View.Owned;
    hide View.Contents;
    hide Closed;
    hide StoreInv;
    AllAreOwned(w, m);
    var v := new View.WithData(bytes);
    NoneChanged(w.store, m.buffers);
    ClosedWithNew(All(w), v);
    OneMore(Views(w.store), w.pool, v);
    w' := World(w.store, w.pool + [v]);
    Joins(w, m.views, v, bytes);
    ReachedFrom(w, w');
  }

  lemma Joins(w: World, views: seq<seq<Byte>>, v: View, s: seq<Byte>)
    requires PoolInv(w, views) && v.Owned() && v.Contents() == s && v !in All(w)
    ensures PoolInv(World(w.store, w.pool + [v]), views + [s])
  {
  }

  method CloneOf(w: World, k: nat, ghost m: Contents) returns (w': World)
    requires Inv(w, m) && k < |w.pool|
    modifies w.pool[k].chunk
    ensures Inv(w', m.(views := m.views + [m.views[k]])) && Onward(w, w')
  {
    AllAreOwned(w, m);
    RestIs(w, m.views, k);
    hide View.Owned;
    hide View.Contents;
    hide Closed;
    hide StoreInv;
    ghost var all := All(w);
    FewerOutside(w, m.views, k);
    hide PoolInv;
    hide Onward;
    hide Outside;
    var v := w.pool[k].Clone(all);
    SameContents(w.pool[k], v);
    OneEdited(w, m, k, m.views[k]);
    assert m.views[k := m.views[k]] == m.views;
    OneMore(Views(w.store), w.pool, v);
    w' := World(w.store, w.pool + [v]);
    Joins(w, m.views, v, m.views[k]);
    ReachedFrom(w, w');
  }

  lemma SameContents(u: View, v: View)
    requires u.chunk == v.chunk && u.read == v.read && u.write == v.write
    ensures u.Contents() == v.Contents()
  {
  }

  method Free(w: World, k: nat, ghost m: Contents) returns (w': World)
    requires Inv(w, m) && k < |w.pool|
    modifies w.pool[k].chunk
    ensures Inv(w', m.(views := Without(m.views, k))) && Onward(w, w')
  {
    AllAreOwned(w, m);
    RestIs(w, m.views, k);
    hide View.Owned;
    hide View.Contents;
    hide Closed;
    hide StoreInv;
    w.pool[k].Release(Rest(w, k));
    w' := World(w.store, Without(w.pool, k));
    NoneChanged(w.store, m.buffers);
    OneLess(w, m.views, k);
    ReachedFrom(w, w');
  }

  twostate lemma OneLess(w: World, new views: seq<seq<Byte>>, new k: nat)
    requires k < |w.pool| && old(PoolInv(w, views))
    requires forall b <- w.store :: b.data == old(b.data)
    requires forall u <- old(Rest(w, k)) :: u.Owned() && u.Contents() == old(u.Contents())
    ensures PoolInv(World(w.store, Without(w.pool, k)), Without(views, k))
    ensures Views(w.store) == old(Views(w.store))
  {
    hide View.Owned;
    hide View.Contents;
    assert Views(w.store) == old(Views(w.store));
    LessDistinct(w.pool, k);
    forall j | 0 <= j < |Without(w.pool, k)|
      ensures Without(w.pool, k)[j] == w.pool[if j < k then j else j + 1]
      ensures Without(views, k)[j] == views[if j < k then j else j + 1]
      ensures Without(w.pool, k)[j] in old(Rest(w, k))
    {
      assert Without(w.pool, k)[j] in Without(w.pool, k);
    }
  }

  lemma LessDistinct(pool: seq<View>, k: nat)
    requires Distinct(pool) && k < |pool|
    ensures Distinct(Without(pool, k))
  {
  }

  // ---------------------------------------------------------------------
  // Views given to buffers
  // ---------------------------------------------------------------------

  method Put(b: Buffer, v: View, front: bool, ghost others: set<View>)
    requires b.Valid() && v.Owned() && v !in b.data
    requires forall u <- others :: u !in b.data && u != v && u.Owned()
    requires front ==> !b.Fills(v) || v.read == 0
    modifies b, b.data, b.Chunks(), v, v.chunk
    ensures old(b.ClosedWith(others + {v})) ==> b.ClosedWith(others)
    ensures b.Valid()
    ensures b.Contents() == old(Together(front, v.Contents(), b.Contents()))
    ensures forall u <- b.data :: u in old(b.data) || u == v
    ensures forall u <- b.data :: u.chunk in old(b.Chunks()) || fresh(u.chunk) || u.chunk == old(v.chunk)
    ensures forall u <- others :: u.Owned() && u.Contents() == old(u.Contents())
  {
    hide View.Owned;
    hide View.Contents;
    hide Closed;
    hide Shown;
    if front {
      b.PrependView(v, others);
    } else {
      b.AppendView(v, others);
    }
  }

  /** Give a view outside the store to buffer i. */
  method GiveTo(store: seq<Buffer>, i: nat, v: View, front: bool, ghost m: Model, ghost more: set<View>)
    requires StoreInv(store, m) && i < |store| && Outside(store, more)
    requires v !in Views(store) && v !in more && v.Owned() && (front ==> !store[i].Fills(v) || v.read == 0)
    modifies store[i], store[i].data, store[i].Chunks(), v, v.chunk
    ensures old(NoLeaks(store, more + {v})) ==> NoLeaks(store, more)
    ensures StoreInv(store, m[i := old(Together(front, v.Contents(), m[i]))])
    ensures forall u <- Views(store) :: u in old(Views(store)) || u == v
    ensures forall u <- Views(store) :: u.chunk in old(ChunksOf(store)) || fresh(u.chunk) || u.chunk == old(v.chunk)
    ensures Outside(store, more) && forall u <- more :: u.Contents() == old(u.Contents()) && u.chunk == old(u.chunk)
  {
    hide View.Owned;
    hide View.Contents;
    hide Shown;
    hide StoreInv;
    hide NoLeaks;
    hide Closed;
    hide Outside;
    hide Together;
    hide Buffer.ClosedWith;
    Ready(store, i, v, m, more);
    ghost var s := Together(front, v.Contents(), m[i]);
    Put(store[i], v, front, OtherViews(store, i) + more);
    hide Buffer.Valid;
    hide Buffer.Contents;
    OneChanged(store, m, i, s);
    StillNoLeaks(store, more, i);
    GivenViews(store, i, v);
    MoreOutside(store, more, v);
  }

  lemma Ready(store: seq<Buffer>, i: nat, v: View, m: Model, more: set<View>)
    requires StoreInv(store, m) && i < |store| && Outside(store, more) && v !in Views(store) && v !in more
    ensures |store| == |m| && Holds(store[i], m[i]) && v !in store[i].data && v !in OtherViews(store, i)
    ensures forall j | 0 <= j < |store| && j != i :: store[j] != store[i]
    ensures forall u <- OtherViews(store, i) + more :: u !in store[i].data && u != v && u.Owned()
    ensures forall u <- more :: u !in Views(store)
    ensures NoLeaks(store, more + {v}) <==> store[i].ClosedWith(OtherViews(store, i) + more + {v})
  {
    NoLeaksSplit(store, more + {v}, i);
    OthersOwned(store, m, i);
    PartOf(store, i);
    ViewsSplit(store, i);
    assert OtherViews(store, i) + (more + {v}) == OtherViews(store, i) + more + {v};
  }

  twostate lemma MoreOutside(store: seq<Buffer>, new more: set<View>, new v: View)
    requires forall u <- Views(store) :: u in old(Views(store)) || u == v
    requires forall u <- more :: u.Owned() && u != v && !fresh(u) && u !in old(Views(store))
    ensures Outside(store, more)
  {
  }

  twostate lemma GivenViews(store: seq<Buffer>, new i: nat, new v: View)
    requires i < |store| && forall j | 0 <= j < |store| && j != i :: store[j].data == old(store[j].data)
    requires !fresh(v) && forall u <- store[i].data :: u in old(store[i].data) || u == v
    requires forall u <- store[i].data :: u.chunk in old(store[i].Chunks()) || fresh(u.chunk) || u.chunk == old(v.chunk)
    requires forall u <- old(OtherViews(store, i)) :: u.chunk == old(u.chunk)
    ensures forall u <- Views(store) :: u in old(Views(store)) || u == v
    ensures forall u <- Views(store) :: u.chunk in old(ChunksOf(store)) || fresh(u.chunk) || u.chunk == old(v.chunk)
  {
    forall u <- Views(store)
      ensures u in old(Views(store)) || u == v
      ensures u.chunk in old(ChunksOf(store)) || fresh(u.chunk) || u.chunk == old(v.chunk)
    {
      var b :| b in store && u in b.data;
      var j :| 0 <= j < |store| && b == store[j];
      OldPart(store, j);
      if j != i { assert u in old(OtherViews(store, i)); }
    }
  }

  method Give(w: World, i: nat, k: nat, front: bool, ghost m: Contents) returns (w': World)
    requires Inv(w, m) && i < |w.store| && k < |w.pool| && (front ==> Proper(w, PrependFrom(i, k)))
    modifies Reach(w)
    ensures i < |m.buffers| && k < |m.views| && Inv(w', Given(m, i, k, front)) && Onward(w, w')
  {
    var v := w.pool[k];
    RestIs(w, m.views, k);
    HoldsAt(w.store, m.buffers, i);
    hide Together;
    hide View.Owned;
    hide View.Contents;
    hide Shown;
    hide StoreInv;
    hide Closed;
    ghost var more := Members(Without(w.pool, k));
    assert Views(w.store) + (more + {v}) == All(w);
    FewerOutside(w, m.views, k);
    BufferInReach(w, i);
    ViewInReach(w, k);
    hide PoolInv;
    hide Onward;
    hide Outside;
    hide Reach;
    GiveTo(w.store, i, v, front, m.buffers, more);
    w' := World(w.store, Without(w.pool, k));
    FewerInPool(w, w.store, m.views, k);
    GivenOnward(w, k);
  }

  lemma FewerOutside(w: World, views: seq<seq<Byte>>, k: nat)
    requires PoolInv(w, views) && k < |w.pool|
    ensures Outside(w.store, Members(Without(w.pool, k))) && w.pool[k] !in Members(Without(w.pool, k))
    ensures w.pool[k].Owned() && w.pool[k] !in Views(w.store) && w.pool[k].Contents() == views[k]
    ensures |views| == |w.pool|
  {
    RestIs(w, views, k);
    InPool(w, k);
  }

  twostate lemma GivenOnward(w: World, new k: nat)
    requires k < |w.pool|
    requires forall u <- Views(w.store) :: u in old(Views(w.store)) || u == w.pool[k]
    requires forall u <- Views(w.store) ::
      u.chunk in old(ChunksOf(w.store)) || fresh(u.chunk) || u.chunk == old(w.pool[k].chunk)
    requires forall u <- Members(Without(w.pool, k)) :: u.chunk == old(u.chunk)
    ensures Onward(w, World(w.store, Without(w.pool, k)))
  {
    var w' := World(w.store, Without(w.pool, k));
    assert forall u <- Members(w'.pool) :: u in w.pool;
    assert old(w.pool[k].chunk in PoolChunks(w)) by { assert w.pool[k] in w.pool; }
    forall u <- All(w')
      ensures u in old(All(w)) && (u.chunk in old(Chunks(w)) || fresh(u.chunk))
    {
      assert u in Members(w'.pool) ==> old(u.chunk in PoolChunks(w));
    }
    ReachedFrom(w, w');
  }

  lemma InPool(w: World, k: nat)
    requires k < |w.pool|
    ensures w.pool[k].chunk in PoolChunks(w) && forall u <- Members(Without(w.pool, k)) :: u in w.pool
  {
    assert w.pool[k] in w.pool;
  }

  /** The views that stay in the pool, next to a store that has changed. */
  twostate lemma FewerInPool(w: World, new store: seq<Buffer>, new views: seq<seq<Byte>>, new k: nat)
    requires k < |w.pool| && old(PoolInv(w, views))
    requires Outside(store, Members(Without(w.pool, k)))
    requires forall u <- Members(Without(w.pool, k)) :: u.Contents() == old(u.Contents())
    ensures PoolInv(World(store, Without(w.pool, k)), Without(views, k))
  {
    hide View.Owned;
    hide View.Contents;
    LessDistinct(w.pool, k);
    forall j | 0 <= j < |Without(w.pool, k)|
      ensures Without(w.pool, k)[j] == w.pool[if j < k then j else j + 1]
      ensures Without(views, k)[j] == views[if j < k then j else j + 1]
      ensures Without(w.pool, k)[j] in Members(Without(w.pool, k))
    {
    }
  }

  // ---------------------------------------------------------------------
  // Runs
  // ---------------------------------------------------------------------

  method OnStore(w: World, op: Op, ghost m: Contents) returns (w': World)
    requires Inv(w, m)
    modifies Footprint(w.store)
    ensures Inv(w', Act(m, OnBuffers(op))) && Onward(w, w')
  {
    PoolOutside(w, m.views);
    hide View.Owned;
    hide View.Contents;
    hide Closed;
    hide StoreInv;
    hide Outside;
    hide FromOld;
    InNone(w, m.views);
    hide PoolInv;
    hide Onward;
    var store := Do(w.store, op, m.buffers, Members(w.pool));
    w' := World(store, w.pool);
    StaysInPool(w, store, m.views);
    StoreOnward(w, store);
  }

  lemma InNone(w: World, views: seq<seq<Byte>>)
    requires PoolInv(w, views)
    ensures forall v <- w.pool :: v as object !in Footprint(w.store)
  {
    forall v <- w.pool
      ensures v as object !in Footprint(w.store)
    {
      var k :| 0 <= k < |w.pool| && w.pool[k] == v;
    }
  }

  twostate lemma StaysInPool(w: World, new store: seq<Buffer>, new views: seq<seq<Byte>>)
    requires old(PoolInv(w, views)) && Outside(store, Members(w.pool))
    requires forall u <- Members(w.pool) :: u.Contents() == old(u.Contents())
    ensures PoolInv(World(store, w.pool), views)
  {
    hide View.Owned;
    hide View.Contents;
    assert forall k | 0 <= k < |w.pool| :: w.pool[k] in Members(w.pool);
  }

  twostate lemma StoreOnward(w: World, new store: seq<Buffer>)
    requires FromOld(w.store, store) && forall v <- w.pool :: v.chunk == old(v.chunk)
    ensures Onward(w, World(store, w.pool))
  {
    forall v <- Views(store)
      ensures v.chunk in old(Chunks(w)) || fresh(v.chunk)
    {
      assert v.chunk in ChunksOf(store) && v.chunk as object in Footprint(store);
    }
    forall b <- store
      ensures b in w.store || fresh(b)
    {
      assert b as object in Footprint(store);
    }
    assert forall v <- w.pool :: old(v.chunk in PoolChunks(w));
    ReachedFrom(w, World(store, w.pool));
  }

  lemma Lengths(w: World, m: Contents)
    requires Inv(w, m)
    ensures |w.store| == |m.buffers| && |w.pool| == |m.views|
  {
    SameLength(w.store, m.buffers);
  }

  lemma StoreInReach(w: World)
    ensures Footprint(w.store) <= Reach(w)
  {
    assert forall v <- Views(w.store) :: v in All(w);
  }

  lemma BufferInReach(w: World, i: nat)
    requires i < |w.store|
    ensures w.store[i] in Reach(w) && (forall v <- w.store[i].data :: v in Reach(w))
    ensures forall c <- w.store[i].Chunks() :: c in Reach(w)
  {
    InFootprint(w.store, i);
    StoreInReach(w);
  }

  lemma ViewInReach(w: World, k: nat)
    requires k < |w.pool|
    ensures w.pool[k] in Reach(w) && w.pool[k].chunk in Reach(w)
  {
    InPool(w, k);
    assert w.pool[k] in All(w) && w.pool[k].chunk in Chunks(w);
  }

  /** An action that does not go wrong does to the world what it does to byte
      sequences. */
  method Perform(w: World, a: Action, ghost m: Contents) returns (w': World)
    requires Inv(w, m) && Proper(w, a)
    modifies Reach(w)
    ensures Inv(w', Act(m, a)) && Onward(w, w')
  {
    Lengths(w, m);
    hide Inv;
    hide Onward;
    hide Proper;
    hide Reach;
    Onwards(w);
    w' := w;
    if a.OnBuffers? {
      StoreInReach(w);
      w' := OnStore(w, a.op, m);
    } else if a.MakeView? {
      w' := Make(w, a.bytes, m);
    } else if a.k < |w.pool| {
      ViewInReach(w, a.k);
      if a.CloneView? {
        w' := CloneOf(w, a.k, m);
      } else if a.ReleaseView? {
        w' := Free(w, a.k, m);
      } else if a.AppendFrom? || a.PrependFrom? {
        if a.i < |w.store| {
          w' := Give(w, a.i, a.k, a.PrependFrom?, m);
        }
      } else {
        Edit(w, a.k, a, m);
      }
    }
  }

  twostate lemma Onwards(w: World)
    requires Reach(w) == old(Reach(w))
    ensures Onward(w, w)
  {
  }

  /** Any run that starts with n empty buffers and no views, up to the first action
      that goes wrong, if any. Every buffer and every view then shows what the same
      run on separate byte sequences gives, so nothing done to one ever shows in
      another, however chunks are shared, and every chunk is counted once for each
      view on it. */
  method Execute(n: nat, actions: seq<Action>) returns (w: World, done: nat)
    ensures done <= |actions| && Inv(w, ActAll(Contents(seq(n, _ => []), []), actions[..done]))
    ensures done < |actions| ==> !Proper(w, actions[done])
    ensures forall v <- All(w) :: v.chunk.refCount == |Sharers(All(w), v.chunk)|
  {
    ghost var m := Contents(seq(n, _ => []), []);
    w := Empty(n);
    done := 0;
    hide Inv;
    hide Act;
    hide Reach;
    hide Proper;
    while done < |actions| && Proper(w, actions[done])
      invariant done <= |actions| && Inv(w, ActAll(m, actions[..done]))
      invariant forall o <- Reach(w) :: fresh(o)
    {
      OneMoreAction(m, actions, done);
      w := Perform(w, actions[done], ActAll(m, actions[..done]));
      done := done + 1;
    }
    forall v <- All(w)
      ensures v.chunk.refCount == |Sharers(All(w), v.chunk)|
    {
      CountsAreAllViews(w, ActAll(m, actions[..done]), v);
    }
  }

  lemma OneMoreAction(m: Contents, actions: seq<Action>, k: nat)
    requires k < |actions|
    ensures ActAll(m, actions[..k + 1]) == Act(ActAll(m, actions[..k]), actions[k])
  {
    assert actions[..k + 1][..k] == actions[..k];
  }

  method Empty(n: nat) returns (w: World)
    ensures Inv(w, Contents(seq(n, _ => []), [])) && forall o <- Reach(w) :: fresh(o)
  {
    var store := EmptyBuffers(n);
    w := World(store, []);
    assert forall b <- store :: b as object in Footprint(store);
    assert All(w) == {} && Chunks(w) == {};
  }
}
