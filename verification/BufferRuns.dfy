/** Operations on any number of buffers that share chunks: each acts as on byte
    sequences of their own, and leaves the views outside the buffers alone. */
module BufferRuns {
  import opened BufferViews
  import opened Buffers

  /** Operations on the buffers of a store, by position. Copy adds a clone to the
      store, which shares every chunk with its original. */
  datatype Op =
    | Append(i: nat, bytes: seq<Byte>)
    | Prepend(i: nat, bytes: seq<Byte>)
    | TrimFront(i: nat, count: int)
    | Truncate(i: nat, length: nat)
    | Read(i: nat, want: nat)
    | PullUp(i: nat, offset: int, count: int)
    | Copy(i: nat)
    | Merge(i: nat, j: nat)
    | Release(i: nat)

  type Model = seq<seq<Byte>>

  /** The same on plain byte sequences: what an operation leaves of the sequence
      it is about. */
  function Changed(s: seq<Byte>, op: Op): seq<Byte> {
    match op
    case Append(_, bytes) => s + bytes
    case Prepend(_, bytes) => bytes + s
    case TrimFront(_, count) => s[Clamp(count, |s|)..]
    case Truncate(_, length) => s[..Clamp(length, |s|)]
    case Read(_, want) => s[Clamp(want, |s|)..]
    case Release(_) => []
    case _ => s
  }

  function Step(m: Model, op: Op): Model {
    if op.i >= |m| then m
    else if op.Copy? then m + [m[op.i]]
    else if op.Merge? then (if op.j >= |m| || op.i == op.j then m else m[op.i := m[op.i] + m[op.j]][op.j := []])
    else m[op.i := Changed(m[op.i], op)]
  }

  // ---------------------------------------------------------------------
  // Stores
  // ---------------------------------------------------------------------

  ghost function Views(store: seq<Buffer>): set<View>
    reads store
  {
    set b, v | b in store && v in b.data :: v
  }

  /** The views of the buffers other than the one at i. */
  ghost function OtherViews(store: seq<Buffer>, i: nat): set<View>
    reads store
  {
    set j, v | 0 <= j < |store| && j != i && v in store[j].data :: v
  }

  ghost function ChunksOf(store: seq<Buffer>): set<Chunk>
    reads store, Views(store)
  {
    set v | v in Views(store) :: v.chunk
  }

  ghost function Owners(chunks: set<Chunk>): set<View>
    reads chunks
  {
    set c, v | c in chunks && v in c.owners :: v
  }

  lemma PartOf(store: seq<Buffer>, i: nat)
    requires i < |store|
    ensures forall v <- store[i].data :: v in Views(store)
    ensures store[i].Chunks() <= ChunksOf(store) && Owners(store[i].Chunks()) <= Owners(ChunksOf(store))
  {
    assert store[i] in store;
    assert forall v <- store[i].data :: v in Views(store);
    assert store[i].Chunks() <= ChunksOf(store);
  }

  /** No buffer is in the store twice, and no view in two of them. */
  ghost predicate Apart(store: seq<Buffer>)
    reads store
  {
    && (forall i, j | 0 <= i < j < |store| :: store[i] != store[j])
    && (forall i, j | 0 <= i < j < |store| :: DisjointViews(store[i], store[j]))
  }

  ghost predicate DisjointViews(a: Buffer, b: Buffer)
    reads a, b
  {
    forall v <- a.data :: v !in b.data
  }

  ghost predicate Holds(b: Buffer, s: seq<Byte>)
    reads b, b.data, b.Chunks(), Owners(b.Chunks())
  {
    b.Valid() && b.Contents() == s
  }

  /** What a buffer that was not touched holds. */
  twostate lemma StillHolds(b: Buffer, new s: seq<Byte>)
    requires b.data == old(b.data) && b.size == old(b.size)
    requires forall v <- b.data :: v.Contents() == old(v.Contents())
    ensures old(Holds(b, s)) && (forall v <- b.data :: v.Owned()) ==> Holds(b, s)
  {
    ShownSame(b.data);
    forall v <- b.data | v.Owned() && old(v.Owned())
      ensures v.Size() == old(v.Size())
    {
      SizeIsLength(v);
      assert old(|v.Contents()|) == old(v.Size());
    }
  }

  ghost predicate StoreInv(store: seq<Buffer>, m: Model)
    reads store, Views(store), ChunksOf(store), Owners(ChunksOf(store))
  {
    |store| == |m| && Apart(store) && forall i | 0 <= i < |store| :: PartOf(store, i); Holds(store[i], m[i])
  }

  /** Views that are in no buffer of the store. */
  ghost predicate Outside(store: seq<Buffer>, more: set<View>)
    reads store, more, set v | v in more :: v.chunk, Owners(set v | v in more :: v.chunk)
  {
    forall u <- more :: u !in Views(store) && u.Owned()
  }

  /** The views in the store and the others given hold all the references to their
      chunks. */
  ghost predicate NoLeaks(store: seq<Buffer>, more: set<View>)
    reads store, (Views(store) + more)`chunk, (set v | v in Views(store) + more :: v.chunk)`owners
  {
    Closed(Views(store) + more)
  }

  /** So the count of each chunk is the number of those views that are on it. */
  lemma CountsAreViews(store: seq<Buffer>, m: Model, more: set<View>, v: View)
    requires StoreInv(store, m) && Outside(store, more) && NoLeaks(store, more) && v in Views(store) + more
    ensures v.chunk.refCount == |Sharers(Views(store) + more, v.chunk)|
  {
    AllOwned(store, m);
    var all := Views(store) + more;
    assert v in all && v.Owned() && v.chunk.owners <= all;
    RefCountIsSharers(all, v.chunk);
  }

  lemma ViewsSplit(store: seq<Buffer>, i: nat)
    requires i < |store|
    ensures Views(store) == OtherViews(store, i) + Members(store[i].data)
  {
    forall v <- Views(store)
      ensures v in OtherViews(store, i) + Members(store[i].data)
    {
      var b :| b in store && v in b.data;
      var j :| 0 <= j < |store| && b == store[j];
      assert j != i ==> v in OtherViews(store, i);
    }
    assert forall j | 0 <= j < |store| :: store[j] in store;
  }

  lemma NoLeaksSplit(store: seq<Buffer>, more: set<View>, i: nat)
    requires i < |store|
    ensures NoLeaks(store, more) <==> store[i].ClosedWith(OtherViews(store, i) + more)
  {
    hide Closed;
    ViewsSplit(store, i);
    assert Views(store) + more == OtherViews(store, i) + more + Members(store[i].data);
  }

  twostate lemma StillNoLeaks(store: seq<Buffer>, new more: set<View>, new i: nat)
    requires i < |store| && forall j | 0 <= j < |store| && j != i :: store[j].data == old(store[j].data)
    ensures store[i].ClosedWith(old(OtherViews(store, i)) + more) ==> NoLeaks(store, more)
  {
    hide Closed;
    assert OtherViews(store, i) == old(OtherViews(store, i));
    NoLeaksSplit(store, more, i);
  }

  /** An operation on one buffer. Views elsewhere show what they showed. */
  method Change(b: Buffer, op: Op, ghost others: set<View>)
    requires b.Valid() && !op.Copy? && !op.Merge? && forall u <- others :: u !in b.data && u.Owned()
    modifies b, b.data, b.Chunks()
    ensures old(b.ClosedWith(others)) ==> b.ClosedWith(others)
    ensures b.Valid() && b.Contents() == Changed(old(b.Contents()), op)
    ensures forall v <- b.data :: (v in old(b.data) || fresh(v)) && (v.chunk in old(b.Chunks()) || fresh(v.chunk))
    ensures forall u <- others :: u.Owned() && u.Contents() == old(u.Contents())
  {
    hide Shown;
    hide View.Owned;
    hide View.Contents;
    hide Closed;
    if op.Append? {
      var v := new View.WithData(op.bytes);
      ClosedWithOneMore(b, others, v);
      b.AppendView(v, others);
    } else if op.Prepend? {
      var v := new View.WithData(op.bytes);
      ClosedWithOneMore(b, others, v);
      b.PrependView(v, others);
    } else if op.TrimFront? {
      b.TrimFront(op.count, others);
    } else if op.Truncate? {
      b.Truncate(op.length, others);
    } else if op.Read? {
      var _, _ := b.Read(op.want, others);
    } else if op.PullUp? {
      var _, _ := b.PullUp(op.offset, op.count, others);
    } else {
      b.Release(others);
      ShownNone();
    }
  }

  lemma ClosedWithOneMore(b: Buffer, others: set<View>, v: View)
    requires v.Owned() && !v.SharesChunk()
    ensures b.ClosedWith(others) ==> b.ClosedWith(others + {v})
  {
    ClosedWithNew(others + Members(b.data), v);
    OneMore(others, b.data, v);
  }

  twostate lemma OtherHolds(store: seq<Buffer>, new m: Model, new i: nat, new j: nat)
    requires old(StoreInv(store, m)) && i < |store| && j < |store|
    requires j != i ==> store[j].data == old(store[j].data) && store[j].size == old(store[j].size)
    requires forall u <- old(OtherViews(store, i)) :: u.Owned() && u.Contents() == old(u.Contents())
    ensures j != i ==> Holds(store[j], m[j])
  {
    hide View.Owned;
    hide View.Contents;
    if j != i {
      assert old(Holds(store[j], m[j]));
      assert forall v <- store[j].data :: v in old(OtherViews(store, i));
      StillHolds(store[j], m[j]);
    }
  }

  /** The buffer at i has been changed on its own: the store is as it was with the
      new contents there. */
  twostate lemma OneChanged(store: seq<Buffer>, new m: Model, new i: nat, new s: seq<Byte>)
    requires old(StoreInv(store, m)) && i < |store| && Holds(store[i], s)
    requires forall v <- store[i].data :: v in old(store[i].data) || v !in old(OtherViews(store, i))
    requires forall j | 0 <= j < |store| && j != i ::
      store[j].data == old(store[j].data) && store[j].size == old(store[j].size)
    requires forall u <- old(OtherViews(store, i)) :: u.Owned() && u.Contents() == old(u.Contents())
    ensures StoreInv(store, m[i := s])
  {
    forall j | 0 <= j < |store|
      ensures Holds(store[j], m[i := s][j])
    {
      OtherHolds(store, m, i, j);
    }
    forall j, k | 0 <= j < k < |store|
      ensures DisjointViews(store[j], store[k])
    {
      assert old(DisjointViews(store[j], store[k]));
      assert k != i ==> forall v <- store[k].data :: v in old(OtherViews(store, i));
      assert j != i ==> forall v <- store[j].data :: v in old(OtherViews(store, i));
    }
  }

  /** All the store's objects. */
  ghost function Footprint(store: seq<Buffer>): set<object>
    reads store, Views(store)
  {
    (set b | b in store :: b as object) + (set v | v in Views(store) :: v as object)
    + (set c | c in ChunksOf(store) :: c as object)
  }

  /** Whatever is in the new store and was not in the old one is new. */
  twostate predicate FromOld(store: seq<Buffer>, new store': seq<Buffer>)
    reads store', Views(store')
  {
    && (forall o <- Footprint(store') :: o in old(Footprint(store)) || fresh(o))
    && (forall v <- Views(store') :: v in old(Views(store)) || fresh(v))
  }

  twostate lemma StillOutside(store: seq<Buffer>, new store': seq<Buffer>, new more: set<View>)
    requires FromOld(store, store') && forall u <- more :: u.Owned() && !fresh(u) && u !in old(Views(store))
    ensures Outside(store', more)
  {
  }

  twostate lemma IsFromOld(store: seq<Buffer>)
    requires forall v <- Views(store) :: v in old(Views(store)) || fresh(v)
    requires forall v <- Views(store) :: v.chunk in old(ChunksOf(store)) || fresh(v.chunk)
    ensures FromOld(store, store)
  {
  }

  lemma InFootprint(store: seq<Buffer>, i: nat)
    requires i < |store|
    ensures store[i] in Footprint(store) && (forall v <- store[i].data :: v in Footprint(store))
    ensures forall c <- store[i].Chunks() :: c in Footprint(store)
  {
    PartOf(store, i);
    assert store[i] in store;
  }

  twostate lemma ChangedIsFromOld(store: seq<Buffer>, new i: nat)
    requires i < |store| && forall j | 0 <= j < |store| && j != i :: store[j].data == old(store[j].data)
    requires forall v <- store[i].data :: v in old(store[i].data) || fresh(v)
    requires forall v <- store[i].data :: v.chunk in old(store[i].Chunks()) || fresh(v.chunk)
    requires forall u <- old(OtherViews(store, i)) :: u.chunk == old(u.chunk)
    ensures FromOld(store, store)
  {
    forall v <- Views(store)
      ensures v in old(Views(store)) || fresh(v)
      ensures v.chunk in old(ChunksOf(store)) || fresh(v.chunk)
    {
      var b :| b in store && v in b.data;
      var j :| 0 <= j < |store| && b == store[j];
      OldPart(store, j);
      if j != i { assert v in old(OtherViews(store, i)); }
    }
    IsFromOld(store);
  }

  twostate lemma OldPart(store: seq<Buffer>, new j: nat)
    requires j < |store|
    ensures forall v <- old(store[j].data) :: v in old(Views(store))
    ensures old(store[j].Chunks()) <= old(ChunksOf(store))
  {
    assert store[j] in store;
    assert forall v <- old(store[j].data) :: v in old(Views(store));
  }

  method ChangeOne(store: seq<Buffer>, op: Op, ghost m: Model, ghost more: set<View>)
    requires StoreInv(store, m) && op.i < |store| && !op.Copy? && !op.Merge? && Outside(store, more)
    modifies store[op.i], store[op.i].data, store[op.i].Chunks()
    ensures old(NoLeaks(store, more)) ==> NoLeaks(store, more)
    ensures StoreInv(store, m[op.i := Changed(m[op.i], op)]) && FromOld(store, store)
    ensures Outside(store, more) && forall u <- more :: u.Contents() == old(u.Contents())
  {
    var i := op.i;
    NoLeaksSplit(store, more, i);
    OthersOwned(store, m, i);
    PartOf(store, i);
    HoldsAt(store, m, i);
    hide View.Owned;
    hide View.Contents;
    hide Shown;
    hide StoreInv;
    hide FromOld;
    hide NoLeaks;
    hide Closed;
    hide Buffer.ClosedWith;
    hide Members;
    Change(store[i], op, OtherViews(store, i) + more);
    OneChanged(store, m, i, Changed(m[i], op));
    ChangedIsFromOld(store, i);
    StillNoLeaks(store, more, i);
    StillOutside(store, store, more);
  }

  lemma OthersOwned(store: seq<Buffer>, m: Model, i: nat)
    requires StoreInv(store, m) && i < |store|
    ensures forall u <- OtherViews(store, i) :: u !in store[i].data && u.Owned()
  {
    forall u <- OtherViews(store, i)
      ensures u !in store[i].data && u.Owned()
    {
      var j :| 0 <= j < |store| && j != i && u in store[j].data;
      assert Holds(store[j], m[j]);
      if i < j { assert DisjointViews(store[i], store[j]); } else { assert DisjointViews(store[j], store[i]); }
    }
  }

  method CopyBuffer(store: seq<Buffer>, i: nat, ghost m: Model, ghost more: set<View>) returns (store': seq<Buffer>)
    requires StoreInv(store, m) && i < |store| && Outside(store, more)
    modifies store[i].Chunks()
    ensures old(NoLeaks(store, more)) ==> NoLeaks(store', more)
    ensures StoreInv(store', m + [m[i]]) && FromOld(store, store')
    ensures Outside(store', more) && forall u <- more :: u.Contents() == old(u.Contents())
  {
    hide View.Owned;
    hide View.Contents;
    hide Shown;
    hide StoreInv;
    hide FromOld;
    hide Closed;
    hide Buffer.Valid;
    hide Buffer.Contents;
    AllOwned(store, m);
    HoldsAt(store, m, i);
    PartOf(store, i);
    ghost var views := Views(store) + more;
    var c := store[i].Clone(views);
    store' := store + [c];
    WithCopy(store, c);
    assert Views(store') + more == views + Members(c.data);
    Copied(store, m, c, m[i]);
    CopyIsNew(store, i, c);
    StillOutside(store, store', more);
  }

  lemma HoldsAt(store: seq<Buffer>, m: Model, i: nat)
    requires StoreInv(store, m) && i < |store|
    ensures |store| == |m| && Holds(store[i], m[i])
  {
  }

  lemma AllHold(store: seq<Buffer>, m: Model)
    requires StoreInv(store, m)
    ensures |store| == |m| && forall k | 0 <= k < |store| :: Holds(store[k], m[k])
  {
  }

  lemma AllOwned(store: seq<Buffer>, m: Model)
    requires StoreInv(store, m)
    ensures forall u <- Views(store) :: u.Owned()
  {
    forall u <- Views(store)
      ensures u.Owned()
    {
      var b :| b in store && u in b.data;
      var i :| 0 <= i < |store| && b == store[i];
      assert Holds(store[i], m[i]);
    }
  }

  lemma WithCopy(store: seq<Buffer>, c: Buffer)
    ensures Views(store + [c]) == Views(store) + Members(c.data)
  {
    assert forall b | b in store + [c] :: b in store || b == c;
  }

  twostate lemma Copied(store: seq<Buffer>, new m: Model, new c: Buffer, new s: seq<Byte>)
    requires old(StoreInv(store, m)) && forall b <- store :: b.data == old(b.data) && b.size == old(b.size)
    requires forall u <- old(Views(store)) :: u.Owned() && u.Contents() == old(u.Contents())
    requires Holds(c, s) && fresh(c) && forall v <- c.data :: fresh(v)
    ensures StoreInv(store + [c], m + [s])
  {
    NoneChanged(store, m);
    hide StoreInv;
    AddedBuffer(store, m, c, s);
  }

  /** No buffer has been changed, and all their views show what they did. */
  twostate lemma NoneChanged(store: seq<Buffer>, new m: Model)
    requires old(StoreInv(store, m)) && forall b <- store :: b.data == old(b.data) && b.size == old(b.size)
    requires forall u <- old(Views(store)) :: u.Owned() && u.Contents() == old(u.Contents())
    ensures StoreInv(store, m)
  {
    hide View.Owned;
    hide View.Contents;
    forall j | 0 <= j < |store|
      ensures Holds(store[j], m[j])
    {
      assert old(Holds(store[j], m[j])) && store[j] in store;
      assert forall v <- store[j].data :: v in old(Views(store));
      StillHolds(store[j], m[j]);
    }
    hide Holds;
    forall j, k | 0 <= j < k < |store|
      ensures DisjointViews(store[j], store[k])
    {
      assert old(DisjointViews(store[j], store[k]));
    }
  }

  twostate lemma CopyIsNew(store: seq<Buffer>, new i: nat, new c: Buffer)
    requires i < |store| && fresh(c) && forall v <- c.data :: fresh(v) && v.chunk in old(store[i].Chunks())
    requires forall b <- store :: b.data == old(b.data)
    requires forall v <- old(Views(store)) :: v.chunk == old(v.chunk)
    ensures FromOld(store, store + [c])
  {
    var store' := store + [c];
    forall v <- Views(store')
      ensures v in old(Views(store)) || fresh(v)
      ensures v.chunk in old(ChunksOf(store))
    {
      var b :| b in store' && v in b.data;
      if b in store {
        assert v in old(Views(store));
      } else {
        assert b == c && store[i] in store;
        assert forall u <- old(store[i].data) :: u in old(Views(store));
      }
    }
  }

  lemma AddedBuffer(store: seq<Buffer>, m: Model, c: Buffer, s: seq<Byte>)
    requires StoreInv(store, m) && Holds(c, s) && c !in store && forall v <- c.data :: v !in Views(store)
    ensures StoreInv(store + [c], m + [s])
  {
    hide Holds;
    var all := store + [c];
    forall i | 0 <= i < |all|
      ensures Holds(all[i], (m + [s])[i])
    {
    }
    forall i, j | 0 <= i < j < |all|
      ensures DisjointViews(all[i], all[j])
    {
      if j == |store| {
        assert all[i] in store;
      } else {
        assert DisjointViews(store[i], store[j]);
      }
    }
  }

  twostate lemma MergedIsFromOld(store: seq<Buffer>, new i: nat, new j: nat)
    requires i < |store| && j < |store| && i != j
    requires forall k | 0 <= k < |store| && k != i && k != j :: store[k].data == old(store[k].data)
    requires store[i].data == old(store[i].data + store[j].data) && store[j].data == []
    requires forall u <- old(Views(store)) :: u.chunk == old(u.chunk)
    ensures FromOld(store, store)
  {
    forall v <- Views(store)
      ensures v in old(Views(store)) && v.chunk in old(ChunksOf(store))
    {
      var b :| b in store && v in b.data;
      var k :| 0 <= k < |store| && b == store[k];
      OldPart(store, k);
      OldPart(store, j);
    }
    IsFromOld(store);
  }

  twostate lemma MergedViews(store: seq<Buffer>, new i: nat, new j: nat)
    requires i < |store| && j < |store| && i != j
    requires forall k | 0 <= k < |store| && k != i && k != j :: store[k].data == old(store[k].data)
    requires store[i].data == old(store[i].data + store[j].data) && store[j].data == []
    ensures Views(store) == old(Views(store))
  {
    forall v
      ensures v in Views(store) <==> v in old(Views(store))
    {
      if v in Views(store) {
        var b :| b in store && v in b.data;
        var k :| 0 <= k < |store| && b == store[k];
        OldPart(store, k);
        OldPart(store, j);
      }
      if v in old(Views(store)) {
        var b :| b in store && v in old(b.data);
        var k :| 0 <= k < |store| && b == store[k];
        PartOf(store, k);
        PartOf(store, i);
      }
    }
  }

  method MergeBuffers(store: seq<Buffer>, i: nat, j: nat, ghost m: Model, ghost more: set<View>)
    requires StoreInv(store, m) && i < |store| && j < |store| && i != j && Outside(store, more)
    modifies store[i], store[j]
    ensures old(NoLeaks(store, more)) ==> NoLeaks(store, more)
    ensures StoreInv(store, m[i := m[i] + m[j]][j := []]) && FromOld(store, store)
    ensures Outside(store, more) && forall u <- more :: u.Contents() == old(u.Contents())
  {
    hide View.Owned;
    hide View.Contents;
    hide Shown;
    hide Closed;
    hide StoreInv;
    hide FromOld;
    HoldsAt(store, m, i);
    HoldsAt(store, m, j);
    AllHold(store, m);
    ShownNone();
    ViewsApart(store, m, i, j);
    store[i].Merge(store[j]);
    MergedIsFromOld(store, i, j);
    MergedViews(store, i, j);
    forall k | 0 <= k < |store| && k != i && k != j
      ensures Holds(store[k], m[k])
    {
      assert old(Holds(store[k], m[k]));
    }
    Merged(store, m, i, j);
    StillOutside(store, store, more);
  }

  lemma ViewsApart(store: seq<Buffer>, m: Model, i: nat, j: nat)
    requires StoreInv(store, m) && i < |store| && j < |store| && i != j
    ensures store[i] != store[j] && forall v <- store[i].data :: v !in store[j].data
    ensures forall k | 0 <= k < |store| && k != i && k != j :: store[k] != store[i] && store[k] != store[j]
  {
    assert if i < j then DisjointViews(store[i], store[j]) else DisjointViews(store[j], store[i]);
  }

  twostate lemma Merged(store: seq<Buffer>, new m: Model, new i: nat, new j: nat)
    requires old(StoreInv(store, m)) && i < |store| && j < |store| && i != j
    requires forall k | 0 <= k < |store| && k != i && k != j :: store[k].data == old(store[k].data)
    requires forall k | 0 <= k < |store| && k != i && k != j :: Holds(store[k], m[k])
    requires store[i].data == old(store[i].data + store[j].data) && store[j].data == []
    requires Holds(store[i], m[i] + m[j]) && Holds(store[j], [])
    ensures StoreInv(store, m[i := m[i] + m[j]][j := []])
  {
    hide Holds;
    forall k, l | 0 <= k < l < |store|
      ensures DisjointViews(store[k], store[l])
    {
      assert old(DisjointViews(store[k], store[l]));
      assert old(k != i && l == i && k != j ==>
        if k < j then DisjointViews(store[k], store[j]) else DisjointViews(store[j], store[k]));
      assert old(k == i && l != j ==>
        if l < j then DisjointViews(store[l], store[j]) else DisjointViews(store[j], store[l]));
    }
  }

  method Do(store: seq<Buffer>, op: Op, ghost m: Model, ghost more: set<View>) returns (store': seq<Buffer>)
    requires StoreInv(store, m) && NoLeaks(store, more) && Outside(store, more)
    modifies Footprint(store)
    ensures StoreInv(store', Step(m, op)) && NoLeaks(store', more) && FromOld(store, store')
    ensures Outside(store', more) && forall u <- more :: u.Contents() == old(u.Contents())
  {
    hide StoreInv;
    hide NoLeaks;
    hide Outside;
    var i := op.i;
    SameLength(store, m);
    if i >= |store| {
      return store;
    }
    InFootprint(store, i);
    if op.Copy? {
      store' := CopyBuffer(store, i, m, more);
    } else if op.Merge? {
      store' := store;
      if op.j < |store| && i != op.j {
        InFootprint(store, op.j);
        MergeBuffers(store, i, op.j, m, more);
      }
    } else {
      store' := store;
      ChangeOne(store, op, m, more);
    }
  }

  lemma SameLength(store: seq<Buffer>, m: Model)
    requires StoreInv(store, m)
    ensures |store| == |m|
  {
  }

  method EmptyBuffers(n: nat) returns (store: seq<Buffer>)
    ensures StoreInv(store, seq(n, _ => [])) && Views(store) == {} && forall o <- Footprint(store) :: fresh(o)
  {
    store := [];
    ShownNone();
    while |store| < n
      invariant |store| <= n && (forall b <- store :: fresh(b) && b.data == [] && b.Valid())
      invariant forall i, j | 0 <= i < j < |store| :: store[i] != store[j]
    {
      var b := new Buffer();
      store := store + [b];
    }
    forall i | 0 <= i < |store|
      ensures Holds(store[i], [])
    {
      assert store[i] in store;
    }
  }
}
