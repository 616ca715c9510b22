/** Chunks and views of pkg/buffer: reference-counted memory shared by windows
    into it, copied before it is written through a window that shares it.

    Each operation takes a ghost set of other views, any others whatever, and
    leaves what they show unchanged. */
module BufferViews {

  type Byte = bv8

  // ---------------------------------------------------------------------
  // Chunk sizes
  // ---------------------------------------------------------------------

  const BASE_CHUNK_SIZE := 64
  const NUM_POOLS := 11
  const MAX_CHUNK_SIZE := 65536

  /** The size of the chunks of pool idx. */
  function PoolSize(idx: nat): nat {
    if idx == 0 then BASE_CHUNK_SIZE else 2 * PoolSize(idx - 1)
  }

  function MostSignificantOne(x: nat): nat
    requires x > 0
  {
    if x == 1 then 0 else 1 + MostSignificantOne(x / 2)
  }

  function GetChunkPool(size: nat): nat {
    if size <= BASE_CHUNK_SIZE then 0
    else
      var idx := MostSignificantOne(size / BASE_CHUNK_SIZE);
      if size > PoolSize(idx) then idx + 1 else idx
  }

  lemma {:induction false} PoolSizeMonotone(i: nat, j: nat)
    requires i < j
    ensures PoolSize(i) < PoolSize(j)
    decreases j
  {
    assert PoolSize(j - 1) > 0 by { PoolSizePositive(j - 1); }
    if i < j - 1 { PoolSizeMonotone(i, j - 1); }
  }

  lemma {:induction false} PoolSizePositive(i: nat)
    ensures PoolSize(i) >= BASE_CHUNK_SIZE
  {
    if i > 0 { PoolSizePositive(i - 1); }
  }

  lemma {:induction false} MostSignificantOneBounds(x: nat)
    requires x > 0
    ensures PoolSize(MostSignificantOne(x)) <= BASE_CHUNK_SIZE * x
    ensures BASE_CHUNK_SIZE * x <= PoolSize(MostSignificantOne(x) + 1) - BASE_CHUNK_SIZE
  {
    if x > 1 { MostSignificantOneBounds(x / 2); }
  }

  /** The pool chosen is the one with the smallest chunks that are large
      enough, and it exists for every size up to the maximum. */
  lemma ChunkPoolIsTightest(size: nat)
    ensures size <= PoolSize(GetChunkPool(size))
    ensures forall i | 0 <= i < GetChunkPool(size) :: PoolSize(i) < size
    ensures size <= MAX_CHUNK_SIZE ==> GetChunkPool(size) < NUM_POOLS
  {
    if size > BASE_CHUNK_SIZE {
      var top := MostSignificantOne(size / BASE_CHUNK_SIZE);
      MostSignificantOneBounds(size / BASE_CHUNK_SIZE);
      assert PoolSize(top) <= size;
      forall i | 0 <= i < GetChunkPool(size)
        ensures PoolSize(i) < size
      {
        if i < top { PoolSizeMonotone(i, top); }
      }
    }
    assert PoolSize(NUM_POOLS - 1) == MAX_CHUNK_SIZE by { LargestPool(); }
  }

  lemma LargestPool()
    ensures PoolSize(NUM_POOLS - 1) == MAX_CHUNK_SIZE
  {
    assert PoolSize(2) == 256;
    assert PoolSize(4) == 1024;
    assert PoolSize(6) == 4096;
    assert PoolSize(8) == 16384;
  }

  /** A chunk goes back to the pool it came from. */
  lemma ChunkReturnsToItsPool(idx: nat)
    ensures GetChunkPool(PoolSize(idx)) == idx
  {
    var back := GetChunkPool(PoolSize(idx));
    ChunkPoolIsTightest(PoolSize(idx));
    if back < idx { PoolSizeMonotone(back, idx); }
  }

  function Capacity(size: nat): nat {
    if size > MAX_CHUNK_SIZE then size else PoolSize(GetChunkPool(size))
  }

  lemma CapacitySuffices(size: nat)
    ensures Capacity(size) >= size
  {
    ChunkPoolIsTightest(size);
  }

  // ---------------------------------------------------------------------
  // Chunks
  // ---------------------------------------------------------------------

  class Chunk {
    var refCount: nat
    var data: seq<Byte>
    ghost var owners: set<View>

    /** The reference count is the number of views on this chunk, all of which
        lie inside it. */
    ghost predicate Valid()
      reads this, owners
    {
      && refCount == |owners|
      && forall v <- owners :: v.chunk == this && v.read <= v.write <= |data|
    }

    /** newChunk: counts the view it is about to be given to. */
    constructor (size: nat)
      ensures refCount == 1 && owners == {}
      ensures data == seq(Capacity(size), _ => 0)
    {
      refCount := 1;
      data := seq(Capacity(size), _ => 0);
      owners := {};
    }

    method DecRef(ghost v: View)
      requires v in owners && refCount == |owners|
      modifies this
      ensures owners == old(owners) - {v} && refCount == |owners| && data == old(data)
    {
      refCount := refCount - 1;
      owners := owners - {v};
    }

    method IncRef(ghost v: View)
      requires v !in owners && refCount == |owners|
      modifies this
      ensures owners == old(owners) + {v} && refCount == |owners| && data == old(data)
    {
      refCount := refCount + 1;
      owners := owners + {v};
    }
  }

  // ---------------------------------------------------------------------
  // Views
  // ---------------------------------------------------------------------

  /** copy(dst[at:], src). */
  function Overwrite(dst: seq<Byte>, at: nat, src: seq<Byte>): (r: seq<Byte>)
    requires at + |src| <= |dst|
    ensures |r| == |dst|
  {
    dst[..at] + src + dst[at + |src|..]
  }

  /** The view shows a byte other than zero among bytes lo to lo + n of c. */
  ghost predicate ShowsNonzero(u: View, c: Chunk, lo: nat, n: nat)
    reads u, c
  {
    u.chunk == c && NonzeroWithin(c.data, u.read, u.write, lo, n)
  }

  ghost predicate NonzeroWithin(data: seq<Byte>, read: nat, write: nat, lo: nat, n: nat) {
    exists k :: read <= k < write && lo <= k < lo + n && k < |data| && data[k] != 0
  }

  lemma ClearShows(data: seq<Byte>, read: nat, write: nat, lo: nat, n: nat)
    requires lo + n <= |data| && read <= write <= |data|
    ensures var data' := Overwrite(data, lo, seq(n, _ => 0));
            data'[read..write] == data[read..write] <==> !NonzeroWithin(data, read, write, lo, n)
  {
    var data' := Overwrite(data, lo, seq(n, _ => 0));
    if NonzeroWithin(data, read, write, lo, n) {
      var k :| read <= k < write && lo <= k < lo + n && k < |data| && data[k] != 0;
      assert data'[read..write][k - read] == 0 != data[read..write][k - read];
    } else {
      forall k | read <= k < write
        ensures data'[k] == data[k]
      {
        assert lo <= k < lo + n ==> data[k] == 0;
      }
      assert data'[read..write] == data[read..write];
    }
  }

  lemma StoredShows(data: seq<Byte>, lo: nat, hi: nat, p: seq<Byte>)
    requires lo <= hi <= hi + |p| <= |data|
    ensures Overwrite(data, hi, p)[lo..hi + |p|] == data[lo..hi] + p
  {
  }

  lemma OverwriteSlice(data: seq<Byte>, lo: nat, hi: nat, off: nat, p: seq<Byte>)
    requires lo <= hi <= |data| && lo + off + |p| <= hi
    ensures Overwrite(data, lo + off, p)[lo..hi] == Overwrite(data[lo..hi], off, p)
  {
  }

  /** Every reference to a chunk that one of the views is on belongs to one of
      the views. */
  ghost predicate Closed(views: set<View>)
    reads views`chunk, (set v | v in views :: v.chunk)`owners
  {
    forall v <- views, u <- v.chunk.owners :: u in views
  }

  class View {
    var read: nat
    var write: nat
    var chunk: Chunk

    ghost predicate Owned()
      reads this, chunk, chunk.owners
    {
      this in chunk.owners && chunk.Valid()
    }

    /** What the view shows. */
    function Contents(): seq<Byte>
      reads this, chunk
    {
      if read <= write <= |chunk.data| then chunk.data[read..write] else []
    }

    function Size(): int
      reads this
    {
      write - read
    }

    predicate SharesChunk()
      reads this, chunk
    {
      chunk.refCount > 1
    }

    predicate Full()
      reads this, chunk
    {
      write == |chunk.data|
    }

    constructor (cap: nat)
      ensures Owned() && fresh(chunk) && !SharesChunk() && Contents() == [] && read == 0 && |chunk.data| >= cap
    {
      var c := new Chunk(cap);
      read, write, chunk := 0, 0, c;
      new;
      chunk.owners := {this};
      CapacitySuffices(cap);
    }

    /** NewViewWithData. */
    constructor WithData(bytes: seq<Byte>)
      ensures Owned() && fresh(chunk) && !SharesChunk() && Contents() == bytes && read == 0
    {
      var c := new Chunk(|bytes|);
      read, write, chunk := 0, 0, c;
      new;
      chunk.owners := {this};
      CapacitySuffices(|bytes|);
      var _ := Write(bytes, {});
    }

    /** NewViewSize. */
    constructor OfSize(size: nat)
      ensures Owned() && fresh(chunk) && !SharesChunk() && read == 0 && Contents() == seq(size, _ => 0)
    {
      var c := new Chunk(size);
      read, write, chunk := 0, size, c;
      new;
      chunk.owners := {this};
      CapacitySuffices(size);
    }

    /** The uncounted constructor behind Clone: pool memory not yet on a chunk
        that counts it. */
    constructor Copy(v: View)
      ensures read == v.read && write == v.write && chunk == v.chunk
    {
      read, write, chunk := v.read, v.write, v.chunk;
    }

    method Clone(ghost others: set<View>) returns (v: View)
      requires Owned() && forall u <- others :: u.Owned()
      modifies chunk
      ensures fresh(v) && v.Owned() && v.chunk == chunk && v.read == read && v.write == write
      ensures Owned() && chunk.data == old(chunk.data)
      ensures forall u <- others :: u.Owned() && u.Contents() == old(u.Contents())
      ensures this in others && old(Closed(others)) ==> Closed(others + {v})
    {
      v := new View.Copy(this);
      chunk.IncRef(v);
    }

    method Release(ghost others: set<View>)
      requires Owned() && forall u <- others :: u != this && u.Owned()
      modifies chunk
      ensures chunk.owners == old(chunk.owners) - {this}
      ensures forall u <- others :: u.Owned() && u.Contents() == old(u.Contents())
      ensures old(Closed(others + {this})) ==> Closed(others)
    {
      chunk.DecRef(this);
    }

    method TrimFront(n: nat, ghost others: set<View>)
      requires Owned() && n <= Size() && forall u <- others :: u != this && u.Owned()
      modifies this
      ensures Owned() && Contents() == old(Contents()[n..]) && chunk == old(chunk)
      ensures read == old(read) + n && write == old(write)
      ensures forall u <- others :: u.Owned() && u.Contents() == old(u.Contents())
      ensures old(Closed(others + {this})) ==> Closed(others + {this})
    {
      read := read + n;
    }

    /** An assignment to the write index. */
    method SetWrite(n: nat, ghost others: set<View>)
      requires Owned() && n <= write && forall u <- others :: u != this && u.Owned()
      modifies this
      ensures write == n && read == old(read) && chunk == old(chunk)
      ensures read <= n ==> Owned() && Contents() == old(Contents())[..n - read]
      ensures read <= n ==> forall u <- others :: u.Owned() && u.Contents() == old(u.Contents())
      ensures old(Closed(others + {this})) ==> Closed(others + {this})
    {
      write := n;
    }

    /** Write to the chunk directly: only right when no other view shows it. */
    method Store(at: nat, p: seq<Byte>, ghost others: set<View>)
      requires Owned() && !SharesChunk() && at + |p| <= |chunk.data|
      requires forall u <- others :: u != this && u.Owned()
      modifies chunk
      ensures Owned() && chunk.data == Overwrite(old(chunk.data), at, p) && chunk.owners == old(chunk.owners)
      ensures chunk.refCount == old(chunk.refCount)
      ensures forall u <- others :: u.Owned() && u.Contents() == old(u.Contents())
      ensures old(Closed(others + {this})) ==> Closed(others + {this})
    {
      SoleOwner(this);
      chunk.data := Overwrite(chunk.data, at, p);
    }

    /** Move to a chunk that no view is on yet. */
    method Leave(c: Chunk, r: nat, w: nat, ghost others: set<View>)
      requires Owned() && c != chunk && c.refCount == 1 && c.owners == {} && r <= w <= |c.data|
      requires forall u <- others :: u != this && u.Owned()
      modifies this, chunk, c
      ensures Owned() && !SharesChunk() && chunk == c && read == r && write == w && c.data == old(c.data)
      ensures forall u <- others :: u.Owned() && u.Contents() == old(u.Contents())
      ensures old(Closed(others + {this})) ==> Closed(others + {this})
    {
      chunk.DecRef(this);
      chunk, read, write := c, r, w;
      c.owners := {this};
    }

    /** The copy of copy-on-write. */
    method Unshare(ghost others: set<View>)
      requires Owned() && forall u <- others :: u != this && u.Owned()
      modifies this, chunk
      ensures Owned() && !SharesChunk() && chunk.data == old(chunk.data) && read == old(read) && write == old(write)
      ensures Contents() == old(Contents())
      ensures chunk == old(chunk) || (old(SharesChunk()) && fresh(chunk))
      ensures forall u <- others :: u.Owned() && u.Contents() == old(u.Contents())
      ensures old(Closed(others + {this})) ==> Closed(others + {this})
    {
      hide Closed;
      if SharesChunk() {
        var c := new Chunk(|chunk.data|);
        c.data := chunk.data;
        Leave(c, read, write, others);
      }
    }

    /** Show n bytes more, cleared first if zero is set. The chunk is not
        copied, so another view is left as it was exactly when it shows only
        zeros among the bytes cleared. */
    method Extend(n: nat, zero: bool, ghost others: set<View>)
      requires Owned() && write + n <= |chunk.data| && forall u <- others :: u.Owned() && u != this
      modifies this, chunk
      ensures Owned() && chunk == old(chunk) && read == old(read) && write == old(write) + n
      ensures |chunk.data| == old(|chunk.data|) && chunk.refCount == old(chunk.refCount)
      ensures Contents() == old(Contents()) +
        if zero then seq(n, _ => 0) else old(chunk.data)[old(write)..old(write) + n]
      ensures forall u <- others :: u.Owned() && |u.Contents()| == old(|u.Contents()|) &&
                (u.Contents() == old(u.Contents()) <==> !old(zero && ShowsNonzero(u, chunk, write, n)))
      ensures old(Closed(others + {this})) ==> Closed(others + {this})
    {
      if zero {
        ghost var was := chunk.data;
        chunk.data := Overwrite(chunk.data, write, seq(n, _ => 0));
        forall u <- others
          ensures u.Contents() == old(u.Contents()) <==> !old(ShowsNonzero(u, chunk, write, n))
        {
          if u.chunk == chunk { ClearShows(was, u.read, u.write, write, n); }
        }
      }
      write := write + n;
    }

    method GrowCap(n: nat, ghost others: set<View>)
      requires Owned() && forall u <- others :: u != this && u.Owned()
      modifies this, chunk
      ensures Owned() && fresh(chunk) && !SharesChunk()
      ensures Contents() == old(Contents()) && read == 0 && |chunk.data| >= old(|chunk.data|) + n
      ensures forall k | write <= k < |chunk.data| :: chunk.data[k] == 0
      ensures forall u <- others :: u.Owned() && u.Contents() == old(u.Contents())
      ensures old(Closed(others + {this})) ==> Closed(others + {this})
    {
      hide Closed;
      var bytes := Contents();
      CapacitySuffices(|chunk.data| + n);
      var c := new Chunk(|chunk.data| + n);
      c.data := Overwrite(c.data, 0, bytes);
      Leave(c, 0, |bytes|, others);
    }

    /** Show n bytes more, of whatever is in the chunk, or zeros in a new one. */
    method Grow(n: nat, ghost others: set<View>)
      requires Owned() && forall u <- others :: u != this && u.Owned()
      modifies this, chunk
      ensures Owned() && |Contents()| == old(|Contents()|) + n && old(Contents()) <= Contents()
      ensures chunk == old(chunk) <==> old(write + n <= |chunk.data|)
      ensures chunk == old(chunk) ==> Contents() == old(Contents()) + old(chunk.data)[old(write)..old(write) + n]
      ensures chunk != old(chunk) ==> fresh(chunk) && !SharesChunk() && Contents() == old(Contents()) + seq(n, _ => 0)
      ensures forall u <- others :: u.Owned() && u.Contents() == old(u.Contents())
      ensures old(Closed(others + {this})) ==> Closed(others + {this})
    {
      hide Closed;
      if write + n > |chunk.data| {
        GrowCap(n, others);
      }
      Extend(n, false, others);
    }

    /** Overwrites what is shown from off on; what does not fit is dropped. */
    method WriteAt(p: seq<Byte>, off: int, ghost others: set<View>) returns (n: nat, ok: bool)
      requires Owned() && forall u <- others :: u != this && u.Owned()
      modifies this, chunk
      ensures Owned() && read == old(read) && write == old(write)
      ensures 0 <= off <= Size() ==>
                && n == (if |p| <= Size() - off then |p| else Size() - off) && ok == (n == |p|)
                && Contents() == Overwrite(old(Contents()), off, p[..n]) && !SharesChunk()
      ensures !(0 <= off <= Size()) ==> n == 0 && !ok && Contents() == old(Contents())
      ensures chunk == old(chunk) || (old(SharesChunk()) && fresh(chunk))
      ensures forall u <- others :: u.Owned() && u.Contents() == old(u.Contents())
      ensures old(Closed(others + {this})) ==> Closed(others + {this})
    {
      if off < 0 || off > Size() {
        return 0, false;
      }
      hide Closed;
      hide Overwrite;
      SizeIsLength(this);
      n := if |p| <= Size() - off then |p| else Size() - off;
      ok := n == |p|;
      OverwriteSlice(chunk.data, read, write, off, p[..n]);
      Unshare(others);
      Store(read + off, p[..n], others);
    }

    /** Show n bytes more at the front. */
    method Widen(n: nat, ghost others: set<View>)
      requires Owned() && !SharesChunk() && n <= read && forall u <- others :: u != this && u.Owned()
      modifies this
      ensures Owned() && read == old(read) - n && write == old(write) && chunk == old(chunk)
      ensures Contents()[n..] == old(Contents())
      ensures forall u <- others :: u.Owned() && u.Contents() == old(u.Contents())
    {
      read := read - n;
    }

    /** Show the given bytes before what is shown now, writing them into the
        room left in front. */
    method Unread(bytes: seq<Byte>, ghost others: set<View>)
      requires Owned() && !SharesChunk() && |bytes| <= read
      requires forall u <- others :: u != this && u.Owned()
      modifies this, chunk
      ensures Owned() && Contents() == bytes + old(Contents()) && chunk == old(chunk) && write == old(write)
      ensures forall u <- others :: u.Owned() && u.Contents() == old(u.Contents())
      ensures old(Closed(others + {this})) ==> Closed(others + {this})
    {
      hide Closed;
      Widen(|bytes|, others);
      assert bytes[..|bytes|] == bytes;
      var _, _ := WriteAt(bytes, 0, others);
    }

    /** Show the given bytes after what is shown now, writing them into the room
        left behind. */
    method Put(p: seq<Byte>, ghost others: set<View>)
      requires Owned() && !SharesChunk() && write + |p| <= |chunk.data|
      requires forall u <- others :: u != this && u.Owned()
      modifies this, chunk
      ensures Owned() && !SharesChunk() && Contents() == old(Contents()) + p && chunk == old(chunk) && read == old(read)
      ensures forall u <- others :: u.Owned() && u.Contents() == old(u.Contents())
      ensures old(Closed(others + {this})) ==> Closed(others + {this})
    {
      hide Closed;
      StoredShows(chunk.data, read, write, p);
      Store(write, p, others);
      hide Overwrite;
      write := write + |p|;
    }

    method Write(p: seq<Byte>, ghost others: set<View>) returns (n: nat)
      requires Owned() && forall u <- others :: u != this && u.Owned()
      modifies this, chunk
      ensures Owned() && Contents() == old(Contents()) + p && n == |p|
      ensures read == old(read) || read == 0
      ensures old(!SharesChunk() && |p| <= |chunk.data| - write) ==> chunk == old(chunk)
      ensures !SharesChunk() && (chunk == old(chunk) || fresh(chunk))
      ensures forall u <- others :: u.Owned() && u.Contents() == old(u.Contents())
      ensures old(Closed(others + {this})) ==> Closed(others + {this})
    {
      hide Closed;
      hide View.Owned;
      hide View.Contents;
      SizeIsLength(this);
      if |chunk.data| - write < |p| {
        GrowCap(|p| - (|chunk.data| - write), others);
      } else {
        Unshare(others);
      }
      SizeIsLength(this);
      Put(p, others);
      n := |p|;
    }
  }

  /** Two owned views on one chunk are counted twice, so neither may write. */
  lemma SharedIsCounted(u: View, v: View)
    requires u.Owned() && v.Owned() && u != v && u.chunk == v.chunk
    ensures v.SharesChunk()
  {
    assert {u, v} <= v.chunk.owners;
    assert |{u, v}| == 2;
    SubsetCard({u, v}, v.chunk.owners);
  }

  ghost function Sharers(views: set<View>, c: Chunk): set<View>
    reads views
  {
    set v | v in views && v.chunk == c
  }

  /** The reference count of a chunk is the number of the given views on it
      exactly when no other view has a reference. */
  lemma RefCountIsSharers(live: set<View>, c: Chunk)
    requires (forall v <- live :: v.Owned()) && c.Valid()
    ensures c.refCount >= |Sharers(live, c)|
    ensures c.refCount == |Sharers(live, c)| <==> c.owners <= live
  {
    var sharers := Sharers(live, c);
    assert c.owners == sharers + (c.owners - sharers);
    if c.owners <= live { assert c.owners == sharers; }
  }

  lemma ClosedWithNew(views: set<View>, v: View)
    requires v.Owned() && !v.SharesChunk()
    ensures Closed(views) ==> Closed(views + {v})
  {
    SoleOwner(v);
  }

  lemma SubsetCard(a: set<View>, b: set<View>)
    requires a <= b
    ensures |a| <= |b|
  {
    assert b == a + (b - a);
  }

  lemma SizeIsLength(v: View)
    requires v.Owned()
    ensures |v.Contents()| == v.Size() >= 0 && v.write <= |v.chunk.data|
  {
  }

  lemma SoleOwner(v: View)
    requires v.Owned() && !v.SharesChunk()
    ensures v.chunk.owners == {v}
  {
    assert |v.chunk.owners - {v}| == 0;
  }

  /** Cutting a view short and growing it again with zeros is seen through its
      clone. */
  method ClearingReachesClone() returns (before: seq<Byte>, after: seq<Byte>)
    ensures before == [1, 2] && after != before
  {
    var v := new View.WithData([1, 2]);
    SizeIsLength(v);
    var u := v.Clone({});
    before := u.Contents();
    v.SetWrite(1, {u});
    assert u.Contents()[1] == 2;
    v.Extend(1, true, {u});
    after := u.Contents();
  }
}
