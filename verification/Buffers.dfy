/** Buffers of pkg/buffer: a list of views that together show one byte
    sequence. Every operation refines an operation on that sequence, and leaves
    what any other view shows unchanged. */
module Buffers {
  import opened Options
  import opened BufferViews

  /** The bytes that a list of views shows. */
  function Shown(views: seq<View>): seq<Byte>
    reads views, set v | v in views :: v.chunk
  {
    if views == [] then [] else views[0].Contents() + Shown(views[1..])
  }

  lemma {:induction false} ShownConcat(a: seq<View>, b: seq<View>)
    ensures Shown(a + b) == Shown(a) + Shown(b)
  {
    if a == [] {
      assert a + b == b;
    } else {
      assert (a + b)[1..] == a[1..] + b;
      ShownConcat(a[1..], b);
    }
  }

  lemma ShownSingle(v: View)
    ensures Shown([v]) == v.Contents()
  {
    assert [v][1..] == [];
  }

  twostate lemma {:induction false} ShownSame(views: seq<View>)
    requires forall v <- views :: v.Contents() == old(v.Contents())
    ensures Shown(views) == old(Shown(views))
  {
    if views != [] { ShownSame(views[1..]); }
  }

  ghost function Members(views: seq<View>): set<View> {
    set v | v in views
  }

  lemma OneMore(others: set<View>, views: seq<View>, v: View)
    ensures others + Members(views + [v]) == others + Members(views) + {v} == others + {v} + Members(views)
    ensures others + Members([v] + views) == others + Members(views) + {v}
  {
    assert Members(views + [v]) == Members(views) + {v} == Members([v] + views);
  }

  predicate Distinct(views: seq<View>) {
    forall i, j | 0 <= i < j < |views| :: views[i] != views[j]
  }

  function Clamp(n: int, hi: nat): nat {
    if n < 0 then 0 else if n > hi then hi else n
  }

  class Buffer {
    var data: seq<View>
    var size: int

    ghost function Chunks(): set<Chunk>
      reads this, data
    {
      set v | v in data :: v.chunk
    }

    ghost predicate Valid()
      reads this, data, Chunks(), set v, u | v in data && u in v.chunk.owners :: u
    {
      && Distinct(data)
      && (forall v <- data :: v.Owned() && v.Size() > 0)
      && size == |Shown(data)|
    }

    /** The views of this buffer and the given ones hold all the references to
        their chunks. */
    ghost predicate ClosedWith(more: set<View>)
      reads this, (more + Members(data))`chunk, (set v | v in more + Members(data) :: v.chunk)`owners
    {
      Closed(more + Members(data))
    }

    lemma OneMoreClosed(views: seq<View>, v: View, more: set<View>)
      requires data == views + [v] || data == [v] + views
      ensures ClosedWith(more) <==> Closed(more + {v} + Members(views))
    {
      OneMore(more, views, v);
    }

    function Contents(): seq<Byte>
      reads this, data, Chunks()
    {
      Shown(data)
    }

    constructor ()
      ensures Valid() && data == [] && Contents() == []
    {
      data, size := [], 0;
    }

    constructor Of(views: seq<View>, size: int)
      ensures data == views && this.size == size
    {
      data, this.size := views, size;
    }

    method PushBack(v: View)
      requires Valid() && v.Owned() && v !in data && v.Size() > 0
      modifies this
      ensures Valid() && data == old(data) + [v] && Contents() == old(Contents()) + v.Contents()
    {
      SizeIsLength(v);
      ShownConcat(data, [v]);
      ShownSingle(v);
      DistinctConcat(data, [v]);
      hide View.Owned;
      hide View.Contents;
      hide Shown;
      hide Distinct;
      data := data + [v];
      size := size + v.Size();
    }

    method AppendOwned(v: View, ghost others: set<View>)
      requires Valid() && v.Owned() && v !in data && v.Size() > 0
      modifies this
      ensures old(ClosedWith(others + {v})) ==> ClosedWith(others)
      ensures Valid() && data == old(data) + [v] && Contents() == old(Contents()) + v.Contents()
    {
      hide View.Owned;
      hide View.Contents;
      hide Shown;
      hide Closed;
      hide Valid;
      ghost var before := data;
      PushBack(v);
      OneMoreClosed(before, v, others);
    }

    /** Fill the free part of the last chunk, which nothing else shows. */
    method FillBack(bytes: seq<Byte>, ghost others: set<View>)
      requires Valid() && data != [] && !data[|data| - 1].SharesChunk()
      requires |bytes| <= |data[|data| - 1].chunk.data| - data[|data| - 1].write
      requires forall u <- others :: u !in data && u.Owned()
      modifies this`size, data[|data| - 1], data[|data| - 1].chunk
      ensures old(ClosedWith(others)) ==> ClosedWith(others)
      ensures Valid() && data == old(data) && Contents() == old(Contents()) + bytes
      ensures data[|data| - 1].chunk == old(data[|data| - 1].chunk)
      ensures forall u <- others :: u.Owned() && u.Contents() == old(u.Contents())
    {
      hide Closed;
      hide Shown;
      hide View.Owned;
      hide View.Contents;
      var k := |data| - 1;
      var v := data[k];
      assert others + Members(data) == others + Members(data[..k]) + {v};
      SplitLast(data);
      ghost var front, was := Shown(data[..k]), v.Contents();
      Assoc(front, was, bytes);
      SizeIsLength(v);
      var done := v.Write(bytes, others + Members(data[..k]));
      SizeIsLength(v);
      SplitLast(data);
      ShownSame(data[..k]);
      size := size + done;
    }

    method PushFront(v: View)
      modifies this
      ensures data == [v] + old(data) && size == old(size) + v.Size()
      ensures old(Valid()) && v.Owned() && v !in old(data) && v.Size() > 0 ==>
                Valid() && Contents() == v.Contents() + old(Contents())
    {
      ShownConcat([v], data);
      ShownSingle(v);
      data := [v] + data;
      size := size + v.Size();
    }

    method PrependOwned(v: View, ghost others: set<View>)
      modifies this
      ensures old(ClosedWith(others + {v})) ==> ClosedWith(others)
      ensures data == [v] + old(data) && size == old(size) + v.Size()
      ensures old(Valid()) && v.Owned() && v !in old(data) && v.Size() > 0 ==>
                Valid() && Contents() == v.Contents() + old(Contents())
    {
      hide View.Owned;
      hide View.Contents;
      hide Shown;
      hide Closed;
      hide Valid;
      ghost var before := data;
      PushFront(v);
      OneMoreClosed(before, v, others);
    }

    /** Fill the room before the first view, which nothing else shows. */
    method FillFront(bytes: seq<Byte>, ghost others: set<View>)
      requires Valid() && data != [] && !data[0].SharesChunk()
      requires |bytes| <= data[0].read
      requires forall u <- others :: u !in data && u.Owned()
      modifies this`size, data[0], data[0].chunk
      ensures old(ClosedWith(others)) ==> ClosedWith(others)
      ensures Valid() && data == old(data) && Contents() == bytes + old(Contents())
      ensures data[0].chunk == old(data[0].chunk)
      ensures forall u <- others :: u.Owned() && u.Contents() == old(u.Contents())
    {
      hide Closed;
      hide Shown;
      hide View.Owned;
      hide View.Contents;
      var v := data[0];
      assert others + Members(data) == others + Members(data[1..]) + {v};
      SplitFirst(data);
      ghost var was, rest := v.Contents(), Shown(data[1..]);
      Assoc(bytes, was, rest);
      SizeIsLength(v);
      v.Unread(bytes, others + Members(data[1..]));
      SizeIsLength(v);
      SplitFirst(data);
      ShownSame(data[1..]);
      size := size + |bytes|;
    }

    method PopFront(ghost others: set<View>)
      requires Valid() && data != []
      requires forall u <- others :: u !in data && u.Owned()
      modifies this, data[0].chunk
      ensures old(ClosedWith(others)) ==> ClosedWith(others)
      ensures Valid() && data == old(data[1..]) && size == old(size - data[0].Size())
      ensures old(data[0].Size()) <= old(size) && Contents() == old(Contents())[old(data[0].Size())..]
      ensures forall u <- others :: u.Owned() && u.Contents() == old(u.Contents())
    {
      hide Closed;
      hide Shown;
      hide View.Owned;
      hide View.Contents;
      var v := data[0];
      assert others + Members(data) == others + Members(data[1..]) + {v};
      SplitFirst(data);
      SizeIsLength(v);
      DropConcat(v.Contents(), Shown(data[1..]), v.Size());
      data := data[1..];
      size := size - v.Size();
      v.Release(others + Members(data));
      ShownSame(data);
    }

    method PopBack(ghost others: set<View>)
      requires Valid() && data != []
      requires forall u <- others :: u !in data && u.Owned()
      modifies this, data[|data| - 1].chunk
      ensures old(ClosedWith(others)) ==> ClosedWith(others)
      ensures Valid() && data == old(data[..|data| - 1]) && size == old(size - data[|data| - 1].Size())
      ensures size <= old(size) && Contents() == old(Contents())[..size]
      ensures forall u <- others :: u.Owned() && u.Contents() == old(u.Contents())
    {
      hide Closed;
      hide Shown;
      hide View.Owned;
      hide View.Contents;
      var k := |data| - 1;
      var v := data[k];
      assert others + Members(data) == others + Members(data[..k]) + {v};
      SplitLast(data);
      SizeIsLength(v);
      TakeConcat(Shown(data[..k]), v.Contents(), 0);
      data := data[..k];
      size := size - v.Size();
      v.Release(others + Members(data));
      ShownSame(data);
    }

    /** Moves into the free space of the last view what of src fits there. */
    method FillFrom(src: View, ghost others: set<View>)
      requires Valid() && data != [] && !data[|data| - 1].SharesChunk() && src.Owned() && src !in data
      requires forall u <- others :: u !in data && u != src && u.Owned()
      modifies this, data, Chunks(), src
      ensures old(ClosedWith(others + {src})) ==> ClosedWith(others + {src})
      ensures Valid() && data == old(data) && src.Owned() && src.chunk == old(src.chunk)
      ensures Contents() + src.Contents() == old(Contents() + src.Contents())
      ensures forall v <- data :: v.chunk == old(v.chunk)
      ensures forall u <- others :: u.Owned() && u.Contents() == old(u.Contents())
    {
      hide Closed;
      hide Shown;
      hide View.Owned;
      hide View.Contents;
      var v := data[|data| - 1];
      assert others + {src} + Members(data) == others + Members(data) + {src};
      SizeIsLength(v);
      SizeIsLength(src);
      var bytes := src.Contents();
      var room := |v.chunk.data| - v.write;
      var done := if src.Size() > room then room else src.Size();
      FillBack(bytes[..done], others + {src});
      label L:
      src.TrimFront(done, others + Members(data));
      ShownSame@L(data);
      SplitAt(old(Contents()), bytes, done);
    }

    method Append(src: View?, ghost others: set<View>)
      requires Valid() && (src != null ==> src.Owned() && src !in data)
      requires forall u <- others :: u !in data && u != src && u.Owned()
      modifies this, data, Chunks(), src, if src != null then {src.chunk} else {}
      ensures Valid() && Contents() == old(Contents() + if src != null then src.Contents() else [])
      ensures forall v <- data :: v in old(data) || v == src
      ensures forall v <- data ::
        v.chunk in old(Chunks()) || fresh(v.chunk) || (src != null && v.chunk == old(src.chunk))
      ensures forall u <- others :: u.Owned() && u.Contents() == old(u.Contents())
    {
      hide Closed;
      hide View.Owned;
      hide View.Contents;
      hide Shown;
      if src != null {
        AppendView(src, others);
      }
    }

    /** Append for a source that is there: what fits goes into the last chunk if
        nothing else shows it, and the rest keeps its view. */
    method AppendView(src: View, ghost others: set<View>)
      requires Valid() && src.Owned() && src !in data
      requires forall u <- others :: u !in data && u != src && u.Owned()
      modifies this, data, Chunks(), src, src.chunk
      ensures old(ClosedWith(others + {src})) ==> ClosedWith(others)
      ensures Valid() && Contents() == old(Contents() + src.Contents())
      ensures forall v <- data :: v in old(data) || v == src
      ensures forall v <- data :: v.chunk in old(Chunks()) || fresh(v.chunk) || v.chunk == old(src.chunk)
      ensures forall u <- others :: u.Owned() && u.Contents() == old(u.Contents())
    {
      hide Closed;
      hide Shown;
      hide View.Owned;
      hide View.Contents;
      SizeIsLength(src);
      OneMore(others, data, src);
      if src.Size() == 0 {
        src.Release(others + Members(data));
        ShownSame(data);
        return;
      }
      if data == [] || data[|data| - 1].Full() {
        AppendOwned(src, others);
        return;
      }
      var v := data[|data| - 1];
      SizeIsLength(v);
      if !v.SharesChunk() {
        FillFrom(src, others);
        SizeIsLength(src);
        if src.Size() == 0 {
          label M:
          src.Release(others + Members(data));
          ShownSame@M(data);
          return;
        }
      }
      AppendOwned(src, others);
    }

    /** Prepending src would write into the room before the first view. */
    predicate Fills(src: View?)
      reads this, data, Chunks(), src
    {
      src != null && src.Size() > 0 && data != [] && data[0].read > 0 && !data[0].SharesChunk()
    }

    /** The filling branch is right exactly when src begins at the start of its
        chunk. */
    method Prepend(src: View?, ghost others: set<View>)
      requires Valid() && (src != null ==> src.Owned() && src !in data)
      requires forall u <- others :: u !in data && u != src && u.Owned()
      modifies this, data, Chunks(), src, if src != null then {src.chunk} else {}
      ensures !old(Fills(src)) || old(src.read) == 0 ==>
                && Valid() && Contents() == old((if src != null then src.Contents() else []) + Contents())
                && forall u <- others :: u.Owned() && u.Contents() == old(u.Contents())
      ensures old(Fills(src)) ==> size == old(size) + old(src.Size()) - old(src.read)
      ensures forall v <- data :: v in old(data) || v == src
      ensures forall v <- data ::
        v.chunk in old(Chunks()) || fresh(v.chunk) || (src != null && v.chunk == old(src.chunk))
    {
      hide Closed;
      hide View.Owned;
      hide View.Contents;
      hide Shown;
      if src != null {
        PrependView(src, others);
      }
    }

    /** The source moves the end of src to srcStart rather than srcStart past
        its beginning. */
    method PrependView(src: View, ghost others: set<View>)
      requires Valid() && src.Owned() && src !in data
      requires forall u <- others :: u !in data && u != src && u.Owned()
      modifies this, data, Chunks(), src, src.chunk
      ensures old(ClosedWith(others + {src})) ==> ClosedWith(others)
      ensures !old(Fills(src)) || old(src.read) == 0 ==>
                && Valid() && Contents() == old(src.Contents() + Contents())
                && forall u <- others :: u.Owned() && u.Contents() == old(u.Contents())
      ensures old(Fills(src)) ==> size == old(size) + old(src.Size()) - old(src.read)
      ensures forall v <- data :: v in old(data) || v == src
      ensures forall v <- data :: v.chunk in old(Chunks()) || fresh(v.chunk) || v.chunk == old(src.chunk)
    {
      hide Closed;
      hide Shown;
      hide View.Owned;
      hide View.Contents;
      SizeIsLength(src);
      OneMore(others, data, src);
      if src.Size() == 0 {
        src.Release(others + Members(data));
        ShownSame(data);
        return;
      }
      if data == [] || data[0].read == 0 {
        PrependOwned(src, others);
        return;
      }
      if !data[0].SharesChunk() {
        var bytes := src.Contents();
        var avail := data[0].read;
        var srcStart := if avail > src.Size() then 0 else src.Size() - avail;
        FillFront(bytes[srcStart..], others + {src});
        label L:
        src.SetWrite(srcStart, others + Members(data));
        if src.read <= srcStart {
          ShownSame@L(data);
          SizeIsLength(src);
          SplitAt(old(Contents()), bytes, srcStart);
        }
        if src.Size() == 0 {
          label M:
          src.Release(others + Members(data));
          ShownSame@M(data);
          return;
        }
      }
      PrependOwned(src, others);
    }

    /** Drop the first n bytes, fewer than the first view shows. */
    method TrimFirst(n: nat, ghost others: set<View>)
      requires Valid() && data != [] && n < data[0].Size()
      requires forall u <- others :: u !in data && u.Owned()
      modifies this`size, data[0]
      ensures old(ClosedWith(others)) ==> ClosedWith(others)
      ensures Valid() && data == old(data) && Contents() == old(Contents())[n..]
      ensures data[0].chunk == old(data[0].chunk)
      ensures forall u <- others :: u.Owned() && u.Contents() == old(u.Contents())
    {
      hide Closed;
      hide Shown;
      hide View.Owned;
      hide View.Contents;
      var v := data[0];
      assert others + Members(data) == others + Members(data[1..]) + {v};
      SplitFirst(data);
      SizeIsLength(v);
      DropConcat(v.Contents(), Shown(data[1..]), n);
      v.TrimFront(n, others + Members(data[1..]));
      SizeIsLength(v);
      SplitFirst(data);
      ShownSame(data[1..]);
      size := size - n;
    }

    /** Drop the first count bytes. */
    method AdvanceRead(count: int, ghost others: set<View>)
      requires Valid() && count <= size
      requires forall u <- others :: u !in data && u.Owned()
      modifies this, data, Chunks()
      ensures old(ClosedWith(others)) ==> ClosedWith(others)
      ensures Valid() && Contents() == old(Contents())[Clamp(count, |old(Contents())|)..]
      ensures forall v <- data :: v in old(data) && v.chunk == old(v.chunk)
      ensures forall u <- others :: u.Owned() && u.Contents() == old(u.Contents())
    {
      hide Closed;
      hide Shown;
      hide View.Owned;
      hide View.Contents;
      var left := count;
      while data != [] && left > 0
        invariant Valid() && (forall v <- data :: v in old(data) && v.chunk == old(v.chunk))
        invariant left <= size && (left == count || 0 <= left <= count)
        invariant Contents() == old(Contents())[if left == count then 0 else count - left..]
        invariant forall u <- others :: u.Owned() && u.Contents() == old(u.Contents())
        invariant old(ClosedWith(others)) ==> ClosedWith(others)
        decreases |data|
      {
        var v := data[0];
        SizeIsLength(v);
        if v.Size() > left {
          DropDrop(old(Contents()), count - left, left);
          TrimFirst(left, others);
          return;
        }
        DropDrop(old(Contents()), count - left, v.Size());
        left := left - v.Size();
        PopFront(others);
      }
      ShownNone();
    }

    /** Drop the first count bytes, or all of them. */
    method TrimFront(count: int, ghost others: set<View>)
      requires Valid()
      requires forall u <- others :: u !in data && u.Owned()
      modifies this, data, Chunks()
      ensures old(ClosedWith(others)) ==> ClosedWith(others)
      ensures Valid() && Contents() == old(Contents())[Clamp(count, |old(Contents())|)..]
      ensures forall v <- data :: v in old(data) && v.chunk == old(v.chunk)
      ensures forall u <- others :: u.Owned() && u.Contents() == old(u.Contents())
    {
      hide Closed;
      AdvanceRead(if count >= size then size else count, others);
    }

    method CapLast(n: nat, ghost others: set<View>)
      requires Valid() && data != [] && 0 < n <= data[|data| - 1].Size()
      requires forall u <- others :: u !in data && u.Owned()
      modifies this`size, data[|data| - 1]
      ensures old(ClosedWith(others)) ==> ClosedWith(others)
      ensures Valid() && data == old(data) && data[|data| - 1].chunk == old(data[|data| - 1].chunk)
      ensures size == old(size - data[|data| - 1].Size()) + n && size <= old(size)
      ensures Contents() == old(Contents())[..size]
      ensures forall u <- others :: u.Owned() && u.Contents() == old(u.Contents())
    {
      hide Closed;
      hide Shown;
      hide View.Owned;
      hide View.Contents;
      var k := |data| - 1;
      var v := data[k];
      SplitLast(data);
      assert others + Members(data) == others + Members(data[..k]) + {v};
      SizeIsLength(v);
      TakeConcat(Shown(data[..k]), v.Contents(), n);
      size := size - v.Size() + n;
      v.SetWrite(v.read + n, others + Members(data[..k]));
      SizeIsLength(v);
      SplitLast(data);
      assert others + Members(data) == others + Members(data[..k]) + {v};
      ShownSame(data[..k]);
    }

    method Truncate(length: nat, ghost others: set<View>)
      requires Valid()
      requires forall u <- others :: u !in data && u.Owned()
      modifies this, data, Chunks()
      ensures old(ClosedWith(others)) ==> ClosedWith(others)
      ensures Valid() && Contents() == old(Contents())[..if length >= old(size) then old(size) else length]
      ensures forall v <- data :: v in old(data) && v.chunk == old(v.chunk)
      ensures forall u <- others :: u.Owned() && u.Contents() == old(u.Contents())
    {
      hide Closed;
      hide Shown;
      hide View.Owned;
      hide View.Contents;
      if length >= size {
        return;
      }
      while data != [] && size > length
        invariant Valid() && size >= length && (forall v <- data :: v in old(data) && v.chunk == old(v.chunk))
        invariant size <= |old(Contents())| && Contents() == old(Contents())[..size]
        invariant forall u <- others :: u.Owned() && u.Contents() == old(u.Contents())
        invariant old(ClosedWith(others)) ==> ClosedWith(others)
        decreases |data|
      {
        var v := data[|data| - 1];
        SizeIsLength(v);
        var after := size - v.Size();
        if after < length {
          CapLast(length - after, others);
          TakeTake(old(Contents()), old(size), length);
          break;
        }
        PopBack(others);
      }
      ShownNone();
    }

    method Release(ghost others: set<View>)
      requires Valid()
      requires forall u <- others :: u !in data && u.Owned()
      modifies this, Chunks()
      ensures old(ClosedWith(others)) ==> ClosedWith(others)
      ensures Valid() && data == []
      ensures forall u <- others :: u.Owned() && u.Contents() == old(u.Contents())
    {
      hide Closed;
      hide Shown;
      hide View.Owned;
      hide View.Contents;
      while data != []
        invariant Valid() && (forall v <- data :: v in old(data) && v.chunk == old(v.chunk))
        invariant forall u <- others :: u.Owned() && u.Contents() == old(u.Contents())
        invariant old(ClosedWith(others)) ==> ClosedWith(others)
        decreases |data|
      {
        PopFront(others);
      }
      ShownNone();
      size := 0;
    }

    /** A copy-on-write clone: all chunks are shared, and nothing moves. */
    method Clone(ghost others: set<View>) returns (other: Buffer)
      requires Valid()
      requires forall u <- others :: u.Owned()
      modifies Chunks()
      ensures Valid() && data == old(data) && Contents() == old(Contents())
      ensures fresh(other) && other.Valid() && other.Contents() == Contents()
      ensures forall v <- other.data :: fresh(v) && v.chunk in Chunks()
      ensures forall u <- others :: u.Owned() && u.Contents() == old(u.Contents())
      ensures (forall v <- data :: v in others) && old(Closed(others)) ==> Closed(others + Members(other.data))
    {
      hide Closed;
      hide Shown;
      hide View.Owned;
      hide View.Contents;
      ghost var own := Members(data);
      assert (forall v <- data :: v in others) ==> others + own == others;
      var clones := CloneShown(data, others + own);
      assert forall v <- data :: v in own;
      ShownSame(data);
      other := new Buffer.Of(clones, size);
    }

    /** Move the views of other behind those of this buffer. */
    method Merge(other: Buffer)
      requires Valid() && other.Valid() && other != this
      requires forall v <- data :: v !in other.data
      modifies this, other
      ensures Valid() && other.Valid() && other.data == [] && data == old(data + other.data)
      ensures Contents() == old(Contents() + other.Contents())
    {
      hide Shown;
      hide View.Owned;
      hide View.Contents;
      ShownConcat(data, other.data);
      ShownNone();
      DistinctConcat(data, other.data);
      data := data + other.data;
      other.data := [];
      size := size + other.size;
      other.size := 0;
    }

    /** Read up to want bytes from offset on; eof says whether the end of the
        buffer was reached or passed. */
    method ReadAt(want: nat, offset: nat) returns (out: seq<Byte>, eof: bool)
      requires Valid()
      ensures out == Window(Contents(), offset, want)
      ensures eof <==> |out| < want || offset + |out| == size
    {
      hide Shown;
      hide Window;
      hide View.Owned;
      hide View.Contents;
      var skipped := 0;
      out := [];
      var i := 0;
      assert data[..0] == [];
      ShownNone();
      WindowOfNone(offset, want);
      while i < |data| && |out| < want
        invariant 0 <= i <= |data| && out == Window(Shown(data[..i]), offset, want)
        invariant skipped == Clamp(offset, |Shown(data[..i])|)
      {
        var v := data[i];
        SizeIsLength(v);
        ShownSnoc(data, i);
        var needToSkip := offset - skipped;
        WindowSnoc(Shown(data[..i]), v.Contents(), offset, want);
        if v.Size() <= needToSkip {
          skipped := skipped + v.Size();
        } else {
          var n := if want - |out| < v.Size() - needToSkip then want - |out| else v.Size() - needToSkip;
          out := out + v.Contents()[needToSkip..needToSkip + n];
          skipped := skipped + needToSkip;
        }
        i := i + 1;
      }
      WindowEnd(data, i, offset, want);
      eof := |out| < want || offset + |out| == size;
    }

    /** Read and consume up to want bytes. */
    method Read(want: nat, ghost others: set<View>) returns (out: seq<Byte>, eof: bool)
      requires Valid()
      requires forall u <- others :: u !in data && u.Owned()
      modifies this, data, Chunks()
      ensures old(ClosedWith(others)) ==> ClosedWith(others)
      ensures Valid() && out + Contents() == old(Contents())
      ensures |out| == Clamp(want, |old(Contents())|) && (eof <==> want > 0 && out == [])
      ensures forall v <- data :: v in old(data) && v.chunk == old(v.chunk)
      ensures forall u <- others :: u.Owned() && u.Contents() == old(u.Contents())
    {
      hide Closed;
      hide Shown;
      hide View.Owned;
      hide View.Contents;
      out := [];
      if want == 0 {
        return out, false;
      }
      if size == 0 {
        return out, true;
      }
      ShownNone();
      while data != [] && |out| < want
        invariant Valid() && |out| <= want && (forall v <- data :: v in old(data) && v.chunk == old(v.chunk))
        invariant out + Contents() == old(Contents())
        invariant forall u <- others :: u.Owned() && u.Contents() == old(u.Contents())
        invariant data == [] ==> Contents() == []
        invariant old(ClosedWith(others)) ==> ClosedWith(others)
        decreases |data|, want - |out|
      {
        var v := data[0];
        SizeIsLength(v);
        SplitFirst(data);
        ShownNone();
        var n := if want - |out| < v.Size() then want - |out| else v.Size();
        MovePrefix(out, Contents(), v.Contents(), n);
        out := out + v.Contents()[..n];
        if n == v.Size() {
          PopFront(others);
        } else {
          TrimFirst(n, others);
        }
      }
      eof := false;
    }

    /** The first view that shows a byte of the range, and how many bytes are
        shown before it. */
    method Locate(tgt: Range) returns (i: nat, begin: nat)
      requires Valid() && 0 <= tgt.begin < tgt.end <= size
      ensures i < |data| && begin == |Shown(data[..i])| <= tgt.begin < begin + data[i].Size()
    {
      hide Shown;
      hide View.Owned;
      hide View.Contents;
      i, begin := 0, 0;
      assert data[..0] == [];
      assert data[..|data|] == data;
      ShownNone();
      while i < |data|
        invariant i <= |data| && begin == |Shown(data[..i])| <= tgt.begin
      {
        SizeIsLength(data[i]);
        ShownSnoc(data, i);
        var curr := Range(begin, begin + data[i].Size());
        if curr.Intersect(tgt).Len() > 0 {
          return;
        }
        begin := begin + data[i].Size();
        i := i + 1;
      }
    }

    /** Replace the views from i up to j by one view on a chunk of its own. */
    method MergeRange(i: nat, j: nat, totLen: nat, ghost others: set<View>) returns (merged: View)
      requires Valid() && i < j <= |data| && totLen == |Shown(data[i..j])|
      requires forall u <- others :: u !in data && u.Owned()
      modifies this`data, set v | v in data[i..j] :: v.chunk
      ensures old(ClosedWith(others)) ==> ClosedWith(others)
      ensures Valid() && Contents() == old(Contents()) && data == old(data)[..i] + [merged] + old(data)[j..]
      ensures fresh(merged) && fresh(merged.chunk) && merged.Owned() && !merged.SharesChunk() && merged.read == 0
      ensures merged.Contents() == old(Shown(data[i..j]))
      ensures forall u <- others :: u.Owned() && u.Contents() == old(u.Contents())
    {
      hide Closed;
      hide Shown;
      hide View.Owned;
      hide View.Contents;
      hide Valid;
      SplicedMembers(others, data, i, j);
      merged := Splice(i, j, totLen, others, others + Members(data[..i]) + Members(data[j..]));
      WithMerged(others, old(data)[..i], merged, old(data)[j..]);
    }

    method Splice(i: nat, j: nat, totLen: nat, ghost others: set<View>, ghost rest: set<View>) returns (merged: View)
      requires Valid() && i < j <= |data| && totLen == |Shown(data[i..j])|
      requires forall u <- others :: u !in data && u.Owned()
      requires rest == others + Members(data[..i]) + Members(data[j..])
      modifies this`data, set v | v in data[i..j] :: v.chunk
      ensures old(Closed(rest + Members(data[i..j]))) ==> Closed(rest + {merged})
      ensures Valid() && Contents() == old(Contents()) && data == old(data)[..i] + [merged] + old(data)[j..]
      ensures fresh(merged) && fresh(merged.chunk) && merged.Owned() && !merged.SharesChunk() && merged.read == 0
      ensures merged.Contents() == old(Shown(data[i..j]))
      ensures forall u <- others :: u.Owned() && u.Contents() == old(u.Contents())
    {
      hide Closed;
      hide Shown;
      hide View.Owned;
      hide View.Contents;
      hide Distinct;
      ThreeParts(data[..i], data[i..j], data[j..]);
      assert data == data[..i] + data[i..j] + data[j..];
      SplitFirst(data[i..j]);
      SizeIsLength(data[i]);
      PartsDistinct(data, i, j);
      merged := Gather(data[i..j], totLen, rest);
      SizeIsLength(merged);
      ShownSame(data[..i]);
      ShownSame(data[j..]);
      Spliced(data, i, j, merged);
      data := data[..i] + [merged] + data[j..];
    }

    /** The views from i on that are needed to reach end, counted from the
        beginning of view i. */
    method Extent(i: nat, end: nat) returns (j: nat, totLen: nat)
      requires Valid() && i < |data| && 0 < end <= |Shown(data[i..])|
      ensures i < j <= |data| && totLen == |Shown(data[i..j])| && end <= totLen
    {
      hide Shown;
      hide View.Owned;
      hide View.Contents;
      j, totLen := i, 0;
      assert data[i..i] == [];
      ShownNone();
      assert data[i..|data|] == data[i..];
      while totLen < end && j < |data|
        invariant i <= j <= |data| && totLen == |Shown(data[i..j])|
      {
        SizeIsLength(data[j]);
        assert data[i..][..j - i] == data[i..j] && data[i..][..j + 1 - i] == data[i..j + 1];
        ShownSnoc(data[i..], j - i);
        totLen := totLen + data[j].Size();
        j := j + 1;
      }
    }

    /** The view at index i gets a chunk of its own. */
    method UnshareAt(i: nat, ghost others: set<View>)
      requires Valid() && i < |data|
      requires forall u <- others :: u !in data && u.Owned()
      modifies data[i], data[i].chunk
      ensures old(ClosedWith(others)) ==> ClosedWith(others)
      ensures Valid() && Contents() == old(Contents()) && !data[i].SharesChunk()
      ensures data[i].chunk == old(data[i].chunk) || fresh(data[i].chunk)
      ensures data[i].read == old(data[i].read) && data[i].write == old(data[i].write)
      ensures data[i].Contents() == old(data[i].Contents())
      ensures forall u <- others :: u.Owned() && u.Contents() == old(u.Contents())
    {
      hide Closed;
      hide Shown;
      hide View.Owned;
      hide View.Contents;
      ghost var rest := others + Members(data[..i]) + Members(data[i + 1..]);
      assert others + Members(data) == rest + {data[i]};
      data[i].Unshare(rest);
      ShownSame(data);
    }

    /** Bytes lo to hi of the view at i, on a chunk that nothing else shows. */
    method PullWithin(i: nat, lo: nat, hi: nat, ghost others: set<View>) returns (s: Slice)
      requires Valid() && i < |data| && lo <= hi <= data[i].Size()
      requires forall u <- others :: u !in data && u.Owned()
      modifies data[i], data[i].chunk
      ensures old(ClosedWith(others)) ==> ClosedWith(others)
      ensures Valid() && Contents() == old(Contents())
      ensures data[i].chunk == old(data[i].chunk) || fresh(data[i].chunk)
      ensures s.Bytes() == Window(old(Shown(data[i..])), lo, hi - lo)
      ensures s.chunk == data[i].chunk && !data[i].SharesChunk()
      ensures forall u <- others :: u.Owned() && u.Contents() == old(u.Contents())
    {
      hide Closed;
      hide Shown;
      hide Window;
      hide View.Owned;
      hide View.Contents;
      var v := data[i];
      SplitFirst(data[i..]);
      SizeIsLength(v);
      WindowOfPrefix(v.Contents(), Shown(data[i..][1..]), lo, hi);
      UnshareAt(i, others);
      SliceShows(v, lo, hi);
      s := Slice(v.chunk, v.read + lo, v.read + hi);
    }

    /** Bytes lo to hi counted from the view at i, after merging the views they
        are spread over. */
    method PullAcross(i: nat, lo: nat, hi: nat, ghost others: set<View>) returns (s: Slice)
      requires Valid() && i < |data| && lo < hi <= |Shown(data[i..])|
      requires forall u <- others :: u !in data && u.Owned()
      modifies this`data, Chunks()
      ensures old(ClosedWith(others)) ==> ClosedWith(others)
      ensures Valid() && Contents() == old(Contents()) && i < |data|
      ensures forall v <- data :: (v in old(data) || fresh(v)) && (v.chunk in old(Chunks()) || fresh(v.chunk))
      ensures s.Bytes() == Window(old(Shown(data[i..])), lo, hi - lo)
      ensures s.chunk == data[i].chunk && !data[i].SharesChunk()
      ensures forall u <- others :: u.Owned() && u.Contents() == old(u.Contents())
    {
      hide Closed;
      hide Shown;
      hide Window;
      hide View.Owned;
      hide View.Contents;
      var j, totLen := Extent(i, hi);
      assert data[i..] == data[i..j] + data[j..];
      ShownConcat(data[i..j], data[j..]);
      WindowOfPrefix(Shown(data[i..j]), Shown(data[j..]), lo, hi);
      var merged := MergeRange(i, j, totLen, others);
      SizeIsLength(merged);
      SliceShows(merged, lo, hi);
      s := Slice(merged.chunk, lo, hi);
    }

    /** Make the given range contiguous. The memory returned shows exactly that
        range and belongs to one view of this buffer only; the buffer shows
        what it did before. */
    method PullUp(offset: int, length: int, ghost others: set<View>) returns (pulled: Option<Slice>, ok: bool)
      requires Valid()
      requires forall u <- others :: u !in data && u.Owned()
      modifies this`data, data, Chunks()
      ensures old(ClosedWith(others)) ==> ClosedWith(others)
      ensures Valid() && Contents() == old(Contents())
      ensures forall v <- data :: (v in old(data) || fresh(v)) && (v.chunk in old(Chunks()) || fresh(v.chunk))
      ensures ok <==> length == 0 || (0 <= offset && 0 < length && offset + length <= size)
      ensures pulled.Some? <==> ok && length != 0
      ensures pulled.Some? ==>
                && pulled.value.Bytes() == Window(Contents(), offset, length)
                && exists v <- data :: v.chunk == pulled.value.chunk && !v.SharesChunk()
      ensures forall u <- others :: u.Owned() && u.Contents() == old(u.Contents())
    {
      hide Closed;
      hide Shown;
      hide Window;
      hide View.Owned;
      hide View.Contents;
      if length == 0 {
        return None, true;
      }
      var tgt := Range(offset, offset + length);
      if tgt.Intersect(Range(0, size)).Len() != length {
        return None, false;
      }
      var i, begin := Locate(tgt);
      ShownAround(data, i);
      WindowOfSuffix(Shown(data[..i]), Shown(data[i..]), offset, length);
      var s: Slice;
      if tgt.end <= begin + data[i].Size() {
        s := PullWithin(i, offset - begin, tgt.end - begin, others);
      } else {
        s := PullAcross(i, offset - begin, tgt.end - begin, others);
      }
      return Some(s), true;
    }

    /** How many of the bytes that GrowTo adds go into the last chunk. */
    ghost function Room(length: nat): nat
      reads this, data, Chunks()
    {
      if data == [] || size >= length then 0
      else
        var v := data[|data| - 1];
        var room := |v.chunk.data| - v.write;
        if room < 0 then 0 else if room > length - size then length - size else room
    }

    /** GrowTo would clear a byte other than zero that u shows. */
    ghost predicate Clobbers(u: View, length: nat)
      reads this, data, Chunks(), u, u.chunk
    {
      data != [] && ShowsNonzero(u, data[|data| - 1].chunk, data[|data| - 1].write, Room(length))
    }

    method GrowLast(n: nat, zero: bool, ghost others: set<View>) returns (ghost tail: seq<Byte>)
      requires Valid() && data != [] && data[|data| - 1].write + n <= |data[|data| - 1].chunk.data|
      requires forall u <- others :: u !in data && u.Owned()
      modifies this`size, data[|data| - 1], data[|data| - 1].chunk
      ensures Valid() && data == old(data) && size == old(size) + n
      ensures data[|data| - 1].chunk == old(data[|data| - 1].chunk)
      ensures data[|data| - 1].write == old(data[|data| - 1].write) + n
      ensures |data[|data| - 1].chunk.data| == old(|data[|data| - 1].chunk.data|)
      ensures forall u <- others + Members(data[..|data| - 1]) :: u.Owned() &&
                (u.Contents() == old(u.Contents()) <==>
                 !old(zero && ShowsNonzero(u, data[|data| - 1].chunk, data[|data| - 1].write, n)))
      ensures |tail| == n && (zero ==> tail == seq(n, _ => 0))
      ensures if forall v <- data[..|data| - 1] :: v.Contents() == old(v.Contents())
              then Contents() == old(Contents()) + tail
              else !(old(Contents()) <= Contents())
    {
      hide Shown;
      hide View.Owned;
      hide View.Contents;
      hide ShowsNonzero;
      var k := |data| - 1;
      var v := data[k];
      SplitLast(data);
      SizeIsLength(v);
      ghost var front, was := Shown(data[..k]), v.Contents();
      tail := if zero then seq(n, _ => 0) else v.chunk.data[v.write..v.write + n];
      v.Extend(n, zero, others + Members(data[..k]));
      SizeIsLength(v);
      SplitLast(data);
      ShownLength(data[..k]);
      ShownSameIff(data[..k]);
      NewFront(front, was, Shown(data[..k]), tail);
      size := size + n;
    }

    ghost function Last(): set<object>
      reads this, data
    {
      if data == [] then {} else {data[|data| - 1], data[|data| - 1].chunk}
    }

    /** One turn of GrowTo: the rest of the last chunk, or a new chunk. */
    method GrowOnce(length: nat, zero: bool, ghost others: set<View>)
      requires Valid() && size < length
      requires forall u <- others :: u !in data && u.Owned()
      modifies this, Last()
      ensures Valid() && old(size) < size <= length && Room(length) == 0
      ensures forall v <- data :: if v in old(data) then v.chunk == old(v.chunk) else fresh(v) && fresh(v.chunk)
      ensures forall u <- others ::
                u.Owned() && (u.Contents() == old(u.Contents()) <==> !old(zero && Clobbers(u, length)))
      ensures Grown(old(Contents()), Contents(), zero) <==> forall v <- old(data) :: !old(zero && Clobbers(v, length))
    {
      hide Shown;
      hide View.Owned;
      hide View.Contents;
      hide ShowsNonzero;
      NothingToClear();
      var k := |data| - 1;
      if data == [] || data[k].Full() {
        var v := new View.OfSize(length - size);
        SizeIsLength(v);
        GrownBy(Contents(), v.Contents(), zero);
        AppendOwned(v, others);
      } else {
        SizeIsLength(data[k]);
        var n := |data[k].chunk.data| - data[k].write;
        n := if n > length - size then length - size else n;
        OwnUnclobbered(data[k], n);
        ghost var tail := GrowLast(n, zero, others);
        SplitMembers(old(data));
        GrownBy(old(Contents()), tail, zero);
      }
    }

    /** Grow to length bytes, zero ones if zero is set. Bytes shown by another
        view, or by an earlier view of this buffer, stay as they are exactly
        when none of them is a byte other than zero that clearing the rest of
        the last chunk hits; only the first turn of the loop finds such a rest. */
    method GrowTo(length: nat, zero: bool, ghost others: set<View>)
      requires Valid()
      requires forall u <- others :: u !in data && u.Owned()
      modifies this, data, Chunks()
      ensures Valid() && size == if length > old(size) then length else old(size)
      ensures forall u <- others ::
                u.Owned() && (u.Contents() == old(u.Contents()) <==> !old(zero && Clobbers(u, length)))
      ensures Grown(old(Contents()), Contents(), zero) <==> forall v <- old(data) :: !old(zero && Clobbers(v, length))
    {
      hide Shown;
      hide Grown;
      hide View.Owned;
      hide View.Contents;
      hide ShowsNonzero;
      NothingToClear();
      if size >= length {
        GrownBy(Contents(), [], zero);
        assert Contents() + [] == Contents();
        return;
      }
      GrowOnce(length, zero, others);
      while size < length
        invariant Valid() && size <= length && Room(length) == 0
        invariant forall v <- data :: if v in old(data) then v.chunk == old(v.chunk) else fresh(v) && fresh(v.chunk)
        invariant forall u <- others ::
                    u.Owned() && (u.Contents() == old(u.Contents()) <==> !old(zero && Clobbers(u, length)))
        invariant Grown(old(Contents()), Contents(), zero) <==>
          forall v <- old(data) :: !old(zero && Clobbers(v, length))
      {
        ghost var was := Contents();
        NothingToClear();
        GrowOnce(length, zero, others);
        GrownOn(old(Contents()), was, Contents(), zero);
      }
    }
  }

  /** s' begins with s and, if asked for, goes on with zeros. */
  ghost predicate Grown(s: seq<Byte>, s': seq<Byte>, zero: bool) {
    s <= s' && (zero ==> s' == s + seq(|s'| - |s|, _ => 0))
  }

  lemma GrownBy(s: seq<Byte>, tail: seq<Byte>, zero: bool)
    requires zero ==> tail == seq(|tail|, _ => 0)
    ensures Grown(s, s + tail, zero)
  {
  }

  lemma GrownOn(a: seq<Byte>, b: seq<Byte>, c: seq<Byte>, zero: bool)
    requires |a| <= |b| && Grown(b, c, zero)
    ensures Grown(a, c, zero) <==> Grown(a, b, zero)
  {
    if Grown(a, c, zero) {
      assert b == c[..|b|];
      assert a <= b;
    }
  }

  lemma NewFront(front: seq<Byte>, was: seq<Byte>, front': seq<Byte>, tail: seq<Byte>)
    requires |front| == |front'|
    ensures if front == front' then front' + (was + tail) == (front + was) + tail
            else !(front + was <= front' + (was + tail))
  {
    assert (front + was)[..|front|] == front && (front' + (was + tail))[..|front|] == front';
  }

  lemma NothingToClear()
    ensures forall u: View, c: Chunk, lo: nat {:trigger ShowsNonzero(u, c, lo, 0)} :: !ShowsNonzero(u, c, lo, 0)
  {
  }

  /** Clearing behind a view does not touch what it shows. */
  lemma OwnUnclobbered(v: View, n: nat)
    requires v.Owned()
    ensures !ShowsNonzero(v, v.chunk, v.write, n)
  {
  }

  lemma SplitMembers(views: seq<View>)
    requires views != []
    ensures forall v :: v in views <==> v in views[..|views| - 1] || v == views[|views| - 1]
  {
    assert views == views[..|views| - 1] + [views[|views| - 1]];
  }

  lemma EqualParts(a: seq<Byte>, b: seq<Byte>, a': seq<Byte>, b': seq<Byte>)
    requires |a| == |a'|
    ensures a + b == a' + b' <==> a == a' && b == b'
  {
    assert (a + b)[..|a|] == a && (a' + b')[..|a|] == a';
    assert (a + b)[|a|..] == b && (a' + b')[|a|..] == b';
  }

  /** Views that show as many bytes as before show the same together exactly if
      each of them does. */
  twostate lemma {:induction false} ShownSameIff(views: seq<View>)
    requires forall v <- views :: |v.Contents()| == old(|v.Contents()|)
    ensures Shown(views) == old(Shown(views)) <==> forall v <- views :: v.Contents() == old(v.Contents())
  {
    hide View.Contents;
    if views != [] {
      EqualParts(views[0].Contents(), Shown(views[1..]), old(views[0].Contents()), old(Shown(views[1..])));
      ShownSameIff(views[1..]);
      assert forall v :: v in views <==> v == views[0] || v in views[1..];
    }
  }

  twostate lemma {:induction false} ShownLength(views: seq<View>)
    requires forall v <- views :: |v.Contents()| == old(|v.Contents()|)
    ensures |Shown(views)| == |old(Shown(views))|
  {
    if views != [] { ShownLength(views[1..]); }
  }

  /** The second of two bytes. */
  method SecondOf(x: Byte, y: Byte) returns (v: View)
    ensures fresh(v) && fresh(v.chunk) && v.Owned() && !v.SharesChunk() && v.Contents() == [y]
    ensures v.read == 1 && v.Size() == 1
  {
    v := new View.WithData([x, y]);
    SizeIsLength(v);
    v.TrimFront(1, {});
  }

  /** One byte put before one byte, both in views that do not begin at the start
      of their chunks, gives a buffer of size one. */
  method PrependLosesByte() returns (held: seq<Byte>, added: seq<Byte>, b: Buffer)
    ensures held == [2] && added == [4] && b.size == 1
  {
    hide Shown;
    hide View.Owned;
    hide View.Contents;
    hide Closed;
    hide Members;
    var v := SecondOf(1, 2);
    var src := SecondOf(3, 4);
    b := new Buffer();
    b.AppendOwned(v, {});
    held, added := b.Contents(), src.Contents();
    b.Prepend(src, {});
  }

  /** Borrowed memory: a window that is not counted. */
  datatype Slice = Slice(chunk: Chunk, read: nat, write: nat) {
    function Bytes(): seq<Byte>
      reads chunk
    {
      if read <= write <= |chunk.data| then chunk.data[read..write] else []
    }
  }

  lemma SliceShows(v: View, lo: nat, hi: nat)
    requires v.Owned() && lo <= hi <= v.Size()
    ensures Slice(v.chunk, v.read + lo, v.read + hi).Bytes() == v.Contents()[lo..hi]
  {
  }

  lemma WindowOfPrefix(a: seq<Byte>, b: seq<Byte>, lo: nat, hi: nat)
    requires lo <= hi <= |a|
    ensures Window(a + b, lo, hi - lo) == a[lo..hi]
  {
  }

  lemma WindowOfSuffix(a: seq<Byte>, b: seq<Byte>, offset: nat, want: nat)
    requires |a| <= offset && offset + want <= |a + b|
    ensures Window(a + b, offset, want) == Window(b, offset - |a|, want)
  {
  }

  lemma ShownAround(data: seq<View>, i: nat)
    requires i < |data|
    ensures Shown(data) == Shown(data[..i]) + Shown(data[i..])
  {
    assert data == data[..i] + data[i..];
    ShownConcat(data[..i], data[i..]);
  }

  lemma PartsDistinct(data: seq<View>, i: nat, j: nat)
    requires Distinct(data) && i <= j <= |data|
    ensures Distinct(data[i..j])
    ensures forall v | v in data[..i] || v in data[j..] :: v !in data[i..j]
  {
  }

  lemma SplicedMembers(others: set<View>, data: seq<View>, i: nat, j: nat)
    requires i <= j <= |data|
    ensures others + Members(data[..i]) + Members(data[j..]) + Members(data[i..j]) == others + Members(data)
  {
    assert data == data[..i] + data[i..j] + data[j..];
  }

  lemma WithMerged(others: set<View>, a: seq<View>, v: View, b: seq<View>)
    ensures others + Members(a + [v] + b) == others + Members(a) + Members(b) + {v}
  {
  }

  /** The list with one view in place of those from i up to j. */
  lemma Spliced(data: seq<View>, i: nat, j: nat, v: View)
    requires Distinct(data) && i <= j <= |data| && v !in data
    ensures var r := data[..i] + [v] + data[j..];
            && Distinct(r) && Shown(r) == Shown(data[..i]) + v.Contents() + Shown(data[j..])
            && forall u <- r :: u == v || u in data[..i] || u in data[j..]
  {
    ThreeParts(data[..i], [v], data[j..]);
    ShownSingle(v);
  }

  lemma ThreeParts(a: seq<View>, b: seq<View>, c: seq<View>)
    ensures Shown(a + b + c) == Shown(a) + Shown(b) + Shown(c)
  {
    ShownConcat(a + b, c);
    ShownConcat(a, b);
  }

  lemma OverwritePrefix(s: seq<Byte>, off: nat, p: seq<Byte>)
    requires off + |p| <= |s|
    ensures Overwrite(s, off, p)[..off + |p|] == s[..off] + p
  {
  }

  /** Copy what v shows into merged at off, and then release v if asked to. */
  method TakeOver(merged: View, off: nat, v: View, release: bool, ghost others: set<View>)
    requires merged.Owned() && !merged.SharesChunk() && v.Owned() && v != merged
    requires off + v.Size() <= merged.Size()
    requires forall u <- others :: u != merged && u != v && u.Owned()
    modifies merged, merged.chunk, v.chunk
    ensures old(Closed(others + {merged, v})) ==> Closed(others + if release then {merged} else {merged, v})
    ensures merged.Owned() && merged.chunk == old(merged.chunk) && !merged.SharesChunk()
    ensures merged.read == old(merged.read) && merged.write == old(merged.write)
    ensures merged.Contents()[..off + v.Size()] == old(merged.Contents()[..off] + v.Contents())
    ensures !release ==> v.Owned()
    ensures forall u <- others :: u.Owned() && u.Contents() == old(u.Contents())
  {
    hide Closed;
    hide Overwrite;
    hide View.Owned;
    hide View.Contents;
    SizeIsLength(merged);
    SizeIsLength(v);
    OverwritePrefix(merged.Contents(), off, v.Contents());
    var bytes := v.Contents();
    assert bytes[..|bytes|] == bytes;
    assert others + {merged, v} == others + {v} + {merged} == others + {merged} + {v};
    var _, _ := merged.WriteAt(bytes, off, others + {v});
    if v.chunk == merged.chunk { SharedIsCounted(v, merged); }
    if release {
      v.Release(others + {merged});
    }
  }

  /** The views that are not yet released when the first k are merged. */
  ghost function Unmerged(others: set<View>, views: seq<View>, k: nat): set<View>
    requires k <= |views|
  {
    others + Members(views[k..]) + if k > 0 then {views[0]} else {}
  }

  lemma OneUnmerged(others: set<View>, views: seq<View>, k: nat, merged: View) returns (rest: set<View>)
    requires k < |views|
    ensures Unmerged(others, views, k) + {merged} == rest + {merged, views[k]}
    ensures Unmerged(others, views, k + 1) + {merged} == rest + if k > 0 then {merged} else {merged, views[k]}
    ensures (forall u <- others :: u in rest) && (forall u <- views[k + 1..] :: u in rest)
    ensures k > 0 ==> views[0] in rest
    ensures forall u <- rest :: u in others || u in views[k + 1..] || (k > 0 && u == views[0])
  {
    rest := others + Members(views[k + 1..]) + if k > 0 then {views[0]} else {};
    assert Members(views[k..]) == {views[k]} + Members(views[k + 1..]);
  }

  lemma AllMerged(others: set<View>, views: seq<View>, merged: View)
    requires views != []
    ensures Unmerged(others, views, |views|) + {merged} == others + {merged, views[0]}
  {
    assert Members(views[|views|..]) == {};
  }

  /** Copy what view k shows into merged at off, and release it if it is not the
      first. */
  method MergeOne(merged: View, off: nat, views: seq<View>, k: nat, ghost others: set<View>)
    requires k < |views| && Distinct(views) && merged !in views && (forall v <- views[k..] :: v.Owned())
    requires merged.Owned() && !merged.SharesChunk()
    requires 0 <= views[k].Size() && off + views[k].Size() <= merged.Size() == |merged.Contents()|
    requires k > 0 ==> views[0].Owned()
    requires forall u <- others :: u != merged && u !in views && u.Owned()
    modifies merged, merged.chunk, views[k].chunk
    ensures old(Closed(Unmerged(others, views, k) + {merged})) ==> Closed(Unmerged(others, views, k + 1) + {merged})
    ensures merged.Owned() && merged.chunk == old(merged.chunk) && !merged.SharesChunk()
    ensures merged.read == old(merged.read) && merged.write == old(merged.write)
    ensures |merged.Contents()| == old(|merged.Contents()|)
    ensures merged.Contents()[..off + views[k].Size()] + Shown(views[k + 1..])
         == old(merged.Contents()[..off] + Shown(views[k..]))
    ensures views[0].Owned() && forall v <- views[k + 1..] :: v.Owned()
    ensures forall u <- others :: u.Owned() && u.Contents() == old(u.Contents())
  {
    hide Closed;
    hide Shown;
    hide View.Owned;
    hide View.Contents;
    var v := views[k];
    assert views[k..][1..] == views[k + 1..];
    SplitFirst(views[k..]);
    SizeIsLength(merged);
    SizeIsLength(v);
    Assoc(merged.Contents()[..off], v.Contents(), Shown(views[k + 1..]));
    ghost var rest := OneUnmerged(others, views, k, merged);
    hide Unmerged;
    TakeOver(merged, off, v, k > 0, rest);
    SizeIsLength(merged);
    ShownSame(views[k + 1..]);
  }

  /** Copy what the views show into merged, and release all but the first. */
  method CopyAll(merged: View, views: seq<View>, ghost others: set<View>)
    requires views != [] && Distinct(views) && (forall v <- views :: v.Owned()) && merged !in views
    requires merged.Owned() && !merged.SharesChunk() && merged.Size() == |Shown(views)|
    requires forall u <- others :: u != merged && u !in views && u.Owned()
    modifies merged, merged.chunk, set v | v in views :: v.chunk
    ensures old(Closed(others + Members(views) + {merged})) ==> Closed(others + {merged, views[0]})
    ensures merged.Owned() && merged.chunk == old(merged.chunk) && !merged.SharesChunk()
    ensures merged.read == old(merged.read)
    ensures merged.Contents() == old(Shown(views)) && views[0].Owned()
    ensures forall u <- others :: u.Owned() && u.Contents() == old(u.Contents())
  {
    hide Closed;
    hide Shown;
    hide View.Owned;
    hide View.Contents;
    var k, off := 0, 0;
    assert views[0..] == views;
    assert views[|views|..] == [];
    SizeIsLength(merged);
    ShownNone();
    assert Unmerged(others, views, 0) == others + Members(views);
    hide Unmerged;
    while k < |views|
      invariant 0 <= k <= |views|
      invariant merged.Owned() && merged.chunk == old(merged.chunk) && !merged.SharesChunk()
      invariant merged.read == old(merged.read)
      invariant 0 <= off <= merged.Size() == |merged.Contents()| == |old(Shown(views))|
      invariant merged.Contents()[..off] + Shown(views[k..]) == old(Shown(views))
      invariant forall u <- others :: u.Owned() && u.Contents() == old(u.Contents())
      invariant forall v <- views[k..] :: v.Owned()
      invariant k > 0 ==> views[0].Owned()
      invariant old(Closed(others + Members(views) + {merged})) ==> Closed(Unmerged(others, views, k) + {merged})
    {
      assert views[k..][0] == views[k];
      SplitFirst(views[k..]);
      SizeIsLength(views[k]);
      MergeOne(merged, off, views, k, others);
      SizeIsLength(merged);
      off := off + views[k].Size();
      k := k + 1;
    }
    assert merged.Contents()[..|merged.Contents()|] == merged.Contents();
    AllMerged(others, views, merged);
  }

  /** Copy what the views show into one new view, and release them. */
  method Gather(views: seq<View>, totLen: nat, ghost others: set<View>) returns (merged: View)
    requires views != [] && Distinct(views) && (forall v <- views :: v.Owned()) && totLen == |Shown(views)|
    requires forall u <- others :: u !in views && u.Owned()
    modifies set v | v in views :: v.chunk
    ensures old(Closed(others + Members(views))) ==> Closed(others + {merged})
    ensures fresh(merged) && fresh(merged.chunk) && merged.Owned() && !merged.SharesChunk() && merged.read == 0
    ensures merged.Contents() == old(Shown(views))
    ensures forall u <- others :: u.Owned() && u.Contents() == old(u.Contents())
  {
    hide Closed;
    hide Shown;
    hide View.Owned;
    hide View.Contents;
    merged := new View.OfSize(totLen);
    SizeIsLength(merged);
    ClosedWithNew(others + Members(views), merged);
    CopyAll(merged, views, others);
    assert others + {merged} + {views[0]} == others + {merged, views[0]};
    views[0].Release(others + {merged});
  }

  datatype Range = Range(begin: int, end: int) {
    function Intersect(y: Range): Range {
      var b := if begin < y.begin then y.begin else begin;
      var e := if end > y.end then y.end else end;
      if b >= e then Range(0, 0) else Range(b, e)
    }

    function Len(): int {
      if end - begin < 0 then 0 else end - begin
    }
  }

  lemma MovePrefix(out: seq<Byte>, s: seq<Byte>, first: seq<Byte>, n: nat)
    requires n <= |first| && first <= s
    ensures (out + first[..n]) + s[n..] == out + s
  {
  }

  /** The part of s from offset on, at most want bytes of it. */
  function Window(s: seq<Byte>, offset: nat, want: nat): seq<Byte> {
    s[Clamp(offset, |s|)..Clamp(offset + want, |s|)]
  }

  lemma WindowOfNone(offset: nat, want: nat)
    ensures Window([], offset, want) == []
  {
  }

  /** What a window of a + b takes from b. */
  lemma WindowSnoc(a: seq<Byte>, b: seq<Byte>, offset: nat, want: nat)
    ensures |Window(a, offset, want)| <= want
    ensures var out := Window(a, offset, want);
            var skip := offset - Clamp(offset, |a|);
            var n := if want - |out| < |b| - skip then want - |out| else |b| - skip;
            Window(a + b, offset, want) == if |b| <= skip then out else out + b[skip..skip + n]
  {
    if offset >= |a| {
      WindowBeyond(a, b, offset, want);
      hide Window;
      WindowFrom(b, offset - |a|, want);
    } else if offset + want <= |a| {
      assert (a + b)[offset..offset + want] == a[offset..offset + want];
    } else {
      WindowOver(a, b, offset, want);
    }
  }

  lemma WindowFrom(b: seq<Byte>, skip: nat, want: nat)
    ensures var n := if want < |b| - skip then want else |b| - skip;
            Window(b, skip, want) == if |b| <= skip then [] else b[skip..skip + n]
  {
  }

  lemma WindowOver(a: seq<Byte>, b: seq<Byte>, offset: nat, want: nat)
    requires offset < |a| < offset + want
    ensures Window(a, offset, want) == a[offset..]
    ensures Window(a + b, offset, want) == a[offset..] + b[..Clamp(offset + want - |a|, |b|)]
  {
    WindowAcross(a, b, offset, Clamp(offset + want - |a|, |b|));
  }

  lemma WindowBeyond(a: seq<Byte>, b: seq<Byte>, offset: nat, want: nat)
    requires offset >= |a|
    ensures Window(a, offset, want) == []
    ensures Window(a + b, offset, want) == Window(b, offset - |a|, want)
  {
    var lo, hi := Clamp(offset - |a|, |b|), Clamp(offset - |a| + want, |b|);
    assert (a + b)[|a| + lo..|a| + hi] == b[lo..hi];
  }

  lemma WindowAcross(a: seq<Byte>, b: seq<Byte>, offset: nat, k: nat)
    requires offset < |a| && k <= |b|
    ensures (a + b)[offset..|a| + k] == a[offset..] + b[..k]
  {
  }

  lemma ShownSnoc(data: seq<View>, i: nat)
    requires i < |data|
    ensures Shown(data[..i + 1]) == Shown(data[..i]) + data[i].Contents()
  {
    assert data[..i + 1][..i] == data[..i];
    SplitLast(data[..i + 1]);
  }

  lemma FullWindow(a: seq<Byte>, b: seq<Byte>, offset: nat, want: nat)
    requires b == [] || |Window(a, offset, want)| == want
    ensures Window(a + b, offset, want) == Window(a, offset, want)
  {
    WindowSnoc(a, b, offset, want);
  }

  lemma WindowEnd(data: seq<View>, i: nat, offset: nat, want: nat)
    requires i <= |data| && (i == |data| || |Window(Shown(data[..i]), offset, want)| >= want)
    ensures Window(Shown(data), offset, want) == Window(Shown(data[..i]), offset, want)
  {
    assert data == data[..i] + data[i..];
    ShownConcat(data[..i], data[i..]);
    ShownNone();
    WindowSnoc(Shown(data[..i]), [], offset, want);
    FullWindow(Shown(data[..i]), Shown(data[i..]), offset, want);
  }

  lemma DistinctConcat(a: seq<View>, b: seq<View>)
    requires Distinct(a) && Distinct(b) && forall v <- a :: v !in b
    ensures Distinct(a + b)
  {
    forall i, j | 0 <= i < j < |a + b|
      ensures (a + b)[i] != (a + b)[j]
    {
      if i < |a| <= j { assert a[i] in a && b[j - |a|] in b; }
    }
  }

  method CloneViews(views: seq<View>, ghost others: set<View>) returns (clones: seq<View>)
    requires forall u <- others :: u.Owned()
    requires forall v <- views :: v in others && v.Size() > 0
    modifies set v | v in views :: v.chunk
    ensures old(Closed(others)) ==> Closed(others + Members(clones))
    ensures |clones| == |views| && Distinct(clones)
    ensures forall v <- clones :: fresh(v) && v.Owned() && v.Size() > 0
    ensures forall j | 0 <= j < |clones| :: Same(clones[j], views[j])
    ensures forall u <- others :: u.Owned() && u.Contents() == old(u.Contents())
  {
    hide Closed;
    hide View.Owned;
    hide View.Contents;
    clones := [];
    ghost var all := others;
    while |clones| < |views|
      invariant |clones| <= |views| && Distinct(clones)
      invariant forall u <- all :: u.Owned()
      invariant all == others + Members(clones)
      invariant forall u <- others :: u.Contents() == old(u.Contents())
      invariant forall v <- clones :: fresh(v) && v.Size() > 0
      invariant old(Closed(others)) ==> Closed(all)
      invariant forall j | 0 <= j < |clones| :: Same(clones[j], views[j])
    {
      assert views[|clones|] in views && views[|clones|].Size() > 0;
      var v := views[|clones|].Clone(all);
      assert v !in clones && v.Size() > 0;
      OneMore(others, clones, v);
      clones := clones + [v];
      all := all + {v};
    }
    assert forall v <- clones :: v in all;
  }

  /** Two views showing the same part of the same chunk. */
  predicate Same(u: View, v: View)
    reads u, v
  {
    u.chunk == v.chunk && u.read == v.read && u.write == v.write
  }

  method CloneShown(views: seq<View>, ghost others: set<View>) returns (clones: seq<View>)
    requires forall u <- others :: u.Owned()
    requires forall v <- views :: v in others && v.Size() > 0
    modifies set v | v in views :: v.chunk
    ensures old(Closed(others)) ==> Closed(others + Members(clones))
    ensures Distinct(clones) && Shown(clones) == Shown(views)
    ensures forall v <- clones :: fresh(v) && v.Owned() && v.Size() > 0
    ensures forall v <- clones :: v.chunk in set u | u in views :: u.chunk
    ensures forall u <- others :: u.Owned() && u.Contents() == old(u.Contents())
  {
    hide Closed;
    hide View.Owned;
    hide View.Contents;
    hide Shown;
    clones := CloneViews(views, others);
    ShownEqual(clones, views);
    SameChunks(clones, views);
  }

  lemma SameChunks(a: seq<View>, b: seq<View>)
    requires |a| == |b| && forall j | 0 <= j < |a| :: Same(a[j], b[j])
    ensures forall v <- a :: v.chunk in set u | u in b :: u.chunk
  {
    forall v <- a
      ensures v.chunk in set u | u in b :: u.chunk
    {
      var j :| 0 <= j < |a| && a[j] == v;
      assert Same(a[j], b[j]) && b[j] in b;
    }
  }

  lemma {:induction false} ShownEqual(a: seq<View>, b: seq<View>)
    requires |a| == |b| && forall j | 0 <= j < |a| :: Same(a[j], b[j])
    ensures Shown(a) == Shown(b)
  {
    if a != [] { ShownEqual(a[1..], b[1..]); }
  }

  lemma ShownNone()
    ensures Shown([]) == []
  {
  }

  lemma DropConcat(a: seq<Byte>, b: seq<Byte>, n: nat)
    requires n <= |a|
    ensures (a + b)[n..] == a[n..] + b
  {
  }

  lemma TakeConcat(a: seq<Byte>, b: seq<Byte>, n: nat)
    requires n <= |b|
    ensures (a + b)[..|a| + n] == a + b[..n]
  {
  }

  lemma DropDrop(s: seq<Byte>, a: nat, b: nat)
    requires a + b <= |s|
    ensures s[a..][b..] == s[a + b..]
  {
  }

  lemma TakeTake(s: seq<Byte>, a: nat, b: nat)
    requires b <= a <= |s|
    ensures s[..a][..b] == s[..b]
  {
  }

  lemma SplitAt(a: seq<Byte>, b: seq<Byte>, k: nat)
    requires k <= |b|
    ensures a + b == (a + b[..k]) + b[k..] && b[..k] + b[k..] == b
    ensures b + a == b[..k] + (b[k..] + a)
  {
  }

  lemma Assoc(a: seq<Byte>, b: seq<Byte>, c: seq<Byte>)
    ensures (a + b) + c == a + (b + c)
  {
  }

  lemma SplitFirst(data: seq<View>)
    requires data != []
    ensures Shown(data) == data[0].Contents() + Shown(data[1..])
  {
  }

  lemma SplitLast(data: seq<View>)
    requires data != []
    ensures Shown(data) == Shown(data[..|data| - 1]) + data[|data| - 1].Contents()
  {
    var k := |data| - 1;
    assert data == data[..k] + [data[k]];
    hide Shown;
    ShownConcat(data[..k], [data[k]]);
    ShownSingle(data[k]);
  }
}
