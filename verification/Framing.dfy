/** The keyed stream of pkg/compressio/nocompressio.go: chunks of data, each with
    its size and a hash chained to the one before. What SimpleWriter writes,
    SimpleReader reads back, however the writes and the reads are cut. */
module Framing {

  type Byte = b: int | 0 <= b < 256
  type Bytes = seq<Byte>

  const HASH_SIZE := 32
  const LIMIT := 0x1_0000_0000

  type Digest = d: Bytes | |d| == HASH_SIZE witness seq(HASH_SIZE, _ => 0)

  /** The keyed hash is any function. */
  type Mac = Bytes -> Digest

  const NO_HASH: Digest := seq(HASH_SIZE, _ => 0)

  // ---------------------------------------------------------------------
  // The stream format
  // ---------------------------------------------------------------------

  /** binary.BigEndian.PutUint32. */
  function PutUint32(n: nat): (r: Bytes)
    requires n < LIMIT
    ensures |r| == 4
  {
    [(n / 0x100_0000) % 256, (n / 0x1_0000) % 256, (n / 0x100) % 256, n % 256]
  }

  function Uint32(b: Bytes): (r: nat)
    requires |b| == 4
    ensures r < LIMIT
  {
    (((b[0] as nat) * 256 + b[1]) * 256 + b[2]) * 256 + b[3]
  }

  lemma Uint32RoundTrip(n: nat)
    requires n < LIMIT
    ensures Uint32(PutUint32(n)) == n
  {
    var a := n / 256;
    var b := a / 256;
    assert n / 0x1_0000 == b && n / 0x100_0000 == b / 256;
    assert (b / 256) % 256 == b / 256;
  }

  /** The j-th base-256 digit of n, counted from the least significant. */
  function Digit(n: nat, j: nat): nat {
    if j == 0 then n % 256 else Digit(n / 256, j - 1)
  }

  /** A header is written most significant digit first. */
  lemma HeaderDigits(n: nat, j: nat)
    requires n < LIMIT && j < 4
    ensures PutUint32(n)[3 - j] == Digit(n, j)
  {
    var a := n / 256;
    var b := a / 256;
    assert n / 0x1_0000 == b && n / 0x100_0000 == b / 256;
    assert Digit(n, 1) == Digit(a, 0) && Digit(n, 2) == Digit(a, 1) == Digit(b, 0);
    assert Digit(n, 3) == Digit(a, 2) == Digit(b, 1) == Digit(b / 256, 0);
  }

  /** The length of p in a 32-bit header. */
  function Header(p: Bytes): Bytes {
    PutUint32(|p| % LIMIT)
  }

  function Sum(mac: Mac, chunk: Bytes, prev: Digest): Digest {
    mac(chunk + Header(chunk) + prev)
  }

  function Frame(mac: Mac, chunk: Bytes, prev: Digest): Bytes {
    Header(chunk) + chunk + Sum(mac, chunk, prev)
  }

  /** The hash after the given chunks. */
  function Chain(mac: Mac, chunks: seq<Bytes>, prev: Digest): Digest {
    if chunks == [] then prev else Chain(mac, chunks[1..], Sum(mac, chunks[0], prev))
  }

  function Stream(mac: Mac, chunks: seq<Bytes>, prev: Digest): Bytes {
    if chunks == [] then [] else Frame(mac, chunks[0], prev) + Stream(mac, chunks[1..], Sum(mac, chunks[0], prev))
  }

  /** A chunk whose length the header can hold. */
  predicate Fits(chunk: Bytes) {
    0 < |chunk| < LIMIT
  }

  predicate AllFit(chunks: seq<Bytes>) {
    forall c <- chunks :: Fits(c)
  }

  function Flat(chunks: seq<Bytes>): Bytes {
    if chunks == [] then [] else chunks[0] + Flat(chunks[1..])
  }

  lemma Assoc(a: Bytes, b: Bytes, c: Bytes)
    ensures a + (b + c) == (a + b) + c
  {
  }

  lemma {:induction false} StreamSnoc(mac: Mac, chunks: seq<Bytes>, c: Bytes, prev: Digest)
    ensures Stream(mac, chunks + [c], prev) == Stream(mac, chunks, prev) + Frame(mac, c, Chain(mac, chunks, prev))
    ensures Chain(mac, chunks + [c], prev) == Sum(mac, c, Chain(mac, chunks, prev))
    ensures Flat(chunks + [c]) == Flat(chunks) + c
  {
    hide Frame;
    hide Sum;
    if chunks == [] {
      assert chunks + [c] == [c] && [c][1..] == [];
      assert Frame(mac, c, prev) + [] == Frame(mac, c, prev) && c + [] == c;
    } else {
      assert (chunks + [c])[1..] == chunks[1..] + [c];
      var next := Sum(mac, chunks[0], prev);
      StreamSnoc(mac, chunks[1..], c, next);
      Assoc(Frame(mac, chunks[0], prev), Stream(mac, chunks[1..], next), Frame(mac, c, Chain(mac, chunks, prev)));
      Assoc(chunks[0], Flat(chunks[1..]), c);
    }
  }

  /** Two different byte strings have the same hash. */
  ghost predicate Collides(mac: Mac) {
    exists x: Bytes, y: Bytes :: x != y && mac(x) == mac(y)
  }

  /** What is hashed for a chunk determines the chunk and the hash before it. */
  lemma HashedOnce(c: Bytes, p: Digest, c': Bytes, p': Digest)
    requires c + Header(c) + p == c' + Header(c') + p'
    ensures c == c' && p == p'
  {
    hide PutUint32;
    var x, y := c + Header(c) + p, c' + Header(c') + p';
    assert |x| == |c| + 4 + HASH_SIZE && |y| == |c'| + 4 + HASH_SIZE;
    assert c == x[..|c|] && c' == y[..|c|];
    assert p == x[|c| + 4..] && p' == y[|c| + 4..];
  }

  lemma SumCommits(mac: Mac, c: Bytes, p: Digest, c': Bytes, p': Digest)
    requires Sum(mac, c, p) == Sum(mac, c', p') && (c != c' || p != p')
    ensures Collides(mac)
  {
    hide PutUint32;
    var x, y := c + Header(c) + p, c' + Header(c') + p';
    if x == y { HashedOnce(c, p, c', p'); }
    assert mac(x) == mac(y);
  }

  /** The hashes are chained: the last one is the same for other chunks, or for the
      same ones in another order or after another start, only if the hash collides. */
  lemma {:induction false} ChainCommits(mac: Mac, a: seq<Bytes>, p: Digest, b: seq<Bytes>, q: Digest)
    requires |a| == |b| && Chain(mac, a, p) == Chain(mac, b, q) && (a != b || p != q)
    ensures Collides(mac)
  {
    hide Sum;
    hide Collides;
    if a != [] {
      var p1, q1 := Sum(mac, a[0], p), Sum(mac, b[0], q);
      if a[1..] != b[1..] || p1 != q1 {
        ChainCommits(mac, a[1..], p1, b[1..], q1);
      } else {
        assert a == [a[0]] + a[1..] && b == [b[0]] + b[1..];
        SumCommits(mac, a[0], p, b[0], q);
      }
    }
  }

  lemma FrameIs(mac: Mac, c: Bytes, prev: Digest)
    requires |c| < LIMIT
    ensures var h := PutUint32(|c|);
            Sum(mac, c, prev) == mac(c + h + prev) && Frame(mac, c, prev) == h + c + Sum(mac, c, prev)
  {
    hide PutUint32;
    assert Header(c) == PutUint32(|c|);
  }

  // ---------------------------------------------------------------------
  // The writer
  // ---------------------------------------------------------------------

  /** What Write returns, or does: a panic is a slice out of bounds. */
  datatype WriteResult = Accepted | AlreadyClosed | Panicked

  /** The size of the buffer, computed in 32 bits. */
  function BufferSize(chunkSize: nat): nat {
    (4 + chunkSize + HASH_SIZE) % LIMIT
  }

  /** The buffer is smaller than a chunk. */
  predicate Wraps(chunkSize: nat) {
    chunkSize + 4 + HASH_SIZE >= LIMIT
  }

  /** A write that the buffer is too small for: one that would be buffered, or
      one written directly when there is not even room for the header. */
  predicate Overruns(chunkSize: nat, p: Bytes) {
    Wraps(chunkSize) && p != [] && (|p| <= chunkSize || BufferSize(chunkSize) < 4)
  }

  /** The chunks written out and the data held back in the buffer. */
  datatype Buffered = Buffered(chunks: seq<Bytes>, held: Bytes)

  /** What a write makes of them. To an empty buffer, data of at least a chunk's
      length goes out as one chunk, however long, and less is held. Otherwise the
      chunk is completed first. */
  function Put(c: nat, b: Buffered, p: Bytes): Buffered
    requires b.held == [] || |b.held| < c
    decreases |b.held|
  {
    if p == [] then b
    else if b.held == [] then if |p| >= c then Buffered(b.chunks + [p], []) else Buffered(b.chunks, p)
    else if |b.held| + |p| < c then Buffered(b.chunks, b.held + p)
    else
      var k := c - |b.held|;
      Put(c, Buffered(b.chunks + [b.held + p[..k]], []), p[k..])
  }

  /** After any writes. */
  function PutAll(c: nat, writes: seq<Bytes>): (b: Buffered)
    ensures b.held == [] || |b.held| < c
  {
    if writes == [] then Buffered([], []) else
      var b := Put(c, PutAll(c, writes[..|writes| - 1]), writes[|writes| - 1]);
      PutHeld(c, PutAll(c, writes[..|writes| - 1]), writes[|writes| - 1]);
      b
  }

  lemma {:induction false} PutHeld(c: nat, b: Buffered, p: Bytes)
    requires b.held == [] || |b.held| < c
    ensures var b' := Put(c, b, p); b'.held == [] || |b'.held| < c
    decreases |b.held|
  {
    if p != [] && b.held != [] && |b.held| + |p| >= c {
      var k := c - |b.held|;
      PutHeld(c, Buffered(b.chunks + [b.held + p[..k]], []), p[k..]);
    }
  }

  /** The chunks of a stream: what goes out on Close is the last. */
  function Chunks(c: nat, writes: seq<Bytes>): seq<Bytes> {
    var b := PutAll(c, writes);
    if b.held == [] then b.chunks else b.chunks + [b.held]
  }

  /** A write as the loop of the source does it: a chunk's worth at a time. */
  lemma {:induction false} PutStep(c: nat, b: Buffered, p: Bytes, k: nat)
    requires (b.held == [] || |b.held| < c) && p != [] && (b.held != [] || |p| <= c)
    requires k == if |p| < c - |b.held| then |p| else c - |b.held|
    ensures var full := b.held + p[..k];
            Put(c, b, p) ==
              Put(c, if |full| >= c then Buffered(b.chunks + [full], []) else Buffered(b.chunks, full), p[k..])
  {
    if k == |p| {
      assert p[..k] == p && p[k..] == [];
      if b.held == [] { assert b.held + p == p; }
    }
  }

  lemma PutWhole(c: nat, b: Buffered, p: Bytes)
    requires b.held == [] || |b.held| < c
    ensures Put(c, b, []) == b
    ensures b.held == [] && |p| > c ==> Put(c, b, p) == Buffered(b.chunks + [p], [])
  {
  }

  class SimpleWriter {
    const mac: Mac
    const chunkSize: nat
    const buf: array<Byte>
    var done: nat
    var prevHash: Digest
    var closed: bool
    var out: Bytes
    ghost var chunks: seq<Bytes>

    ghost function Held(): Bytes
      requires done == 0 || 4 + done <= buf.Length
      reads this, buf
    {
      if done == 0 then [] else buf[4..4 + done]
    }

    ghost function B(): Buffered
      requires done == 0 || 4 + done <= buf.Length
      reads this, buf
    {
      Buffered(chunks, Held())
    }

    /** The data accepted so far. */
    ghost function Written(): Bytes
      requires done == 0 || 4 + done <= buf.Length
      reads this, buf
    {
      Flat(chunks) + Held()
    }

    ghost predicate Framed()
      reads this
    {
      out == Stream(mac, chunks, NO_HASH) && prevHash == Chain(mac, chunks, NO_HASH)
    }

    ghost predicate Valid()
      reads this, buf
    {
      && chunkSize < LIMIT && buf.Length == BufferSize(chunkSize) && done <= chunkSize
      && (done == chunkSize || Wraps(chunkSize) ==> done == 0)
      && Framed()
    }

    constructor (mac: Mac, chunkSize: nat)
      requires chunkSize < LIMIT
      ensures Valid() && Written() == [] && chunks == [] && !closed && fresh(buf)
      ensures this.mac == mac && this.chunkSize == chunkSize
    {
      this.mac, this.chunkSize := mac, chunkSize;
      buf := new Byte[BufferSize(chunkSize)];
      done, prevHash, closed, out, chunks := 0, NO_HASH, false, [], [];
    }

    /** Write p as one chunk of its own, whatever its length. */
    method DirectWrite(p: Bytes)
      requires Valid() && done == 0 && buf.Length >= 4
      modifies this`prevHash, this`out, this`chunks, buf
      ensures Valid() && Written() == old(Written()) + p && chunks == old(chunks) + [p]
    {
      hide Stream;
      hide Chain;
      hide Flat;
      hide PutUint32;
      StreamSnoc(mac, chunks, p, NO_HASH);
      var header := PutUint32(|p| % LIMIT);
      forall j | 0 <= j < 4 {
        buf[j] := header[j];
      }
      assert buf[..4] == header;
      Assoc(out, header, p);
      Assoc(out, header + p, mac(p + header + prevHash));
      out := out + buf[..4];
      out := out + p;
      prevHash := mac(p + buf[..4] + prevHash);
      out := out + prevHash;
      chunks := chunks + [p];
    }

    /** Write out the buffer as a chunk. */
    method Flush()
      requires chunkSize < LIMIT && buf.Length == BufferSize(chunkSize) && done <= chunkSize && Framed()
      requires Wraps(chunkSize) ==> done == 0
      modifies this`done, this`prevHash, this`out, this`chunks
      ensures Valid() && done == 0 && Written() == old(Written())
      ensures chunks == old(chunks) + if old(done) == 0 then [] else [old(Held())]
    {
      hide Stream;
      hide Chain;
      hide Flat;
      hide PutUint32;
      hide Sum;
      hide Frame;
      if done == 0 {
        return;
      }
      var data := buf[4..4 + done];
      StreamSnoc(mac, chunks, data, NO_HASH);
      FrameIs(mac, data, prevHash);
      var header := PutUint32(done);
      prevHash := mac(data + header + prevHash);
      out := out + (header + data + prevHash);
      chunks := chunks + [data];
      done := 0;
    }

    /** Copy to the buffer as much as fits. */
    method Fill(p: Bytes) returns (n: nat)
      requires Valid() && !Wraps(chunkSize) && p != [] && (done > 0 || |p| <= chunkSize)
      modifies this`done, buf
      ensures n == (if |p| < chunkSize - old(done) then |p| else chunkSize - old(done)) > 0
      ensures done == old(done) + n <= chunkSize && Written() == old(Written()) + p[..n]
      ensures Held() == old(Held()) + p[..n]
    {
      hide Stream;
      hide Chain;
      hide Flat;
      n := if |p| < chunkSize - done then |p| else chunkSize - done;
      forall j | 0 <= j < n {
        buf[4 + done + j] := p[j];
      }
      done := done + n;
      assert Held() == old(Held()) + p[..n];
      Assoc(Flat(chunks), old(Held()), p[..n]);
    }

    /** Takes all of the data, unless the writer is closed or its buffer is too
        small, and then takes none. */
    method Write(p: Bytes) returns (n: nat, r: WriteResult)
      requires Valid()
      modifies this`done, this`prevHash, this`out, this`chunks, buf
      ensures Valid()
      ensures r == if closed then AlreadyClosed else if Overruns(chunkSize, p) then Panicked else Accepted
      ensures n == (if r == Accepted then |p| else 0) && Written() == old(Written()) + p[..n]
      ensures B() == if r == Accepted then Put(chunkSize, old(B()), p) else old(B())
    {
      hide Stream;
      hide Chain;
      hide Flat;
      hide Written;
      hide Put;
      assert old(Written()) + p[..0] == old(Written()) && p[0..] == p;
      if closed {
        return 0, AlreadyClosed;
      }
      n := 0;
      while n < |p|
        invariant Valid() && n <= |p| && Written() == old(Written()) + p[..n]
        invariant if n == 0 then done == old(done) && B() == old(B()) else !Wraps(chunkSize)
        invariant n > 0 ==> old(done) > 0 || |p| <= chunkSize
        invariant Put(chunkSize, B(), p[n..]) == Put(chunkSize, old(B()), p)
      {
        var rest := p[n..];
        if |rest| > chunkSize && done == 0 {
          if buf.Length < 4 {
            return 0, Panicked;
          }
          TakeMore(old(Written()), p, n, |rest|);
          PutWhole(chunkSize, B(), rest);
          DirectWrite(rest);
          return |p|, Accepted;
        }
        if buf.Length < 4 + chunkSize {
          return 0, Panicked;
        }
        ghost var b := B();
        var k := Fill(rest);
        TakeMore(old(Written()), p, n, k);
        PutStep(chunkSize, b, rest, k);
        assert rest[k..] == p[n + k..];
        n := n + k;
        if done >= chunkSize {
          Flush();
        }
      }
      PutWhole(chunkSize, B(), []);
      assert p[n..] == [];
      return n, Accepted;
    }

    method Close() returns (ok: bool)
      requires Valid()
      modifies this`done, this`prevHash, this`out, this`chunks, this`closed
      ensures Valid() && closed && ok == !old(closed) && Written() == old(Written())
      ensures ok ==> done == 0 && chunks == old(chunks) + if old(done) == 0 then [] else [old(Held())]
      ensures !ok ==> B() == old(B())
    {
      if closed {
        return false;
      }
      closed := true;
      Flush();
      return true;
    }
  }

  lemma TakeMore(w: Bytes, p: Bytes, n: nat, k: nat)
    requires n + k <= |p|
    ensures (w + p[..n]) + p[n..][..k] == w + p[..n + k]
    ensures n + k == |p| ==> p[n..][..k] == p[n..]
  {
    assert p[..n] + p[n..][..k] == p[..n + k];
  }

  // ---------------------------------------------------------------------
  // The reader
  // ---------------------------------------------------------------------

  datatype Error = Nil | EOF | UnexpectedEOF | NoProgress | HashMismatch

  class SimpleReader {
    const mac: Mac
    var input: Bytes
    var chunkSize: nat
    var done: nat
    var prevHash: Digest
    var hashed: Bytes
    ghost var cur: Bytes
    ghost var rest: seq<Bytes>
    ghost const tail: Bytes
    ghost const last: Digest

    /** The input is what a writer would have written, up to the tail, which is
        anything: the remainder of the chunk cur and the chunks rest. Where the
        tail begins, the hash is the last one. */
    ghost predicate Follows()
      reads this
    {
      && AllFit(rest)
      && if cur == [] then chunkSize == 0 == done && Remains(prevHash) && input == Coming(prevHash)
         else
           && Fits(cur) && chunkSize == |cur| && done < |cur| && hashed == cur[..done]
           && Remains(Sum(mac, cur, prevHash))
           && input == cur[done..] + Sum(mac, cur, prevHash) + Coming(Sum(mac, cur, prevHash))
    }

    /** What comes after a chunk with this hash. */
    ghost function Coming(prev: Digest): Bytes
      reads this
    {
      Stream(mac, rest, prev) + tail
    }

    ghost predicate Remains(prev: Digest)
      reads this
    {
      Chain(mac, rest, prev) == last
    }

    /** The data still to come. */
    ghost function Left(): Bytes
      reads this
    {
      (if done <= |cur| then cur[done..] else []) + Flat(rest)
    }

    constructor (mac: Mac, input: Bytes, ghost chunks: seq<Bytes>, ghost tail: Bytes)
      ensures AllFit(chunks) && input == Stream(mac, chunks, NO_HASH) + tail ==> Follows() && Left() == Flat(chunks)
      ensures this.mac == mac && this.input == input && chunkSize == done == 0 && prevHash == NO_HASH
      ensures this.tail == tail && last == Chain(mac, chunks, NO_HASH)
    {
      this.mac, this.input, this.tail, last := mac, input, tail, Chain(mac, chunks, NO_HASH);
      chunkSize, done, prevHash, hashed, cur, rest := 0, 0, NO_HASH, [], [], chunks;
    }

    /** Read the size of the next chunk. */
    method NextChunk() returns (err: Error)
      requires done >= chunkSize && chunkSize < LIMIT
      modifies this
      ensures |old(input)| >= 4 ==>
                && chunkSize == Uint32(old(input)[..4]) && input == old(input)[4..] && done == 0 && hashed == []
                && prevHash == old(prevHash) && err == if chunkSize == 0 then NoProgress else Nil
      ensures old(Follows() && Left() != []) ==>
        err == Nil && Follows() && cur != [] && done == 0 && Left() == old(Left())
      ensures old(Follows() && Left() == [] && tail == []) ==> err == EOF && Follows() && Left() == []
      ensures chunkSize < LIMIT && (err == Nil ==> done < chunkSize)
    {
      hide Frame;
      hide Sum;
      hide Stream;
      hide Chain;
      hide Flat;
      hide Uint32;
      ghost var follows := Follows() && (rest != [] || tail == []);
      if follows && rest != [] { FirstFrame(mac, rest, prevHash, tail); }
      if Follows() && rest == [] { EmptyStream(mac, prevHash); }
      if |input| < 4 {
        return if input == [] then EOF else UnexpectedEOF;
      }
      chunkSize := Uint32(input[..4]);
      input := input[4..];
      done, hashed := 0, [];
      if follows {
        cur, rest := rest[0], rest[1..];
      }
      return if chunkSize == 0 then NoProgress else Nil;
    }

    /** Check the hash at the end of a chunk: only the keyed hash of the data,
        its length and the hash before is accepted. */
    method EndChunk() returns (err: Error)
      requires chunkSize < LIMIT && done == chunkSize
      modifies this
      ensures |old(input)| >= HASH_SIZE ==>
                err == if old(input)[..HASH_SIZE] == mac(old(hashed + PutUint32(chunkSize) + prevHash)) then Nil
                       else HashMismatch
      ensures old(Ended()) ==> err == Nil && Follows() && Left() == old(Flat(rest))
      ensures chunkSize < LIMIT
    {
      hide Stream;
      hide Flat;
      hide PutUint32;
      hide Sum;
      hide Frame;
      ghost var ended := Ended();
      if ended { FrameIs(mac, cur, prevHash); }
      prevHash := mac(hashed + PutUint32(chunkSize) + prevHash);
      if |input| < HASH_SIZE {
        return UnexpectedEOF;
      }
      var sum := input[..HASH_SIZE];
      input := input[HASH_SIZE..];
      if sum != prevHash {
        return HashMismatch;
      }
      done, chunkSize := 0, 0;
      if ended { cur := []; }
      return Nil;
    }

    /** All data of the current chunk has been read. */
    ghost predicate Ended()
      reads this
    {
      && AllFit(rest) && Fits(cur) && chunkSize == |cur| && hashed == cur && Remains(Sum(mac, cur, prevHash))
      && input == Sum(mac, cur, prevHash) + Coming(Sum(mac, cur, prevHash))
    }

    /** Read up to len bytes; take is how many the underlying reader is willing
        to deliver at once, and pending is whether it reports its end before it
        is asked for more. On the input of a writer nothing ever fails, and what
        is read is the data in order, until nothing is left. A read makes
        progress unless its length is zero in 32 bits. On any input a chunk read
        as a whole is accepted exactly if its hash is right. */
    method Read(len: nat, take: nat, pending: bool) returns (out: Bytes, err: Error)
      requires chunkSize < LIMIT
      modifies this
      ensures |out| <= len && chunkSize < LIMIT
      ensures len == 0 ==> unchanged(this) && err == if pending && input == [] then EOF else Nil
      ensures old(Follows()) && len > 0 && old(Left()) != [] ==>
                && err == Nil && Follows() && old(Left()) == out + Left()
                && (out != [] <==> len % LIMIT != 0 && take > 0)
      ensures old(Follows()) && len > 0 && old(Left()) == [] && tail == [] ==>
                err == EOF && out == [] && Follows() && Left() == []
      ensures len > 0 && old(Claims(0)) ==> out == [] && err == NoProgress
      ensures old(|input| >= 4) ==>
                var h := Uint32(old(input)[..4]);
                old(Claims(h)) && 0 < h <= len % LIMIT && h <= take && 4 + h + HASH_SIZE <= |old(input)| ==>
                  && out == old(input)[4..4 + h]
                  && err == if old(input)[4 + h..4 + h + HASH_SIZE] == mac(out + PutUint32(h) + old(prevHash)) then Nil
                            else HashMismatch
      ensures old(Refuses()) && len > 0 ==> Nearer(old(Due()), out, err) && (err == Nil ==> Refuses())
      ensures old(Refuses()) && len % LIMIT != 0 && take > 0 && err == Nil ==> out != []
    {
      hide Stream;
      hide Flat;
      hide Sum;
      hide Uint32;
      hide PutUint32;
      hide Follows;
      hide Ended;
      hide Left;
      hide Due;
      hide Refuses;
      hide RefusedAt;
      hide DueAt;
      AtBoundary();
      if |input| >= 4 && 4 + Uint32(input[..4]) + HASH_SIZE <= |input| {
        CutFrame(input, Uint32(input[..4]));
      }
      if len == 0 {
        return [], if pending && input == [] then EOF else Nil;
      }
      if done >= chunkSize {
        ghost var whole, refused := input, RefusedAt(mac, input, prevHash);
        if refused { Refused(); }
        err := NextChunk();
        if err != Nil {
          return [], err;
        }
        if refused { Entered(whole); }
      }
      if Refuses() { RefusesMore(); }
      if Follows() { InChunk(); }
      var toRead := len % LIMIT;
      if toRead > chunkSize - done {
        toRead := chunkSize - done;
      }
      if input == [] && (toRead > 0 || pending) {
        return [], UnexpectedEOF;
      }
      out, err := Deliver(toRead, take);
    }

    /** Read some of the data of the current chunk, and check the hash if that was
        all of it. */
    method Deliver(toRead: nat, take: nat) returns (out: Bytes, err: Error)
      requires done + toRead <= chunkSize < LIMIT && done < chunkSize
      modifies this
      ensures |out| <= toRead && chunkSize < LIMIT
      ensures old(Follows() && cur != []) ==>
                err == Nil && Follows() && old(Left()) == out + Left() && (out != [] <==> toRead > 0 && take > 0)
      ensures (&& old(done) == 0 && old(hashed) == []
               && toRead == old(chunkSize) <= take && toRead + HASH_SIZE <= |old(input)|) ==>
                && out == old(input)[..toRead]
                && err == if old(input)[toRead..][..HASH_SIZE] == mac(out + PutUint32(toRead) + old(prevHash)) then Nil
                          else HashMismatch
      ensures old(Refuses()) ==> Nearer(old(Due()), out, err) && (err == Nil ==> Refuses())
      ensures old(Refuses()) && toRead > 0 && take > 0 ==> out != []
    {
      hide Stream;
      hide Flat;
      hide Sum;
      hide PutUint32;
      hide Ended;
      hide Left;
      hide Follows;
      hide Refuses;
      hide Due;
      if Follows() { InChunk(); }
      out := ReadOn(toRead, take);
      assert old(hashed) == [] ==> hashed == out;
      if done >= chunkSize {
        err := EndChunk();
        return;
      }
      err := Nil;
    }

    /** All data of the current chunk has been read, and the hash behind it is
        wrong. */
    ghost predicate Mismatched()
      reads this
    {
      && chunkSize < LIMIT && done == chunkSize && HASH_SIZE <= |input|
      && input[..HASH_SIZE] != mac(hashed + PutUint32(chunkSize) + prevHash)
    }

    /** ReadData, with what it does to a chunk that will be refused. */
    method ReadOn(toRead: nat, take: nat) returns (out: Bytes)
      requires done + toRead <= chunkSize && done < chunkSize
      modifies this`input, this`hashed, this`done
      ensures |out| <= toRead && done == old(done) + |out|
      ensures out <= old(input) && input == old(input)[|out|..] && hashed == old(hashed) + out
      ensures old(input) != [] ==> (toRead > 0 && take > 0 <==> out != [])
      ensures toRead <= take && toRead <= |old(input)| ==> |out| == toRead
      ensures old(Follows() && cur != []) ==>
                if done < chunkSize then Follows() && old(Left()) == out + Left()
                  else Ended() && old(Left()) == out + Flat(rest)
      ensures old(Refuses()) && done < chunkSize ==> Refuses() && old(Due()) == out + Due() && Due() != []
      ensures old(Refuses()) && done == chunkSize ==> Mismatched() && out == old(Due())
      ensures old(Refuses()) ==> old(input) != []
    {
      hide Stream;
      hide Flat;
      hide Sum;
      hide PutUint32;
      hide Ended;
      hide Left;
      hide Follows;
      ghost var refuses, whole := Refuses(), input;
      hide Due;
      hide Refuses;
      hide Mismatched;
      IsDue();
      out := ReadData(toRead, take);
      if refuses { GoesOn(old(hashed), whole, out); }
    }

    lemma IsDue()
      ensures Refuses() && done < chunkSize ==>
                Due() == input[..chunkSize - done] && WrongHash(hashed, input, chunkSize - done)
    {
    }

    ghost predicate WrongHash(hashed: Bytes, input: Bytes, n: nat)
      reads this
    {
      && chunkSize < LIMIT && n + HASH_SIZE <= |input|
      && input[n..n + HASH_SIZE] != mac(hashed + input[..n] + PutUint32(chunkSize) + prevHash)
    }

    lemma GoesOn(before: Bytes, whole: Bytes, out: Bytes)
      requires out <= whole && input == whole[|out|..] && hashed == before + out && done <= chunkSize
      requires WrongHash(before, whole, chunkSize - done + |out|)
      ensures done < chunkSize ==> Refuses() && whole[..chunkSize - done + |out|] == out + Due() && Due() != []
      ensures done == chunkSize ==> Mismatched() && out == whole[..|out|]
    {
      hide PutUint32;
      var n := chunkSize - done + |out|;
      assert out == whole[..|out|];
      Advances(before, whole, |out|, n);
      assert hashed + input[..n - |out|] == before + whole[..n];
      if done == chunkSize { assert hashed + input[..0] == hashed && input[..HASH_SIZE] == input[0..0 + HASH_SIZE]; }
    }

    /** The data that comes before the next hash. */
    ghost function Due(): Bytes
      reads this
    {
      if done >= chunkSize then DueAt(input)
      else if chunkSize - done <= |input| then input[..chunkSize - done] else []
    }

    /** The next hash is wrong, or the next chunk empty. */
    ghost predicate Refuses()
      reads this
    {
      if done >= chunkSize then RefusedAt(mac, input, prevHash)
      else
        var n := chunkSize - done;
        && chunkSize < LIMIT && n + HASH_SIZE <= |input|
        && input[n..n + HASH_SIZE] != mac(hashed + input[..n] + PutUint32(chunkSize) + prevHash)
    }

    /** A read that returned out of the due data and did not fail, or did but not
        with the end. */
    ghost predicate Nearer(due: Bytes, out: Bytes, err: Error)
      reads this
    {
      if err == Nil then due == out + Due() && Due() != [] else err != EOF && out <= due
    }

    /** How far reading the whole and then a refused frame, in total, has come. */
    ghost predicate Approaches(data: Bytes, whole: Bytes, total: Bytes)
      reads this
    {
      (Follows() && data + Left() == whole) || (Refuses() && data + Due() == total)
    }

    lemma AtTail()
      requires Follows() && Left() == []
      ensures input == tail && prevHash == last && done >= chunkSize
    {
      if rest != [] {
        FirstFrame(mac, rest, prevHash, tail);
      }
    }

    lemma AtRefused()
      requires Follows() && Left() == [] && RefusedAt(mac, tail, last)
      ensures Refuses() && Due() == DueAt(tail)
    {
      AtTail();
    }

    lemma AtBoundary()
      ensures done >= chunkSize ==> Due() == DueAt(input) && (Refuses() <==> RefusedAt(mac, input, prevHash))
    {
    }

    lemma Refused()
      requires done >= chunkSize && RefusedAt(mac, input, prevHash)
      ensures |input| >= 4
    {
    }

    lemma RefusesMore()
      requires Refuses() && done < chunkSize
      ensures input != []
    {
    }

    lemma Entered(whole: Bytes)
      requires RefusedAt(mac, whole, prevHash) && |whole| >= 4 && input == whole[4..] && done == 0 && hashed == []
      requires 0 < chunkSize == Uint32(whole[..4])
      ensures Refuses() && Due() == DueAt(whole)
    {
      hide Uint32;
      hide PutUint32;
      var h := chunkSize;
      assert hashed + input[..h] == whole[4..4 + h];
      assert input[h..h + HASH_SIZE] == whole[4 + h..4 + h + HASH_SIZE];
    }

    lemma InChunk()
      requires Follows() && done < chunkSize
      ensures cur != [] && input != [] && Left() != []
    {
    }

    /** The reader is between chunks and the next one claims h bytes. */
    predicate Claims(h: nat)
      reads this
    {
      done >= chunkSize && |input| >= 4 && Uint32(input[..4]) == h
    }

    /** Read some of the data of the current chunk into the hash. */
    method ReadData(toRead: nat, take: nat) returns (out: Bytes)
      requires done + toRead <= chunkSize
      modifies this`input, this`hashed, this`done
      ensures |out| <= toRead && done == old(done) + |out|
      ensures out <= old(input) && input == old(input)[|out|..] && hashed == old(hashed) + out
      ensures old(input) != [] ==> (toRead > 0 && take > 0 <==> out != [])
      ensures toRead <= take && toRead <= |old(input)| ==> |out| == toRead
      ensures old(Follows() && cur != []) ==>
                if done < chunkSize then Follows() && old(Left()) == out + Left()
                  else Ended() && old(Left()) == out + Flat(rest)
    {
      hide Stream;
      hide Flat;
      hide Sum;
      var n := if take < toRead then take else toRead;
      n := if n < |input| then n else |input|;
      ghost var at := done;
      if Follows() && cur != [] {
        var sum := Sum(mac, cur, prevHash);
        Cut(cur, done, n, sum + Coming(sum), Flat(rest));
        Assoc(cur[done..], sum, Coming(sum));
        Assoc(cur[done + n..], sum, Coming(sum));
      }
      out := input[..n];
      input := input[n..];
      hashed := hashed + out;
      done := done + n;
    }
  }

  function DueAt(input: Bytes): Bytes {
    if |input| >= 4 && 4 + Uint32(input[..4]) <= |input| then input[4..4 + Uint32(input[..4])] else []
  }

  /** A frame begins here that a reader refuses, where prev is the hash before. */
  predicate RefusedAt(mac: Mac, input: Bytes, prev: Digest) {
    && |input| >= 4
    && var h := Uint32(input[..4]);
       h == 0
       || (4 + h + HASH_SIZE <= |input|
           && input[4 + h..4 + h + HASH_SIZE] != mac(input[4..4 + h] + PutUint32(h) + prev))
  }

  /** Moving k of the first n bytes of the input to what has been hashed changes
      neither the whole nor the hash behind it. */
  lemma Advances(hashed: Bytes, input: Bytes, k: nat, n: nat)
    requires k <= n && n + HASH_SIZE <= |input|
    ensures (hashed + input[..k]) + input[k..][..n - k] == hashed + input[..n]
    ensures input[k..][n - k..n - k + HASH_SIZE] == input[n..n + HASH_SIZE]
    ensures input[..n] == input[..k] + input[k..][..n - k]
  {
  }

  /** n bytes taken from c at position at, with tail after c. */
  lemma Cut(c: Bytes, at: nat, n: nat, tail: Bytes, later: Bytes)
    requires at + n <= |c|
    ensures var s := c[at..] + tail;
            s[..n] == c[at..at + n] && s[n..] == c[at + n..] + tail && c[..at] + c[at..at + n] == c[..at + n]
    ensures c[at..] + later == c[at..at + n] + (c[at + n..] + later)
    ensures at + n == |c| ==> c[..at + n] == c && c[at + n..] == [] && [] + tail == tail
  {
  }

  lemma FirstFrame(mac: Mac, chunks: seq<Bytes>, prev: Digest, tail: Bytes)
    requires AllFit(chunks) && chunks != []
    ensures var c, s := chunks[0], Stream(mac, chunks, prev) + tail;
            && |s| >= 4 && Uint32(s[..4]) == |c|
            && s[4..] == c + Sum(mac, c, prev) + (Stream(mac, chunks[1..], Sum(mac, c, prev)) + tail)
            && Flat(chunks) == c + Flat(chunks[1..]) && Flat(chunks) != [] && Fits(c)
            && Chain(mac, chunks, prev) == Chain(mac, chunks[1..], Sum(mac, c, prev))
  {
    var c := chunks[0];
    assert Fits(c);
    Uint32RoundTrip(|c|);
    hide PutUint32;
    hide Sum;
    hide Stream;
    hide Uint32;
    StreamFirst(mac, chunks, prev);
    var sum := Sum(mac, c, prev);
    Assoc(PutUint32(|c|) + c + sum, Stream(mac, chunks[1..], sum), tail);
    CutHeader(PutUint32(|c|), c, sum, Stream(mac, chunks[1..], sum) + tail);
  }

  lemma StreamFirst(mac: Mac, chunks: seq<Bytes>, prev: Digest)
    requires AllFit(chunks) && chunks != [] && Fits(chunks[0])
    ensures var c := chunks[0];
            Stream(mac, chunks, prev) ==
              (PutUint32(|c|) + c + Sum(mac, c, prev)) + Stream(mac, chunks[1..], Sum(mac, c, prev))
  {
    hide PutUint32;
    hide Sum;
  }

  lemma CutHeader(h: Bytes, c: Bytes, sum: Bytes, tail: Bytes)
    ensures var s := (h + c + sum) + tail; s[..|h|] == h && s[|h|..] == c + sum + tail
  {
  }

  lemma CutFrame(s: Bytes, h: nat)
    requires 4 + h + HASH_SIZE <= |s|
    ensures s[4..][..h] == s[4..4 + h] && s[4..][h..][..HASH_SIZE] == s[4 + h..4 + h + HASH_SIZE]
    ensures [] + s[4..4 + h] == s[4..4 + h]
  {
  }

  lemma EmptyStream(mac: Mac, prev: Digest)
    ensures Stream(mac, [], prev) == [] && Flat([]) == [] && Chain(mac, [], prev) == prev
  {
  }

  // ---------------------------------------------------------------------
  // Writing and reading a whole stream
  // ---------------------------------------------------------------------

  /** How much each Read asks for, how much it may get at once, and whether the
      end is reported early. */
  datatype ReadSize = ReadSize(len: nat, take: nat, pending: bool)

  /** Any writes, then Close. It panics exactly if one of the writes overruns the
      buffer. */
  method WriteAll(mac: Mac, chunkSize: nat, writes: seq<Bytes>) returns (stream: Bytes, panicked: bool)
    requires chunkSize < LIMIT
    ensures panicked <==> exists p <- writes :: Overruns(chunkSize, p)
    ensures !panicked ==> stream == Stream(mac, Chunks(chunkSize, writes), NO_HASH)
  {
    hide Stream;
    hide Chain;
    hide Flat;
    hide Overruns;
    hide Put;
    var w := new SimpleWriter(mac, chunkSize);
    var i := 0;
    while i < |writes|
      invariant 0 <= i <= |writes| && w.Valid() && !w.closed && fresh(w) && fresh(w.buf)
      invariant w.mac == mac && w.chunkSize == chunkSize
      invariant w.B() == PutAll(chunkSize, writes[..i]) && forall p <- writes[..i] :: !Overruns(chunkSize, p)
    {
      assert writes[..i + 1][..i] == writes[..i];
      var _, r := w.Write(writes[i]);
      if r == Panicked {
        return [], true;
      }
      i := i + 1;
    }
    assert writes[..i] == writes;
    assert w.Held() == [] <==> w.done == 0;
    ghost var b := w.B();
    var _ := w.Close();
    assert w.chunks == if b.held == [] then b.chunks else b.chunks + [b.held];
    return w.out, false;
  }

  lemma FlatNone()
    ensures Flat([]) == []
  {
  }

  lemma {:induction false} FlatConcat(a: seq<Bytes>, b: seq<Bytes>)
    ensures Flat(a + b) == Flat(a) + Flat(b)
  {
    if a == [] {
      assert a + b == b;
    } else {
      assert (a + b)[1..] == a[1..] + b;
      FlatConcat(a[1..], b);
    }
  }

  lemma FlatSnoc(s: seq<Bytes>, i: nat)
    requires i < |s|
    ensures Flat(s[..i + 1]) == Flat(s[..i]) + s[i]
  {
    assert s[..i + 1] == s[..i] + [s[i]];
    FlatConcat(s[..i], [s[i]]);
    var one: seq<Bytes> := [s[i]];
    assert one[1..] == [];
  }

  /** Reads that each get something. */
  predicate Productive(sizes: seq<ReadSize>) {
    forall s <- sizes :: s.len % LIMIT != 0 && s.take > 0
  }

  /** Reads whose lengths are all zero in 32 bits. */
  predicate Vain(sizes: seq<ReadSize>) {
    forall s <- sizes :: s.len % LIMIT == 0
  }

  /** Any reads of a stream, until one fails. Chunks that fit come back; a frame
      that is refused after them lets through its data at most. */
  method ReadAll(mac: Mac, stream: Bytes, ghost chunks: seq<Bytes>, ghost tail: Bytes, sizes: seq<ReadSize>)
    returns (data: Bytes, ended: bool, failed: bool)
    ensures AllFit(chunks) && stream == Stream(mac, chunks, NO_HASH) && tail == [] ==>
              && !failed && data <= Flat(chunks) && (ended ==> data == Flat(chunks))
              && (Productive(sizes) && |sizes| > |Flat(chunks)| ==> ended)
              && (Vain(sizes) && Flat(chunks) != [] ==> data == [] && !ended)
    ensures AllFit(chunks) && stream == Stream(mac, chunks, NO_HASH) + tail
            && RefusedAt(mac, tail, Chain(mac, chunks, NO_HASH)) ==>
              && !ended && data <= Flat(chunks) + DueAt(tail)
              && (Productive(sizes) && |sizes| > |Flat(chunks)| + |DueAt(tail)| ==> failed)
  {
    hide Stream;
    hide Flat;
    hide AllFit;
    hide Chain;
    hide DueAt;
    hide RefusedAt;
    hide SimpleReader.Follows;
    hide SimpleReader.Left;
    hide SimpleReader.Claims;
    hide SimpleReader.Due;
    hide SimpleReader.Refuses;
    data, ended, failed := [], false, false;
    ghost var fit := AllFit(chunks) && stream == Stream(mac, chunks, NO_HASH) + tail;
    ghost var bad := fit && RefusedAt(mac, tail, Chain(mac, chunks, NO_HASH));
    assert Stream(mac, chunks, NO_HASH) + [] == Stream(mac, chunks, NO_HASH);
    var r := new SimpleReader(mac, stream, chunks, tail);
    var i := 0;
    while i < |sizes| && !failed
      invariant fresh(r) && r.chunkSize < LIMIT && 0 <= i <= |sizes|
      invariant fit && tail == [] ==>
                  r.Follows() && data + r.Left() == Flat(chunks) && !failed && (ended ==> r.Left() == [])
      invariant fit && tail == [] && Productive(sizes) ==> ended || i <= |data|
      invariant fit && tail == [] && Vain(sizes) && Flat(chunks) != [] ==> data == [] && !ended
      invariant bad ==> !ended && data <= Flat(chunks) + DueAt(tail)
      invariant bad && !failed ==> r.Approaches(data, Flat(chunks), Flat(chunks) + DueAt(tail))
      invariant bad && Productive(sizes) ==> failed || i <= |data|
    {
      if bad && r.Follows() && r.Left() == [] { r.AtRefused(); }
      ghost var due := r.Due();
      var out, err := r.Read(sizes[i].len, sizes[i].take, sizes[i].pending);
      Assoc(data, out, r.Left());
      Assoc(data, out, r.Due());
      data := data + out;
      if sizes[i].len > 0 {
        ended := ended || err == EOF;
        failed := err != Nil && err != EOF;
      }
      i := i + 1;
    }
  }

  // ---------------------------------------------------------------------
  // Writes that fit
  // ---------------------------------------------------------------------

  /** How many bytes a write of n sends past the buffer when held bytes are in it. */
  function Direct(c: nat, held: nat, n: nat): nat {
    var rest := if held == 0 then n else n - (c - held);
    if rest > c then rest else 0
  }

  /** How many are in it afterwards. */
  function HeldAfter(c: nat, held: nat, n: nat): nat
    decreases held
  {
    if held == 0 then if n >= c then 0 else n
    else if held + n < c then held + n
    else if held < c then HeldAfter(c, 0, n - (c - held)) else 0
  }

  function HeldAt(c: nat, writes: seq<Bytes>): nat {
    if writes == [] then 0 else HeldAfter(c, HeldAt(c, writes[..|writes| - 1]), |writes[|writes| - 1]|)
  }

  /** Every stretch that is sent past the buffer has a 32-bit length. */
  predicate Sendable(c: nat, writes: seq<Bytes>) {
    forall i | 0 <= i < |writes| :: Direct(c, HeldAt(c, writes[..i]), |writes[i]|) < LIMIT
  }

  lemma {:induction false} PutHolds(c: nat, b: Buffered, p: Bytes)
    requires b.held == [] || |b.held| < c
    ensures |Put(c, b, p).held| == HeldAfter(c, |b.held|, |p|)
    decreases |b.held|
  {
    if p != [] && b.held != [] && |b.held| + |p| >= c {
      var k := c - |b.held|;
      PutHolds(c, Buffered(b.chunks + [b.held + p[..k]], []), p[k..]);
    }
  }

  lemma {:induction false} PutFits(c: nat, b: Buffered, p: Bytes)
    requires (b.held == [] || |b.held| < c) && c < LIMIT
    ensures AllFit(Put(c, b, p).chunks) <==> AllFit(b.chunks) && Direct(c, |b.held|, |p|) < LIMIT
    decreases |b.held|
  {
    hide AllFit;
    if p != [] && b.held != [] && |b.held| + |p| >= c {
      var k := c - |b.held|;
      var full := b.held + p[..k];
      OneMoreFits(b.chunks, full);
      PutFits(c, Buffered(b.chunks + [full], []), p[k..]);
    } else {
      OneMoreFits(b.chunks, p);
    }
  }

  lemma OneMoreFits(chunks: seq<Bytes>, c: Bytes)
    ensures AllFit(chunks + [c]) <==> AllFit(chunks) && Fits(c)
  {
    if AllFit(chunks + [c]) {
      forall d <- chunks ensures Fits(d) { assert d in chunks + [c]; }
      assert c in chunks + [c];
    }
  }

  lemma {:induction false} PutAllFits(c: nat, writes: seq<Bytes>)
    requires c < LIMIT
    ensures |PutAll(c, writes).held| == HeldAt(c, writes)
    ensures AllFit(PutAll(c, writes).chunks) <==> Sendable(c, writes)
  {
    if writes != [] {
      var n := |writes| - 1;
      var before := writes[..n];
      PutAllFits(c, before);
      PutHolds(c, PutAll(c, before), writes[n]);
      PutFits(c, PutAll(c, before), writes[n]);
      assert forall i | 0 <= i <= n :: writes[..i] == before[..i];
      assert Sendable(c, writes) <==> Sendable(c, before) && Direct(c, HeldAt(c, before), |writes[n]|) < LIMIT;
    }
  }

  /** The chunks of a stream all fit exactly if the writes are sendable, which is a
      condition on their lengths. */
  lemma ChunksFit(c: nat, writes: seq<Bytes>)
    requires c < LIMIT
    ensures AllFit(Chunks(c, writes)) <==> Sendable(c, writes)
  {
    PutAllFits(c, writes);
    var b := PutAll(c, writes);
    OneMoreFits(b.chunks, b.held);
  }

  lemma {:induction false} PutFlat(c: nat, b: Buffered, p: Bytes)
    requires b.held == [] || |b.held| < c
    ensures var b' := Put(c, b, p); Flat(b'.chunks) + b'.held == Flat(b.chunks) + b.held + p
    decreases |b.held|
  {
    hide Flat;
    if p == [] {
    } else if b.held != [] && |b.held| + |p| >= c {
      var k := c - |b.held|;
      var full := b.held + p[..k];
      FlatOneMore(b.chunks, full);
      PutFlat(c, Buffered(b.chunks + [full], []), p[k..]);
      assert p == p[..k] + p[k..];
    } else {
      FlatOneMore(b.chunks, p);
    }
  }

  lemma FlatOneMore(chunks: seq<Bytes>, c: Bytes)
    ensures Flat(chunks + [c]) == Flat(chunks) + c
  {
    assert (chunks + [c])[..|chunks|] == chunks;
    FlatSnoc(chunks + [c], |chunks|);
    assert (chunks + [c])[..|chunks| + 1] == chunks + [c];
  }

  lemma {:induction false} PutAllFlat(c: nat, writes: seq<Bytes>)
    ensures Flat(PutAll(c, writes).chunks) + PutAll(c, writes).held == Flat(writes)
  {
    hide Flat;
    if writes == [] {
      FlatNone();
    } else {
      var n := |writes| - 1;
      PutAllFlat(c, writes[..n]);
      PutFlat(c, PutAll(c, writes[..n]), writes[n]);
      FlatSnoc(writes, n);
      assert writes[..n + 1] == writes;
    }
  }

  /** The chunks are the written data, cut. */
  lemma ChunksFlat(c: nat, writes: seq<Bytes>)
    ensures Flat(Chunks(c, writes)) == Flat(writes)
  {
    hide Flat;
    PutAllFlat(c, writes);
    var b := PutAll(c, writes);
    FlatOneMore(b.chunks, b.held);
  }

  /** The position of the first chunk whose length the header cannot hold. */
  function FirstBig(chunks: seq<Bytes>): (k: nat)
    ensures k <= |chunks| && AllFit(chunks[..k]) && (k < |chunks| ==> !Fits(chunks[k]))
    ensures k == |chunks| <==> AllFit(chunks)
  {
    if chunks == [] || !Fits(chunks[0]) then 0
    else
      var k := 1 + FirstBig(chunks[1..]);
      assert chunks[..k] == [chunks[0]] + chunks[1..][..k - 1] && chunks == [chunks[0]] + chunks[1..];
      k
  }

  /** Just where the wrapped length of the first such chunk ends, its data has the
      hash of what is before. */
  predicate Embeds(mac: Mac, chunks: seq<Bytes>, prev: Digest) {
    var k := FirstBig(chunks);
    k < |chunks| && EmbedsIn(mac, chunks[k], Chain(mac, chunks[..k], prev))
  }

  predicate EmbedsIn(mac: Mac, big: Bytes, prev: Digest) {
    var h := |big| % LIMIT;
    |big| >= LIMIT && h != 0 && big[h..h + HASH_SIZE] == mac(big[..h] + PutUint32(h) + prev)
  }

  lemma {:induction false} StreamConcat(mac: Mac, a: seq<Bytes>, b: seq<Bytes>, prev: Digest)
    ensures Stream(mac, a + b, prev) == Stream(mac, a, prev) + Stream(mac, b, Chain(mac, a, prev))
  {
    hide Frame;
    hide Sum;
    if a == [] {
      assert a + b == b;
    } else {
      assert (a + b)[1..] == a[1..] + b;
      var next := Sum(mac, a[0], prev);
      StreamConcat(mac, a[1..], b, next);
      Assoc(Frame(mac, a[0], prev), Stream(mac, a[1..], next), Stream(mac, b, Chain(mac, a, prev)));
    }
  }

  /** What a reader makes of the frame of a chunk that is too long. */
  lemma BigFrame(mac: Mac, chunks: seq<Bytes>, prev: Digest)
    requires chunks != [] && |chunks[0]| >= LIMIT
    ensures var big, s := chunks[0], Stream(mac, chunks, prev);
            var h := |big| % LIMIT;
            && |s| >= 4 + h + HASH_SIZE && Uint32(s[..4]) == h && DueAt(s) == big[..h]
            && s[4..4 + h] == big[..h] && s[4 + h..4 + h + HASH_SIZE] == big[h..h + HASH_SIZE]
            && (RefusedAt(mac, s, prev) <==> !EmbedsIn(mac, big, prev))
  {
    var big := chunks[0];
    var h := |big| % LIMIT;
    Uint32RoundTrip(h);
    hide PutUint32;
    hide Uint32;
    hide Sum;
    var later := Stream(mac, chunks[1..], Sum(mac, big, prev));
    assert Stream(mac, chunks, prev) == (PutUint32(h) + big + Sum(mac, big, prev)) + later;
    CutHeader(PutUint32(h), big, Sum(mac, big, prev), later);
  }

  /** The stream of writes that are not sendable: chunks that fit, and then one
      that does not. */
  lemma SplitsAtBig(mac: Mac, c: nat, writes: seq<Bytes>) returns (tail: Bytes)
    requires c < LIMIT && !Sendable(c, writes)
    ensures var chunks := Chunks(c, writes);
            var k := FirstBig(chunks);
            && k < |chunks| && |chunks[k]| >= LIMIT
            && tail == Stream(mac, chunks[k..], Chain(mac, chunks[..k], NO_HASH))
            && Stream(mac, chunks, NO_HASH) == Stream(mac, chunks[..k], NO_HASH) + tail
            && (RefusedAt(mac, tail, Chain(mac, chunks[..k], NO_HASH)) <==> !Embeds(mac, chunks, NO_HASH))
            && DueAt(tail) == chunks[k][..|chunks[k]| % LIMIT]
            && Flat(chunks[..k]) + DueAt(tail) <= Flat(writes) && Flat(chunks[..k]) + DueAt(tail) != Flat(writes)
  {
    hide Stream;
    hide Flat;
    hide EmbedsIn;
    hide RefusedAt;
    hide DueAt;
    hide Chain;
    hide Chunks;
    hide AllFit;
    hide Sendable;
    var chunks := Chunks(c, writes);
    var k := FirstBig(chunks);
    ChunksFit(c, writes);
    NoneEmpty(c, writes);
    var prev := Chain(mac, chunks[..k], NO_HASH);
    assert chunks[k] in chunks && !Fits(chunks[k]);
    assert chunks == chunks[..k] + chunks[k..];
    StreamConcat(mac, chunks[..k], chunks[k..], NO_HASH);
    tail := Stream(mac, chunks[k..], prev);
    BigFrame(mac, chunks[k..], prev);
    ChunksFlat(c, writes);
    FlatConcat(chunks[..k], chunks[k..]);
    FlatStarts(chunks[k..], |chunks[k]| % LIMIT);
  }

  lemma NoneEmpty(c: nat, writes: seq<Bytes>)
    ensures forall d <- Chunks(c, writes) :: d != []
  {
    PutAllNoneEmpty(c, writes);
  }

  lemma {:induction false} PutAllNoneEmpty(c: nat, writes: seq<Bytes>)
    ensures forall d <- PutAll(c, writes).chunks :: d != []
  {
    if writes != [] {
      var n := |writes| - 1;
      PutAllNoneEmpty(c, writes[..n]);
      PutNoneEmpty(c, PutAll(c, writes[..n]), writes[n]);
    }
  }

  lemma {:induction false} PutNoneEmpty(c: nat, b: Buffered, p: Bytes)
    requires (b.held == [] || |b.held| < c) && forall d <- b.chunks :: d != []
    ensures forall d <- Put(c, b, p).chunks :: d != []
    decreases |b.held|
  {
    if p != [] && b.held != [] && |b.held| + |p| >= c {
      var k := c - |b.held|;
      PutNoneEmpty(c, Buffered(b.chunks + [b.held + p[..k]], []), p[k..]);
    }
  }

  lemma FlatStarts(chunks: seq<Bytes>, h: nat)
    requires chunks != [] && h < |chunks[0]|
    ensures chunks[0][..h] <= Flat(chunks) && |Flat(chunks)| > h
  {
  }

  // ---------------------------------------------------------------------
  // Round trip
  // ---------------------------------------------------------------------

  /** Any writes, closed, and then any reads until one fails. The writer panics
      exactly if one of the writes overruns its buffer. Otherwise, if the writes
      are sendable, no read fails, the data comes back in order, the end is
      reported only when all of it has come, and reads that each make progress get
      there, while reads whose lengths are zero in 32 bits never get anything. If
      they are not, the end is never reported, not all of the data comes, and
      reads that make progress fail, unless the data embeds the hash. */
  method RoundTrip(mac: Mac, chunkSize: nat, writes: seq<Bytes>, sizes: seq<ReadSize>)
    returns (data: Bytes, ended: bool, failed: bool, panicked: bool)
    requires chunkSize < LIMIT
    ensures panicked <==> exists p <- writes :: Overruns(chunkSize, p)
    ensures !panicked && Sendable(chunkSize, writes) ==>
              && !failed && data <= Flat(writes) && (ended ==> data == Flat(writes))
              && (Productive(sizes) && |sizes| > |Flat(writes)| ==> ended)
              && (Vain(sizes) && Flat(writes) != [] ==> data == [] && !ended)
    ensures !panicked && !Sendable(chunkSize, writes) && !Embeds(mac, Chunks(chunkSize, writes), NO_HASH) ==>
              && !ended && data <= Flat(writes) && data != Flat(writes)
              && (Productive(sizes) && |sizes| > |Flat(writes)| ==> failed)
  {
    hide Stream;
    hide Chain;
    hide Flat;
    hide Overruns;
    hide Sendable;
    hide Embeds;
    hide RefusedAt;
    hide DueAt;
    hide Chunks;
    var stream;
    stream, panicked := WriteAll(mac, chunkSize, writes);
    data, ended, failed := [], false, false;
    if panicked {
      return;
    }
    ghost var chunks, tail := Chunks(chunkSize, writes), [];
    ChunksFlat(chunkSize, writes);
    ChunksFit(chunkSize, writes);
    if !Sendable(chunkSize, writes) {
      tail := SplitsAtBig(mac, chunkSize, writes);
      chunks := chunks[..FirstBig(chunks)];
    }
    data, ended, failed := ReadAll(mac, stream, chunks, tail, sizes);
  }

  /** The same length of write may be sendable or not: it is the stretch past the
      buffer that counts. */
  lemma PositionMatters(p: Bytes)
    requires |p| == LIMIT
    ensures !Sendable(16, [p]) && Sendable(16, [[7], p])
  {
    var one: seq<Bytes> := [p];
    var two: seq<Bytes> := [[7], p];
    assert one[..0] == [] && Direct(16, HeldAt(16, one[..0]), |one[0]|) == LIMIT;
    assert two[..0] == [] && two[..1] == [two[0]] && two[..1][..0] == [];
    assert HeldAt(16, two[..1]) == 1;
  }

  /** One byte that reads of 2^32 bytes never get. */
  method StalledReads(mac: Mac, count: nat) returns (data: Bytes, ended: bool)
    ensures data == [] && !ended
  {
    var writes: seq<Bytes> := [[7]];
    assert writes[..0] == [] && Sendable(16, writes);
    assert Flat(writes) == [7] + Flat([]);
    var d, e, _, _ := RoundTrip(mac, 16, writes, seq(count, _ => ReadSize(LIMIT, 1, false)));
    return d, e;
  }

  /** One byte that a writer with the smallest wrapping chunk size panics on. */
  method OverrunByOne(mac: Mac) returns (panicked: bool)
    ensures panicked
  {
    var writes: seq<Bytes> := [[7]];
    assert Overruns(LIMIT - 36, writes[0]);
    var _, p := WriteAll(mac, LIMIT - 36, writes);
    return p;
  }

  /** Writes that are not sendable, read back in pieces as large as possible: all
      that was sent before the first oversized chunk comes, and the next read is
      refused, unless the data has in it, just where the wrapped length says, the
      hash of what is before. */
  method Oversized(mac: Mac, chunkSize: nat, writes: seq<Bytes>) returns (data: Bytes, err: Error)
    requires chunkSize < LIMIT && !Sendable(chunkSize, writes) && forall p <- writes :: !Overruns(chunkSize, p)
    ensures var chunks := Chunks(chunkSize, writes);
            var k := FirstBig(chunks);
            && k < |chunks| && data == Flat(chunks[..k])
            && err == if |chunks[k]| % LIMIT == 0 then NoProgress
                      else if Embeds(mac, chunks, NO_HASH) then Nil
                      else HashMismatch
  {
    hide Stream;
    hide Chain;
    hide Flat;
    hide Overruns;
    hide Sendable;
    hide Chunks;
    hide Uint32;
    hide PutUint32;
    hide DueAt;
    hide SimpleReader.Follows;
    hide SimpleReader.Left;
    hide SimpleReader.Due;
    hide SimpleReader.Refuses;
    var stream, _ := WriteAll(mac, chunkSize, writes);
    var chunks := Chunks(chunkSize, writes);
    var k := FirstBig(chunks);
    ghost var tail := SplitsAtBig(mac, chunkSize, writes);
    BigFrame(mac, chunks[k..], Chain(mac, chunks[..k], NO_HASH));
    var r := new SimpleReader(mac, stream, chunks[..k], tail);
    data := [];
    while |data| < |Flat(chunks[..k])|
      invariant fresh(r) && r.Follows() && r.chunkSize < LIMIT && data + r.Left() == Flat(chunks[..k])
    {
      var out, _ := r.Read(LIMIT - 1, LIMIT, false);
      Assoc(data, out, r.Left());
      data := data + out;
    }
    r.AtTail();
    var _, e := r.Read(LIMIT - 1, LIMIT, false);
    return data, e;
  }
}
