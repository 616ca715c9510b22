/** Where the bytes of a directory are, and what is in them.

    The blocks that Lookup and IterDirents ask for, put one after the other, are
    the directory's data as DataRanges gives it, inline tail included; and a
    directory written by the encoder below is scanned back to the entries it was
    written from. */
module ErofsLayout {
  import opened Erofs

  // ---------------------------------------------------------------------
  // The data of an inode
  // ---------------------------------------------------------------------

  /** What Inode guarantees of an inode with an inline tail: the tail is not empty. */
  predicate HasTail(i: Inode)
    requires i.blockSize > 0
  {
    i.inlineOff != 0 ==> i.size % i.blockSize != 0
  }

  /** DataRanges: the full blocks and the inline tail; without inline data all of
      it is in the first range. */
  function DataRanges(i: Inode): (Block, Block)
    requires i.blockSize > 0
  {
    var tail := if i.inlineOff == 0 then 0 else i.size % i.blockSize;
    (Block(i.dataOff, i.size - tail), Block(i.inlineOff, tail))
  }

  predicate Inside(img: Image, b: Block) {
    b.base + b.size <= |img|
  }

  function Bytes(img: Image, b: Block): (r: seq<Byte>)
    requires Inside(img, b)
    ensures |r| == b.size
  {
    img[b.base..b.base + b.size]
  }

  predicate DataInside(img: Image, i: Inode)
    requires i.blockSize > 0
  {
    Inside(img, DataRanges(i).0) && Inside(img, DataRanges(i).1)
  }

  /** The contents of the file. */
  function Data(img: Image, i: Inode): seq<Byte>
    requires i.blockSize > 0 && DataInside(img, i)
  {
    Bytes(img, DataRanges(i).0) + Bytes(img, DataRanges(i).1)
  }

  // ---------------------------------------------------------------------
  // Block by block
  // ---------------------------------------------------------------------

  lemma QuotientUnique(a: int, d: int, q: int, r: int)
    requires d > 0 && a == d * q + r && 0 <= r < d
    ensures a / d == q && a % d == r
  {
    var e := a / d - q;
    assert a == d * (a / d) + a % d;
    assert d * (a / d) == d * q + d * e;
    assert e >= 1 ==> d * (e - 1) >= 0;
    assert e <= -1 ==> d * (-1 - e) >= 0;
  }

  /** All blocks but the last are full; the last holds the rest. */
  lemma LastBlock(i: Inode)
    requires i.blockSize > 0 && i.size > 0
    ensures Blocks(i) >= 1
    ensures var rest := i.size - i.blockSize * (Blocks(i) - 1);
            && 1 <= rest <= i.blockSize
            && i.size % i.blockSize == (if rest == i.blockSize then 0 else rest)
  {
    var d := i.blockSize;
    var q, r := i.size / d, i.size % d;
    assert i.size == d * q + r;
    if r == 0 {
      QuotientUnique(i.size + (d - 1), d, q, d - 1);
      assert d * (q - 1) == d * q - d;
    } else {
      assert d * (q + 1) == d * q + d;
      QuotientUnique(i.size + (d - 1), d, q + 1, r - 1);
    }
  }

  /** Where block idx ends in the file. */
  function End(i: Inode, idx: nat): nat
    requires i.blockSize > 0
  {
    if idx + 1 < Blocks(i) then i.blockSize * (idx + 1) else i.size
  }

  lemma EarlierBlocks(i: Inode, idx: nat)
    requires i.blockSize > 0 && idx + 1 < Blocks(i)
    ensures i.blockSize * (idx + 1) <= i.blockSize * (Blocks(i) - 1)
    ensures i.size > 0
  {
    NoBlocks(i);
    hide Blocks;
    ProductMonotone(i.blockSize, idx + 1, Blocks(i) - 1);
  }

  lemma ProductMonotone(d: nat, a: nat, b: nat)
    requires a <= b
    ensures d * a <= d * b
  {
    assert d * (b - a) >= 0;
  }

  lemma NoBlocks(i: Inode)
    requires i.blockSize > 0
    ensures Blocks(i) == 0 <==> i.size == 0
  {
    if i.size == 0 {
      QuotientUnique(i.blockSize - 1, i.blockSize, 0, i.blockSize - 1);
    } else {
      LastBlock(i);
    }
  }

  /** A block is a part of the first range, or it is the inline tail. */
  lemma BlockPlace(i: Inode, idx: nat)
    requires i.blockSize > 0 && HasTail(i) && idx < Blocks(i)
    ensures i.blockSize * idx <= End(i, idx) <= i.size
    ensures var (first, second) := DataRanges(i);
            var b := BlockData(i, idx);
            && b.size == End(i, idx) - i.blockSize * idx
            && (|| (b.base == first.base + i.blockSize * idx && End(i, idx) <= first.size)
                || (b == second && i.blockSize * idx == first.size && End(i, idx) == i.size))
  {
    NoBlocks(i);
    LastBlock(i);
    var n, d := Blocks(i), i.blockSize;
    hide Blocks;
    var full := d * (n - 1);
    if idx + 1 < n {
      EarlierBlocks(i, idx);
      assert d * (idx + 1) == d * idx + d;
    } else {
      assert d * idx == full;
    }
    assert idx * d == d * idx;
  }

  lemma Part(img: Image, b: Block, part: Block, lo: nat)
    requires Inside(img, b) && part.base == b.base + lo && lo + part.size <= b.size
    ensures Inside(img, part) && Bytes(img, part) == Bytes(img, b)[lo..lo + part.size]
  {
  }

  /** The stretch of the image that getBlockDataInfo gives for a block is that
      stretch of the file. */
  lemma BlockIsSlice(img: Image, i: Inode, idx: nat)
    requires i.blockSize > 0 && HasTail(i) && DataInside(img, i) && idx < Blocks(i)
    ensures i.blockSize * idx <= End(i, idx) <= i.size == |Data(img, i)|
    ensures BlockData(i, idx).size == End(i, idx) - i.blockSize * idx
    ensures Inside(img, BlockData(i, idx))
    ensures Bytes(img, BlockData(i, idx)) == Data(img, i)[i.blockSize * idx..End(i, idx)]
  {
    BlockPlace(i, idx);
    hide Blocks;
    hide BlockData;
    hide End;
    var (first, second) := DataRanges(i);
    var b := BlockData(i, idx);
    var lo := i.blockSize * idx;
    if End(i, idx) <= first.size && b.base == first.base + lo {
      Part(img, first, b, lo);
    }
  }

  ghost predicate BlocksInside(img: Image, i: Inode)
    requires i.blockSize > 0
  {
    forall idx: nat | idx < Blocks(i) :: Inside(img, BlockData(i, idx))
  }

  /** The first idx blocks put one after the other. */
  ghost function Joined(img: Image, i: Inode, idx: nat): seq<Byte>
    requires i.blockSize > 0 && BlocksInside(img, i) && idx <= Blocks(i)
  {
    if idx == 0 then [] else Joined(img, i, idx - 1) + Bytes(img, BlockData(i, idx - 1))
  }

  lemma {:induction false} JoinedIsPrefix(img: Image, i: Inode, idx: nat)
    requires i.blockSize > 0 && HasTail(i) && DataInside(img, i) && BlocksInside(img, i) && 1 <= idx <= Blocks(i)
    ensures End(i, idx - 1) <= |Data(img, i)| && Joined(img, i, idx) == Data(img, i)[..End(i, idx - 1)]
  {
    hide BlockData;
    hide Data;
    hide Bytes;
    hide HasTail;
    hide DataInside;
    hide Blocks;
    BlockIsSlice(img, i, idx - 1);
    hide Inside;
    assert Joined(img, i, idx) == Joined(img, i, idx - 1) + Bytes(img, BlockData(i, idx - 1));
    if idx > 1 {
      JoinedIsPrefix(img, i, idx - 1);
    }
  }

  /** The blocks in order are the data of the directory, inline tail included. */
  lemma BlocksAreData(img: Image, i: Inode)
    requires i.blockSize > 0 && HasTail(i) && DataInside(img, i)
    ensures BlocksInside(img, i) && Joined(img, i, Blocks(i)) == Data(img, i)
  {
    hide BlockData;
    hide Bytes;
    hide HasTail;
    hide Blocks;
    hide Joined;
    forall idx: nat | idx < Blocks(i)
      ensures Inside(img, BlockData(i, idx))
    {
      BlockIsSlice(img, i, idx);
    }
    NoBlocks(i);
    if Blocks(i) > 0 {
      BlockIsSlice(img, i, Blocks(i) - 1);
      JoinedIsPrefix(img, i, Blocks(i));
    } else {
      NothingJoined(img, i);
    }
  }

  lemma NothingJoined(img: Image, i: Inode)
    requires i.blockSize > 0 && BlocksInside(img, i)
    ensures Joined(img, i, 0) == []
  {
  }

  // ---------------------------------------------------------------------
  // Writing a directory
  // ---------------------------------------------------------------------

  /** The n low bytes of v, the lowest first. */
  function LittleEndian(v: nat, n: nat): (r: seq<Byte>)
    ensures |r| == n
  {
    if n == 0 then [] else [v % 256] + LittleEndian(v / 256, n - 1)
  }

  function DirentBytes(e: Entry, nameOff: nat): (r: seq<Byte>)
    ensures |r| == DIRENT_SIZE
  {
    LittleEndian(e.nid, 8) + LittleEndian(nameOff, 2) + [e.fileType, 0]
  }

  function Names(es: seq<Entry>): seq<Byte> {
    if es == [] then [] else es[0].name + Names(es[1..])
  }

  /** The dirents of a block whose first name is at off. */
  function Table(es: seq<Entry>, off: nat): (r: seq<Byte>)
    ensures |r| == |es| * DIRENT_SIZE
  {
    if es == [] then [] else DirentBytes(es[0], off) + Table(es[1..], off + |es[0].name|)
  }

  function Zeros(n: nat): (r: seq<Byte>)
    ensures |r| == n && forall k | 0 <= k < n :: r[k] == 0
  {
    seq(n, _ => 0)
  }

  /** A block: the dirents, the names, and zeros up to its size. */
  function BlockBytes(es: seq<Entry>, size: nat): (r: seq<Byte>)
    requires |es| * DIRENT_SIZE + |Names(es)| <= size
    ensures |r| == size
  {
    Table(es, |es| * DIRENT_SIZE) + Names(es) + Zeros(size - (|es| * DIRENT_SIZE + |Names(es)|))
  }

  predicate LegalEntry(e: Entry) {
    1 <= |e.name| <= MAX_NAME_LEN && 0 !in e.name && e.nid < 0x1_0000_0000_0000_0000
  }

  /** The entries are legal and fit in a block of this size. */
  predicate Fits(es: seq<Entry>, size: nat) {
    && |es| >= 1
    && (forall e <- es :: LegalEntry(e))
    && |es| * DIRENT_SIZE + |Names(es)| <= size <= 0x1_0000
  }

  // ---------------------------------------------------------------------
  // Reading one dirent back
  // ---------------------------------------------------------------------

  lemma SkipTwo(v: nat, n: nat)
    ensures LittleEndian(v, n + 2) == LittleEndian(v, 2) + LittleEndian(v / 0x1_0000, n)
    ensures LittleEndian(v, 2) == [v % 256, v / 256 % 256]
  {
    assert v / 256 / 256 == v / 0x1_0000;
    assert LittleEndian(v, n + 2) == [v % 256] + LittleEndian(v / 256, n + 1);
    assert LittleEndian(v / 256, n + 1) == [v / 256 % 256] + LittleEndian(v / 0x1_0000, n);
    assert LittleEndian(v, 2) == [v % 256] + LittleEndian(v / 256, 1);
    assert LittleEndian(v / 256, 1) == [v / 256 % 256];
  }

  lemma SkipFour(v: nat, n: nat)
    ensures LittleEndian(v, n + 4) == LittleEndian(v, 4) + LittleEndian(v / 0x1_0000_0000, n)
  {
    hide LittleEndian;
    var high := v / 0x1_0000;
    assert high / 0x1_0000 == v / 0x1_0000_0000;
    SkipTwo(v, n + 2);
    SkipTwo(high, n);
    SkipTwo(v, 2);
  }

  /** s stands in the image at off. */
  predicate At(img: Image, off: nat, s: seq<Byte>) {
    off + |s| <= |img| && img[off..off + |s|] == s
  }

  lemma AtSplits(img: Image, off: nat, a: seq<Byte>, b: seq<Byte>)
    requires At(img, off, a + b)
    ensures At(img, off, a) && At(img, off + |a|, b)
  {
    var s := img[off..off + |a + b|];
    assert img[off..off + |a|] == s[..|a|] == a;
    assert img[off + |a|..off + |a| + |b|] == s[|a|..] == b;
  }

  lemma ReadU16(img: Image, off: nat, v: nat)
    requires At(img, off, LittleEndian(v, 2))
    ensures off + 2 <= |img| && U16(img, off) == v % 0x1_0000
  {
    SkipTwo(v, 0);
    hide LittleEndian;
    var low, high := v % 256, v / 256 % 256;
    assert low + 256 * high == v % 0x1_0000;
    assert img[off..off + 2] == [low, high];
    assert img[off] == img[off..off + 2][0] && img[off + 1] == img[off..off + 2][1];
  }

  lemma Halves(v: nat)
    ensures v % 0x1_0000 + 0x1_0000 * (v / 0x1_0000 % 0x1_0000) == v % 0x1_0000_0000
    ensures v < 0x1_0000_0000_0000_0000 ==>
              v % 0x1_0000_0000 + 0x1_0000_0000 * (v / 0x1_0000_0000 % 0x1_0000_0000) == v
  {
  }

  lemma ReadU32(img: Image, off: nat, v: nat)
    requires At(img, off, LittleEndian(v, 4))
    ensures off + 4 <= |img| && U32(img, off) == v % 0x1_0000_0000
  {
    SkipTwo(v, 2);
    hide LittleEndian;
    hide At;
    hide U16;
    AtSplits(img, off, LittleEndian(v, 2), LittleEndian(v / 0x1_0000, 2));
    ReadU16(img, off, v);
    ReadU16(img, off + 2, v / 0x1_0000);
    Halves(v);
  }

  lemma DirentReadsBack(img: Image, off: nat, e: Entry, nameOff: nat)
    requires At(img, off, DirentBytes(e, nameOff)) && LegalEntry(e) && nameOff < 0x1_0000
    ensures InRange(img, off, DIRENT_SIZE) && RawDirent(img, off) == Dirent(e.nid, nameOff, e.fileType)
  {
    assert InRange(img, off, DIRENT_SIZE);
    SkipFour(e.nid, 4);
    hide LittleEndian;
    hide At;
    hide U16;
    hide U32;
    var low, high := LittleEndian(e.nid, 4), LittleEndian(e.nid / 0x1_0000_0000, 4);
    var name := LittleEndian(nameOff, 2);
    AtSplits(img, off, low + high + name, [e.fileType, 0]);
    AtSplits(img, off, low + high, name);
    AtSplits(img, off, low, high);
    ReadU32(img, off, e.nid);
    ReadU32(img, off + 4, e.nid / 0x1_0000_0000);
    ReadU16(img, off + 8, nameOff);
    Halves(e.nid);
    FirstByte(img, off + 10, e.fileType);
  }

  lemma FirstByte(img: Image, off: nat, b: Byte)
    requires At(img, off, [b, 0])
    ensures off < |img| && img[off] == b
  {
    assert img[off] == img[off..off + 2][0];
  }

  // ---------------------------------------------------------------------
  // Reading one block back
  // ---------------------------------------------------------------------

  /** Where name j begins among the names. */
  function NameStart(es: seq<Entry>, j: nat): nat
    requires j <= |es|
  {
    if j == 0 then 0 else |es[0].name| + NameStart(es[1..], j - 1)
  }

  lemma {:induction false} NameStartStep(es: seq<Entry>, j: nat)
    requires j < |es|
    ensures NameStart(es, j + 1) == NameStart(es, j) + |es[j].name| <= |Names(es)|
    ensures j + 1 == |es| ==> NameStart(es, j + 1) == |Names(es)|
  {
    if j > 0 {
      NameStartStep(es[1..], j - 1);
    }
  }

  lemma {:induction false} DirentInTable(img: Image, off: nat, es: seq<Entry>, nameOff: nat, j: nat)
    requires At(img, off, Table(es, nameOff)) && j < |es|
    ensures At(img, off + j * DIRENT_SIZE, DirentBytes(es[j], nameOff + NameStart(es, j)))
    decreases j
  {
    hide At;
    hide DirentBytes;
    AtSplits(img, off, DirentBytes(es[0], nameOff), Table(es[1..], nameOff + |es[0].name|));
    if j > 0 {
      DirentInTable(img, off + DIRENT_SIZE, es[1..], nameOff + |es[0].name|, j - 1);
      assert off + DIRENT_SIZE + (j - 1) * DIRENT_SIZE == off + j * DIRENT_SIZE;
    }
  }

  lemma {:induction false} NameInNames(img: Image, off: nat, es: seq<Entry>, j: nat)
    requires At(img, off, Names(es)) && j < |es|
    ensures At(img, off + NameStart(es, j), es[j].name)
    decreases j
  {
    hide At;
    AtSplits(img, off, es[0].name, Names(es[1..]));
    if j > 0 {
      NameInNames(img, off + |es[0].name|, es[1..], j - 1);
    }
  }

  lemma {:induction false} StopsAtZero(s: Name, n: nat)
    requires n <= |s| && 0 !in s[..n] && (n < |s| ==> s[n] == 0)
    ensures UpToZero(s) == s[..n]
  {
    if n > 0 {
      assert s[0] == s[..n][0] && s[1..][..n - 1] == s[..n][1..];
      StopsAtZero(s[1..], n - 1);
    }
  }

  /** The block of the image holds the entries as the encoder writes them. */
  predicate Written(img: Image, b: Block, es: seq<Entry>) {
    Fits(es, b.size) && At(img, b.base, BlockBytes(es, b.size))
  }

  lemma WrittenParts(img: Image, b: Block, es: seq<Entry>)
    requires Written(img, b, es)
    ensures b.base + b.size <= |img|
    ensures At(img, b.base, Table(es, |es| * DIRENT_SIZE))
    ensures At(img, b.base + |es| * DIRENT_SIZE, Names(es))
    ensures At(img, b.base + |es| * DIRENT_SIZE + |Names(es)|, Zeros(b.size - (|es| * DIRENT_SIZE + |Names(es)|)))
  {
    hide Table;
    hide Names;
    hide Zeros;
    hide LegalEntry;
    var table, names := Table(es, |es| * DIRENT_SIZE), Names(es);
    var zeros := Zeros(b.size - (|es| * DIRENT_SIZE + |names|));
    assert BlockBytes(es, b.size) == table + names + zeros;
    assert b.base + b.size <= |img|;
    hide At;
    AtSplits(img, b.base, table + names, zeros);
    AtSplits(img, b.base, table, names);
  }

  /** Where name j of a block is, counted from the start of the block. */
  function NameOffset(es: seq<Entry>, j: nat): nat
    requires j <= |es|
  {
    |es| * DIRENT_SIZE + NameStart(es, j)
  }

  lemma NameFits(es: seq<Entry>, size: nat, j: nat)
    requires Fits(es, size) && j < |es|
    ensures LegalEntry(es[j]) && 1 <= |es[j].name| <= MAX_NAME_LEN
    ensures NameOffset(es, j + 1) == NameOffset(es, j) + |es[j].name| <= size <= 0x1_0000
    ensures j + 1 == |es| ==> NameOffset(es, j + 1) == |es| * DIRENT_SIZE + |Names(es)|
  {
    NameStartStep(es, j);
    assert es[j] in es;
  }

  lemma NameWritten(img: Image, b: Block, es: seq<Entry>, j: nat)
    requires Written(img, b, es) && j < |es|
    ensures At(img, b.base + NameOffset(es, j), es[j].name)
  {
    hide Written;
    hide At;
    hide Names;
    hide Table;
    hide NameStart;
    WrittenParts(img, b, es);
    NameInNames(img, b.base + |es| * DIRENT_SIZE, es, j);
  }

  /** Dirent j of a written block points at its name. */
  lemma DirentWritten(img: Image, b: Block, es: seq<Entry>, j: nat)
    requires Written(img, b, es) && j < |es|
    ensures var off := b.base + j * DIRENT_SIZE;
            && InRange(img, off, DIRENT_SIZE)
            && RawDirent(img, off) == Dirent(es[j].nid, NameOffset(es, j), es[j].fileType)
  {
    NameFits(es, b.size, j);
    hide Written;
    hide Fits;
    hide At;
    hide Names;
    hide Table;
    hide NameStart;
    hide LegalEntry;
    hide DirentBytes;
    hide RawDirent;
    WrittenParts(img, b, es);
    DirentInTable(img, b.base, es, |es| * DIRENT_SIZE, j);
    DirentReadsBack(img, b.base + j * DIRENT_SIZE, es[j], NameOffset(es, j));
  }

  /** What follows the last name up to the end of the block is cut off. */
  lemma LastNamePadded(img: Image, b: Block, es: seq<Entry>)
    requires Written(img, b, es)
    ensures var at := NameOffset(es, |es| - 1);
            && at <= b.size && b.base + b.size <= |img|
            && UpToZero(img[b.base + at..b.base + b.size]) == es[|es| - 1].name
  {
    var j := |es| - 1;
    NameFits(es, b.size, j);
    assert 0 !in es[j].name;
    hide *;
    NameWritten(img, b, es, j);
    WrittenParts(img, b, es);
    assert b.base + NameOffset(es, j) + |es[j].name| == b.base + |es| * DIRENT_SIZE + |Names(es)|;
    PaddedName(img, b.base + NameOffset(es, j), es[j].name, b.size - NameOffset(es, j + 1));
  }

  lemma PaddedName(img: Image, off: nat, name: Name, n: nat)
    requires At(img, off, name) && At(img, off + |name|, Zeros(n)) && 0 !in name
    ensures off + |name| + n <= |img| && UpToZero(img[off..off + |name| + n]) == name
  {
    hide UpToZero;
    var s := img[off..off + |name| + n];
    assert s[..|name|] == img[off..off + |name|] == name;
    if n > 0 {
      assert s[|name|] == img[off + |name|..off + |name| + n][0] == Zeros(n)[0] == 0;
    }
    StopsAtZero(s, |name|);
  }

  lemma InnerName(img: Image, off: nat, b: Block, name: Name)
    requires InRange(img, off, DIRENT_SIZE) && InRange(img, off + DIRENT_SIZE, DIRENT_SIZE)
    requires RawDirent(img, off + DIRENT_SIZE).nameOff == RawDirent(img, off).nameOff + |name| <= b.size
    requires At(img, b.base + RawDirent(img, off).nameOff, name) && 1 <= |name| <= MAX_NAME_LEN
    ensures DirentName(img, off, b, false) == Ok(name)
  {
    hide RawDirent;
  }

  lemma FinalName(img: Image, off: nat, b: Block, name: Name)
    requires InRange(img, off, DIRENT_SIZE) && RawDirent(img, off).nameOff < b.size && b.base + b.size <= |img|
    requires UpToZero(img[b.base + RawDirent(img, off).nameOff..b.base + b.size]) == name
    requires 1 <= |name| <= MAX_NAME_LEN
    ensures DirentName(img, off, b, true) == Ok(name)
  {
    hide RawDirent;
    hide UpToZero;
  }

  lemma InnerReadsBack(img: Image, b: Block, es: seq<Entry>, j: nat)
    requires Written(img, b, es) && j + 1 < |es|
    ensures var off := b.base + j * DIRENT_SIZE;
            InRange(img, off, DIRENT_SIZE) && DirentName(img, off, b, false) == Ok(es[j].name)
  {
    NameFits(es, b.size, j);
    hide *;
    DirentWritten(img, b, es, j);
    DirentWritten(img, b, es, j + 1);
    NameWritten(img, b, es, j);
    InnerName(img, b.base + j * DIRENT_SIZE, b, es[j].name);
  }

  lemma LastReadsBack(img: Image, b: Block, es: seq<Entry>, j: nat)
    requires Written(img, b, es) && j + 1 == |es|
    ensures var off := b.base + j * DIRENT_SIZE;
            InRange(img, off, DIRENT_SIZE) && DirentName(img, off, b, true) == Ok(es[j].name)
  {
    NameFits(es, b.size, j);
    hide *;
    DirentWritten(img, b, es, j);
    LastNamePadded(img, b, es);
    assert j == |es| - 1;
    FinalName(img, b.base + j * DIRENT_SIZE, b, es[j].name);
  }

  /** An entry of a written block is read as it was written. */
  lemma EntryReadsBack(img: Image, b: Block, es: seq<Entry>, j: nat)
    requires Written(img, b, es) && j < |es|
    ensures EntryAt(img, b, j, |es|) == Ok(es[j])
  {
    hide Written;
    hide RawDirent;
    hide DirentName;
    hide NameOffset;
    DirentWritten(img, b, es, j);
    if j + 1 < |es| {
      InnerReadsBack(img, b, es, j);
    } else {
      LastReadsBack(img, b, es, j);
    }
  }

  lemma {:induction false} BlockReadsBack(img: Image, b: Block, es: seq<Entry>, j: nat)
    requires Written(img, b, es) && j <= |es|
    ensures ScanBlock(img, b, j, |es|) == Scan(es[j..], Ok(()))
    decreases |es| - j
  {
    hide Written;
    hide ScanBlock;
    hide EntryAt;
    if j == |es| {
      ScanBlockDone(img, b, |es|);
    } else {
      EntryReadsBack(img, b, es, j);
      ScanBlockStep(img, b, j, |es|);
      BlockReadsBack(img, b, es, j + 1);
      assert es[j..] == [es[j]] + es[j + 1..];
    }
  }

  lemma FirstDirentReadsBack(img: Image, b: Block, es: seq<Entry>)
    requires Written(img, b, es) && b.base % 4 == 0
    ensures Dirent0(img, b).Ok? && Dirent0(img, b).value.nameOff / DIRENT_SIZE == |es|
  {
    NameFits(es, b.size, 0);
    hide Written;
    hide Fits;
    hide RawDirent;
    DirentWritten(img, b, es, 0);
  }

  // ---------------------------------------------------------------------
  // Reading a directory back
  // ---------------------------------------------------------------------

  /** Each group of entries fits in its block: all blocks but the last are full
      size, and the last has `last` bytes. */
  predicate AllFit(groups: seq<seq<Entry>>, blockSize: nat, last: nat) {
    && 1 <= last <= blockSize
    && forall k | 0 <= k < |groups| :: Fits(groups[k], if k + 1 < |groups| then blockSize else last)
  }

  /** A directory: one block for each group. */
  function DirectoryBytes(groups: seq<seq<Entry>>, blockSize: nat, last: nat): seq<Byte>
    requires AllFit(groups, blockSize, last)
  {
    if groups == [] then []
    else
      var rest := groups[1..];
      assert AllFit(rest, blockSize, last) by { RestFits(groups, blockSize, last); }
      BlockBytes(groups[0], if |groups| == 1 then last else blockSize) + DirectoryBytes(rest, blockSize, last)
  }

  lemma RestFits(groups: seq<seq<Entry>>, blockSize: nat, last: nat)
    requires groups != [] && AllFit(groups, blockSize, last)
    ensures AllFit(groups[1..], blockSize, last)
    ensures Fits(groups[0], if |groups| == 1 then last else blockSize)
  {
    hide Fits;
    var rest := groups[1..];
    assert forall k | 0 <= k < |rest| :: rest[k] == groups[k + 1];
  }

  function SizeOfBlock(n: nat, k: nat, blockSize: nat, last: nat): nat {
    if k + 1 < n then blockSize else last
  }

  lemma GroupFits(groups: seq<seq<Entry>>, blockSize: nat, last: nat, k: nat)
    requires AllFit(groups, blockSize, last) && k < |groups|
    ensures Fits(groups[k], SizeOfBlock(|groups|, k, blockSize, last))
    ensures |groups[k]| * DIRENT_SIZE + |Names(groups[k])| <= SizeOfBlock(|groups|, k, blockSize, last)
  {
  }

  /** Block k of the directory is where it should be, and is that of group k. */
  lemma {:induction false} GroupInDirectory(data: Image, off: nat, groups: seq<seq<Entry>>, blockSize: nat, last: nat,
      k: nat)
    requires AllFit(groups, blockSize, last) && k < |groups|
    requires At(data, off, DirectoryBytes(groups, blockSize, last))
    ensures Fits(groups[k], SizeOfBlock(|groups|, k, blockSize, last))
    ensures At(data, off + blockSize * k, BlockBytes(groups[k], SizeOfBlock(|groups|, k, blockSize, last)))
    decreases k
  {
    GroupFits(groups, blockSize, last, 0);
    DirectoryHead(groups, blockSize, last);
    GroupFits(groups, blockSize, last, k);
    hide *;
    var head := BlockBytes(groups[0], SizeOfBlock(|groups|, 0, blockSize, last));
    AtSplits(data, off, head, DirectoryBytes(groups[1..], blockSize, last));
    if k > 0 {
      NextSize(|groups|, k, blockSize, last);
      GroupInDirectory(data, off + blockSize, groups[1..], blockSize, last, k - 1);
      assert blockSize + blockSize * (k - 1) == blockSize * k;
    }
  }

  lemma DirectoryHead(groups: seq<seq<Entry>>, blockSize: nat, last: nat)
    requires groups != [] && AllFit(groups, blockSize, last)
    requires |groups[0]| * DIRENT_SIZE + |Names(groups[0])| <= SizeOfBlock(|groups|, 0, blockSize, last)
    ensures AllFit(groups[1..], blockSize, last)
    ensures DirectoryBytes(groups, blockSize, last)
            == BlockBytes(groups[0], SizeOfBlock(|groups|, 0, blockSize, last))
               + DirectoryBytes(groups[1..], blockSize, last)
  {
    RestFits(groups, blockSize, last);
    hide BlockBytes;
  }

  lemma NextSize(n: nat, k: nat, blockSize: nat, last: nat)
    requires 0 < k < n
    ensures SizeOfBlock(n, 0, blockSize, last) == blockSize
    ensures SizeOfBlock(n - 1, k - 1, blockSize, last) == SizeOfBlock(n, k, blockSize, last)
  {
  }

  /** The inode's data is the directory of these groups. The offsets are those
      that Inode and the superblock allow: dirents are aligned. */
  ghost predicate Holds(img: Image, i: Inode, groups: seq<seq<Entry>>, last: nat) {
    && i.blockSize > 0 && i.blockSize % 4 == 0 && i.dataOff % 4 == 0 && i.inlineOff % 4 == 0
    && HasTail(i) && DataInside(img, i) && AllFit(groups, i.blockSize, last)
    && i.size == (if groups == [] then 0 else i.blockSize * (|groups| - 1) + last)
    && Data(img, i) == DirectoryBytes(groups, i.blockSize, last)
  }

  lemma AsManyBlocks(i: Inode, n: nat, last: nat)
    requires i.blockSize > 0 && 1 <= last <= i.blockSize
    requires i.size == if n == 0 then 0 else i.blockSize * (n - 1) + last
    ensures Blocks(i) == n
  {
    var d := i.blockSize;
    if n == 0 {
      NoBlocks(i);
    } else {
      assert d * n == d * (n - 1) + d;
      QuotientUnique(i.size + (d - 1), d, n, last - 1);
    }
  }

  lemma BlockSizes(i: Inode, n: nat, last: nat, k: nat)
    requires i.blockSize > 0 && HasTail(i) && 1 <= last <= i.blockSize && k < n
    requires i.size == i.blockSize * (n - 1) + last
    ensures Blocks(i) == n
    ensures BlockData(i, k).size == SizeOfBlock(n, k, i.blockSize, last)
  {
    AsManyBlocks(i, n, last);
    BlockPlace(i, k);
    hide Blocks;
    hide BlockData;
    hide HasTail;
    hide DataRanges;
    var d := i.blockSize;
    assert d * (k + 1) == d * k + d;
    if k + 1 == n { assert d * k == d * (n - 1); }
  }

  lemma BaseAligned(i: Inode, k: nat)
    requires i.blockSize > 0 && i.blockSize % 4 == 0 && i.dataOff % 4 == 0 && i.inlineOff % 4 == 0
    ensures BlockData(i, k).base % 4 == 0
  {
    var q := i.blockSize / 4;
    assert k * i.blockSize == 4 * (k * q);
    hide Blocks;
  }

  lemma FromSlice(img: Image, b: Block, data: Image, lo: nat, s: seq<Byte>)
    requires Inside(img, b) && lo + b.size <= |data| && Bytes(img, b) == data[lo..lo + b.size]
    requires At(data, lo, s) && |s| == b.size
    ensures At(img, b.base, s)
  {
  }

  lemma BlockWritten(img: Image, i: Inode, groups: seq<seq<Entry>>, last: nat, k: nat)
    requires Holds(img, i, groups, last) && k < |groups|
    ensures Blocks(i) == |groups| && BlockData(i, k).base % 4 == 0
    ensures Written(img, BlockData(i, k), groups[k])
  {
    BlockSizes(i, |groups|, last, k);
    BaseAligned(i, k);
    BlockIsSlice(img, i, k);
    var data, b := Data(img, i), BlockData(i, k);
    assert At(data, 0, data) by { assert data[0..0 + |data|] == data; }
    hide Blocks;
    hide BlockData;
    hide Data;
    hide BlockBytes;
    hide Fits;
    hide At;
    hide Bytes;
    GroupInDirectory(data, 0, groups, i.blockSize, last, k);
    hide AllFit;
    assert End(i, k) == i.blockSize * k + b.size;
    FromSlice(img, b, data, i.blockSize * k, BlockBytes(groups[k], b.size));
  }

  function Flattened(groups: seq<seq<Entry>>): seq<Entry> {
    if groups == [] then [] else groups[0] + Flattened(groups[1..])
  }

  lemma {:induction false} RestReadsBack(img: Image, i: Inode, groups: seq<seq<Entry>>, last: nat, k: nat)
    requires Holds(img, i, groups, last) && k <= |groups|
    ensures ScanFrom(img, i, k) == Scan(Flattened(groups[k..]), Ok(()))
    decreases |groups| - k
  {
    AsManyBlocks(i, |groups|, last);
    ScanFromStep(img, i, k);
    hide Holds;
    hide ScanFrom;
    hide ScanBlock;
    hide Written;
    hide BlockData;
    hide Dirent0;
    hide Blocks;
    if k < |groups| {
      BlockWritten(img, i, groups, last, k);
      FirstDirentReadsBack(img, BlockData(i, k), groups[k]);
      BlockReadsBack(img, BlockData(i, k), groups[k], 0);
      RestReadsBack(img, i, groups, last, k + 1);
      assert groups[k..][1..] == groups[k + 1..];
      assert groups[k][0..] == groups[k];
    }
  }

  /** A directory that was written from a list of entries, split into blocks in any
      way that fits and with or without an inline tail, is scanned back to the list. */
  lemma DirectoryReadsBack(img: Image, i: Inode, groups: seq<seq<Entry>>, last: nat)
    requires Holds(img, i, groups, last)
    ensures ScanFrom(img, i, 0) == Scan(Flattened(groups), Ok(()))
  {
    hide Holds;
    hide ScanFrom;
    RestReadsBack(img, i, groups, last, 0);
    assert groups[0..] == groups;
  }

  /** What Lookup answers on a directory written from sorted entries. */
  lemma WrittenIsFound(img: Image, i: Inode, groups: seq<seq<Entry>>, last: nat, name: Name, r: Result<nat>)
    requires Holds(img, i, groups, last) && StrictlySorted(Flattened(groups))
    ensures Sorted(img, i)
    ensures Agrees(img, i, name, r) ==> forall e <- Flattened(groups) | e.name == name :: r == Ok(e.nid)
    ensures Agrees(img, i, name, r) ==> (r == Err(ENOENT) <==> forall e <- Flattened(groups) :: e.name != name)
  {
    DirectoryReadsBack(img, i, groups, last);
    hide Holds;
    hide ScanFrom;
    if Agrees(img, i, name, r) {
      forall e <- Flattened(groups) | e.name == name
        ensures r == Ok(e.nid)
      {
        assert Finds(img, i, name, e.nid);
      }
    }
  }
}
