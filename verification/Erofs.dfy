/** Directory lookup of pkg/erofs: a two-level binary search on the raw bytes of
    an image, against the linear scan of IterDirents. */
module Erofs {

  type Byte = b: int | 0 <= b < 256
  type Image = seq<Byte>
  type Name = seq<Byte>

  datatype Errno = EFAULT | EUCLEAN | ENOENT | ENOTDIR | FAULT   // FAULT: an unchecked read past the image
  datatype Result<T> = Ok(value: T) | Err(error: Errno)

  const DIRENT_SIZE := 12
  const MAX_NAME_LEN := 255

  datatype Dirent = Dirent(nid: nat, nameOff: nat, fileType: Byte)
  datatype Entry = Entry(name: Name, fileType: Byte, nid: nat)
  datatype Block = Block(base: nat, size: nat)

  /** A directory inode: where its data is. inlineOff is 0 if it has no inline
      tail. */
  datatype Inode = Inode(isDir: bool, dataOff: nat, inlineOff: nat, size: nat, blockSize: nat)

  function Blocks(i: Inode): nat
    requires i.blockSize > 0
  {
    (i.size + (i.blockSize - 1)) / i.blockSize
  }

  /** getBlockDataInfo. */
  function BlockData(i: Inode, idx: nat): Block
    requires i.blockSize > 0
  {
    var last := idx == Blocks(i) - 1;
    var base := if !last || i.inlineOff == 0 then i.dataOff + idx * i.blockSize else i.inlineOff;
    var tail := i.size % i.blockSize;
    Block(base, if last && tail != 0 then tail else i.blockSize)
  }

  // ---------------------------------------------------------------------
  // Reading the image
  // ---------------------------------------------------------------------

  predicate InRange(img: Image, off: nat, n: nat) {
    off < |img| && off + n <= |img|
  }

  function U16(img: Image, off: nat): nat
    requires off + 2 <= |img|
  {
    (img[off] as nat) + 256 * (img[off + 1] as nat)
  }

  function U32(img: Image, off: nat): nat
    requires off + 4 <= |img|
  {
    U16(img, off) + 65536 * U16(img, off + 2)
  }

  function RawDirent(img: Image, off: nat): Dirent
    requires InRange(img, off, DIRENT_SIZE)
  {
    Dirent(U32(img, off) + 0x1_0000_0000 * U32(img, off + 4), U16(img, off + 8), img[off + 10])
  }

  /** direntAt. */
  function DirentAt(img: Image, off: nat): Result<Dirent> {
    if off % 4 != 0 || !InRange(img, off, DIRENT_SIZE) then Err(EFAULT) else Ok(RawDirent(img, off))
  }

  /** getDirent0. */
  function Dirent0(img: Image, b: Block): (r: Result<Dirent>)
    ensures r != Err(ENOENT)
  {
    var d := DirentAt(img, b.base);
    if d.Err? then d
    else if d.value.nameOff < DIRENT_SIZE || d.value.nameOff >= b.size then Err(EUCLEAN)
    else d
  }

  function UpToZero(s: Name): (r: Name)
    ensures |r| <= |s| && r == s[..|r|] && 0 !in r && (|r| < |s| ==> s[|r|] == 0)
  {
    if s == [] || s[0] == 0 then [] else [s[0]] + UpToZero(s[1..])
  }

  /** getDirentName for the dirent at off. */
  function DirentName(img: Image, off: nat, b: Block, last: bool): (r: Result<Name>)
    requires InRange(img, off, DIRENT_SIZE)
    ensures r != Err(ENOENT)
  {
    var nameOff := RawDirent(img, off).nameOff;
    if !last && !InRange(img, off + DIRENT_SIZE, DIRENT_SIZE) then Err(FAULT)
    else
      var nameEnd := if last then b.size else RawDirent(img, off + DIRENT_SIZE).nameOff;
      if nameOff >= nameEnd || nameEnd > b.size then Err(EUCLEAN)
      else if !InRange(img, b.base + nameOff, nameEnd - nameOff) then Err(EFAULT)
      else
        var bytes := img[b.base + nameOff..b.base + nameEnd];
        var name := if last then UpToZero(bytes) else bytes;
        if |name| == 0 || |name| > MAX_NAME_LEN then Err(EUCLEAN) else Ok(name)
  }

  /** A block that getDirent0 accepts has at least one dirent, and its dirents end
      before its names begin, inside the block. */
  lemma DirentsBeforeNames(img: Image, b: Block)
    requires Dirent0(img, b).Ok?
    ensures var d := Dirent0(img, b).value;
            && InRange(img, b.base, DIRENT_SIZE) && d == RawDirent(img, b.base)
            && 1 <= d.nameOff / DIRENT_SIZE && d.nameOff / DIRENT_SIZE * DIRENT_SIZE <= d.nameOff < b.size
  {
    hide RawDirent;
    var n := Dirent0(img, b).value.nameOff;
    assert n == n / DIRENT_SIZE * DIRENT_SIZE + n % DIRENT_SIZE;
  }

  /** A name that getDirentName returns has a legal length and stands in the block
      where its dirent says; the last one is cut at its padding. */
  lemma NameInBlock(img: Image, off: nat, b: Block, last: bool)
    requires InRange(img, off, DIRENT_SIZE) && DirentName(img, off, b, last).Ok?
    ensures var name, at := DirentName(img, off, b, last).value, RawDirent(img, off).nameOff;
            && 1 <= |name| <= MAX_NAME_LEN && at + |name| <= b.size && b.base + at + |name| <= |img|
            && name == img[b.base + at..b.base + at + |name|]
            && (if last then 0 !in name && (at + |name| < b.size ==> img[b.base + at + |name|] == 0)
                else InRange(img, off + DIRENT_SIZE, DIRENT_SIZE) &&
                     at + |name| == RawDirent(img, off + DIRENT_SIZE).nameOff)
  {
    hide RawDirent;
  }

  // ---------------------------------------------------------------------
  // The linear scan
  // ---------------------------------------------------------------------

  /** Dirent j of the n in a block, as the scan sees it. */
  function EntryAt(img: Image, b: Block, j: nat, n: nat): Result<Entry> {
    var off := b.base + j * DIRENT_SIZE;
    if !InRange(img, off, DIRENT_SIZE) then Err(FAULT)
    else
      var d := RawDirent(img, off);
      match DirentName(img, off, b, j == n - 1)
      case Err(e) => Err(e)
      case Ok(name) => Ok(Entry(name, d.fileType, d.nid))
  }

  /** What a scan visits, and the error that ends it early. */
  datatype Scan = Scan(visited: seq<Entry>, error: Result<()>)

  function ScanBlock(img: Image, b: Block, j: nat, n: nat): Scan
    decreases n - j
  {
    if j >= n then Scan([], Ok(()))
    else
      match EntryAt(img, b, j, n)
      case Err(e) => Scan([], Err(e))
      case Ok(x) =>
        var rest := ScanBlock(img, b, j + 1, n);
        Scan([x] + rest.visited, rest.error)
  }

  function ScanFrom(img: Image, i: Inode, idx: nat): Scan
    requires i.blockSize > 0
    decreases Blocks(i) - idx
  {
    if idx >= Blocks(i) then Scan([], Ok(()))
    else
      var b := BlockData(i, idx);
      match Dirent0(img, b)
      case Err(e) => Scan([], Err(e))
      case Ok(d) =>
        var s := ScanBlock(img, b, 0, d.nameOff / DIRENT_SIZE);
        if s.error.Err? then s
        else
          var rest := ScanFrom(img, i, idx + 1);
          Scan(s.visited + rest.visited, rest.error)
  }

  function Prefixed(before: seq<Entry>, s: Scan): Scan {
    Scan(before + s.visited, s.error)
  }

  lemma PrefixedTwice(a: seq<Entry>, b: seq<Entry>, s: Scan)
    ensures Prefixed(a, Prefixed(b, s)) == Prefixed(a + b, s)
  {
    assert a + (b + s.visited) == (a + b) + s.visited;
  }

  lemma ScanBlockStep(img: Image, b: Block, j: nat, n: nat)
    requires j < n
    ensures var x := EntryAt(img, b, j, n);
            ScanBlock(img, b, j, n) == if x.Err? then Scan([], Err(x.error))
              else Prefixed([x.value], ScanBlock(img, b, j + 1, n))
  {
  }

  /** The inner loop of IterDirents. */
  method IterBlock(img: Image, b: Block, n: nat) returns (s: Scan)
    ensures s == ScanBlock(img, b, 0, n)
  {
    hide ScanBlock;
    hide EntryAt;
    var visited: seq<Entry> := [];
    var j := 0;
    PrefixedNone(ScanBlock(img, b, 0, n));
    while j < n
      invariant 0 <= j <= n && ScanBlock(img, b, 0, n) == Prefixed(visited, ScanBlock(img, b, j, n))
      decreases n - j
    {
      ScanBlockStep(img, b, j, n);
      var x := EntryAt(img, b, j, n);
      if x.Err? {
        return Scan(visited, Err(x.error));
      }
      PrefixedTwice(visited, [x.value], ScanBlock(img, b, j + 1, n));
      visited := visited + [x.value];
      j := j + 1;
    }
    ScanBlockDone(img, b, n);
    return Scan(visited, Ok(()));
  }

  lemma PrefixedNone(s: Scan)
    ensures Prefixed([], s) == s
  {
  }

  lemma ScanBlockDone(img: Image, b: Block, n: nat)
    ensures ScanBlock(img, b, n, n) == Scan([], Ok(()))
  {
  }

  lemma ScanFromStep(img: Image, i: Inode, idx: nat)
    requires i.blockSize > 0
    ensures idx >= Blocks(i) ==> ScanFrom(img, i, idx) == Scan([], Ok(()))
    ensures idx < Blocks(i) ==>
              var b := BlockData(i, idx);
              var d0 := Dirent0(img, b);
              ScanFrom(img, i, idx) ==
                if d0.Err? then Scan([], Err(d0.error))
                else
                  var s := ScanBlock(img, b, 0, d0.value.nameOff / DIRENT_SIZE);
                  if s.error.Err? then s else Prefixed(s.visited, ScanFrom(img, i, idx + 1))
  {
  }

  /** IterDirents with a callback that collects what it is given. */
  method IterDirents(img: Image, i: Inode) returns (s: Scan)
    requires i.blockSize > 0
    ensures s == if i.isDir then ScanFrom(img, i, 0) else Scan([], Err(ENOTDIR))
  {
    hide ScanFrom;
    hide ScanBlock;
    hide Dirent0;
    if !i.isDir {
      return Scan([], Err(ENOTDIR));
    }
    var visited: seq<Entry> := [];
    PrefixedNone(ScanFrom(img, i, 0));
    var idx := 0;
    while idx < Blocks(i)
      invariant 0 <= idx <= Blocks(i) && ScanFrom(img, i, 0) == Prefixed(visited, ScanFrom(img, i, idx))
    {
      ScanFromStep(img, i, idx);
      var b := BlockData(i, idx);
      var d0 := Dirent0(img, b);
      if d0.Err? {
        return Scan(visited, Err(d0.error));
      }
      var t := IterBlock(img, b, d0.value.nameOff / DIRENT_SIZE);
      if t.error.Err? {
        return Prefixed(visited, t);
      }
      PrefixedTwice(visited, t.visited, ScanFrom(img, i, idx + 1));
      visited := visited + t.visited;
      idx := idx + 1;
    }
    ScanFromStep(img, i, idx);
    return Scan(visited, Ok(()));
  }

  // ---------------------------------------------------------------------
  // The order of names
  // ---------------------------------------------------------------------

  /** bytes.Compare. */
  function Compare(a: Name, b: Name): int {
    if a == [] && b == [] then 0
    else if a == [] then -1
    else if b == [] then 1
    else if a[0] < b[0] then -1
    else if a[0] > b[0] then 1
    else Compare(a[1..], b[1..])
  }

  lemma {:induction false} CompareOrder(a: Name, b: Name)
    ensures Compare(a, b) == 0 <==> a == b
    ensures Compare(b, a) == -Compare(a, b) && -1 <= Compare(a, b) <= 1
  {
    if a != [] && b != [] {
      CompareOrder(a[1..], b[1..]);
      if a[1..] == b[1..] && a[0] == b[0] { assert a == [a[0]] + a[1..] && b == [b[0]] + b[1..]; }
    }
  }

  lemma {:induction false} CompareTransitive(a: Name, b: Name, c: Name)
    requires Compare(a, b) < 0 && Compare(b, c) < 0
    ensures Compare(a, c) < 0
  {
    if a != [] && b != [] && c != [] && a[0] == b[0] == c[0] {
      CompareTransitive(a[1..], b[1..], c[1..]);
    }
  }

  /** The order is that of the first byte that differs; a proper prefix comes first. */
  lemma {:induction false} CompareAtFirstDifference(a: Name, b: Name, i: nat)
    requires i <= |a| && i < |b| && a[..i] == b[..i] && (i < |a| ==> a[i] < b[i])
    ensures Compare(a, b) == -1
  {
    if i > 0 {
      assert a[0] == a[..i][0] && b[0] == b[..i][0];
      assert a[1..][..i - 1] == a[..i][1..] && b[1..][..i - 1] == b[..i][1..];
      CompareAtFirstDifference(a[1..], b[1..], i - 1);
    }
  }

  predicate StrictlySorted(es: seq<Entry>) {
    forall i, j | 0 <= i < j < |es| :: Compare(es[i].name, es[j].name) < 0
  }

  // ---------------------------------------------------------------------
  // The scan as a table: block by block, dirent by dirent
  // ---------------------------------------------------------------------

  predicate Readable(img: Image, i: Inode)
    requires i.blockSize > 0
  {
    ScanFrom(img, i, 0).error.Ok?
  }

  /** The number of dirents in block idx. */
  function Dirents(img: Image, i: Inode, idx: nat): nat
    requires i.blockSize > 0
  {
    var d0 := Dirent0(img, BlockData(i, idx));
    if d0.Err? then 0 else d0.value.nameOff / DIRENT_SIZE
  }

  function Cell(img: Image, i: Inode, idx: nat, j: nat): Result<Entry>
    requires i.blockSize > 0
  {
    EntryAt(img, BlockData(i, idx), j, Dirents(img, i, idx))
  }

  /** Where the entries of block idx begin in the scan. */
  function Start(img: Image, i: Inode, idx: nat): nat
    requires i.blockSize > 0
  {
    if idx == 0 then 0 else Start(img, i, idx - 1) + Dirents(img, i, idx - 1)
  }

  lemma {:induction false} BlockScanned(img: Image, b: Block, j: nat, n: nat, k: nat)
    requires j <= k < n && ScanBlock(img, b, j, n).error.Ok?
    ensures |ScanBlock(img, b, j, n).visited| == n - j
    ensures EntryAt(img, b, k, n) == Ok(ScanBlock(img, b, j, n).visited[k - j])
    decreases n - j
  {
    hide EntryAt;
    hide ScanBlock;
    ScanBlockStep(img, b, j, n);
    if j + 1 < n {
      BlockScanned(img, b, j + 1, n, if k == j then j + 1 else k);
    } else {
      ScanBlockDone(img, b, n);
    }
  }

  /** The scan from block idx on is the rest of the whole scan. */
  lemma {:induction false} ScanRest(img: Image, i: Inode, idx: nat)
    requires i.blockSize > 0 && Readable(img, i) && idx <= Blocks(i)
    ensures ScanFrom(img, i, idx).error.Ok?
    ensures var all, rest := ScanFrom(img, i, 0).visited, ScanFrom(img, i, idx).visited;
            |all| == Start(img, i, idx) + |rest| && rest == all[Start(img, i, idx)..]
  {
    hide ScanBlock;
    hide Dirent0;
    if idx > 0 {
      ScanRest(img, i, idx - 1);
      FirstBlock(img, i, idx - 1);
    }
  }

  lemma FirstBlock(img: Image, i: Inode, idx: nat)
    requires i.blockSize > 0 && idx < Blocks(i) && ScanFrom(img, i, idx).error.Ok?
    ensures Dirent0(img, BlockData(i, idx)).Ok? && Dirents(img, i, idx) >= 1
    ensures var s, b := ScanFrom(img, i, idx), ScanBlock(img, BlockData(i, idx), 0, Dirents(img, i, idx));
            && b.error.Ok? && |b.visited| == Dirents(img, i, idx)
              && s.visited == b.visited + ScanFrom(img, i, idx + 1).visited
            && ScanFrom(img, i, idx + 1).error.Ok?
  {
    ScanFromStep(img, i, idx);
    BlockScanned(img, BlockData(i, idx), 0, Dirents(img, i, idx), 0);
  }

  /** Every cell of the table is an entry of the scan. */
  lemma CellScanned(img: Image, i: Inode, idx: nat, j: nat)
    requires i.blockSize > 0 && Readable(img, i) && idx < Blocks(i) && j < Dirents(img, i, idx)
    ensures var all := ScanFrom(img, i, 0).visited;
            Start(img, i, idx) + j < |all| && Cell(img, i, idx, j) == Ok(all[Start(img, i, idx) + j])
  {
    hide ScanFrom;
    hide ScanBlock;
    ScanRest(img, i, idx);
    FirstBlock(img, i, idx);
    BlockScanned(img, BlockData(i, idx), 0, Dirents(img, i, idx), j);
  }

  lemma {:induction false} StartMonotone(img: Image, i: Inode, idx: nat, idx': nat)
    requires i.blockSize > 0 && idx < idx'
    ensures Start(img, i, idx) + Dirents(img, i, idx) <= Start(img, i, idx')
  {
    if idx + 1 < idx' { StartMonotone(img, i, idx, idx' - 1); }
  }

  /** Every entry of the scan is a cell of the table. */
  lemma {:induction false} EntryInTable(img: Image, i: Inode, k: nat, idx: nat) returns (at: nat, j: nat)
    requires i.blockSize > 0 && Readable(img, i) && idx <= Blocks(i)
    requires k < |ScanFrom(img, i, 0).visited| && k >= Start(img, i, idx)
    ensures at < Blocks(i) && j < Dirents(img, i, at) && k == Start(img, i, at) + j
    decreases Blocks(i) - idx
  {
    hide ScanFrom;
    hide Dirents;
    ScanRest(img, i, idx);
    ScanFromStep(img, i, idx);
    if k < Start(img, i, idx) + Dirents(img, i, idx) {
      return idx, k - Start(img, i, idx);
    }
    at, j := EntryInTable(img, i, k, idx + 1);
  }

  // ---------------------------------------------------------------------
  // Lookup
  // ---------------------------------------------------------------------

  /** What Lookup reads of a cell is what the scan reads. */
  lemma CellReads(img: Image, i: Inode, idx: nat, j: nat)
    requires i.blockSize > 0 && Readable(img, i) && idx < Blocks(i) && j < Dirents(img, i, idx)
    ensures var b, c := BlockData(i, idx), Cell(img, i, idx, j);
            var off := b.base + j * DIRENT_SIZE;
            && c.Ok? && DirentAt(img, off).Ok? && DirentAt(img, off).value.nid == c.value.nid
              && InRange(img, off, DIRENT_SIZE)
            && DirentName(img, off, b, j == Dirents(img, i, idx) - 1) == Ok(c.value.name)
  {
    hide DirentName;
    hide ScanFrom;
    hide RawDirent;
    hide BlockData;
    CellScanned(img, i, idx, j);
    FirstBlockOf(img, i, idx);
    Aligned(BlockData(i, idx).base, j);
  }

  lemma Aligned(base: nat, j: nat)
    requires base % 4 == 0
    ensures (base + j * DIRENT_SIZE) % 4 == 0
  {
  }

  lemma FirstBlockOf(img: Image, i: Inode, idx: nat)
    requires i.blockSize > 0 && Readable(img, i) && idx < Blocks(i)
    ensures Dirent0(img, BlockData(i, idx)).Ok? && Dirents(img, i, idx) >= 1
  {
    ScanRest(img, i, idx);
    FirstBlock(img, i, idx);
  }

  /** The name in a cell, of a directory that can be read. */
  ghost function NameAt(img: Image, i: Inode, idx: nat, j: nat): Name
    requires i.blockSize > 0 && Readable(img, i) && idx < Blocks(i) && j < Dirents(img, i, idx)
  {
    CellReads(img, i, idx, j);
    Cell(img, i, idx, j).value.name
  }

  ghost predicate Sorted(img: Image, i: Inode)
    requires i.blockSize > 0
  {
    Readable(img, i) && StrictlySorted(ScanFrom(img, i, 0).visited)
  }

  predicate Precedes(idx: nat, j: nat, idx': nat, j': nat) {
    idx < idx' || (idx == idx' && j < j')
  }

  lemma CellsSorted(img: Image, i: Inode, idx: nat, j: nat, idx': nat, j': nat)
    requires i.blockSize > 0 && Sorted(img, i) && Precedes(idx, j, idx', j')
    requires idx < Blocks(i) && j < Dirents(img, i, idx) && idx' < Blocks(i) && j' < Dirents(img, i, idx')
    ensures Compare(NameAt(img, i, idx, j), NameAt(img, i, idx', j')) < 0
  {
    hide ScanFrom;
    hide Cell;
    hide Compare;
    CellScanned(img, i, idx, j);
    CellScanned(img, i, idx', j');
    if idx < idx' { StartMonotone(img, i, idx, idx'); }
  }

  ghost predicate HasName(img: Image, i: Inode, name: Name)
    requires i.blockSize > 0
  {
    exists e <- ScanFrom(img, i, 0).visited :: e.name == name
  }

  /** The name is not the one in this cell. */
  ghost predicate Excluded(img: Image, i: Inode, name: Name, idx: nat, j: nat)
    requires i.blockSize > 0 && Readable(img, i) && idx < Blocks(i) && j < Dirents(img, i, idx)
  {
    NameAt(img, i, idx, j) != name
  }

  lemma AbsentIfExcluded(img: Image, i: Inode, name: Name)
    requires i.blockSize > 0 && Readable(img, i)
    requires forall idx: nat, j: nat | idx < Blocks(i) && j < Dirents(img, i, idx) :: Excluded(img, i, name, idx, j)
    ensures !HasName(img, i, name)
  {
    hide ScanFrom;
    hide Cell;
    var all := ScanFrom(img, i, 0).visited;
    forall e <- all
      ensures e.name != name
    {
      var k :| 0 <= k < |all| && all[k] == e;
      var idx, j := EntryInTable(img, i, k, 0);
      CellScanned(img, i, idx, j);
      assert Excluded(img, i, name, idx, j);
    }
  }

  ghost predicate Finds(img: Image, i: Inode, name: Name, nid: nat)
    requires i.blockSize > 0
  {
    exists e <- ScanFrom(img, i, 0).visited :: e.name == name && e.nid == nid
  }

  lemma FoundInCell(img: Image, i: Inode, idx: nat, j: nat)
    requires i.blockSize > 0 && Readable(img, i) && idx < Blocks(i) && j < Dirents(img, i, idx)
    ensures Cell(img, i, idx, j).Ok?
    ensures Finds(img, i, Cell(img, i, idx, j).value.name, Cell(img, i, idx, j).value.nid)
  {
    hide ScanFrom;
    hide Cell;
    CellScanned(img, i, idx, j);
  }

  /** The search over the blocks. Without a hit, t is the last block whose
      first name is smaller, plus one. */
  method FindBlock(img: Image, i: Inode, name: Name) returns (hit: Result<nat>, target: Block, n: nat, ghost t: nat)
    requires i.blockSize > 0
    ensures hit == Err(ENOENT) && target.base > 0 ==> n >= 1 && t >= 1
    ensures Readable(img, i) && hit.Ok? ==> Finds(img, i, name, hit.value)
    ensures Readable(img, i) && hit.Err? ==>
              && hit.error == ENOENT && t <= Blocks(i)
              && if t == 0 then target == Block(0, 0)
                else target == BlockData(i, t - 1) && n == Dirents(img, i, t - 1) >= 1
    ensures Sorted(img, i) && hit.Err? ==>
              && (t > 0 ==> Compare(name, NameAt(img, i, t - 1, 0)) > 0)
              && (t < Blocks(i) ==> Dirents(img, i, t) >= 1 && Compare(name, NameAt(img, i, t, 0)) < 0)
  {
    hide ScanFrom;
    hide StrictlySorted;
    hide Cell;
    hide Compare;
    hide DirentName;
    hide Finds;
    hide BlockData;
    hide Readable;
    target, n := Block(0, 0), 0;
    var left, right := 0, Blocks(i) - 1;
    while left <= right
      invariant 0 <= left <= right + 1 <= Blocks(i)
      invariant (left == 0 ==> target == Block(0, 0)) && (target.base > 0 ==> n >= 1 && left >= 1)
      invariant Readable(img, i) && left > 0 ==>
                  target == BlockData(i, left - 1) && n == Dirents(img, i, left - 1) >= 1
      invariant Sorted(img, i) && left > 0 ==> Compare(name, NameAt(img, i, left - 1, 0)) > 0
      invariant Sorted(img, i) && right + 1 < Blocks(i) ==>
                  Dirents(img, i, right + 1) >= 1 && Compare(name, NameAt(img, i, right + 1, 0)) < 0
      decreases right + 1 - left
    {
      var mid := (left + right) / 2;
      if Readable(img, i) {
        FirstBlockOf(img, i, mid);
        CellReads(img, i, mid, 0);
        FoundInCell(img, i, mid, 0);
      }
      var b := BlockData(i, mid);
      var d0 := Dirent0(img, b);
      if d0.Err? {
        return Err(d0.error), target, n, 0;
      }
      var count := d0.value.nameOff / DIRENT_SIZE;
      var d0Name := DirentName(img, b.base, b, count == 1);
      if d0Name.Err? {
        return Err(d0Name.error), target, n, 0;
      }
      CompareOrder(name, d0Name.value);
      var c := Compare(name, d0Name.value);
      if c == 0 {
        return Ok(d0.value.nid), target, n, 0;
      } else if c == 1 {
        target, n := b, count;
        left := mid + 1;
      } else {
        right := mid - 1;
      }
    }
    return Err(ENOENT), target, n, left;
  }

  /** The search over the dirents of one block, the first of which is known to
      be smaller. */
  method FindDirent(img: Image, i: Inode, name: Name, target: Block, n: nat, ghost t: nat) returns (hit: Result<nat>)
    requires i.blockSize > 0 && n >= 1
    requires Readable(img, i) ==> t < Blocks(i) && target == BlockData(i, t) && n == Dirents(img, i, t)
    ensures Readable(img, i) && hit.Ok? ==> Finds(img, i, name, hit.value)
    ensures Readable(img, i) && hit.Err? ==> hit.error == ENOENT
    ensures Sorted(img, i) && hit.Err? ==> forall j: nat | 1 <= j < n :: Excluded(img, i, name, t, j)
  {
    hide ScanFrom;
    hide StrictlySorted;
    hide Cell;
    hide Compare;
    hide DirentName;
    hide RawDirent;
    hide Finds;
    hide BlockData;
    var left, right := 1, n - 1;
    while left <= right
      invariant 1 <= left <= right + 1 <= n
      invariant Sorted(img, i) ==> forall j: nat | 1 <= j < left :: Excluded(img, i, name, t, j)
      invariant Sorted(img, i) ==> forall j: nat | right < j < n :: Excluded(img, i, name, t, j)
      decreases right + 1 - left
    {
      var mid := (left + right) / 2;
      ghost var sorted := Sorted(img, i);
      if Readable(img, i) {
        CellReads(img, i, t, mid);
        FoundInCell(img, i, t, mid);
      }
      var d := DirentAt(img, target.base + mid * DIRENT_SIZE);
      if d.Err? {
        return Err(d.error);
      }
      var dName := DirentName(img, target.base + mid * DIRENT_SIZE, target, mid == n - 1);
      if dName.Err? {
        return Err(dName.error);
      }
      CompareOrder(name, dName.value);
      var c := Compare(name, dName.value);
      if c == 0 {
        return Ok(d.value.nid);
      } else if c == 1 {
        if sorted { ExcludeBelow(img, i, name, t, mid); }
        left := mid + 1;
      } else {
        if sorted { ExcludeAbove(img, i, name, t, mid); }
        right := mid - 1;
      }
    }
    return Err(ENOENT);
  }

  /** A name larger than that of a cell is in no cell up to it. */
  lemma ExcludeBelow(img: Image, i: Inode, name: Name, idx: nat, j: nat)
    requires i.blockSize > 0 && Sorted(img, i) && idx < Blocks(i) && j < Dirents(img, i, idx)
    requires Compare(name, NameAt(img, i, idx, j)) > 0
    ensures forall idx': nat, j': nat | idx' < Blocks(i) && j' < Dirents(img, i, idx') && !Precedes(idx, j, idx', j') ::
              Excluded(img, i, name, idx', j')
  {
    hide ScanFrom;
    hide Cell;
    hide Compare;
    CompareOrder(name, NameAt(img, i, idx, j));
    forall idx': nat, j': nat | idx' < Blocks(i) && j' < Dirents(img, i, idx') && !Precedes(idx, j, idx', j')
      ensures Excluded(img, i, name, idx', j')
    {
      if idx' != idx || j' != j {
        CellsSorted(img, i, idx', j', idx, j);
        CompareTransitive(NameAt(img, i, idx', j'), NameAt(img, i, idx, j), name);
        CompareOrder(NameAt(img, i, idx', j'), name);
      }
    }
  }

  /** A name smaller than that of a cell is in no cell from it on. */
  lemma ExcludeAbove(img: Image, i: Inode, name: Name, idx: nat, j: nat)
    requires i.blockSize > 0 && Sorted(img, i) && idx < Blocks(i) && j < Dirents(img, i, idx)
    requires Compare(name, NameAt(img, i, idx, j)) < 0
    ensures forall idx': nat, j': nat | idx' < Blocks(i) && j' < Dirents(img, i, idx') && !Precedes(idx', j', idx, j) ::
              Excluded(img, i, name, idx', j')
  {
    hide ScanFrom;
    hide Cell;
    hide Compare;
    CompareOrder(name, NameAt(img, i, idx, j));
    forall idx': nat, j': nat | idx' < Blocks(i) && j' < Dirents(img, i, idx') && !Precedes(idx', j', idx, j)
      ensures Excluded(img, i, name, idx', j')
    {
      if idx' != idx || j' != j {
        CellsSorted(img, i, idx, j, idx', j');
        CompareTransitive(name, NameAt(img, i, idx, j), NameAt(img, i, idx', j'));
        CompareOrder(name, NameAt(img, i, idx', j'));
      }
    }
  }

  /** In a directory that the linear scan reads to the end and finds strictly
      sorted, and none of whose blocks lies at offset zero, the binary search
      returns an inode number exactly when the scan visits that name with that
      number, and ENOENT exactly when it does not visit the name. Even if it is
      not sorted, a number it returns is one that the scan visits with the name,
      and it fails only with ENOENT. */
  method Lookup(img: Image, i: Inode, name: Name) returns (r: Result<nat>)
    requires i.blockSize > 0
    ensures !i.isDir ==> r == Err(ENOTDIR)
    ensures i.isDir && Readable(img, i) ==> if r.Ok? then Finds(img, i, name, r.value) else r.error == ENOENT
    ensures i.isDir && Sorted(img, i) && BasesNonzero(i) ==> Agrees(img, i, name, r)
  {
    hide Agrees;
    hide ScanFrom;
    hide StrictlySorted;
    hide BlockData;
    hide Finds;
    hide Excluded;
    hide Cell;
    hide Compare;
    hide Readable;
    hide Dirents;
    hide NameAt;
    if !i.isDir {
      return Err(ENOTDIR);
    }
    var hit, target, n, t := FindBlock(img, i, name);
    if hit != Err(ENOENT) {
      HitAgrees(img, i, name, hit);
      return hit;
    }
    if t == 0 { BelowAgrees(img, i, name); }
    if target.base == 0 {
      return Err(ENOENT);
    }
    r := LookupIn(img, i, name, target, n, t - 1);
  }

  /** The rest of Lookup once the block is found. */
  method LookupIn(img: Image, i: Inode, name: Name, target: Block, n: nat, ghost t: nat) returns (r: Result<nat>)
    requires i.blockSize > 0 && n >= 1
    requires Readable(img, i) ==> t < Blocks(i) && target == BlockData(i, t) && n == Dirents(img, i, t)
    requires Sorted(img, i) ==>
               && Compare(name, NameAt(img, i, t, 0)) > 0
               && (t + 1 < Blocks(i) ==> Dirents(img, i, t + 1) >= 1 && Compare(name, NameAt(img, i, t + 1, 0)) < 0)
    ensures Readable(img, i) ==> if r.Ok? then Finds(img, i, name, r.value) else r.error == ENOENT
    ensures Sorted(img, i) ==> Agrees(img, i, name, r)
  {
    hide Agrees;
    hide ScanFrom;
    hide StrictlySorted;
    hide BlockData;
    hide Finds;
    hide Excluded;
    hide Cell;
    hide Compare;
    hide Readable;
    hide Dirents;
    hide NameAt;
    r := FindDirent(img, i, name, target, n, t);
    if r.Ok? {
      HitAgrees(img, i, name, r);
    } else if Sorted(img, i) {
      AbsentBetween(img, i, name, t);
    }
  }

  lemma HitAgrees(img: Image, i: Inode, name: Name, hit: Result<nat>)
    requires i.blockSize > 0
    ensures Sorted(img, i) && hit.Ok? && Finds(img, i, name, hit.value) ==> Agrees(img, i, name, hit)
  {
    if Sorted(img, i) && hit.Ok? && Finds(img, i, name, hit.value) { FindsOnce(img, i, name, hit.value); }
  }

  lemma BelowAgrees(img: Image, i: Inode, name: Name)
    requires i.blockSize > 0
    ensures Sorted(img, i) && (Blocks(i) > 0 ==> Dirents(img, i, 0) >= 1 && Compare(name, NameAt(img, i, 0, 0)) < 0) ==>
              Agrees(img, i, name, Err(ENOENT))
  {
    if Sorted(img, i) && (Blocks(i) > 0 ==> Dirents(img, i, 0) >= 1 && Compare(name, NameAt(img, i, 0, 0)) < 0) {
      AbsentBelow(img, i, name);
    }
  }

  /** The answer of the linear scan. */
  ghost predicate Agrees(img: Image, i: Inode, name: Name, r: Result<nat>)
    requires i.blockSize > 0
  {
    && (forall nid: nat :: r == Ok(nid) <==> Finds(img, i, name, nid))
    && (r == Err(ENOENT) <==> !HasName(img, i, name))
  }

  predicate BasesNonzero(i: Inode)
    requires i.blockSize > 0
  {
    forall idx: nat | idx < Blocks(i) :: BlockData(i, idx).base > 0
  }

  /** What is found is found once. */
  lemma FindsOnce(img: Image, i: Inode, name: Name, nid: nat)
    requires i.blockSize > 0 && Sorted(img, i) && Finds(img, i, name, nid)
    ensures Agrees(img, i, name, Ok(nid))
  {
    hide ScanFrom;
    var all := ScanFrom(img, i, 0).visited;
    CompareOrder(name, name);
    forall other: nat | Finds(img, i, name, other)
      ensures other == nid
    {
      var a :| 0 <= a < |all| && all[a].name == name && all[a].nid == nid;
      var b :| 0 <= b < |all| && all[b].name == name && all[b].nid == other;
      assert a == b;
    }
  }

  lemma AbsentNotFound(img: Image, i: Inode, name: Name)
    requires i.blockSize > 0 && !HasName(img, i, name)
    ensures forall nid: nat :: !Finds(img, i, name, nid)
  {
    hide ScanFrom;
  }

  /** Smaller than the first name of all. */
  lemma AbsentBelow(img: Image, i: Inode, name: Name)
    requires i.blockSize > 0 && Sorted(img, i)
    requires Blocks(i) > 0 ==> Dirents(img, i, 0) >= 1 && Compare(name, NameAt(img, i, 0, 0)) < 0
    ensures Agrees(img, i, name, Err(ENOENT))
  {
    hide ScanFrom;
    hide HasName;
    hide Finds;
    hide Excluded;
    if Blocks(i) > 0 { ExcludeAbove(img, i, name, 0, 0); }
    AbsentIfExcluded(img, i, name);
    AbsentNotFound(img, i, name);
  }

  /** Between the first names of two neighbouring blocks, and not in the first
      of them. */
  lemma AbsentBetween(img: Image, i: Inode, name: Name, t: nat)
    requires i.blockSize > 0 && Sorted(img, i) && t < Blocks(i) && Dirents(img, i, t) >= 1
    requires Compare(name, NameAt(img, i, t, 0)) > 0
    requires forall j: nat | 1 <= j < Dirents(img, i, t) :: Excluded(img, i, name, t, j)
    requires t + 1 < Blocks(i) ==> Dirents(img, i, t + 1) >= 1 && Compare(name, NameAt(img, i, t + 1, 0)) < 0
    ensures Agrees(img, i, name, Err(ENOENT))
  {
    hide ScanFrom;
    hide HasName;
    hide Finds;
    hide Excluded;
    ExcludeBelow(img, i, name, t, 0);
    if t + 1 < Blocks(i) { ExcludeAbove(img, i, name, t + 1, 0); }
    forall idx: nat, j: nat | idx < Blocks(i) && j < Dirents(img, i, idx)
      ensures Excluded(img, i, name, idx, j)
    {
      assert idx < t || (idx == t && j == 0) ==> !Precedes(t, 0, idx, j);
      assert idx > t ==> !Precedes(idx, j, t + 1, 0);
    }
    AbsentIfExcluded(img, i, name);
    AbsentNotFound(img, i, name);
  }
}
