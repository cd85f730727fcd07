/** Files as trees of blocks (fs/inode.c, fs/bitmap.c) and as byte sequences. */
module FileSpec {
  import opened Counting

  const BLOCK_SIZE: nat := 1024
  const ENTRIES: nat := 512
  const MAX_BLOCKS: nat := 7 + 512 + 512 * 512

  type Byte = x: int | 0 <= x < 256

  /** The zone numbers of an inode: seven direct, one indirect, one double indirect. */
  datatype Inode = Inode(zone: seq<nat>, size: nat)

  /** A device: its block bitmap, the contents of its blocks read as bytes and as zone numbers, and the
      inodes.  Bit j stands for block j + first - 1. */
  datatype Fs = Fs(first: nat, nzones: nat, bits: seq<bool>, data: seq<seq<Byte>>, table: seq<seq<nat>>, inodes: seq<Inode>)

  /** A place that holds a block number: a zone of an inode, or an entry of the block at another place. */
  datatype Pos = Root(ino: nat, k: nat) | Child(parent: Pos, j: nat)

  predicate ValidPos(fs: Fs, p: Pos) {
    match p
    case Root(ino, k) => ino < |fs.inodes| && k < 9
    case Child(Root(ino, k), j) => ino < |fs.inodes| && (k == 7 || k == 8) && j < ENTRIES
    case Child(Child(Root(ino, k), m), j) => ino < |fs.inodes| && k == 8 && m < ENTRIES && j < ENTRIES
    case _ => false
  }

  function Entry(fs: Fs, b: nat, j: nat): nat {
    if b != 0 && b < |fs.table| && j < |fs.table[b]| then fs.table[b][j] else 0
  }

  /** The block at a place, 0 if there is none. */
  function BlockAt(fs: Fs, p: Pos): nat {
    match p
    case Root(ino, k) => if ino < |fs.inodes| && k < |fs.inodes[ino].zone| then fs.inodes[ino].zone[k] else 0
    case Child(q, j) => Entry(fs, BlockAt(fs, q), j)
  }

  function OwnerOf(p: Pos): nat {
    match p
    case Root(ino, _) => ino
    case Child(q, _) => OwnerOf(q)
  }

  predicate InUse(fs: Fs, b: nat) {
    fs.first <= b < fs.nzones && b + 1 - fs.first < |fs.bits| && fs.bits[b + 1 - fs.first]
  }

  ghost predicate Shaped(fs: Fs) {
    && 0 < fs.first <= fs.nzones && |fs.data| == |fs.table| == fs.nzones
    && (forall b | 0 <= b < |fs.data| :: |fs.data[b]| == BLOCK_SIZE)
    && (forall b | 0 <= b < |fs.table| :: |fs.table[b]| == ENTRIES)
    && (forall i | 0 <= i < |fs.inodes| :: |fs.inodes[i].zone| == 9 && fs.inodes[i].size <= MAX_BLOCKS * BLOCK_SIZE)
    && 0 < |fs.bits| && fs.bits[0]
  }

  /** The trees of all inodes are disjoint and their blocks are marked used. */
  ghost predicate Forest(fs: Fs) {
    && (forall p | ValidPos(fs, p) && BlockAt(fs, p) != 0 :: InUse(fs, BlockAt(fs, p)))
    && forall p, q | ValidPos(fs, p) && ValidPos(fs, q) && BlockAt(fs, p) != 0 && BlockAt(fs, p) == BlockAt(fs, q) :: p == q
  }

  // ----- a file as bytes

  /** The place of a file's n-th block. */
  function Leaf(ino: nat, n: nat): Pos {
    if n < 7 then Root(ino, n)
    else if n < 7 + 512 then Child(Root(ino, 7), n - 7)
    else Child(Child(Root(ino, 8), (n - 519) / 512), (n - 519) % 512)
  }

  /** The place of the block that byte x of a file is in. */
  function LeafOf(ino: nat, x: nat): Pos { Leaf(ino, x / BLOCK_SIZE) }

  /** Byte o of a block, zero in a hole. */
  function ByteOf(fs: Fs, b: nat, o: nat): Byte {
    if b != 0 && b < |fs.data| && o < |fs.data[b]| then fs.data[b][o] else 0
  }

  function ByteAt(fs: Fs, ino: nat, pos: nat): Byte { ByteOf(fs, BlockAt(fs, Leaf(ino, pos / BLOCK_SIZE)), pos % BLOCK_SIZE) }

  /** Nothing is stored beyond the end of a file. */
  ghost predicate CleanTails(fs: Fs) {
    forall i, pos | 0 <= i < |fs.inodes| && fs.inodes[i].size <= pos < MAX_BLOCKS * BLOCK_SIZE :: ByteAt(fs, i, pos) == 0
  }

  ghost predicate Inv(fs: Fs) { Shaped(fs) && Forest(fs) && CleanTails(fs) }

  function Contents(fs: Fs, ino: nat): (s: seq<Byte>)
    requires ino < |fs.inodes|
    ensures |s| == fs.inodes[ino].size
  {
    seq(fs.inodes[ino].size, pos requires 0 <= pos => ByteAt(fs, ino, pos))
  }

  /** Writing into a plain byte sequence; a gap is filled with zeros. */
  function WriteAt(s: seq<Byte>, pos: nat, buf: seq<Byte>): seq<Byte> {
    if buf == [] then s
    else if |s| <= pos then s + seq(pos - |s|, _ => 0) + buf
    else if |s| <= pos + |buf| then s[..pos] + buf
    else s[..pos] + buf + s[pos + |buf|..]
  }

  lemma LeafValid(fs: Fs, ino: nat, n: nat)
    requires ino < |fs.inodes| && n < MAX_BLOCKS
    ensures ValidPos(fs, Leaf(ino, n)) && OwnerOf(Leaf(ino, n)) == ino
  {
    if n >= 519 { assert OwnerOf(Child(Root(ino, 8), (n - 519) / 512)) == ino; }
  }

  /** The way down a tree to a place: its zone, its entry there, and its entry in that. */
  function Way(p: Pos): seq<nat> {
    match p
    case Root(_, k) => [k]
    case Child(q, j) => Way(q) + [j]
  }

  predicate Left(a: seq<nat>, b: seq<nat>) {
    a != [] && b != [] && (a[0] < b[0] || (a[0] == b[0] && Left(a[1..], b[1..])))
  }

  /** A place for data: a direct zone, or an entry of the block in zone 7 or of a block in the block in zone 8. */
  predicate ForData(p: Pos) {
    match p
    case Root(_, k) => k < 7
    case Child(Root(_, k), j) => k == 7 && j < ENTRIES
    case Child(Child(Root(_, k), m), j) => k == 8 && m < ENTRIES && j < ENTRIES
    case _ => false
  }

  /** A file's blocks are the places for data of its tree, from left to right, */
  lemma LeafOrder(ino: nat, n: nat, n': nat)
    requires n < n' < MAX_BLOCKS
    ensures ForData(Leaf(ino, n)) && ForData(Leaf(ino, n')) && Left(Way(Leaf(ino, n)), Way(Leaf(ino, n')))
  {
    WayIs(ino, n);
    WayIs(ino, n');
    var a, b := Way(Leaf(ino, n)), Way(Leaf(ino, n'));
    if a[0] == b[0] && 1 < |a| && 1 < |b| {
      assert a[1..][0] == a[1] && b[1..][0] == b[1];
      if a[1] == b[1] && 2 < |a| && 2 < |b| { assert a[1..][1..][0] == a[2] && b[1..][1..][0] == b[2]; }
    }
  }

  lemma WayIs(ino: nat, n: nat)
    requires n < MAX_BLOCKS
    ensures ForData(Leaf(ino, n))
    ensures Way(Leaf(ino, n)) == if n < 7 then [n] else if n < 519 then [7, n - 7] else [8, (n - 519) / 512, (n - 519) % 512]
  {
    if n >= 519 {
      var q := Child(Root(ino, 8), (n - 519) / 512);
      assert Way(q) == [8, (n - 519) / 512];
    } else if n >= 7 {
      assert Way(Root(ino, 7)) == [7];
    }
  }

  /** and all of them. */
  lemma LeafOnto(p: Pos)
    requires ForData(p)
    ensures exists n :: 0 <= n < MAX_BLOCKS && Leaf(OwnerOf(p), n) == p
  {
    match p {
      case Root(ino, k) => assert Leaf(OwnerOf(p), k) == p;
      case Child(Root(ino, k), j) => assert Leaf(ino, 7 + j) == p && OwnerOf(p) == OwnerOf(p.parent);
      case Child(Child(Root(ino, k), m), j) =>
        assert (512 * m + j) / 512 == m && (512 * m + j) % 512 == j;
        assert Leaf(ino, 519 + 512 * m + j) == p && OwnerOf(p) == OwnerOf(p.parent) == OwnerOf(p.parent.parent);
    }
  }

  /** The bytes of a file by the numbers in its inode and in the blocks these name. */
  lemma ByteIs(fs: Fs, ino: nat, pos: nat)
    requires Inv(fs) && ino < |fs.inodes| && pos < MAX_BLOCKS * BLOCK_SIZE
    ensures Numbered(fs, {}, ino, pos / 1024, BlockAt(fs, LeafOf(ino, pos)))
    ensures var b := BlockAt(fs, LeafOf(ino, pos));
            b < fs.nzones && ByteAt(fs, ino, pos) == if b == 0 then 0 else fs.data[b][pos % 1024]
  {
    LeafValid(fs, ino, pos / 1024);
    assert ValidPos(fs, LeafOf(ino, pos));
    NumberedIs(fs, {}, ino, pos / 1024);
    SeenIs(fs, {}, LeafOf(ino, pos));
    UncutWhole(fs, LeafOf(ino, pos));
  }

  lemma LeafCases(ino: nat, n: nat)
    ensures n < 7 ==> Leaf(ino, n) == Root(ino, n)
    ensures 7 <= n < 519 ==> Leaf(ino, n) == Child(Root(ino, 7), n - 7)
    ensures 519 <= n ==> Leaf(ino, n) == Child(Child(Root(ino, 8), (n - 519) / 512), (n - 519) % 512)
  {
  }

  lemma LeafInjective(i: nat, n: nat, i': nat, n': nat)
    requires Leaf(i, n) == Leaf(i', n')
    ensures i == i' && n == n'
  {
  }

  // ----- hanging a new block into a tree

  function ZeroBlock(): (z: seq<Byte>)
    ensures |z| == BLOCK_SIZE
  {
    seq(BLOCK_SIZE, _ => 0)
  }

  function ZeroTable(): (z: seq<nat>)
    ensures |z| == ENTRIES
  {
    seq(ENTRIES, _ => 0)
  }

  /** Block b is marked used and cleared. */
  function Taken(fs: Fs, b: nat): Fs
    requires Shaped(fs) && fs.first <= b < fs.nzones && b + 1 - fs.first < |fs.bits|
  {
    Fs(fs.first, fs.nzones, fs.bits[b + 1 - fs.first := true], fs.data[b := ZeroBlock()], fs.table[b := ZeroTable()], fs.inodes)
  }

  function SetEntry(t: seq<nat>, j: nat, b: nat): seq<nat>
    requires j < |t|
  {
    t[j := b]
  }

  /** Block number b is stored at place p. */
  function Stored(fs: Fs, p: Pos, b: nat): Fs
    requires Shaped(fs) && ValidPos(fs, p) && (p.Child? ==> BlockAt(fs, p.parent) < fs.nzones)
  {
    match p
    case Root(ino, k) =>
      Fs(fs.first, fs.nzones, fs.bits, fs.data, fs.table,
         fs.inodes[ino := Inode(SetEntry(fs.inodes[ino].zone, k, b), fs.inodes[ino].size)])
    case Child(q, j) =>
      Fs(fs.first, fs.nzones, fs.bits, fs.data, fs.table[BlockAt(fs, q) := SetEntry(fs.table[BlockAt(fs, q)], j, b)], fs.inodes)
  }

  predicate MayHang(fs: Fs, p: Pos, b: nat)
    requires Shaped(fs)
  {
    && ValidPos(fs, p) && BlockAt(fs, p) == 0 && (p.Child? ==> ValidPos(fs, p.parent) && BlockAt(fs, p.parent) != 0)
    && fs.first <= b < fs.nzones && b + 1 - fs.first < |fs.bits| && !fs.bits[b + 1 - fs.first]
  }

  lemma MayStore(fs: Fs, p: Pos, b: nat)
    requires Inv(fs) && MayHang(fs, p, b)
    ensures Shaped(Taken(fs, b)) && ValidPos(Taken(fs, b), p)
    ensures p.Child? ==> BlockAt(Taken(fs, b), p.parent) == BlockAt(fs, p.parent) < fs.nzones
  {
    if p.Child? { TakenAt(fs, b, p.parent); }
  }

  function Hung(fs: Fs, p: Pos, b: nat): Fs
    requires Inv(fs) && MayHang(fs, p, b)
  {
    MayStore(fs, p, b);
    Stored(Taken(fs, b), p, b)
  }

  /** Clearing a free block moves nothing. */
  lemma {:induction false} TakenAt(fs: Fs, b: nat, q: Pos)
    requires Shaped(fs) && Forest(fs) && ValidPos(fs, q)
    requires fs.first <= b < fs.nzones && b + 1 - fs.first < |fs.bits| && !fs.bits[b + 1 - fs.first]
    ensures BlockAt(Taken(fs, b), q) == BlockAt(fs, q) != b
  {
    if q.Child? {
      TakenAt(fs, b, q.parent);
    }
    if BlockAt(fs, q) != 0 { assert InUse(fs, BlockAt(fs, q)); }
  }

  /** Hanging a block at p changes what is at p and nowhere else. */
  lemma {:induction false} HungAt(fs: Fs, p: Pos, b: nat, q: Pos)
    requires Inv(fs) && MayHang(fs, p, b) && ValidPos(fs, q)
    ensures BlockAt(Hung(fs, p, b), q) == if q == p then b else BlockAt(fs, q)
  {
    hide CleanTails, ByteAt;
    MayStore(fs, p, b);
    TakenAt(fs, b, q);
    if q.Child? {
      HungAt(fs, p, b, q.parent);
      TakenAt(fs, b, q.parent);
      if p.Child? && BlockAt(fs, q.parent) == BlockAt(fs, p.parent) { assert q.parent == p.parent; }
    }
  }

  lemma HungUse(fs: Fs, p: Pos, b: nat, q: Pos)
    requires Inv(fs) && MayHang(fs, p, b) && ValidPos(fs, q) && BlockAt(Hung(fs, p, b), q) != 0
    ensures InUse(Hung(fs, p, b), BlockAt(Hung(fs, p, b), q))
  {
    MayStore(fs, p, b);
    HungAt(fs, p, b, q);
    if q != p { assert InUse(fs, BlockAt(fs, q)); }
  }

  lemma HungApart(fs: Fs, p: Pos, b: nat, q: Pos, r: Pos)
    requires Inv(fs) && MayHang(fs, p, b) && ValidPos(fs, q) && ValidPos(fs, r)
    requires BlockAt(Hung(fs, p, b), q) != 0 && BlockAt(Hung(fs, p, b), q) == BlockAt(Hung(fs, p, b), r)
    ensures q == r
  {
    HungAt(fs, p, b, q);
    HungAt(fs, p, b, r);
    TakenAt(fs, b, q);
    TakenAt(fs, b, r);
  }

  lemma HungForest(fs: Fs, p: Pos, b: nat)
    requires Inv(fs) && MayHang(fs, p, b)
    ensures Shaped(Hung(fs, p, b)) && Forest(Hung(fs, p, b))
  {
    var fs' := Hung(fs, p, b);
    MayStore(fs, p, b);
    assert forall q :: ValidPos(fs', q) <==> ValidPos(fs, q);
    forall q | ValidPos(fs', q) && BlockAt(fs', q) != 0 ensures InUse(fs', BlockAt(fs', q)) { HungUse(fs, p, b, q); }
    forall q, r | ValidPos(fs', q) && ValidPos(fs', r) && BlockAt(fs', q) != 0 && BlockAt(fs', q) == BlockAt(fs', r)
      ensures q == r { HungApart(fs, p, b, q, r); }
  }

  lemma HungByte(fs: Fs, p: Pos, b: nat, i: nat, pos: nat)
    requires Inv(fs) && MayHang(fs, p, b) && i < |fs.inodes| && pos < MAX_BLOCKS * BLOCK_SIZE
    ensures ByteAt(Hung(fs, p, b), i, pos) == ByteAt(fs, i, pos)
  {
    MayStore(fs, p, b);
    LeafValid(fs, i, pos / BLOCK_SIZE);
    HungAt(fs, p, b, Leaf(i, pos / BLOCK_SIZE));
    TakenAt(fs, b, Leaf(i, pos / BLOCK_SIZE));
  }

  /** Hanging a new block keeps the forest, and no byte of any file changes. */
  lemma HungKeeps(fs: Fs, p: Pos, b: nat)
    requires Inv(fs) && MayHang(fs, p, b)
    ensures var fs' := Hung(fs, p, b);
            && Inv(fs') && |fs'.inodes| == |fs.inodes|
            && (forall i | 0 <= i < |fs.inodes| :: fs'.inodes[i].size == fs.inodes[i].size)
            && forall i, pos | 0 <= i < |fs.inodes| && 0 <= pos < MAX_BLOCKS * BLOCK_SIZE :: ByteAt(fs', i, pos) == ByteAt(fs, i, pos)
  {
    MayStore(fs, p, b);
    HungForest(fs, p, b);
    var fs' := Hung(fs, p, b);
    forall i, pos | 0 <= i < |fs.inodes| && 0 <= pos < MAX_BLOCKS * BLOCK_SIZE ensures ByteAt(fs', i, pos) == ByteAt(fs, i, pos) {
      HungByte(fs, p, b, i, pos);
    }
  }

  // ----- what an allocation may change

  /** The places from the inode to p. */
  function Path(p: Pos): set<Pos> {
    match p
    case Root(_, _) => {p}
    case Child(q, _) => Path(q) + {p}
  }

  lemma PathIs(q: Pos, j: nat)
    ensures Path(Child(q, j)) == Path(q) + {Child(q, j)}
    ensures q.Root? ==> Path(q) == {q}
  {
  }

  /** The blocks of the data zone that are free, and the places among ps that have no block. */
  ghost function FreeBlocks(fs: Fs): set<nat> { set b: nat | b < fs.nzones && IsFree(fs, b) }

  predicate IsFree(fs: Fs, b: nat) {
    fs.first <= b < fs.nzones && b + 1 - fs.first < |fs.bits| && !fs.bits[b + 1 - fs.first]
  }

  ghost function Missing(fs: Fs, ps: set<Pos>): set<Pos> { set p | p in ps && BlockAt(fs, p) == 0 }

  /** Block b is at one of the places ps. */
  ghost predicate Placed(fs: Fs, ps: set<Pos>, b: nat) { exists p :: p in ps && BlockAt(fs, p) == b }

  /** Free blocks were hung at empty places among ps, one at each; no other block was taken and nothing else moved. */
  ghost predicate Allocated(fs: Fs, fs': Fs, ps: set<Pos>) {
    && fs'.first == fs.first && fs'.nzones == fs.nzones && |fs'.bits| == |fs.bits| && |fs'.inodes| == |fs.inodes|
    && (forall p | p in ps :: ValidPos(fs, p))
    && (forall q | ValidPos(fs, q) && (q !in ps || BlockAt(fs, q) != 0) :: BlockAt(fs', q) == BlockAt(fs, q))
    && (forall q | ValidPos(fs, q) && BlockAt(fs, q) == 0 && BlockAt(fs', q) != 0 :: IsFree(fs, BlockAt(fs', q)))
    && (forall b: nat | IsFree(fs', b) :: IsFree(fs, b))
    && (forall b: nat | IsFree(fs, b) && !IsFree(fs', b) :: Placed(fs', ps, b))
  }

  /** Blocks may have been allocated to places among ps; all else, and every byte of every file, is as it was. */
  ghost predicate Grew(fs: Fs, fs': Fs, ps: set<Pos>) {
    && Inv(fs') && Allocated(fs, fs', ps)
    && (forall i | 0 <= i < |fs.inodes| :: fs'.inodes[i].size == fs.inodes[i].size)
    && (forall i, pos | 0 <= i < |fs.inodes| && 0 <= pos < MAX_BLOCKS * BLOCK_SIZE :: ByteAt(fs', i, pos) == ByteAt(fs, i, pos))
  }

  lemma AllocatedTwice(fs: Fs, fs': Fs, fs'': Fs, ps: set<Pos>, qs: set<Pos>)
    requires 0 < fs.first && Allocated(fs, fs', ps) && Allocated(fs', fs'', qs)
    ensures Allocated(fs, fs'', ps + qs)
  {
    assert forall q :: ValidPos(fs', q) <==> ValidPos(fs, q);
    forall b: nat | IsFree(fs, b) && !IsFree(fs'', b) ensures Placed(fs'', ps + qs, b) {
      if IsFree(fs', b) {
        var p :| p in qs && BlockAt(fs'', p) == b;
        assert p in ps + qs;
      } else {
        var p :| p in ps && BlockAt(fs', p) == b;
        assert p in ps + qs && b != 0;
      }
    }
  }

  lemma AllocatedMore(fs: Fs, fs': Fs, ps: set<Pos>, qs: set<Pos>)
    requires Allocated(fs, fs', ps) && ps <= qs && forall p | p in qs :: ValidPos(fs, p)
    ensures Allocated(fs, fs', qs)
  {
    forall b: nat | IsFree(fs, b) && !IsFree(fs', b) ensures Placed(fs', qs, b) { assert Placed(fs', ps, b); }
  }

  ghost function BlocksAt(fs: Fs, ps: set<Pos>): set<nat> { set p | p in ps :: BlockAt(fs, p) }

  lemma {:induction false} BlocksCount(fs: Fs, ps: set<Pos>)
    requires forall p, q | p in ps && q in ps && BlockAt(fs, p) == BlockAt(fs, q) :: p == q
    ensures |BlocksAt(fs, ps)| == |ps|
  {
    if ps != {} {
      var p :| p in ps;
      BlocksCount(fs, ps - {p});
      hide BlockAt;
      assert BlockAt(fs, p) !in BlocksAt(fs, ps - {p});
      assert BlocksAt(fs, ps) == BlocksAt(fs, ps - {p}) + {BlockAt(fs, p)};
    }
  }

  /** Every block taken fills one missing place. */
  lemma AllocatedCounts(fs: Fs, fs': Fs, ps: set<Pos>)
    requires Inv(fs) && Inv(fs') && Allocated(fs, fs', ps)
    ensures |FreeBlocks(fs)| - |FreeBlocks(fs')| == |Missing(fs, ps)| - |Missing(fs', ps)|
  {
    var filled, taken := Missing(fs, ps) - Missing(fs', ps), FreeBlocks(fs) - FreeBlocks(fs');
    FilledIsTaken(fs, fs', ps);
    FilledApart(fs, fs', ps);
    AllocatedLess(fs, fs', ps);
    hide *;
    BlocksCount(fs', filled);
    CardDiff(Missing(fs, ps), Missing(fs', ps));
    CardDiff(FreeBlocks(fs), FreeBlocks(fs'));
  }

  lemma AllocatedLess(fs: Fs, fs': Fs, ps: set<Pos>)
    requires Allocated(fs, fs', ps)
    ensures Missing(fs', ps) <= Missing(fs, ps) && FreeBlocks(fs') <= FreeBlocks(fs)
  {
  }

  lemma FilledApart(fs: Fs, fs': Fs, ps: set<Pos>)
    requires Inv(fs') && Allocated(fs, fs', ps)
    ensures forall p, q | p in Missing(fs, ps) - Missing(fs', ps) && q in Missing(fs, ps) - Missing(fs', ps)
                          && BlockAt(fs', p) == BlockAt(fs', q) :: p == q
  {
    assert forall q :: ValidPos(fs', q) <==> ValidPos(fs, q);
  }

  lemma FilledIsTaken(fs: Fs, fs': Fs, ps: set<Pos>)
    requires Inv(fs) && Inv(fs') && Allocated(fs, fs', ps)
    ensures BlocksAt(fs', Missing(fs, ps) - Missing(fs', ps)) == FreeBlocks(fs) - FreeBlocks(fs')
  {
    forall p | p in Missing(fs, ps) - Missing(fs', ps) ensures BlockAt(fs', p) in FreeBlocks(fs) - FreeBlocks(fs') {
      assert ValidPos(fs, p) && ValidPos(fs', p) && InUse(fs', BlockAt(fs', p));
    }
    forall b | b in FreeBlocks(fs) - FreeBlocks(fs') ensures exists p :: p in Missing(fs, ps) - Missing(fs', ps) && BlockAt(fs', p) == b {
      var p :| p in ps && BlockAt(fs', p) == b;
      assert BlockAt(fs, p) != 0 ==> InUse(fs, BlockAt(fs, p));
      assert p in Missing(fs, ps) - Missing(fs', ps);
    }
  }

  /** With blocks for all the places ps, the blocks free before were enough for them. */
  lemma EnoughFree(fs: Fs, fs': Fs, ps: set<Pos>, qs: set<Pos>)
    requires Inv(fs) && Inv(fs') && Allocated(fs, fs', qs) && ps <= qs && Missing(fs', ps) == {}
    ensures |Missing(fs, ps)| <= |FreeBlocks(fs)|
  {
    AllocatedCounts(fs, fs', qs);
    var some := Missing(fs, ps) + Missing(fs', qs);
    forall p | p in Missing(fs, ps) ensures p !in Missing(fs', qs) { assert p !in Missing(fs', ps); }
    assert some <= Missing(fs, qs);
    CardLess(some, Missing(fs, qs));
  }

  /** With a place still without a block and no block free, they were not. */
  lemma TooFewFree(fs: Fs, fs': Fs, ps: set<Pos>, qs: set<Pos>, p: Pos)
    requires Inv(fs) && Inv(fs') && Allocated(fs, fs', ps) && ps <= qs && p in Missing(fs', ps) && FreeBlocks(fs') == {}
    ensures |Missing(fs, qs)| > |FreeBlocks(fs)|
  {
    AllocatedCounts(fs, fs', ps);
    assert Missing(fs, ps) <= Missing(fs, qs);
    CardLess(Missing(fs, ps), Missing(fs, qs));
  }

  lemma MissingStays(fs: Fs, fs': Fs, ps: set<Pos>, qs: set<Pos>)
    requires Allocated(fs, fs', qs) && Missing(fs, ps) == {} && forall p | p in ps :: ValidPos(fs, p)
    ensures Missing(fs', ps) == {}
  {
    forall p | p in ps ensures BlockAt(fs', p) != 0 { assert p !in Missing(fs, ps); }
  }

  /** A block at the end of a path has blocks all the way. */
  lemma {:induction false} PathHangs(fs: Fs, p: Pos)
    requires BlockAt(fs, p) != 0
    ensures Missing(fs, Path(p)) == {}
  {
    if p.Child? { PathHangs(fs, p.parent); }
  }

  lemma {:induction false} PathValid(fs: Fs, p: Pos)
    requires ValidPos(fs, p)
    ensures p in Path(p) && forall q | q in Path(p) :: ValidPos(fs, q)
  {
    if p.Child? { PathValid(fs, p.parent); }
  }

  /** The outcome of an allocation along a path follows from what was missing and what was free. */
  lemma PathOutcome(fs: Fs, fs': Fs, p: Pos)
    requires Inv(fs) && Inv(fs') && ValidPos(fs, p) && Allocated(fs, fs', Path(p))
    requires BlockAt(fs', p) == 0 ==> FreeBlocks(fs') == {}
    ensures BlockAt(fs', p) == 0 <==> |Missing(fs, Path(p))| > |FreeBlocks(fs)|
  {
    PathValid(fs, p);
    if BlockAt(fs', p) == 0 {
      TooFewFree(fs, fs', Path(p), Path(p), p);
    } else {
      PathHangs(fs', p);
      EnoughFree(fs, fs', Path(p), Path(p));
    }
  }

  // ----- transfers that fail

  /** Blocks that cannot be read: none that a call has just allocated, for its buffer is up to date. */
  predicate MayFail(fs: Fs, bad: set<nat>) { forall b | b in bad :: InUse(fs, b) }

  /** A block on the path before p cannot be read. */
  predicate Cut(fs: Fs, bad: set<nat>, p: Pos) { p.Child? && (BlockAt(fs, p.parent) in bad || Cut(fs, bad, p.parent)) }

  /** The block at a place as _bmap finds it: behind a block that cannot be read there is none. */
  function Seen(fs: Fs, bad: set<nat>, p: Pos): nat {
    match p
    case Root(_, _) => BlockAt(fs, p)
    case Child(q, j) => if Seen(fs, bad, q) in bad then 0 else Entry(fs, Seen(fs, bad, q), j)
  }

  lemma {:induction false} SeenIs(fs: Fs, bad: set<nat>, p: Pos)
    requires 0 !in bad
    ensures Seen(fs, bad, p) == if Cut(fs, bad, p) then 0 else BlockAt(fs, p)
  {
    if p.Child? { SeenIs(fs, bad, p.parent); }
  }

  /** An allocation neither mends nor cuts a path. */
  lemma {:induction false} CutStays(fs: Fs, fs': Fs, ps: set<Pos>, bad: set<nat>, p: Pos)
    requires 0 < fs.first && MayFail(fs, bad) && Allocated(fs, fs', ps) && ValidPos(fs, p)
    ensures MayFail(fs', bad) && Cut(fs', bad, p) == Cut(fs, bad, p)
    ensures BlockAt(fs', p) in bad <==> BlockAt(fs, p) in bad
  {
    MayFailStays(fs, fs', ps, bad);
    if p.Child? { CutStays(fs, fs', ps, bad, p.parent); }
    assert BlockAt(fs', p) in bad ==> !IsFree(fs, BlockAt(fs', p));
  }

  lemma MayFailStays(fs: Fs, fs': Fs, ps: set<Pos>, bad: set<nat>)
    requires MayFail(fs, bad) && Allocated(fs, fs', ps)
    ensures MayFail(fs', bad)
  {
    forall b | b in bad ensures InUse(fs', b) { assert InUse(fs, b) && !IsFree(fs', b); }
  }

  /** What _bmap does along a path. */
  ghost predicate Mapped(fs: Fs, fs': Fs, create: bool, bad: set<nat>, p: Pos) {
    && Grew(fs, fs', Path(p))
    && (!create || Cut(fs, bad, p) || BlockAt(fs, p) != 0 ==> fs' == fs)
    && (create && Seen(fs', bad, p) == 0 ==> Cut(fs, bad, p) || FreeBlocks(fs') == {})
  }

  /** It ends at a block that is not there or cannot be read, */
  lemma MappedEnds(fs: Fs, fs': Fs, create: bool, bad: set<nat>, q: Pos, j: nat)
    requires 0 < fs.first && MayFail(fs, bad) && Mapped(fs, fs', create, bad, q) && ValidPos(fs, Child(q, j)) && ValidPos(fs, q)
    requires Seen(fs', bad, q) == 0 || Seen(fs', bad, q) in bad
    ensures Mapped(fs, fs', create, bad, Child(q, j)) && Seen(fs', bad, Child(q, j)) == 0
  {
    CutStays(fs, fs', Path(q), bad, q);
    SeenIs(fs', bad, q);
    PathValid(fs, Child(q, j));
    GrewMore(fs, fs', Path(q), Path(Child(q, j)));
  }

  /** and otherwise goes on to the next. */
  lemma MappedMore(fs: Fs, fs1: Fs, fs2: Fs, create: bool, bad: set<nat>, q: Pos, j: nat)
    requires 0 < fs.first && MayFail(fs, bad) && Mapped(fs, fs1, create, bad, q) && ValidPos(fs, Child(q, j)) && ValidPos(fs, q)
    requires Seen(fs1, bad, q) != 0 && Seen(fs1, bad, q) !in bad && Grew(fs1, fs2, {Child(q, j)})
    requires !create || BlockAt(fs1, Child(q, j)) != 0 ==> fs2 == fs1
    requires create && BlockAt(fs2, Child(q, j)) == 0 ==> FreeBlocks(fs2) == {}
    ensures Mapped(fs, fs2, create, bad, Child(q, j)) && Seen(fs2, bad, Child(q, j)) == BlockAt(fs2, Child(q, j))
  {
    CutStays(fs, fs1, Path(q), bad, q);
    CutStays(fs1, fs2, {Child(q, j)}, bad, q);
    SeenIs(fs1, bad, q);
    SeenIs(fs2, bad, q);
    GrewTwice(fs, fs1, fs2, Path(q), {Child(q, j)});
    assert BlockAt(fs2, q) == BlockAt(fs1, q);
  }

  /** The outcome follows from the state before. */
  lemma MappedOutcome(fs: Fs, fs': Fs, create: bool, bad: set<nat>, p: Pos)
    requires Inv(fs) && MayFail(fs, bad) && ValidPos(fs, p) && Mapped(fs, fs', create, bad, p)
    ensures Grew(fs, fs', Path(p)) && (!create || Cut(fs, bad, p) || BlockAt(fs, p) != 0 ==> fs' == fs)
    ensures create ==> (Seen(fs', bad, p) == 0 <==> Cut(fs, bad, p) || |Missing(fs, Path(p))| > |FreeBlocks(fs)|)
    ensures create && Seen(fs', bad, p) == 0 ==> Cut(fs, bad, p) || FreeBlocks(fs') == {}
    ensures MayFail(fs', bad) && |fs'.inodes| == |fs.inodes|
  {
    CutStays(fs, fs', Path(p), bad, p);
    SeenIs(fs', bad, p);
    if create && !Cut(fs, bad, p) { PathOutcome(fs, fs', p); }
  }

  lemma MappedRoot(fs: Fs, fs': Fs, create: bool, bad: set<nat>, ino: nat, k: nat)
    requires Grew(fs, fs', {Root(ino, k)}) && (!create || BlockAt(fs, Root(ino, k)) != 0 ==> fs' == fs)
    requires create && BlockAt(fs', Root(ino, k)) == 0 ==> FreeBlocks(fs') == {}
    ensures Mapped(fs, fs', create, bad, Root(ino, k)) && Seen(fs', bad, Root(ino, k)) == BlockAt(fs', Root(ino, k))
  {
  }

  lemma {:induction false} UncutWhole(fs: Fs, p: Pos)
    ensures !Cut(fs, {}, p)
  {
    if p.Child? { UncutWhole(fs, p.parent); }
  }

  /** b is the number of a file's n-th block: a zone, or the entry of the block in zone 7, or of a block named in the one in
      zone 8; 0 where there is none or it cannot be read. */
  predicate Numbered(fs: Fs, bad: set<nat>, ino: nat, n: nat, b: nat)
    requires ino < |fs.inodes|
  {
    var zone := fs.inodes[ino].zone;
    |zone| == 9 &&
    if n < 7 then b == zone[n]
    else if n < 519 then b == EntryOf(fs, bad, zone[7], n - 7)
    else (n - 519) / 512 < ENTRIES && b == EntryOf(fs, bad, EntryOf(fs, bad, zone[8], (n - 519) / 512), (n - 519) % 512)
  }

  function EntryOf(fs: Fs, bad: set<nat>, b: nat, j: nat): nat
    requires j < ENTRIES
  {
    if b == 0 || b in bad || b >= |fs.table| || |fs.table[b]| != ENTRIES then 0 else fs.table[b][j]
  }

  /** What _bmap finds is that number. */
  lemma NumberedIs(fs: Fs, bad: set<nat>, ino: nat, n: nat)
    requires Inv(fs) && MayFail(fs, bad) && ino < |fs.inodes| && n < MAX_BLOCKS
    ensures Numbered(fs, bad, ino, n, Seen(fs, bad, Leaf(ino, n)))
  {
    var zone := fs.inodes[ino].zone;
    LeafValid(fs, ino, n);
    if 7 <= n < 519 {
      EntryIs(fs, bad, Root(ino, 7), n - 7);
    } else if 519 <= n {
      var q := Child(Root(ino, 8), (n - 519) / 512);
      EntryIs(fs, bad, Root(ino, 8), (n - 519) / 512);
      EntryIs(fs, bad, q, (n - 519) % 512);
    }
  }

  lemma EntryIs(fs: Fs, bad: set<nat>, q: Pos, j: nat)
    requires Inv(fs) && MayFail(fs, bad) && ValidPos(fs, q) && j < ENTRIES
    ensures Seen(fs, bad, Child(q, j)) == EntryOf(fs, bad, Seen(fs, bad, q), j)
  {
    SeenIs(fs, bad, q);
    assert BlockAt(fs, q) != 0 ==> InUse(fs, BlockAt(fs, q));
  }

  /** Some block on the path to p, or the one at its end, cannot be read. */
  ghost predicate Broken(fs: Fs, bad: set<nat>, p: Pos) { Cut(fs, bad, p) || BlockAt(fs, p) in bad }

  lemma SeenSmall(fs: Fs, bad: set<nat>, ino: nat, pos: nat)
    requires Inv(fs) && MayFail(fs, bad) && ino < |fs.inodes| && pos < MAX_BLOCKS * BLOCK_SIZE
    ensures Seen(fs, bad, LeafOf(ino, pos)) < |fs.data|
  {
    LeafValid(fs, ino, pos / BLOCK_SIZE);
    SeenIs(fs, bad, LeafOf(ino, pos));
  }

  /** Byte pos of a file as file_read finds it. */
  function SeenByte(fs: Fs, bad: set<nat>, ino: nat, pos: nat): Byte {
    ByteOf(fs, Seen(fs, bad, LeafOf(ino, pos)), pos % BLOCK_SIZE)
  }

  /** An indirect block that cannot be read is read as a hole: every byte behind it is zero, whatever is stored. */
  lemma SeenByteIs(fs: Fs, bad: set<nat>, ino: nat, pos: nat)
    requires 0 !in bad
    ensures SeenByte(fs, bad, ino, pos) == ByteAt(fs, ino, pos) <==> !Cut(fs, bad, LeafOf(ino, pos)) || ByteAt(fs, ino, pos) == 0
  {
    SeenIs(fs, bad, LeafOf(ino, pos));
  }

  /** For example: a file whose only byte that is not zero is behind its indirect block, block 1. */
  function OneByteFile(): Fs {
    Fs(1, 3, [true, true, true], [ZeroBlock(), ZeroBlock(), ZeroBlock()[0 := 1]], [ZeroTable(), ZeroTable()[0 := 2], ZeroTable()],
       [Inode([0, 0, 0, 0, 0, 0, 0, 1, 0], 7 * BLOCK_SIZE + 1)])
  }

  lemma ZerosExample()
    ensures var fs := OneByteFile();
            && Inv(fs) && MayFail(fs, {1})
            && ByteAt(fs, 0, 7 * BLOCK_SIZE) == 1 && SeenByte(fs, {1}, 0, 7 * BLOCK_SIZE) == 0 && Readable(fs, {1}, 0, 7 * BLOCK_SIZE, 1)
  {
    var fs := OneByteFile();
    assert fs.inodes[0].zone[7] == 1 && fs.table[1][0] == 2;
    assert LeafOf(0, 7 * BLOCK_SIZE) == Child(Root(0, 7), 0) && BlockAt(fs, Root(0, 7)) == 1;
    forall p | ValidPos(fs, p)
      ensures BlockAt(fs, p) == if p == Root(0, 7) then 1 else if p == Child(Root(0, 7), 0) then 2 else 0 { OneByteAt(p); }
    forall x | 7 * BLOCK_SIZE < x < MAX_BLOCKS * BLOCK_SIZE ensures ByteAt(fs, 0, x) == 0 {
      LeafValid(fs, 0, x / BLOCK_SIZE);
    }
  }

  lemma OneByteAt(p: Pos)
    requires ValidPos(OneByteFile(), p)
    ensures BlockAt(OneByteFile(), p) == if p == Root(0, 7) then 1 else if p == Child(Root(0, 7), 0) then 2 else 0
  {
    var fs := OneByteFile();
    match p {
      case Root(_, _) =>
      case Child(q, j) => assert BlockAt(fs, q) == if q == Root(0, 7) then 1 else if q == Child(Root(0, 7), 0) then 2 else 0 by {
        if q.Child? { assert BlockAt(fs, q.parent) == 0; }
      }
    }
  }

  /** The blocks of n bytes from pos on, so far as there are any, can be read. */
  ghost predicate Readable(fs: Fs, bad: set<nat>, ino: nat, pos: nat, n: nat) {
    forall x: nat | pos <= x < pos + n :: Seen(fs, bad, LeafOf(ino, x)) !in bad
  }

  /** No block on the paths to the first n bytes of a write fails. */
  ghost predicate Sound(fs: Fs, bad: set<nat>, ino: nat, start: nat, n: nat) {
    forall x: nat | start <= x < start + n :: !Broken(fs, bad, LeafOf(ino, x))
  }

  lemma GrewTwice(fs: Fs, fs': Fs, fs'': Fs, ps: set<Pos>, qs: set<Pos>)
    requires Grew(fs, fs', ps) && Grew(fs', fs'', qs)
    ensures Grew(fs, fs'', ps + qs)
  {
    AllocatedTwice(fs, fs', fs'', ps, qs);
  }

  lemma GrewNot(fs: Fs)
    requires Inv(fs)
    ensures Grew(fs, fs, {})
  {
  }

  lemma GrewMore(fs: Fs, fs': Fs, ps: set<Pos>, qs: set<Pos>)
    requires Grew(fs, fs', ps) && ps <= qs && forall p | p in qs :: ValidPos(fs, p)
    ensures Grew(fs, fs', qs)
  {
    AllocatedMore(fs, fs', ps, qs);
  }

  lemma HungGrew(fs: Fs, p: Pos, b: nat)
    requires Inv(fs) && MayHang(fs, p, b)
    ensures Grew(fs, Hung(fs, p, b), {p}) && BlockAt(Hung(fs, p, b), p) == b
  {
    HungKeeps(fs, p, b);
    HungAllocated(fs, p, b);
    hide *;
  }

  lemma HungAllocated(fs: Fs, p: Pos, b: nat)
    requires Inv(fs) && MayHang(fs, p, b)
    ensures Allocated(fs, Hung(fs, p, b), {p}) && BlockAt(Hung(fs, p, b), p) == b
  {
    MayStore(fs, p, b);
    HungAt(fs, p, b, p);
    var fs' := Hung(fs, p, b);
    forall q | ValidPos(fs, q) && q != p ensures BlockAt(fs', q) == BlockAt(fs, q) { HungAt(fs, p, b, q); }
    hide Inv, BlockAt;
    assert forall c: nat :: IsFree(fs', c) <==> IsFree(fs, c) && c != b;
  }

  /** Clearing a free block alone keeps the invariant. */
  lemma TakenKeeps(fs: Fs, b: nat)
    requires Inv(fs) && fs.first <= b < fs.nzones && b + 1 - fs.first < |fs.bits| && !fs.bits[b + 1 - fs.first]
    ensures Inv(Taken(fs, b))
  {
    var fs' := Taken(fs, b);
    assert forall q :: ValidPos(fs', q) <==> ValidPos(fs, q);
    forall q | ValidPos(fs, q) ensures BlockAt(fs', q) == BlockAt(fs, q) != b { TakenAt(fs, b, q); }
    forall q | ValidPos(fs', q) && BlockAt(fs', q) != 0 ensures InUse(fs', BlockAt(fs', q)) { assert InUse(fs, BlockAt(fs, q)); }
    forall i, x | 0 <= i < |fs.inodes| && 0 <= x < MAX_BLOCKS * BLOCK_SIZE ensures ByteAt(fs', i, x) == ByteAt(fs, i, x) {
      LeafValid(fs, i, x / BLOCK_SIZE);
    }
  }

  /** The first bit that is not set, or the number of bits. */
  function FirstClear(bits: seq<bool>): (j: nat)
    ensures j <= |bits| && (forall k | 0 <= k < j :: bits[k]) && (j < |bits| ==> !bits[j])
  {
    if bits == [] || !bits[0] then 0 else 1 + FirstClear(bits[1..])
  }

  lemma FirstClearIs(bits: seq<bool>, j: nat)
    requires j <= |bits| && (forall k | 0 <= k < j :: bits[k]) && (j < |bits| ==> !bits[j])
    ensures FirstClear(bits) == j
  {}

  /** new_block: the block it finds, and the bitmap and the block after it; 0 for none. */
  function Found(fs: Fs): nat
    requires Shaped(fs)
  {
    var j := FirstClear(fs.bits);
    if j < |fs.bits| && j + fs.first - 1 < fs.nzones then j + fs.first - 1 else 0
  }

  ghost function AfterNew(fs: Fs): Fs
    requires Shaped(fs)
  {
    var j := FirstClear(fs.bits);
    if Found(fs) != 0 then Taken(fs, Found(fs)) else if j < |fs.bits| then Leaked(fs, j) else fs
  }

  /** A call that finds no block sets a bit all the same if and only if there is a clear bit, and then the first one
      stands for a block beyond the device. */
  lemma LeaksBit(fs: Fs)
    requires Shaped(fs)
    ensures Found(fs) == 0 && AfterNew(fs).bits != fs.bits
            <==> FirstClear(fs.bits) < |fs.bits| && FirstClear(fs.bits) + fs.first - 1 >= fs.nzones
    ensures Found(fs) != 0 <==> exists j :: 0 <= j < |fs.bits| && !fs.bits[j] && j + fs.first - 1 < fs.nzones
  {}

  /** For example: on a device whose only data block is in use, the bit after its own is set. */
  lemma LeakExample()
    ensures var fs := Fs(1, 2, [true, true, false], [ZeroBlock(), ZeroBlock()], [ZeroTable(), ZeroTable()], []);
            Shaped(fs) && Found(fs) == 0 && AfterNew(fs).bits == [true, true, true]
  {
    FirstClearIs([true, true, false], 2);
  }

  /** new_block marks a block beyond the device used and fails. */
  function Leaked(fs: Fs, j: nat): Fs
    requires j < |fs.bits|
  {
    fs.(bits := fs.bits[j := true])
  }

  lemma {:induction false} SameTrees(fs: Fs, fs': Fs, p: Pos)
    requires |fs'.inodes| == |fs.inodes| && fs'.table == fs.table
    requires forall i | 0 <= i < |fs.inodes| :: fs'.inodes[i].zone == fs.inodes[i].zone
    ensures BlockAt(fs', p) == BlockAt(fs, p)
  {
    if p.Child? { SameTrees(fs, fs', p.parent); }
  }

  /** The same block numbers everywhere, and no fewer blocks marked used. */
  lemma SameForest(fs: Fs, fs': Fs)
    requires Forest(fs) && |fs'.inodes| == |fs.inodes| && fs'.table == fs.table
    requires forall i | 0 <= i < |fs.inodes| :: fs'.inodes[i].zone == fs.inodes[i].zone
    requires fs'.first == fs.first && fs'.nzones == fs.nzones && |fs'.bits| == |fs.bits|
    requires forall j | 0 <= j < |fs.bits| && fs.bits[j] :: fs'.bits[j]
    ensures Forest(fs')
  {
    forall p ensures BlockAt(fs', p) == BlockAt(fs, p) { SameTrees(fs, fs', p); }
    forall p | ValidPos(fs', p) && BlockAt(fs', p) != 0 ensures InUse(fs', BlockAt(fs', p)) {
      assert ValidPos(fs, p) && InUse(fs, BlockAt(fs, p));
    }
    forall p, q | ValidPos(fs', p) && ValidPos(fs', q) && BlockAt(fs', p) != 0 && BlockAt(fs', p) == BlockAt(fs', q)
      ensures p == q { assert ValidPos(fs, p) && ValidPos(fs, q); }
  }

  lemma LeakedGrew(fs: Fs, j: nat)
    requires Inv(fs) && j < |fs.bits| && j + fs.first - 1 >= fs.nzones
    ensures Grew(fs, Leaked(fs, j), {}) && FreeBlocks(Leaked(fs, j)) == FreeBlocks(fs)
  {
    var fs' := Leaked(fs, j);
    SameForest(fs, fs');
    forall p ensures BlockAt(fs', p) == BlockAt(fs, p) { SameTrees(fs, fs', p); }
    forall i, x | 0 <= i < |fs.inodes| && 0 <= x < MAX_BLOCKS * BLOCK_SIZE ensures ByteAt(fs', i, x) == ByteAt(fs, i, x) { }
  }

  // ----- writing into a block

  /** Bytes written into the block of a file at pos, and the size raised if they end beyond it. */
  function Spliced(block: seq<Byte>, o: nat, chunk: seq<Byte>): seq<Byte>
    requires o + |chunk| <= |block|
  {
    block[..o] + chunk + block[o + |chunk|..]
  }

  function Written(fs: Fs, ino: nat, pos: nat, chunk: seq<Byte>): Fs
    requires Shaped(fs) && ino < |fs.inodes| && pos % BLOCK_SIZE + |chunk| <= BLOCK_SIZE
    requires BlockAt(fs, Leaf(ino, pos / BLOCK_SIZE)) < |fs.data|
  {
    var b := BlockAt(fs, Leaf(ino, pos / BLOCK_SIZE));
    var n := fs.inodes[ino];
    Fs(fs.first, fs.nzones, fs.bits, fs.data[b := Spliced(fs.data[b], pos % BLOCK_SIZE, chunk)], fs.table,
       fs.inodes[ino := Inode(n.zone, if n.size < pos + |chunk| then pos + |chunk| else n.size)])
  }

  lemma WrittenByte(fs: Fs, ino: nat, pos: nat, chunk: seq<Byte>, i: nat, x: nat)
    requires Inv(fs) && ino < |fs.inodes| && pos % BLOCK_SIZE + |chunk| <= BLOCK_SIZE && pos < MAX_BLOCKS * BLOCK_SIZE
    requires BlockAt(fs, Leaf(ino, pos / BLOCK_SIZE)) != 0 && i < |fs.inodes| && x < MAX_BLOCKS * BLOCK_SIZE
    ensures BlockAt(fs, Leaf(ino, pos / BLOCK_SIZE)) < |fs.data|
    ensures ByteAt(Written(fs, ino, pos, chunk), i, x)
            == if i == ino && pos <= x < pos + |chunk| then chunk[x - pos] else ByteAt(fs, i, x)
  {
    var p, q := Leaf(ino, pos / BLOCK_SIZE), Leaf(i, x / BLOCK_SIZE);
    LeafValid(fs, ino, pos / BLOCK_SIZE);
    LeafValid(fs, i, x / BLOCK_SIZE);
    assert InUse(fs, BlockAt(fs, p));
    SameTrees(fs, Written(fs, ino, pos, chunk), q);
    SameBlock(pos, x, |chunk|);
    if BlockAt(fs, q) == BlockAt(fs, p) {
      LeafInjective(ino, pos / BLOCK_SIZE, i, x / BLOCK_SIZE);
      SplicedAt(fs.data[BlockAt(fs, p)], pos % BLOCK_SIZE, chunk, x % BLOCK_SIZE);
      assert i == ino && pos <= x < pos + |chunk| ==> x - pos == x % BLOCK_SIZE - pos % BLOCK_SIZE;
    }
  }

  lemma SplicedAt(block: seq<Byte>, o: nat, chunk: seq<Byte>, x: nat)
    requires o + |chunk| <= |block| && x < |block|
    ensures Spliced(block, o, chunk)[x] == if o <= x < o + |chunk| then chunk[x - o] else block[x]
  {
  }

  lemma SameBlock(pos: nat, x: nat, n: nat)
    requires pos % BLOCK_SIZE + n <= BLOCK_SIZE
    ensures pos <= x < pos + n <==> x / BLOCK_SIZE == pos / BLOCK_SIZE && pos % BLOCK_SIZE <= x % BLOCK_SIZE < pos % BLOCK_SIZE + n
  {
  }

  /** A chunk written within one block: the invariant, and exactly those bytes of that file. */
  lemma WrittenKeeps(fs: Fs, ino: nat, pos: nat, chunk: seq<Byte>)
    requires Inv(fs) && ino < |fs.inodes| && pos % BLOCK_SIZE + |chunk| <= BLOCK_SIZE
    requires pos + |chunk| <= MAX_BLOCKS * BLOCK_SIZE && pos < MAX_BLOCKS * BLOCK_SIZE
    requires BlockAt(fs, Leaf(ino, pos / BLOCK_SIZE)) != 0
    ensures BlockAt(fs, Leaf(ino, pos / BLOCK_SIZE)) < |fs.data| && Inv(Written(fs, ino, pos, chunk))
  {
    LeafValid(fs, ino, pos / BLOCK_SIZE);
    assert InUse(fs, BlockAt(fs, Leaf(ino, pos / BLOCK_SIZE)));
    var fs' := Written(fs, ino, pos, chunk);
    SameForest(fs, fs');
    forall i, x | 0 <= i < |fs'.inodes| && fs'.inodes[i].size <= x < MAX_BLOCKS * BLOCK_SIZE ensures ByteAt(fs', i, x) == 0 {
      WrittenByte(fs, ino, pos, chunk, i, x);
    }
  }

  /** Bytewise, a file after a write at pos is the byte sequence after the same write. */
  lemma WriteIsWriteAt(fs: Fs, fs': Fs, ino: nat, pos: nat, buf: seq<Byte>)
    requires Inv(fs) && Inv(fs') && |fs'.inodes| == |fs.inodes| && ino < |fs.inodes|
    requires pos + |buf| <= MAX_BLOCKS * BLOCK_SIZE
    requires fs'.inodes[ino].size == if buf != [] && fs.inodes[ino].size < pos + |buf| then pos + |buf| else fs.inodes[ino].size
    requires forall x | 0 <= x < MAX_BLOCKS * BLOCK_SIZE ::
               ByteAt(fs', ino, x) == if pos <= x < pos + |buf| then buf[x - pos] else ByteAt(fs, ino, x)
    ensures Contents(fs', ino) == WriteAt(Contents(fs, ino), pos, buf)
  {
    var a, b := Contents(fs', ino), WriteAt(Contents(fs, ino), pos, buf);
    forall x | 0 <= x < |a| ensures a[x] == b[x] {
      assert a[x] == ByteAt(fs', ino, x);
      if x < fs.inodes[ino].size { assert Contents(fs, ino)[x] == ByteAt(fs, ino, x); }
    }
  }

  /** The byte sequence after a write: long enough, the bytes written in their place, zeros in a gap before them,
      everything else as it was; what is read there next is what was written. */
  lemma WriteAtReads(s: seq<Byte>, pos: nat, buf: seq<Byte>)
    requires buf != []
    ensures var w := WriteAt(s, pos, buf);
            && |w| == (if |s| < pos + |buf| then pos + |buf| else |s|)
            && w[pos..pos + |buf|] == buf
            && forall x | 0 <= x < |w| && !(pos <= x < pos + |buf|) :: w[x] == if x < |s| then s[x] else 0
  {
  }

  /** A disk without any files' blocks keeps everything that is kept. */
  lemma EmptyKeeps(fs: Fs)
    requires Shaped(fs) && forall i | 0 <= i < |fs.inodes| :: fs.inodes[i] == EmptyInode()
    ensures Inv(fs) && forall i | 0 <= i < |fs.inodes| :: Contents(fs, i) == []
  {
    forall p | ValidPos(fs, p) ensures BlockAt(fs, p) == 0 { NoTrees(fs, p); }
  }

  lemma {:induction false} NoTrees(fs: Fs, p: Pos)
    requires Shaped(fs) && (forall i | 0 <= i < |fs.inodes| :: fs.inodes[i] == EmptyInode()) && ValidPos(fs, p)
    ensures BlockAt(fs, p) == 0
  {
    if p.Child? { NoTrees(fs, p.parent); }
  }

  function Stored1(block: seq<Byte>, o: nat, b: Byte): seq<Byte>
    requires o < |block|
  {
    block[o := b]
  }

  /** fs' is fs with buf written to a file from start on, bytewise. */
  ghost predicate AfterWrite(fs: Fs, fs': Fs, ino: nat, start: nat, buf: seq<Byte>) {
    && Inv(fs') && |fs'.inodes| == |fs.inodes| && ino < |fs.inodes|
    && (forall i | 0 <= i < |fs.inodes| && i != ino :: fs'.inodes[i].size == fs.inodes[i].size)
    && fs'.inodes[ino].size == (if buf != [] && fs.inodes[ino].size < start + |buf| then start + |buf| else fs.inodes[ino].size)
    && forall i, x | 0 <= i < |fs.inodes| && 0 <= x < MAX_BLOCKS * BLOCK_SIZE ::
         ByteAt(fs', i, x) == if i == ino && start <= x < start + |buf| then buf[x - start] else ByteAt(fs, i, x)
  }

  lemma GrewAfterWrite(fs: Fs, fs1: Fs, fs2: Fs, ino: nat, start: nat, buf: seq<Byte>, ps: set<Pos>)
    requires AfterWrite(fs, fs1, ino, start, buf) && Grew(fs1, fs2, ps)
    ensures AfterWrite(fs, fs2, ino, start, buf)
  {
  }

  /** The places on the paths to the blocks of the bytes from start up to end. */
  ghost function Places(ino: nat, start: nat, end: nat): set<Pos> {
    set x: nat, p | start <= x < end && p in Path(LeafOf(ino, x)) :: p
  }

  /** A range extended within one block. */
  lemma PlacesMore(ino: nat, start: nat, x: nat, c: nat)
    requires start <= x && 0 < c <= BLOCK_SIZE - x % BLOCK_SIZE
    ensures Places(ino, start, x + c) == Places(ino, start, x) + Path(LeafOf(ino, x))
  {
    hide Path, Leaf;
    forall y: nat | x <= y < x + c ensures LeafOf(ino, y) == LeafOf(ino, x) { SameBlock(x, y, c); }
    forall p | p in Path(LeafOf(ino, x)) ensures p in Places(ino, start, x + c) { assert x < x + c; }
  }

  lemma PlacesValid(fs: Fs, ino: nat, start: nat, end: nat)
    requires ino < |fs.inodes| && end <= MAX_BLOCKS * BLOCK_SIZE
    ensures forall p | p in Places(ino, start, end) :: ValidPos(fs, p)
  {
    forall p | p in Places(ino, start, end) ensures ValidPos(fs, p) {
      var x: nat :| start <= x < end && p in Path(LeafOf(ino, x));
      LeafValid(fs, ino, x / BLOCK_SIZE);
      PathValid(fs, LeafOf(ino, x));
    }
  }

  lemma PlacesLess(ino: nat, start: nat, end: nat, end': nat)
    requires end <= end'
    ensures Places(ino, start, end) <= Places(ino, start, end')
  {
    hide Path, LeafOf;
  }

  /** Of a write, the first n bytes have their blocks, and nothing else was allocated. */
  ghost predicate Reached(fs: Fs, fs': Fs, ino: nat, start: nat, n: nat) {
    Allocated(fs, fs', Places(ino, start, start + n)) && Missing(fs', Places(ino, start, start + n)) == {}
  }

  /** The same, but the byte behind them can have none. */
  ghost predicate Stuck(fs: Fs, fs': Fs, ino: nat, start: nat, n: nat) {
    && Allocated(fs, fs', Places(ino, start, start + n + 1)) && Missing(fs', Places(ino, start, start + n)) == {}
    && FreeBlocks(fs') == {} && BlockAt(fs', LeafOf(ino, start + n)) == 0
  }

  /** There are free blocks enough for the first n bytes of a write. */
  ghost predicate Enough(fs: Fs, ino: nat, start: nat, n: nat) {
    |Missing(fs, Places(ino, start, start + n))| <= |FreeBlocks(fs)|
  }

  lemma ReachedNone(fs: Fs, bad: set<nat>, ino: nat, start: nat)
    requires Inv(fs) && ino < |fs.inodes|
    ensures Reached(fs, fs, ino, start, 0) && Sound(fs, bad, ino, start, 0) && AfterWrite(fs, fs, ino, start, [])
  {
  }

  /** One more path: it has its block, or the write is stuck there. */
  lemma ReachedMore(fs: Fs, fs1: Fs, fs2: Fs, ino: nat, start: nat, n: nat, c: nat)
    requires 0 < fs.first && 0 < c <= BLOCK_SIZE - (start + n) % BLOCK_SIZE
    requires Reached(fs, fs1, ino, start, n) && Allocated(fs1, fs2, Path(LeafOf(ino, start + n)))
    ensures BlockAt(fs2, LeafOf(ino, start + n)) != 0 ==> Reached(fs, fs2, ino, start, n + c)
    ensures BlockAt(fs2, LeafOf(ino, start + n)) == 0 && FreeBlocks(fs2) == {} ==> Stuck(fs, fs2, ino, start, n)
  {
    hide Inv, LeafOf, Path, Places;
    var p, ps := LeafOf(ino, start + n), Places(ino, start, start + n);
    AllocatedTwice(fs, fs1, fs2, ps, Path(p));
    MissingStays(fs1, fs2, ps, Path(p));
    hide Allocated;
    PlacesMore(ino, start, start + n, c);
    PlacesMore(ino, start, start + n, 1);
    if BlockAt(fs2, p) != 0 {
      PathHangs(fs2, p);
      MissingBoth(fs2, ps, Path(p));
      assert start + (n + c) == start + n + c;
    }
  }

  lemma MissingBoth(fs: Fs, ps: set<Pos>, qs: set<Pos>)
    ensures Missing(fs, ps + qs) == Missing(fs, ps) + Missing(fs, qs)
  {
  }

  /** Writing into blocks takes none. */
  lemma WrittenReached(orig: Fs, fs: Fs, fs': Fs, ino: nat, start: nat, n: nat, pos: nat, chunk: seq<Byte>)
    requires Inv(fs) && ino < |fs.inodes| && pos % BLOCK_SIZE + |chunk| <= BLOCK_SIZE
    requires BlockAt(fs, LeafOf(ino, pos)) < |fs.data| && fs' == Written(fs, ino, pos, chunk)
    requires Reached(orig, fs, ino, start, n)
    ensures Reached(orig, fs', ino, start, n)
  {
    var ps := Places(ino, start, start + n);
    forall p ensures BlockAt(fs', p) == BlockAt(fs, p) { SameTrees(fs, fs', p); }
    assert Missing(fs', ps) == Missing(fs, ps);
    assert forall b: nat :: IsFree(fs', b) <==> IsFree(fs, b);
    forall b: nat | IsFree(orig, b) && !IsFree(fs', b) ensures Placed(fs', ps, b) {
      var p :| p in ps && BlockAt(fs, p) == b;
      assert BlockAt(fs', p) == b;
    }
  }

  /** The blocks of a later state that cannot be read are those of the first. */
  lemma StillMayFail(fs: Fs, fs1: Fs, ino: nat, start: nat, n: nat, bad: set<nat>)
    requires MayFail(fs, bad) && Reached(fs, fs1, ino, start, n)
    ensures MayFail(fs1, bad)
  {
    MayFailStays(fs, fs1, Places(ino, start, start + n), bad);
  }

  /** The next block of a write may be asked for. */
  lemma WriteReady(fs: Fs, fs1: Fs, ino: nat, start: nat, n: nat, pos: nat, bad: set<nat>)
    requires Reached(fs, fs1, ino, start, n) && MayFail(fs, bad) && ino < |fs1.inodes| && pos == start + n < MAX_BLOCKS * BLOCK_SIZE
    ensures MayFail(fs1, bad) && LeafOf(ino, start + n) == LeafOf(ino, pos) == Leaf(ino, pos / BLOCK_SIZE)
    ensures ValidPos(fs1, LeafOf(ino, pos)) && pos / BLOCK_SIZE < MAX_BLOCKS
    ensures BLOCK_SIZE - (start + n) % BLOCK_SIZE == BLOCK_SIZE - pos % BLOCK_SIZE
  {
    StillMayFail(fs, fs1, ino, start, n, bad);
    LeafValid(fs1, ino, pos / BLOCK_SIZE);
  }

  /** Whether the path of the byte behind n bytes is broken: before a write as in it. */
  lemma BrokenStays(fs: Fs, fs1: Fs, fs2: Fs, bad: set<nat>, ino: nat, start: nat, n: nat)
    requires 0 < fs.first && MayFail(fs, bad) && Reached(fs, fs1, ino, start, n) && ValidPos(fs1, LeafOf(ino, start + n))
    requires Allocated(fs1, fs2, Path(LeafOf(ino, start + n)))
    ensures var p := LeafOf(ino, start + n);
            && Cut(fs1, bad, p) == Cut(fs2, bad, p) == Cut(fs, bad, p)
            && (BlockAt(fs2, p) in bad <==> BlockAt(fs, p) in bad) && (BlockAt(fs1, p) in bad <==> BlockAt(fs, p) in bad)
  {
    hide LeafOf, Path, Places;
    assert ValidPos(fs, LeafOf(ino, start + n));
    CutStays(fs, fs1, Places(ino, start, start + n), bad, LeafOf(ino, start + n));
    CutStays(fs1, fs2, Path(LeafOf(ino, start + n)), bad, LeafOf(ino, start + n));
  }

  /** With no block behind n bytes, or one that cannot be read, the write ends. */
  lemma WriteHalts(fs: Fs, fs1: Fs, fs2: Fs, bad: set<nat>, ino: nat, start: nat, n: nat)
    requires 0 < fs.first && MayFail(fs, bad) && Reached(fs, fs1, ino, start, n) && ValidPos(fs1, LeafOf(ino, start + n))
    requires Grew(fs1, fs2, Path(LeafOf(ino, start + n)))
    requires Cut(fs1, bad, LeafOf(ino, start + n)) || BlockAt(fs1, LeafOf(ino, start + n)) != 0 ==> fs2 == fs1
    requires var b := Seen(fs2, bad, LeafOf(ino, start + n));
             b in bad || (b == 0 && (Cut(fs1, bad, LeafOf(ino, start + n)) || FreeBlocks(fs2) == {}))
    ensures Halted(fs, fs2, bad, ino, start, n)
  {
    var p := LeafOf(ino, start + n);
    BrokenStays(fs, fs1, fs2, bad, ino, start, n);
    SeenIs(fs2, bad, p);
    hide LeafOf, Path, Places, Reached, Stuck, Cut, Seen, Allocated;
    if Seen(fs2, bad, p) in bad || Cut(fs1, bad, p) {
      assert Broken(fs, bad, p);
      assert fs2 == fs1;
    } else {
      ReachedMore(fs, fs1, fs2, ino, start, n, 1);
    }
  }

  /** With a block that can be read, the path is sound. */
  lemma WriteGoesOn(fs: Fs, fs1: Fs, fs2: Fs, bad: set<nat>, ino: nat, start: nat, n: nat, c: nat)
    requires 0 < fs.first && MayFail(fs, bad) && Reached(fs, fs1, ino, start, n) && ValidPos(fs1, LeafOf(ino, start + n))
    requires Grew(fs1, fs2, Path(LeafOf(ino, start + n))) && 0 < c <= BLOCK_SIZE - (start + n) % BLOCK_SIZE
    requires Seen(fs2, bad, LeafOf(ino, start + n)) != 0 && Seen(fs2, bad, LeafOf(ino, start + n)) !in bad
    requires Sound(fs, bad, ino, start, n)
    ensures Reached(fs, fs2, ino, start, n + c) && Sound(fs, bad, ino, start, n + c)
    ensures Seen(fs2, bad, LeafOf(ino, start + n)) == BlockAt(fs2, LeafOf(ino, start + n))
  {
    var p := LeafOf(ino, start + n);
    BrokenStays(fs, fs1, fs2, bad, ino, start, n);
    SeenIs(fs2, bad, p);
    ReachedMore(fs, fs1, fs2, ino, start, n, c);
    SoundMore(fs, bad, ino, start, n, c);
  }

  /** Either way. */
  lemma WriteNext(fs: Fs, fs1: Fs, fs2: Fs, bad: set<nat>, ino: nat, start: nat, n: nat, c: nat, p: Pos, b: nat)
    requires 0 < fs.first && MayFail(fs, bad) && Reached(fs, fs1, ino, start, n) && Sound(fs, bad, ino, start, n)
    requires 0 < c <= BLOCK_SIZE - (start + n) % BLOCK_SIZE && p == LeafOf(ino, start + n) && b == Seen(fs2, bad, p)
    requires ValidPos(fs1, p) && Grew(fs1, fs2, Path(p)) && (Cut(fs1, bad, p) || BlockAt(fs1, p) != 0 ==> fs2 == fs1)
    requires b == 0 ==> Cut(fs1, bad, p) || FreeBlocks(fs2) == {}
    ensures if b == 0 || b in bad then Halted(fs, fs2, bad, ino, start, n)
            else b == BlockAt(fs2, p) && Reached(fs, fs2, ino, start, n + c) && Sound(fs, bad, ino, start, n + c)
  {
    hide *;
    if b == 0 || b in bad { WriteHalts(fs, fs1, fs2, bad, ino, start, n); } else { WriteGoesOn(fs, fs1, fs2, bad, ino, start, n, c); }
  }

  lemma SoundMore(fs: Fs, bad: set<nat>, ino: nat, start: nat, n: nat, c: nat)
    requires Sound(fs, bad, ino, start, n) && !Broken(fs, bad, LeafOf(ino, start + n))
    requires 0 < c <= BLOCK_SIZE - (start + n) % BLOCK_SIZE
    ensures Sound(fs, bad, ino, start, n + c)
  {
    hide Broken;
    forall x: nat | start <= x < start + n + c ensures !Broken(fs, bad, LeafOf(ino, x)) {
      if x >= start + n { SameBlock(start + n, x, c); }
    }
  }

  /** file_read's next chunk. */
  lemma ReadMore(fs: Fs, bad: set<nat>, ino: nat, pos: nat, buf: seq<Byte>, chunk: seq<Byte>)
    requires Readable(fs, bad, ino, pos, |buf|) && (pos + |buf|) % BLOCK_SIZE + |chunk| <= BLOCK_SIZE
    requires forall k | 0 <= k < |buf| :: buf[k] == SeenByte(fs, bad, ino, pos + k)
    requires var b := Seen(fs, bad, LeafOf(ino, pos + |buf|));
             b !in bad && forall k | 0 <= k < |chunk| :: chunk[k] == ByteOf(fs, b, (pos + |buf|) % BLOCK_SIZE + k)
    ensures Readable(fs, bad, ino, pos, |buf + chunk|)
    ensures forall k | 0 <= k < |buf + chunk| :: (buf + chunk)[k] == SeenByte(fs, bad, ino, pos + k)
  {
    var start := pos + |buf|;
    forall x: nat | start <= x < start + |chunk|
      ensures LeafOf(ino, x) == LeafOf(ino, start) && x % BLOCK_SIZE == start % BLOCK_SIZE + (x - start) {
      SameBlock(start, x, |chunk|);
    }
    forall x: nat | pos <= x < pos + |buf + chunk| ensures Seen(fs, bad, LeafOf(ino, x)) !in bad { }
    forall k | 0 <= k < |buf + chunk| ensures (buf + chunk)[k] == SeenByte(fs, bad, ino, pos + k) {
      if k >= |buf| { assert (buf + chunk)[k] == chunk[k - |buf|]; }
    }
  }

  /** How far a write gets: so long as no block on the way fails and the blocks free before it are enough for all
      the places missing. */
  lemma WriteOutcome(fs: Fs, fs': Fs, bad: set<nat>, ino: nat, start: nat, i: nat, n: nat)
    requires Inv(fs) && Inv(fs') && i <= n && Sound(fs, bad, ino, start, i)
    requires if i < n then Halted(fs, fs', bad, ino, start, i) else Reached(fs, fs', ino, start, i)
    ensures forall k | 0 <= k <= n :: k <= i <==> Sound(fs, bad, ino, start, k) && Enough(fs, ino, start, k)
  {
    forall k | 0 <= k <= n ensures k <= i <==> Sound(fs, bad, ino, start, k) && Enough(fs, ino, start, k) {
      if k <= i {
        ReachedEnough(fs, fs', ino, start, i, k);
      } else if Stuck(fs, fs', ino, start, i) {
        StuckTooFew(fs, fs', ino, start, i, k);
      }
    }
  }

  /** A write ends early because no block is free, or because one cannot be read. */
  ghost predicate Halted(fs: Fs, fs': Fs, bad: set<nat>, ino: nat, start: nat, n: nat) {
    Stuck(fs, fs', ino, start, n) || (Reached(fs, fs', ino, start, n) && Broken(fs, bad, LeafOf(ino, start + n)))
  }

  lemma ReachedEnough(fs: Fs, fs': Fs, ino: nat, start: nat, i: nat, k: nat)
    requires Inv(fs) && Inv(fs') && k <= i
    requires Stuck(fs, fs', ino, start, i) || Reached(fs, fs', ino, start, i)
    ensures Enough(fs, ino, start, k)
  {
    var ps, all := Places(ino, start, start + k), Places(ino, start, start + i);
    PlacesLess(ino, start, start + k, start + i);
    PlacesLess(ino, start, start + i, start + i + 1);
    forall p | p in ps ensures BlockAt(fs', p) != 0 { assert p in all && p !in Missing(fs', all); }
    EnoughFree(fs, fs', ps, if Reached(fs, fs', ino, start, i) then all else Places(ino, start, start + i + 1));
  }

  lemma StuckTooFew(fs: Fs, fs': Fs, ino: nat, start: nat, i: nat, k: nat)
    requires Inv(fs) && Inv(fs') && i < k && Stuck(fs, fs', ino, start, i)
    ensures !Enough(fs, ino, start, k)
  {
    var tried, p := Places(ino, start, start + i + 1), LeafOf(ino, start + i);
    PlacesLess(ino, start, start + i + 1, start + k);
    PlacesMore(ino, start, start + i, 1);
    assert p in Path(p);
    TooFewFree(fs, fs', tried, Places(ino, start, start + k), p);
  }

  /** The next chunk continues the write. */
  lemma MoreWritten(fs: Fs, fs1: Fs, ino: nat, start: nat, buf: seq<Byte>, chunk: seq<Byte>)
    requires AfterWrite(fs, fs1, ino, start, buf) && chunk != []
    requires var pos := start + |buf|;
             && pos % BLOCK_SIZE + |chunk| <= BLOCK_SIZE && pos + |chunk| <= MAX_BLOCKS * BLOCK_SIZE
             && BlockAt(fs1, Leaf(ino, pos / BLOCK_SIZE)) != 0
    ensures var pos := start + |buf|;
            && BlockAt(fs1, Leaf(ino, pos / BLOCK_SIZE)) < |fs1.data|
            && AfterWrite(fs, Written(fs1, ino, pos, chunk), ino, start, buf + chunk)
  {
    hide Forest;
    var pos := start + |buf|;
    WrittenKeeps(fs1, ino, pos, chunk);
    var fs2 := Written(fs1, ino, pos, chunk);
    forall i, x | 0 <= i < |fs.inodes| && 0 <= x < MAX_BLOCKS * BLOCK_SIZE
      ensures ByteAt(fs2, i, x)
              == if i == ino && start <= x < start + |buf + chunk| then (buf + chunk)[x - start] else ByteAt(fs, i, x) {
      WrittenByte(fs1, ino, pos, chunk, i, x);
    }
  }

  // ----- giving a tree back

  /** Bit j stands for the block at one of the places ps. */
  ghost predicate Marked(fs: Fs, ps: iset<Pos>, j: nat) {
    exists p :: p in ps && BlockAt(fs, p) != 0 && BlockAt(fs, p) + 1 - fs.first == j
  }

  /** Of the bits of fs, exactly those of the blocks at the places ps are cleared. */
  ghost predicate Cleared(fs: Fs, bits: seq<bool>, ps: iset<Pos>) {
    && |bits| == |fs.bits| && (forall p | p in ps :: ValidPos(fs, p))
    && forall j | 0 <= j < |bits| :: bits[j] == (fs.bits[j] && !Marked(fs, ps, j))
  }

  ghost function Children(q: Pos, n: nat): iset<Pos> { iset j: nat | j < n :: Child(q, j) }

  /** All places of a file's tree. */
  ghost function Tree(fs: Fs, ino: nat): iset<Pos> { iset p | ValidPos(fs, p) && OwnerOf(p) == ino }

  lemma MarkedMore(fs: Fs, ps: iset<Pos>, q: Pos, j: nat)
    requires BlockAt(fs, q) != 0
    ensures Marked(fs, ps + iset{q}, j) <==> Marked(fs, ps, j) || BlockAt(fs, q) + 1 - fs.first == j
  {
    if Marked(fs, ps, j) {
      var p :| p in ps && BlockAt(fs, p) != 0 && BlockAt(fs, p) + 1 - fs.first == j;
      assert p in ps + iset{q};
    }
    assert q in ps + iset{q};
  }

  lemma NotMarkedYet(fs: Fs, ps: iset<Pos>, q: Pos)
    requires Forest(fs) && (forall p | p in ps :: ValidPos(fs, p)) && ValidPos(fs, q) && q !in ps && BlockAt(fs, q) != 0
    ensures InUse(fs, BlockAt(fs, q)) && !Marked(fs, ps, BlockAt(fs, q) + 1 - fs.first)
  {
    var k := BlockAt(fs, q) + 1 - fs.first;
    forall p | p in ps && BlockAt(fs, p) != 0 ensures BlockAt(fs, p) + 1 - fs.first != k { assert p != q; }
  }

  /** The block at a place not cleared yet is still marked used, and clearing it clears that place. */
  lemma ClearMore(fs: Fs, bits: seq<bool>, ps: iset<Pos>, q: Pos)
    requires Inv(fs) && Cleared(fs, bits, ps) && ValidPos(fs, q) && q !in ps && BlockAt(fs, q) != 0
    ensures fs.first <= BlockAt(fs, q) < fs.nzones && BlockAt(fs, q) + 1 - fs.first < |bits|
    ensures bits[BlockAt(fs, q) + 1 - fs.first]
    ensures Cleared(fs, bits[BlockAt(fs, q) + 1 - fs.first := false], ps + iset{q})
  {
    NotMarkedYet(fs, ps, q);
    var k := BlockAt(fs, q) + 1 - fs.first;
    var bits' := bits[k := false];
    forall p | p in ps + iset{q} ensures ValidPos(fs, p) {}
    hide Marked, Inv, BlockAt, ValidPos;
    forall j | 0 <= j < |bits'| ensures bits'[j] == (fs.bits[j] && !Marked(fs, ps + iset{q}, j)) {
      MarkedMore(fs, ps, q, j);
    }
  }

  /** Places without a block need no clearing. */
  lemma ClearNothing(fs: Fs, bits: seq<bool>, ps: iset<Pos>, qs: iset<Pos>)
    requires Cleared(fs, bits, ps) && forall q | q in qs :: ValidPos(fs, q) && BlockAt(fs, q) == 0
    ensures Cleared(fs, bits, ps + qs)
  {
    forall j | 0 <= j < |bits| ensures Marked(fs, ps + qs, j) == Marked(fs, ps, j) {
      if Marked(fs, ps, j) {
        var p :| p in ps && BlockAt(fs, p) != 0 && BlockAt(fs, p) + 1 - fs.first == j;
        assert p in ps + qs;
      }
    }
  }

  lemma ClearSame(fs: Fs, bits: seq<bool>, ps: iset<Pos>, qs: iset<Pos>)
    requires Cleared(fs, bits, ps) && ps == qs
    ensures Cleared(fs, bits, qs)
  {
  }

  /** A file without blocks and without bytes. */
  function EmptyInode(): (n: Inode)
    ensures |n.zone| == 9
  {
    Inode([0, 0, 0, 0, 0, 0, 0, 0, 0], 0)
  }

  /** The places of ps that can be reached. */
  ghost function Uncut(fs: Fs, bad: set<nat>, ps: iset<Pos>): iset<Pos> { iset p | p in ps && !Cut(fs, bad, p) }

  /** The state after truncate: the blocks of the file's tree that can be reached are free, and the file is empty. */
  ghost predicate Truncated(fs: Fs, fs': Fs, ino: nat, bad: set<nat>) {
    && ino < |fs.inodes| && fs' == fs.(bits := fs'.bits, inodes := fs.inodes[ino := EmptyInode()])
    && Cleared(fs, fs'.bits, Uncut(fs, bad, Tree(fs, ino)))
  }

  lemma {:induction false} TruncatedAt(fs: Fs, fs': Fs, ino: nat, bad: set<nat>, p: Pos)
    requires Inv(fs) && Truncated(fs, fs', ino, bad) && ValidPos(fs, p)
    ensures BlockAt(fs', p) == if OwnerOf(p) == ino then 0 else BlockAt(fs, p)
  {
    if p.Child? { TruncatedAt(fs, fs', ino, bad, p.parent); }
  }

  lemma TruncatedUse(fs: Fs, fs': Fs, ino: nat, bad: set<nat>, p: Pos)
    requires Inv(fs) && Truncated(fs, fs', ino, bad) && ValidPos(fs, p) && OwnerOf(p) != ino && BlockAt(fs, p) != 0
    ensures InUse(fs', BlockAt(fs, p))
  {
    assert InUse(fs, BlockAt(fs, p));
    assert !Marked(fs, Uncut(fs, bad, Tree(fs, ino)), BlockAt(fs, p) + 1 - fs.first);
  }

  /** truncate keeps the invariant, empties this file and leaves every other as it was. */
  lemma TruncatedKeeps(fs: Fs, fs': Fs, ino: nat, bad: set<nat>)
    requires Inv(fs) && Truncated(fs, fs', ino, bad)
    ensures Inv(fs') && Contents(fs', ino) == []
    ensures forall i | 0 <= i < |fs.inodes| && i != ino :: Contents(fs', i) == Contents(fs, i)
  {
    assert forall p :: ValidPos(fs', p) <==> ValidPos(fs, p);
    forall p | ValidPos(fs, p) ensures BlockAt(fs', p) == if OwnerOf(p) == ino then 0 else BlockAt(fs, p) {
      TruncatedAt(fs, fs', ino, bad, p);
    }
    forall p | ValidPos(fs', p) && BlockAt(fs', p) != 0 ensures InUse(fs', BlockAt(fs', p)) { TruncatedUse(fs, fs', ino, bad, p); }
    assert Shaped(fs') by { FirstBitStays(fs, fs', ino, bad); }
    forall i, x | 0 <= i < |fs.inodes| && 0 <= x < MAX_BLOCKS * BLOCK_SIZE
      ensures ByteAt(fs', i, x) == if i == ino then 0 else ByteAt(fs, i, x) {
      LeafValid(fs, i, x / BLOCK_SIZE);
    }
    forall i | 0 <= i < |fs.inodes| && i != ino ensures Contents(fs', i) == Contents(fs, i) { }
  }

  /** No block of the data zone is marked used for nothing. */
  ghost predicate NoneLost(fs: Fs) {
    forall b: nat | InUse(fs, b) :: exists p :: ValidPos(fs, p) && BlockAt(fs, p) == b
  }

  /** Whatever was allocated, none is lost. */
  lemma AllocatedLosesNone(fs: Fs, fs': Fs, ps: set<Pos>)
    requires Inv(fs) && NoneLost(fs) && Allocated(fs, fs', ps)
    ensures NoneLost(fs')
  {
    assert forall q :: ValidPos(fs', q) <==> ValidPos(fs, q);
    forall b: nat | InUse(fs', b) ensures exists p :: ValidPos(fs', p) && BlockAt(fs', p) == b {
      if InUse(fs, b) {
        var p :| ValidPos(fs, p) && BlockAt(fs, p) == b;
        assert BlockAt(fs', p) == b;
      } else {
        assert IsFree(fs, b) && Placed(fs', ps, b);
      }
    }
  }

  /** truncate frees just the blocks of the tree that it can reach, and so loses none if and only if it can reach all
      of them. */
  lemma TruncatedLosesNone(fs: Fs, fs': Fs, ino: nat, bad: set<nat>)
    requires Inv(fs) && Truncated(fs, fs', ino, bad) && NoneLost(fs)
    ensures NoneLost(fs') <==> forall p | p in Tree(fs, ino) && BlockAt(fs, p) != 0 :: !Cut(fs, bad, p)
  {
    hide Cut;
    assert forall p :: ValidPos(fs', p) <==> ValidPos(fs, p);
    forall p | ValidPos(fs, p) ensures BlockAt(fs', p) == if OwnerOf(p) == ino then 0 else BlockAt(fs, p) {
      TruncatedAt(fs, fs', ino, bad, p);
    }
    if p :| p in Tree(fs, ino) && BlockAt(fs, p) != 0 && Cut(fs, bad, p) {
      CutIsLost(fs, fs', ino, bad, p);
    } else {
      forall b: nat | InUse(fs', b) ensures exists p :: ValidPos(fs', p) && BlockAt(fs', p) == b {
        assert InUse(fs, b);
        var p :| ValidPos(fs, p) && BlockAt(fs, p) == b;
        NotCleared(fs, fs', ino, bad, p);
      }
      hide Marked;
    }
  }

  lemma NotCleared(fs: Fs, fs': Fs, ino: nat, bad: set<nat>, p: Pos)
    requires Truncated(fs, fs', ino, bad) && BlockAt(fs, p) != 0 && InUse(fs', BlockAt(fs, p))
    ensures p !in Uncut(fs, bad, Tree(fs, ino))
  {
    if p in Uncut(fs, bad, Tree(fs, ino)) { assert Marked(fs, Uncut(fs, bad, Tree(fs, ino)), BlockAt(fs, p) + 1 - fs.first); }
  }

  /** A block that truncate cannot reach stays marked used. */
  lemma CutIsLost(fs: Fs, fs': Fs, ino: nat, bad: set<nat>, p: Pos)
    requires Inv(fs) && Truncated(fs, fs', ino, bad) && p in Tree(fs, ino) && BlockAt(fs, p) != 0 && Cut(fs, bad, p)
    requires forall q | ValidPos(fs, q) :: ValidPos(fs', q) && BlockAt(fs', q) == if OwnerOf(q) == ino then 0 else BlockAt(fs, q)
    ensures !NoneLost(fs')
  {
    hide Cut;
    var b := BlockAt(fs, p);
    assert InUse(fs, b);
    assert !Marked(fs, Uncut(fs, bad, Tree(fs, ino)), b + 1 - fs.first);
    assert InUse(fs', b);
    forall q | ValidPos(fs', q) ensures BlockAt(fs', q) != b { assert ValidPos(fs, q); }
  }

  /** A block is free after truncate if it was, or if truncate could reach it in the file's tree. */
  lemma TruncatedFree(fs: Fs, fs': Fs, ino: nat, bad: set<nat>, b: nat)
    requires Inv(fs) && Truncated(fs, fs', ino, bad)
    ensures IsFree(fs', b) <==> IsFree(fs, b) || exists p :: p in Uncut(fs, bad, Tree(fs, ino)) && BlockAt(fs, p) == b != 0
  {
    var ps := Uncut(fs, bad, Tree(fs, ino));
    if p :| p in ps && BlockAt(fs, p) == b != 0 {
      assert InUse(fs, b);
      assert Marked(fs, ps, b + 1 - fs.first);
    } else {
      assert fs.first <= b ==> !Marked(fs, ps, b + 1 - fs.first);
    }
  }

  lemma FirstBitStays(fs: Fs, fs': Fs, ino: nat, bad: set<nat>)
    requires Inv(fs) && Truncated(fs, fs', ino, bad)
    ensures fs'.bits[0]
  {
    assert !Marked(fs, Uncut(fs, bad, Tree(fs, ino)), 0);
  }

  /** The places behind the first n entries of a file's double indirect block. */
  ghost function Below(ino: nat, n: nat): iset<Pos> {
    iset p: Pos | p.Child? && ((p.j < n && p.parent == Root(ino, 8))
                               || (p.j < ENTRIES && p.parent.Child? && p.parent.j < n && p.parent.parent == Root(ino, 8)))
  }

  lemma UncutNone(fs: Fs, bad: set<nat>, ino: nat)
    ensures Uncut(fs, bad, Below(ino, 0)) == iset{}
  {
  }

  /** Behind a double indirect block that cannot be read nothing is reached. */
  lemma UncutAll(fs: Fs, bad: set<nat>, ino: nat)
    requires BlockAt(fs, Root(ino, 8)) in bad
    ensures Uncut(fs, bad, Below(ino, ENTRIES)) == iset{}
  {
    forall p | p in Below(ino, ENTRIES) ensures Cut(fs, bad, p) { }
  }

  lemma UncutMore(fs: Fs, bad: set<nat>, ino: nat, i: nat)
    requires i < ENTRIES && 0 !in bad && BlockAt(fs, Root(ino, 8)) !in bad
    ensures var q := Child(Root(ino, 8), i);
            Uncut(fs, bad, Below(ino, i + 1))
            == Uncut(fs, bad, Below(ino, i)) + Freed(fs, bad, q)
  {
    var q := Child(Root(ino, 8), i);
    var before, after := Uncut(fs, bad, Below(ino, i)), Uncut(fs, bad, Below(ino, i + 1));
    assert !Cut(fs, bad, q);
    forall p ensures p in after <==> p in before + Freed(fs, bad, q) { }
  }

  /** What free_dind comes to next has not been freed. */
  lemma NotBelow(fs: Fs, bad: set<nat>, ps: iset<Pos>, ino: nat, i: nat)
    requires i < ENTRIES && forall p | p in Below(ino, ENTRIES) :: p !in ps
    ensures var q := Child(Root(ino, 8), i);
            q !in ps + Uncut(fs, bad, Below(ino, i))
            && forall j: nat | j < ENTRIES :: Child(q, j) !in ps + Uncut(fs, bad, Below(ino, i))
  {
  }

  ghost function Direct(ino: nat): iset<Pos> { iset k: nat | k < 7 :: Root(ino, k) }

  /** The places free_ind frees when called for the place q. */
  ghost function Freed(fs: Fs, bad: set<nat>, q: Pos): iset<Pos> {
    (if BlockAt(fs, q) in bad then iset{} else Children(q, ENTRIES)) + iset{q}
  }

  lemma FreedApart(fs: Fs, bad: set<nat>, ino: nat)
    requires ino < |fs.inodes|
    ensures var q, r := Root(ino, 7), Root(ino, 8);
            && q !in Direct(ino) && (forall j: nat | j < ENTRIES :: ValidPos(fs, Child(q, j)) && Child(q, j) !in Direct(ino))
            && (forall p | p in Below(ino, ENTRIES) :: p !in Direct(ino) + Freed(fs, bad, q)) && r !in Direct(ino) + Freed(fs, bad, q)
  {
  }

  /** What truncate can reach of a tree, listed as it goes through it. */
  lemma UncutTree(fs: Fs, bad: set<nat>, ino: nat, ps: iset<Pos>)
    requires ino < |fs.inodes|
    requires ps == Direct(ino) + Freed(fs, bad, Root(ino, 7)) + Uncut(fs, bad, Below(ino, ENTRIES)) + iset{Root(ino, 8)}
    ensures ps == Uncut(fs, bad, Tree(fs, ino))
  {
    forall p ensures p in ps <==> p in Uncut(fs, bad, Tree(fs, ino)) {
      match p
      case Root(i, k) =>
      case Child(Root(i, k), j) =>
        assert OwnerOf(p) == OwnerOf(p.parent) == i;
        assert Cut(fs, bad, p) <==> BlockAt(fs, p.parent) in bad;
      case Child(Child(Root(i, k), m), j) => assert OwnerOf(p) == OwnerOf(p.parent) == OwnerOf(p.parent.parent) == i;
      case Child(Child(Child(_, _), _), _) =>
    }
  }
}
