/** The block allocator, the block trees and the byte loops of fs/bitmap.c, fs/inode.c, fs/file_dev.c and
    fs/truncate.c, on one device, in place. */
module FileSystem {
  import opened FileSpec

  const MAP_BITS: nat := 8192
  const ERROR: int := 99

  class Device {
    const first: nat
    const nzones: nat
    const maps: nat
    const bits: array<bool>
    const data: array<seq<Byte>>
    const table: array<seq<nat>>
    const inodes: array<Inode>

    ghost function Snap(): Fs
      reads bits, data, table, inodes
    {
      Fs(first, nzones, bits[..], data[..], table[..], inodes[..])
    }

    ghost predicate Valid()
      reads bits, data, table, inodes
    {
      Inv(Snap()) && maps <= 8 && bits.Length == maps * MAP_BITS
    }

    /** read_super takes over a device whose files are all empty; bit 0 stands for no block and is set. */
    constructor (first: nat, nzones: nat, marks: seq<bool>, n: nat)
      requires 0 < first <= nzones && 0 < |marks| <= 8 * MAP_BITS && |marks| % MAP_BITS == 0
      ensures Valid() && fresh(bits) && fresh(data) && fresh(table) && fresh(inodes)
      ensures Snap().first == first && Snap().nzones == nzones && bits[..] == marks[0 := true] && inodes.Length == n
      ensures forall i | 0 <= i < n :: Contents(Snap(), i) == []
    {
      this.first := first;
      this.nzones := nzones;
      maps := |marks| / MAP_BITS;
      bits := new bool[|marks|](i requires 0 <= i < |marks| => i == 0 || marks[i]);
      data := new seq<Byte>[nzones](_ => ZeroBlock());
      table := new seq<nat>[nzones](_ => ZeroTable());
      inodes := new Inode[n](_ => EmptyInode());
      new;
      EmptyKeeps(Snap());
    }

    /** The first zero bit of one bitmap block, MAP_BITS if there is none. */
    method FindFirstZero(i: nat) returns (j: nat)
      requires (i + 1) * MAP_BITS <= bits.Length
      ensures j <= MAP_BITS && (forall k | i * MAP_BITS <= k < i * MAP_BITS + j :: bits[k])
      ensures j < MAP_BITS ==> !bits[i * MAP_BITS + j]
    {
      j := 0;
      while j < MAP_BITS && bits[i * MAP_BITS + j]
        invariant j <= MAP_BITS && forall k | i * MAP_BITS <= k < i * MAP_BITS + j :: bits[k]
      {
        j := j + 1;
      }
    }

    /** The first zero bit of all bitmap blocks, or the number of bits. */
    method FindFree() returns (j: nat)
      requires bits.Length == maps * MAP_BITS
      ensures j <= bits.Length && (forall k | 0 <= k < j :: bits[k]) && (j < bits.Length ==> !bits[j])
    {
      var i := 0;
      while i < maps
        invariant 0 <= i <= maps && forall k | 0 <= k < i * MAP_BITS :: bits[k]
      {
        var k := FindFirstZero(i);
        if k < MAP_BITS {
          return i * MAP_BITS + k;
        }
        i := i + 1;
      }
      j := bits.Length;
    }

    /** The first free block, marked used and cleared; 0 if the data zone is full. */
    method NewBlock() returns (b: nat)
      requires Valid()
      modifies bits, data, table
      ensures Valid()
      ensures b != 0 ==>
                && first <= b < nzones && b + 1 - first < bits.Length && !old(bits[b + 1 - first])
                && (forall k | 0 <= k < b + 1 - first :: old(bits[k]))
                && Snap().data == Taken(old(Snap()), b).data && Snap() == Taken(old(Snap()), b)
      ensures b == Found(old(Snap())) && Snap() == AfterNew(old(Snap()))
      ensures b == 0 ==> FreeBlocks(Snap()) == {} && Grew(old(Snap()), Snap(), {})
      ensures b == 0 ==> forall k | 0 <= k < bits.Length && k + first - 1 < nzones :: bits[k] == old(bits[k])
      ensures b == 0 ==> data[..] == old(data[..]) && table[..] == old(table[..])
    {
      ghost var fs := Snap();
      var j := FindFree();
      FirstClearIs(fs.bits, j);
      if j >= bits.Length {
        GrewNot(fs);
        return 0;
      }
      bits[j] := true;
      if j + first - 1 >= nzones {
        LeakedGrew(fs, j);
        assert Snap() == Leaked(fs, j);
        return 0;
      }
      b := j + first - 1;
      data[b] := ZeroBlock();
      table[b] := ZeroTable();
      assert Snap() == Taken(fs, b);
      TakenKeeps(fs, b);
    }
  
    /** A missing zone of an inode is filled in with a new block. */
    method NewZone(ino: nat, k: nat)
      requires Valid() && ino < inodes.Length && k < 9 && inodes[ino].zone[k] == 0
      modifies bits, data, table, inodes
      ensures Valid() && Grew(old(Snap()), Snap(), {Root(ino, k)})
      ensures inodes[ino].zone[k] == 0 ==> FreeBlocks(Snap()) == {}
    {
      ghost var fs, p := Snap(), Root(ino, k);
      var z := NewBlock();
      if z == 0 {
        GrewMore(fs, Snap(), {}, {p});
        return;
      }
      HungGrew(fs, p, z);
      inodes[ino] := inodes[ino].(zone := SetEntry(inodes[ino].zone, k, z));
      assert Snap() == Hung(fs, p, z);
    }

    /** A zone of an inode; with `create`, a missing one is filled in. */
    method ZoneAt(ino: nat, k: nat, create: bool) returns (z: nat)
      requires Valid() && ino < inodes.Length && k < 9
      modifies bits, data, table, inodes
      ensures Valid() && Grew(old(Snap()), Snap(), {Root(ino, k)}) && z == BlockAt(Snap(), Root(ino, k))
      ensures !create || old(inodes[ino].zone[k]) != 0 ==> Snap() == old(Snap())
      ensures create && z == 0 ==> FreeBlocks(Snap()) == {}
    {
      if create && inodes[ino].zone[k] == 0 {
        NewZone(ino, k);
      } else {
        GrewNot(Snap());
        GrewMore(Snap(), Snap(), {}, {Root(ino, k)});
      }
      z := inodes[ino].zone[k];
    }

    /** A missing entry of an indirect block is filled in with a new block. */
    method NewEntry(ghost q: Pos, b: nat, j: nat)
      requires Valid() && ValidPos(Snap(), q) && ValidPos(Snap(), Child(q, j)) && BlockAt(Snap(), q) == b != 0
      requires BlockAt(Snap(), Child(q, j)) == 0
      modifies bits, data, table
      ensures Valid() && Grew(old(Snap()), Snap(), {Child(q, j)})
      ensures BlockAt(Snap(), Child(q, j)) == 0 ==> FreeBlocks(Snap()) == {}
    {
      ghost var fs, p := Snap(), Child(q, j);
      assert InUse(fs, b);
      var z := NewBlock();
      if z == 0 {
        GrewMore(fs, Snap(), {}, {p});
        return;
      }
      HungGrew(fs, p, z);
      table[b] := SetEntry(table[b], j, z);
      assert Snap() == Hung(fs, p, z);
    }

    /** An entry of an indirect block; with `create`, a missing one is filled in. */
    method EntryAt(ghost q: Pos, b: nat, j: nat, create: bool) returns (z: nat)
      requires Valid() && ValidPos(Snap(), q) && ValidPos(Snap(), Child(q, j)) && BlockAt(Snap(), q) == b != 0
      modifies bits, data, table
      ensures Valid() && Grew(old(Snap()), Snap(), {Child(q, j)}) && z == BlockAt(Snap(), Child(q, j))
      ensures !create || BlockAt(old(Snap()), Child(q, j)) != 0 ==> Snap() == old(Snap())
      ensures create && z == 0 ==> FreeBlocks(Snap()) == {}
    {
      assert InUse(Snap(), b);
      if create && table[b][j] == 0 {
        NewEntry(q, b, j);
      } else {
        GrewNot(Snap());
        GrewMore(Snap(), Snap(), {}, {Child(q, j)});
      }
      z := table[b][j];
    }

    /** _bmap: the block of a file's n-th block; with `create`, missing blocks on the way are filled in.  Behind a block
        that cannot be read it finds none. */
    method Bmap(ino: nat, n: nat, create: bool, bad: set<nat>) returns (b: nat)
      requires Valid() && ino < inodes.Length && n < MAX_BLOCKS && MayFail(Snap(), bad)
      modifies bits, data, table, inodes
      ensures Valid() && Grew(old(Snap()), Snap(), Path(Leaf(ino, n))) && b == Seen(Snap(), bad, Leaf(ino, n))
      ensures var p, fs := Leaf(ino, n), old(Snap());
              && (!create || Cut(fs, bad, p) || BlockAt(fs, p) != 0 ==> Snap() == fs)
              && (create && b == 0 ==> Cut(fs, bad, p) || FreeBlocks(Snap()) == {})
              && (create ==> (b == 0 <==> Cut(fs, bad, p) || |Missing(fs, Path(p))| > |FreeBlocks(fs)|))
      ensures Numbered(Snap(), bad, ino, n, b)
    {
      ghost var fs, p := Snap(), Leaf(ino, n);
      LeafValid(fs, ino, n);
      assert Inv(fs);
      hide *;
      b := BmapIn(ino, n, create, bad);
      MappedOutcome(fs, Snap(), create, bad, p);
      NumberedIs(Snap(), bad, ino, n);
    }

    /** The three cases of _bmap. */
    method BmapIn(ino: nat, n: nat, create: bool, bad: set<nat>) returns (b: nat)
      requires Valid() && ino < inodes.Length && n < MAX_BLOCKS && MayFail(Snap(), bad)
      modifies bits, data, table, inodes
      ensures Valid() && Mapped(old(Snap()), Snap(), create, bad, Leaf(ino, n)) && b == Seen(Snap(), bad, Leaf(ino, n))
    {
      ghost var fs := Snap();
      LeafCases(ino, n);
      hide Grew, Mapped, Inv, Cut, Seen, Path, MayFail, FreeBlocks, Leaf;
      if n < 7 {
        b := ZoneAt(ino, n, create);
        MappedRoot(fs, Snap(), create, bad, ino, n);
        return;
      }
      var block := n - 7;
      if block < 512 {
        b := Indirect(ino, block, create, bad);
        return;
      }
      b := DoubleIndirect(ino, block - 512, create, bad);
    }

    /** _bmap for the blocks behind the indirect block. */
    method Indirect(ino: nat, block: nat, create: bool, bad: set<nat>) returns (b: nat)
      requires Valid() && ino < inodes.Length && block < 512 && MayFail(Snap(), bad)
      modifies bits, data, table, inodes
      ensures var p := Child(Root(ino, 7), block);
              Valid() && Mapped(old(Snap()), Snap(), create, bad, p) && b == Seen(Snap(), bad, p)
    {
      ghost var fs := Snap();
      var z := ZoneAt(ino, 7, create);
      b := Behind(fs, Root(ino, 7), z, block, create, bad);
    }

    /** _bmap for the blocks behind the double indirect block. */
    method DoubleIndirect(ino: nat, block: nat, create: bool, bad: set<nat>) returns (b: nat)
      requires Valid() && ino < inodes.Length && block < 512 * 512 && MayFail(Snap(), bad)
      modifies bits, data, table, inodes
      ensures var p := Child(Child(Root(ino, 8), block / 512), block % 512);
              Valid() && Mapped(old(Snap()), Snap(), create, bad, p) && b == Seen(Snap(), bad, p)
    {
      ghost var fs := Snap();
      var z := ZoneAt(ino, 8, create);
      var i := Behind(fs, Root(ino, 8), z, block / 512, create, bad);
      b := Behind(fs, Child(Root(ino, 8), block / 512), i, block % 512, create, bad);
    }

    /** Entry j of the block z at place q, unless there is none or it cannot be read. */
    method Behind(ghost fs: Fs, ghost q: Pos, z: nat, j: nat, create: bool, bad: set<nat>) returns (b: nat)
      requires Valid() && 0 < fs.first && MayFail(fs, bad) && ValidPos(fs, q) && ValidPos(fs, Child(q, j))
      requires Mapped(fs, Snap(), create, bad, q) && z == Seen(Snap(), bad, q)
      modifies bits, data, table
      ensures Valid() && Mapped(fs, Snap(), create, bad, Child(q, j)) && b == Seen(Snap(), bad, Child(q, j))
    {
      ghost var fs1 := Snap();
      if z == 0 || z in bad {
        MappedEnds(fs, fs1, create, bad, q, j);
        return 0;
      }
      MayFailStays(fs, fs1, Path(q), bad);
      SeenIs(fs1, bad, q);
      b := EntryAt(q, z, j, create);
      MappedMore(fs, fs1, Snap(), create, bad, q, j);
    }

    /** file_read: count bytes from fpos on, holes as zeros, up to the first block that cannot be read. */
    method FileRead(ino: nat, fpos: nat, count: int, bad: set<nat>) returns (r: int, buf: seq<Byte>, fpos': nat)
      requires Valid() && ino < inodes.Length && fpos + count <= MAX_BLOCKS * BLOCK_SIZE && MayFail(Snap(), bad)
      modifies bits, data, table, inodes
      ensures Snap() == old(Snap()) && Valid()
      ensures r == (if count > 0 && buf == [] then -ERROR else |buf|) && fpos' == fpos + |buf|
      ensures forall k | 0 <= k <= count || k == 0 :: k <= |buf| <==> Readable(Snap(), bad, ino, fpos, k)
      ensures |buf| <= count || buf == []
      ensures forall k | 0 <= k < |buf| :: buf[k] == SeenByte(Snap(), bad, ino, fpos + k)
    {
      hide Cut;
      buf, fpos' := [], fpos;
      if count <= 0 {
        return 0, buf, fpos';
      }
      var left := count;
      while left != 0
        invariant 0 <= left <= count && fpos' == fpos + |buf| && |buf| == count - left && Snap() == old(Snap())
        invariant Readable(Snap(), bad, ino, fpos, |buf|)
        invariant forall k | 0 <= k < |buf| :: buf[k] == SeenByte(Snap(), bad, ino, fpos + k)
      {
        var b := Bmap(ino, fpos' / BLOCK_SIZE, false, bad);
        SeenSmall(Snap(), bad, ino, fpos');
        if b != 0 && b in bad {
          assert Seen(Snap(), bad, LeafOf(ino, fpos + |buf|)) in bad;
          break;
        }
        var nr := fpos' % BLOCK_SIZE;
        var chars := if BLOCK_SIZE - nr < left then BLOCK_SIZE - nr else left;
        var chunk := CopyOut(b, nr, chars);
        ReadMore(Snap(), bad, ino, fpos, buf, chunk);
        fpos' := fpos' + chars;
        left := left - chars;
        buf := buf + chunk;
      }
      r := if count - left > 0 then count - left else -ERROR;
    }

    /** Bytes of a block to the user, zeros if there is no block. */
    method CopyOut(b: nat, nr: nat, chars: nat) returns (chunk: seq<Byte>)
      requires Valid() && nr + chars <= BLOCK_SIZE && (b != 0 ==> b < data.Length)
      ensures |chunk| == chars && forall k | 0 <= k < chars :: chunk[k] == ByteOf(Snap(), b, nr + k)
    {
      chunk := [];
      while |chunk| < chars
        invariant |chunk| <= chars && forall k | 0 <= k < |chunk| :: chunk[k] == ByteOf(Snap(), b, nr + k)
      {
        chunk := chunk + [if b != 0 then data[b][nr + |chunk|] else 0];
      }
    }

    /** sys_read of a regular file: no further than its end. */
    method SysRead(ino: nat, fpos: nat, count: nat, bad: set<nat>) returns (r: int, buf: seq<Byte>, fpos': nat)
      requires Valid() && ino < inodes.Length && MayFail(Snap(), bad)
      modifies bits, data, table, inodes
      ensures Snap() == old(Snap()) && Valid() && fpos' == fpos + |buf|
      ensures var s := Contents(Snap(), ino);
              var n := if |s| <= fpos then 0 else if fpos + count <= |s| then count else |s| - fpos;
              && |buf| <= n && r == (if n > 0 && buf == [] then -ERROR else |buf|)
              && (forall k | 0 <= k <= n :: k <= |buf| <==> Readable(Snap(), bad, ino, fpos, k))
              && (forall k | 0 <= k < |buf| :: buf[k] == if Cut(Snap(), bad, LeafOf(ino, fpos + k)) then 0 else s[fpos + k])
    {
      var n: int := count;
      if n + fpos > inodes[ino].size {
        n := inodes[ino].size - fpos;
      }
      if n <= 0 {
        return 0, [], fpos;
      }
      r, buf, fpos' := FileRead(ino, fpos, n, bad);
      forall k | 0 <= k < |buf|
        ensures buf[k] == if Cut(Snap(), bad, LeafOf(ino, fpos + k)) then 0 else Contents(Snap(), ino)[fpos + k] {
        SeenIs(Snap(), bad, LeafOf(ino, fpos + k));
      }
    }

    /** Bytes from the user into a block. */
    method CopyIn(b: nat, o: nat, chunk: seq<Byte>)
      requires b < data.Length && o + |chunk| <= |data[b]|
      modifies data
      ensures data[..] == old(data[..])[b := Spliced(old(data[b]), o, chunk)]
    {
      var k := 0;
      ghost var block := data[b];
      assert Spliced(block, o, chunk[..0]) == block;
      while k < |chunk|
        invariant 0 <= k <= |chunk| && data[..] == old(data[..])[b := Spliced(block, o, chunk[..k])]
      {
        ghost var before := data[b];
        data[b] := Stored1(data[b], o + k, chunk[k]);
        assert chunk[..k + 1] == chunk[..k] + [chunk[k]];
        assert data[b] == Spliced(block, o, chunk[..k + 1]);
        k := k + 1;
      }
      assert chunk[..|chunk|] == chunk;
    }

    /** file_write: the bytes of buf from fpos on, or from the end of the file if appending, as far as blocks
        can be had. */
    method FileWrite(ino: nat, fpos: nat, append: bool, buf: seq<Byte>, bad: set<nat>) returns (r: int, fpos': nat)
      requires Valid() && MayFail(Snap(), bad) && ino < inodes.Length
      requires (if append then inodes[ino].size else fpos) + |buf| <= MAX_BLOCKS * BLOCK_SIZE
      modifies bits, data, table, inodes
      ensures Valid() && inodes.Length == |old(inodes[..])|
      ensures r == -1 || 0 < r <= |buf|
      ensures var n := if r == -1 then 0 else r;
              var start := if append then old(inodes[ino].size) else fpos;
              && Contents(Snap(), ino) == WriteAt(Contents(old(Snap()), ino), start, buf[..n])
              && (forall i | 0 <= i < inodes.Length && i != ino :: Contents(Snap(), i) == Contents(old(Snap()), i))
              && fpos' == (if append then fpos else fpos + n)
              && (0 < n < |buf| ==> (start + n) % BLOCK_SIZE == 0)
              && (forall k | 0 <= k <= |buf| ::
                    k <= n <==> Sound(old(Snap()), bad, ino, start, k) && Enough(old(Snap()), ino, start, k))
              && if n < |buf| then Halted(old(Snap()), Snap(), bad, ino, start, n)
                 else Reached(old(Snap()), Snap(), ino, start, n)
    {
      hide Reached, Halted, Sound, Enough;
      ghost var fs := Snap();
      var start := if append then inodes[ino].size else fpos;
      var i := WriteLoop(ino, start, buf, bad);
      WriteIsWriteAt(fs, Snap(), ino, start, buf[..i]);
      WriteOutcome(fs, Snap(), bad, ino, start, i, |buf|);
      forall j | 0 <= j < inodes.Length && j != ino ensures Contents(Snap(), j) == Contents(fs, j) { }
      fpos' := if append then fpos else start + i;
      r := if i > 0 then i else -1;
    }

    /** The loop of file_write: the number of bytes written. */
    method WriteLoop(ino: nat, start: nat, buf: seq<Byte>, bad: set<nat>) returns (i: nat)
      requires Valid() && ino < inodes.Length && start + |buf| <= MAX_BLOCKS * BLOCK_SIZE && MayFail(Snap(), bad)
      modifies bits, data, table, inodes
      ensures Valid() && i <= |buf| && AfterWrite(old(Snap()), Snap(), ino, start, buf[..i])
      ensures Sound(old(Snap()), bad, ino, start, i)
      ensures if i < |buf| then Halted(old(Snap()), Snap(), bad, ino, start, i) else Reached(old(Snap()), Snap(), ino, start, i)
      ensures 0 < i < |buf| ==> (start + i) % BLOCK_SIZE == 0
    {
      hide Reached, Halted, Sound, AfterWrite;
      ghost var fs := Snap();
      ReachedNone(fs, bad, ino, start);
      assert buf[..0] == [];
      i := 0;
      while i < |buf|
        invariant 0 <= i <= |buf| && Valid() && AfterWrite(fs, Snap(), ino, start, buf[..i])
        invariant Reached(fs, Snap(), ino, start, i) && Sound(fs, bad, ino, start, i)
        invariant 0 < i < |buf| ==> (start + i) % BLOCK_SIZE == 0
      {
        var c := WriteStep(fs, ino, start, buf, i, bad);
        if c == 0 {
          break;
        }
        i := i + c;
      }
    }

    /** The next block of a write; 0 bytes if there is no block for it, or it cannot be read. */
    method WriteStep(ghost fs: Fs, ino: nat, start: nat, buf: seq<Byte>, i: nat, bad: set<nat>) returns (c: nat)
      requires Valid() && ino < inodes.Length && start + |buf| <= MAX_BLOCKS * BLOCK_SIZE && i < |buf|
      requires AfterWrite(fs, Snap(), ino, start, buf[..i]) && Reached(fs, Snap(), ino, start, i)
      requires 0 < fs.first && MayFail(fs, bad) && Sound(fs, bad, ino, start, i)
      modifies bits, data, table, inodes
      ensures Valid() && i + c <= |buf| && AfterWrite(fs, Snap(), ino, start, buf[..i + c])
      ensures if c == 0 then Halted(fs, Snap(), bad, ino, start, i) else Reached(fs, Snap(), ino, start, i + c)
      ensures Sound(fs, bad, ino, start, i + c)
      ensures c > 0 ==> i + c == |buf| || (start + i + c) % BLOCK_SIZE == 0
    {
      hide Reached, Halted, Sound, AfterWrite, Leaf, Grew, Path, Written, BlockAt, MayFail;
      var pos := start + i;
      var c1 := BLOCK_SIZE - pos % BLOCK_SIZE;
      if c1 > |buf| - i {
        c1 := |buf| - i;
      }
      ghost var fs1 := Snap();
      var block := WriteBlock(fs, ino, start, i, c1, bad, pos);
      GrewAfterWrite(fs, fs1, Snap(), ino, start, buf[..i], Path(LeafOf(ino, pos)));
      if block == 0 || block in bad {
        return 0;
      }
      c := c1;
      ghost var fs2 := Snap();
      WriteChunk(fs, ino, start, buf[..i], pos, block, buf[i..i + c]);
      WrittenReached(fs, fs2, Snap(), ino, start, i + c, pos, buf[i..i + c]);
      assert buf[..i] + buf[i..i + c] == buf[..i + c];
    }

    /** create_block for the next c bytes of a write, n of which are done. */
    method WriteBlock(ghost fs: Fs, ino: nat, ghost start: nat, ghost n: nat, ghost c: nat, bad: set<nat>, pos: nat)
        returns (block: nat)
      requires Valid() && ino < inodes.Length && pos == start + n < MAX_BLOCKS * BLOCK_SIZE
      requires Reached(fs, Snap(), ino, start, n) && Sound(fs, bad, ino, start, n)
      requires 0 < fs.first && MayFail(fs, bad) && 0 < c <= BLOCK_SIZE - pos % BLOCK_SIZE
      modifies bits, data, table, inodes
      ensures Valid() && Grew(old(Snap()), Snap(), Path(LeafOf(ino, pos)))
      ensures if block == 0 || block in bad then Halted(fs, Snap(), bad, ino, start, n)
              else block == BlockAt(Snap(), LeafOf(ino, pos))
                   && Reached(fs, Snap(), ino, start, n + c) && Sound(fs, bad, ino, start, n + c)
    {
      ghost var fs1, p := Snap(), LeafOf(ino, pos);
      WriteReady(fs, fs1, ino, start, n, pos, bad);
      hide *;
      block := Bmap(ino, pos / BLOCK_SIZE, true, bad);
      WriteNext(fs, fs1, Snap(), bad, ino, start, n, c, p, block);
    }

    /** One block of a write. */
    method WriteChunk(ghost fs: Fs, ino: nat, ghost start: nat, ghost done: seq<Byte>, pos: nat, block: nat, chunk: seq<Byte>)
      requires Valid() && ino < inodes.Length && AfterWrite(fs, Snap(), ino, start, done) && pos == start + |done|
      requires pos % BLOCK_SIZE + |chunk| <= BLOCK_SIZE && chunk != [] && pos + |chunk| <= MAX_BLOCKS * BLOCK_SIZE
      requires block == BlockAt(Snap(), Leaf(ino, pos / BLOCK_SIZE)) != 0
      modifies data, inodes
      ensures Valid() && AfterWrite(fs, Snap(), ino, start, done + chunk)
      ensures BlockAt(old(Snap()), LeafOf(ino, pos)) < data.Length && Snap() == Written(old(Snap()), ino, pos, chunk)
    {
      ghost var fs1 := Snap();
      WrittenKeeps(fs1, ino, pos, chunk);
      MoreWritten(fs, fs1, ino, start, done, chunk);
      if pos + |chunk| > inodes[ino].size {
        inodes[ino] := inodes[ino].(size := pos + |chunk|);
      }
      CopyIn(block, pos % BLOCK_SIZE, chunk);
      assert Snap() == Written(fs1, ino, pos, chunk);
    }
  
    /** free_block; nobody else holds the block's buffer. */
    method FreeBlock(b: nat)
      requires first <= b < nzones && b + 1 - first < bits.Length && bits[b + 1 - first]
      modifies bits
      ensures bits[..] == old(bits[..])[b + 1 - first := false]
    {
      bits[b + 1 - first] := false;
    }

    /** The block at place q, if there is one, is freed. */
    method FreeAt(ghost fs: Fs, ghost ps: iset<Pos>, ghost q: Pos, b: nat)
      requires Inv(fs) && Cleared(fs, bits[..], ps) && ValidPos(fs, q) && q !in ps && b == BlockAt(fs, q)
      requires fs.first == first && fs.nzones == nzones
      modifies bits
      ensures Cleared(fs, bits[..], ps + iset{q})
    {
      if b != 0 {
        ClearMore(fs, bits[..], ps, q);
        FreeBlock(b);
      } else {
        ClearNothing(fs, bits[..], ps, iset{q});
      }
    }

    /** free_ind: an indirect block at place q and the blocks it names, if it can be read. */
    method FreeInd(ghost fs: Fs, ghost ps: iset<Pos>, ghost q: Pos, block: nat, bad: set<nat>)
      requires Inv(fs) && Cleared(fs, bits[..], ps) && fs.first == first && fs.nzones == nzones && fs.table == table[..]
      requires ValidPos(fs, q) && (forall j: nat | j < ENTRIES :: ValidPos(fs, Child(q, j))) && block == BlockAt(fs, q)
      requires q !in ps && (forall j: nat | j < ENTRIES :: Child(q, j) !in ps) && 0 !in bad
      modifies bits
      ensures Cleared(fs, bits[..], ps + Freed(fs, bad, q))
    {
      if block == 0 {
        ClearNothing(fs, bits[..], ps, Children(q, ENTRIES) + iset{q});
        ClearSame(fs, bits[..], ps + (Children(q, ENTRIES) + iset{q}), ps + Freed(fs, bad, q));
        return;
      }
      assert InUse(fs, block);
      if block !in bad {
        FreeEntries(fs, ps, q, block);
      } else {
        ClearSame(fs, bits[..], ps, ps + iset{});
      }
      ghost var qs := if block in bad then iset{} else Children(q, ENTRIES);
      FreeAt(fs, ps + qs, q, block);
      ClearSame(fs, bits[..], ps + qs + iset{q}, ps + Freed(fs, bad, q));
    }

    /** The loop of free_ind. */
    method FreeEntries(ghost fs: Fs, ghost ps: iset<Pos>, ghost q: Pos, block: nat)
      requires Inv(fs) && Cleared(fs, bits[..], ps) && fs.first == first && fs.nzones == nzones && fs.table == table[..]
      requires (forall j: nat | j < ENTRIES :: ValidPos(fs, Child(q, j)) && Child(q, j) !in ps) && block == BlockAt(fs, q) != 0
      requires block < table.Length && |table[block]| == ENTRIES
      modifies bits
      ensures Cleared(fs, bits[..], ps + Children(q, ENTRIES))
    {
      hide Cleared, Inv, ValidPos;
      ClearSame(fs, bits[..], ps, ps + Children(q, 0));
      var i := 0;
      while i < ENTRIES
        invariant 0 <= i <= ENTRIES && Cleared(fs, bits[..], ps + Children(q, i))
      {
        assert fs.table[block] == table[block];
        FreeAt(fs, ps + Children(q, i), Child(q, i), table[block][i]);
        ClearSame(fs, bits[..], ps + Children(q, i) + iset{Child(q, i)}, ps + Children(q, i + 1));
        i := i + 1;
      }
    }

    /** free_dind: a double indirect block at place q, and the indirect blocks it names and theirs, so far as they can
        be read. */
    method FreeDind(ghost fs: Fs, ghost ps: iset<Pos>, ino: nat, block: nat, bad: set<nat>)
      requires Inv(fs) && Cleared(fs, bits[..], ps) && fs.first == first && fs.nzones == nzones && fs.table == table[..]
      requires ino < |fs.inodes| && block == BlockAt(fs, Root(ino, 8)) && 0 !in bad
      requires forall p | p in Below(ino, ENTRIES) :: p !in ps
      requires Root(ino, 8) !in ps
      modifies bits
      ensures Cleared(fs, bits[..], ps + Uncut(fs, bad, Below(ino, ENTRIES)) + iset{Root(ino, 8)})
    {
      ghost var q := Root(ino, 8);
      if block == 0 {
        ghost var qs := Uncut(fs, bad, Below(ino, ENTRIES));
        ClearNothing(fs, bits[..], ps, qs + iset{q});
        ClearSame(fs, bits[..], ps + (qs + iset{q}), ps + qs + iset{q});
        return;
      }
      assert InUse(fs, block);
      if block !in bad {
        FreeInds(fs, ps, ino, block, bad);
      } else {
        UncutAll(fs, bad, ino);
        ClearSame(fs, bits[..], ps, ps + Uncut(fs, bad, Below(ino, ENTRIES)));
      }
      FreeAt(fs, ps + Uncut(fs, bad, Below(ino, ENTRIES)), q, block);
    }

    /** The loop of free_dind. */
    method FreeInds(ghost fs: Fs, ghost ps: iset<Pos>, ino: nat, block: nat, bad: set<nat>)
      requires Inv(fs) && Cleared(fs, bits[..], ps) && fs.first == first && fs.nzones == nzones && fs.table == table[..]
      requires ino < |fs.inodes| && block == BlockAt(fs, Root(ino, 8)) != 0 && block !in bad && 0 !in bad
      requires block < table.Length && |table[block]| == ENTRIES
      requires forall p | p in Below(ino, ENTRIES) :: p !in ps
      modifies bits
      ensures Cleared(fs, bits[..], ps + Uncut(fs, bad, Below(ino, ENTRIES)))
    {
      hide Cleared, Inv, Uncut, Below;
      ghost var q := Root(ino, 8);
      UncutNone(fs, bad, ino);
      ClearSame(fs, bits[..], ps, ps + Uncut(fs, bad, Below(ino, 0)));
      var i := 0;
      while i < ENTRIES
        invariant 0 <= i <= ENTRIES && Cleared(fs, bits[..], ps + Uncut(fs, bad, Below(ino, i)))
      {
        assert fs.table[block] == table[block];
        UncutMore(fs, bad, ino, i);
        ghost var qs := ps + Uncut(fs, bad, Below(ino, i));
        NotBelow(fs, bad, ps, ino, i);
        FreeInd(fs, qs, Child(q, i), table[block][i], bad);
        ClearSame(fs, bits[..], qs + Freed(fs, bad, Child(q, i)), ps + Uncut(fs, bad, Below(ino, i + 1)));
        i := i + 1;
      }
    }

    /** truncate's loop over the direct zones: each is freed and cleared. */
    method FreeDirect(ino: nat)
      requires Valid() && ino < inodes.Length
      modifies bits, inodes
      ensures Cleared(old(Snap()), bits[..], Direct(ino))
      ensures inodes[..] == old(inodes[..])[ino := inodes[ino]] && inodes[ino].size == old(inodes[ino].size)
      ensures |inodes[ino].zone| == 9
      ensures forall k | 0 <= k < 9 :: inodes[ino].zone[k] == if k < 7 then 0 else old(inodes[ino].zone[k])
    {
      ghost var fs := Snap();
      ghost var ps: iset<Pos> := iset{};
      var i := 0;
      while i < 7
        invariant 0 <= i <= 7 && Cleared(fs, bits[..], ps) && ps == iset k: nat | k < i :: Root(ino, k)
        invariant |inodes[ino].zone| == 9 && inodes[ino].size == fs.inodes[ino].size
        invariant forall k | 0 <= k < 9 :: inodes[ino].zone[k] == if k < i then 0 else fs.inodes[ino].zone[k]
        invariant inodes[..] == fs.inodes[ino := inodes[ino]]
      {
        FreeAt(fs, ps, Root(ino, i), inodes[ino].zone[i]);
        inodes[ino] := inodes[ino].(zone := SetEntry(inodes[ino].zone, i, 0));
        ps := ps + iset{Root(ino, i)};
        i := i + 1;
      }
    }

    /** truncate: all blocks of a regular file or directory that it can find are freed; anything else is left alone. */
    method Truncate(ino: nat, regular: bool, bad: set<nat>)
      requires Valid() && ino < inodes.Length && MayFail(Snap(), bad)
      modifies bits, inodes
      ensures Valid()
      ensures !regular ==> Snap() == old(Snap())
      ensures regular ==> Truncated(old(Snap()), Snap(), ino, bad)
    {
      if !regular {
        return;
      }
      ghost var fs := Snap();
      FreeTree(ino, bad);
      assert inodes[ino].zone == EmptyInode().zone;
      assert Snap().inodes == fs.inodes[ino := EmptyInode()];
      TruncatedKeeps(fs, Snap(), ino, bad);
    }

    /** The whole tree of a file, so far as it can be read. */
    method FreeTree(ino: nat, bad: set<nat>)
      requires Valid() && ino < inodes.Length && MayFail(Snap(), bad)
      modifies bits, inodes
      ensures Cleared(old(Snap()), bits[..], Uncut(old(Snap()), bad, Tree(old(Snap()), ino)))
      ensures inodes[..] == old(inodes[..])[ino := inodes[ino]] && inodes[ino].size == 0
      ensures |inodes[ino].zone| == 9 && forall k | 0 <= k < 9 :: inodes[ino].zone[k] == 0
    {
      ghost var fs := Snap();
      assert Inv(fs) && 0 !in bad;
      FreeDirect(ino);
      var block, dind := inodes[ino].zone[7], inodes[ino].zone[8];
      assert fs.table == table[..] && block == BlockAt(fs, Root(ino, 7)) && dind == BlockAt(fs, Root(ino, 8));
      FreedApart(fs, bad, ino);
      hide Cleared, Inv, Uncut, Direct, Freed, Below, Tree;
      FreeInd(fs, Direct(ino), Root(ino, 7), block, bad);
      ghost var ps := Direct(ino) + Freed(fs, bad, Root(ino, 7));
      FreeDind(fs, ps, ino, dind, bad);
      UncutTree(fs, bad, ino, ps + Uncut(fs, bad, Below(ino, ENTRIES)) + iset{Root(ino, 8)});
      inodes[ino] := Inode(SetEntry(SetEntry(inodes[ino].zone, 7, 0), 8, 0), 0);
    }
  }
}
