/** The paging code of mm/memory.c, updating the reference bytes, the page directory, the page tables
    and the frames in place. */
module Memory {
  import opened Counting
  import opened PagingSpec
  import opened PagingProofs
  import opened ForkProofs
  import opened EagerProofs
  import opened TouchedPages

  datatype Sharing = Shared | NotShared | OutOfMemory

  /** Memory and the page words allow an operation: a fork's child has no page tables yet and there is a frame for
      each it will get; a store's page is there, and is writable, counted once or can be copied; a page is mapped
      where there is none, and there are frames for it and for its page table. */
  ghost predicate CanDo(s: State, op: Op)
    requires Shaped(s) && Legal(op)
  {
    match op
    case Fork(from, to, n) =>
      (forall d | to <= d < to + n :: !s.dir[d].present) && Tables(s, from, n) <= |FreeFrames(s)|
    case Store(d, i, _, _) =>
      PteAt(s, d, i).present && (PteAt(s, d, i).rw || CountedOnce(s, PteAt(s, d, i).frame) || FreeFrames(s) != {})
    case MapEmpty(d, i) => !PteAt(s, d, i).present && 1 + One(!s.dir[d].present) <= |FreeFrames(s)|
    case Share(from, to, i) => !PteAt(s, to, i).present && Sharable(s, from, i) && (s.dir[to].present || FreeFrames(s) != {})
    case Free(_, _) => true
  }

  predicate CountedOnce(s: State, f: int) { Managed(s, f) && s.counts[f - s.low] == 1 }

  /** A clean page above kernel memory. */
  predicate Sharable(s: State, d: int, i: int) {
    PteAt(s, d, i).present && !PteAt(s, d, i).dirty && s.low <= PteAt(s, d, i).frame
  }

  /** The kernel stores into its own memory: the word lets it, and the page is below low. */
  predicate InKernel(s: State, op: Op) {
    op.Store? && PteAt(s, op.d, op.i).present && PteAt(s, op.d, op.i).rw && PteAt(s, op.d, op.i).frame < s.low
  }

  lemma ForkDone(s0: State, s: State, from: nat, to: nat, n: nat)
    requires ForkArgs(s0, from, to, n) && Copied(s0, s, from, to, ForkLimit(from), n)
    ensures Inv(s) && s.held == s0.held && View(s) == EagerFork(View(s0), from, to, ForkLimit(from), n)
    ensures Dirty(s) == Touch(Dirty(s0), Fork(from, to, n), Done)
  {
    ForkEnds(s0, s, from, to, ForkLimit(from), n);
    ForkTouches(s0, s, from, to, n);
    hide EagerFork, Touch, Dirty;
  }

  lemma ForkUndone(s0: State, s: State, s': State, from: nat, to: nat, n: nat, rows: nat)
    requires ForkArgs(s0, from, to, n) && rows <= n && Copied(s0, s, from, to, ForkLimit(from), rows) && Stripped(s, s', to, n)
    ensures s'.held == s0.held && s'.low <= |s'.data| && View(s') == View(s0) && s'.counts == s0.counts && Dirty(s') == Dirty(s0)
  {
    ForkUnseen(s0, s, s', from, to, ForkLimit(from), n, rows);
    ForkUncounted(s0, s, s', from, to, ForkLimit(from), n, rows);
    FailedForkTouchesNone(s0, s, s', from, to, n, rows);
    hide Dirty;
  }

  /** An operation does what it does on the eager machine, and is refused when memory or the page words refuse it. */
  ghost predicate Stepped(s: State, s': State, op: Op, out: Outcome)
    requires Inv(s) && Legal(op)
  {
    && s'.held == s.held && WellFilled(View(s))
    && s'.low <= |s'.data| && View(s') == EagerStep(View(s), op, out) && Dirty(s') == Touch(Dirty(s), op, out)
    && (out == Refused <==> !CanDo(s, op))
    && (out == KernelWrite <==> CanDo(s, op) && InKernel(s, op))
  }

  /** A store that may be done: at once, or after a fault that left a page the task may write. */
  lemma StoreStepped(s: State, s1: State, d: nat, i: nat, offset: nat, b: Byte)
    requires Inv(s) && Inv(s1) && s1.low == s.low && s1.held == s.held && HasPte(s, d, i) && HasPte(s1, d, i)
    requires Legal(Store(d, i, offset, b)) && PteAt(s, d, i).present && PteAt(s1, d, i).present && PteAt(s1, d, i).rw
    requires if PteAt(s, d, i).rw then s1 == s
             else DiffersAt(s, s1, d, i) && (CountedOnce(s, PteAt(s, d, i).frame) || FreeFrames(s) != {}) && s.low <= PteAt(s1, d, i).frame
                  && View(s1) == match See(s, d, i)
                                 case Kernel(f) => Put(View(s), d, i, Own(s.data[f]))
                                 case _ => View(s)
    ensures Stepped(s, Write(s1, d, i, offset, b), Store(d, i, offset, b), if PteAt(s1, d, i).frame < s.low then KernelWrite else Done)
  {
    StoreSeen(s, s1, d, i, offset, b);
    StoreTouches(s, s1, d, i, offset, b);
    hide View, EagerStep, Inv, WellFilled;
  }

  /** A store for which there is no page. */
  lemma StoreRefused(s: State, d: nat, i: nat, offset: nat, b: Byte)
    requires Inv(s) && HasPte(s, d, i) && Legal(Store(d, i, offset, b)) && PteAt(s, d, i).present && !PteAt(s, d, i).rw
    requires !CountedOnce(s, PteAt(s, d, i).frame) && FreeFrames(s) == {}
    ensures Stepped(s, s, Store(d, i, offset, b), Refused)
  {
    ViewFilled(s);
  }

  /** A run, state by state: every operation that memory allows is done, with the eager machine's result. */
  ghost predicate Traced(states: seq<State>, ops: seq<Op>, outs: seq<Outcome>) {
    && |states| == |ops| + 1 && |outs| == |ops|
    && forall k | 0 <= k < |ops| :: TracedAt(states, ops, outs, k)
  }

  ghost predicate TracedAt(states: seq<State>, ops: seq<Op>, outs: seq<Outcome>, k: nat)
    requires k < |ops| == |outs| && |states| == |ops| + 1
  {
    var s, op := states[k], ops[k];
    && Inv(s) && Legal(op) && WellFilled(View(s)) && Inv(states[k + 1])
    && (outs[k] == Refused <==> !CanDo(s, op))
    && (outs[k] == KernelWrite <==> CanDo(s, op) && InKernel(s, op))
    && View(states[k + 1]) == EagerStep(View(s), op, outs[k]) && Dirty(states[k + 1]) == Touch(Dirty(s), op, outs[k])
  }

  class PagedMemory {
    const low: nat
    const high: nat
    const memMap: array<Byte>
    const dir: array<Pte>
    const table: array<seq<Pte>>
    const data: array<Page>
    ghost var held: multiset<nat>

    ghost function Snap(): State
      reads this, memMap, dir, table, data
    {
      State(low, high, memMap[..], dir[..], table[..], data[..], held)
    }

    ghost predicate Valid()
      reads this, memMap, dir, table, data
    {
      Inv(Snap())
    }

    /** Memory after mem_init: frames start .. high are free, all others marked used; the kernel maps its
        own low frames through the page table in frame 1. */
    constructor (low: nat, frames: nat, start: nat, high: nat)
      requires 2 <= low <= ENTRIES && low <= start <= high <= low + frames
      ensures Valid() && fresh(memMap) && fresh(dir) && fresh(table) && fresh(data)
      ensures this.low == low && this.high == high && memMap.Length == frames
      ensures forall j | 0 <= j < frames :: memMap[j] == if start <= low + j < high then 0 else USED
      ensures forall d, i :: PteAt(Snap(), d, i) == if d == 0 && 0 <= i < low then User(i) else NONE
      ensures Dirty(Snap()) == iset{}
    {
      hide PteAt, KernelTable, UsedMarks, ZeroTable, ZeroPage;
      this.low, this.high := low, high;
      memMap := new Byte[frames];
      dir := new Pte[TASKS * TASK_DIRS](d => if d == 0 then User(1) else NONE);
      table := new seq<Pte>[low + frames](f => if f == 1 then KernelTable(low) else ZeroTable());
      data := new Page[low + frames](f => ZeroPage());
      held := UsedMarks(low, frames, start, high);
      new;
      for i := 0 to frames
        invariant forall j | 0 <= j < i :: memMap[j] == USED
        modifies memMap
      {
        memMap[i] := USED;
      }
      for i := start - low to high - low
        invariant forall j | 0 <= j < frames :: memMap[j] == if start <= low + j < low + i then 0 else USED
        modifies memMap
      {
        memMap[i] := 0;
      }
      InitKeeps(Snap(), start);
    }

    /** The last free frame, zeroed and marked used; 0 if there is none. */
    method GetFreePage() returns (f: nat)
      requires Valid()
      modifies this, memMap, table, data
      ensures Valid() && View(Snap()) == View(old(Snap())) && SamePte(old(Snap()), Snap())
      ensures f == 0 ==> Snap() == old(Snap()) && FreeFrames(Snap()) == {}
      ensures f != 0 ==> Managed(Snap(), f) && old(memMap[f - low]) == 0 && f < high && Snap() == Claim(old(Snap()), f) && Held(Snap(), f) == 1
      ensures f != 0 ==> forall g | f < g && Managed(Snap(), g) :: old(memMap[g - low]) != 0
      ensures f != 0 ==> |FreeFrames(Snap())| == |FreeFrames(old(Snap()))| - 1
    {
      ghost var s := Snap();
      var i := memMap.Length;
      while i > 0 && memMap[i - 1] != 0
        invariant 0 <= i <= memMap.Length
        invariant forall j | i <= j < memMap.Length :: memMap[j] != 0
      {
        i := i - 1;
      }
      if i == 0 {
        return 0;
      }
      f := low + i - 1;
      memMap[i - 1] := 1;
      table[f] := ZeroTable();
      data[f] := ZeroPage();
      held := held + multiset{f};
      ClaimKeeps(s, f);
      ClaimTakesFree(s, f);
      assert FrameOk(s, f);
      assert Snap() == Claim(s, f);
    }

    /** A free frame becomes the empty page table of directory entry d. */
    method NewTable(d: nat) returns (ok: bool)
      requires Valid() && d < dir.Length && !dir[d].present
      modifies this, memMap, dir, table, data
      ensures Valid() && held == old(held) && View(Snap()) == View(old(Snap())) && SamePte(old(Snap()), Snap())
      ensures ok ==> dir[d].present && |FreeFrames(Snap())| == |FreeFrames(old(Snap()))| - 1
      ensures !ok ==> Snap() == old(Snap()) && FreeFrames(Snap()) == {}
      ensures forall d' | 0 <= d' < dir.Length && d' != d :: dir[d'] == old(dir[d'])
      ensures forall f | 0 <= f < memMap.Length && old(memMap[f]) != 0 && low + f < data.Length ::
                memMap[f] == old(memMap[f]) && data[low + f] == old(data[low + f])
    {
      var t := GetFreePage();
      if t == 0 {
        return false;
      }
      ghost var s := Snap();
      assert s.counts[t - low] == 1;
      PutTableKeeps(s, d, t);
      dir[d] := User(t);
      held := held - multiset{t};
      assert Snap() == PutTable(s, d, t);
      return true;
    }

    /** One reference to a managed page is given up. */
    method FreePage(f: nat)
      requires f < high <= low + memMap.Length && (f >= low ==> memMap[f - low] > 0)
      modifies memMap
      ensures Snap() == AddCount(old(Snap()), f, -1)
    {
      if f < low {
        return;
      }
      memMap[f - low] := memMap[f - low] - 1;
    }

    /** A page-table word is written. */
    method WriteWord(d: nat, i: nat, e: Pte)
      requires d < dir.Length && dir[d].frame < table.Length && i < |table[dir[d].frame]|
      modifies table
      ensures Snap() == SetPte(old(Snap()), d, i, e)
    {
      var t := dir[d].frame;
      table[t] := table[t][i := e];
    }

    /** The pages and page tables of directory entries base .. base + n are given up. */
    method FreePageTables(base: nat, n: nat)
      requires Valid() && base + n <= dir.Length
      modifies memMap, dir, table
      ensures Valid() && held == old(held) && View(Snap()) == EagerFree(View(old(Snap())), base, n)
      ensures forall d, i :: PteAt(Snap(), d, i) == if base <= d < base + n then NONE else PteAt(old(Snap()), d, i)
      ensures forall d | 0 <= d < dir.Length ::
                if base <= d < base + n then !dir[d].present else dir[d] == old(dir[d])
    {
      hide PteAt;
      ghost var s := Snap();
      var k := 0;
      while k < n
        invariant 0 <= k <= n && Valid() && held == s.held && View(Snap()) == EagerFree(View(s), base, k)
        invariant forall d, i :: PteAt(Snap(), d, i) == if base <= d < base + k then NONE else PteAt(s, d, i)
        invariant forall d | 0 <= d < dir.Length :: if base <= d < base + k then !dir[d].present else dir[d] == s.dir[d]
      {
        FreeTable(base + k);
        EagerFreeMore(View(s), base, k);
        k := k + 1;
      }
      assert k == n;
    }

    /** One page-table word: its page, if it has one, then the word. */
    method FreeWord(d: nat, nr: nat)
      requires Valid() && HasPte(Snap(), d, nr)
      modifies memMap, table
      ensures Snap() == Drop(old(Snap()), d, nr) && Valid()
      ensures DiffersAt(old(Snap()), Snap(), d, nr) && PteAt(Snap(), d, nr) == NONE
      ensures View(Snap()) == Put(View(old(Snap())), d, nr, Absent)
    {
      ghost var t := Snap();
      var e := table[dir[d].frame][nr];
      assert e == PteAt(t, d, nr);
      if e.present {
        MappedCounts(t, d, nr);
        FreePage(e.frame);
      }
      WriteWord(d, nr, NONE);
      DropKeeps(t, d, nr);
    }

    /** All pages of one page table. */
    method FreePages(d: nat)
      requires Valid() && d < dir.Length && dir[d].present
      modifies memMap, table
      ensures Valid() && held == old(held) && dir[..] == old(dir[..])
      ensures forall d', i :: PteAt(Snap(), d', i) == if d' == d then NONE else PteAt(old(Snap()), d', i)
      ensures View(Snap()) == EagerFree(View(old(Snap())), d, 1)
    {
      ghost var s := Snap();
      FreePartAll(View(s), d);
      var nr := 0;
      while nr < ENTRIES
        invariant 0 <= nr <= ENTRIES && Valid() && held == s.held && dir[..] == s.dir
        invariant forall d', i :: PteAt(Snap(), d', i) == if d' == d && i < nr then NONE else PteAt(s, d', i)
        invariant View(Snap()) == FreePart(View(s), d, nr)
      {
        FreeWord(d, nr);
        FreePartMore(View(s), d, nr);
        nr := nr + 1;
      }
    }

    /** One directory entry: its pages, then its page table. */
    method FreeTable(d: nat)
      requires Valid() && d < dir.Length
      modifies memMap, dir, table
      ensures Valid() && held == old(held) && View(Snap()) == EagerFree(View(old(Snap())), d, 1)
      ensures forall d', i :: PteAt(Snap(), d', i) == if d' == d then NONE else PteAt(old(Snap()), d', i)
      ensures !dir[d].present && forall d' | 0 <= d' < dir.Length && d' != d :: dir[d'] == old(dir[d'])
    {
      hide Exact, FrameOk;
      ghost var s := Snap();
      if !dir[d].present {
        ViewIs(s, EagerFree(View(s), d, 1));
        return;
      }
      FreePages(d);
      ghost var t := Snap();
      TableCounts(t, d);
      FreePage(dir[d].frame);
      dir[d] := NONE;
      DropTableKeeps(t, d);
      assert Snap() == DropTable(t, d);
    }
  
    /** Page i of `from` is mapped at `to` too: both words read-only, one more reference. */
    method ShareWord(from: nat, to: nat, i: nat)
      requires Valid() && HasPte(Snap(), from, i) && HasPte(Snap(), to, i) && from != to
      requires from % TASK_DIRS == to % TASK_DIRS && PteAt(Snap(), from, i).present && !PteAt(Snap(), to, i).present
      modifies memMap, table
      ensures Valid() && Snap() == Alias(old(Snap()), from, to, i)
    {
      hide View, FrameOk;
      ghost var s := Snap();
      var thisPage := ReadOnly(table[dir[from].frame][i]);
      assert FrameOk(s, dir[from].frame);
      assert DirUses(s, from, dir[from].frame) && !DirUses(s, to, dir[from].frame);
      AliasKeeps(s, from, to, i);
      WriteWord(to, i, thisPage);
      if low <= thisPage.frame {
        WriteWord(from, i, thisPage);
        SetPteSwap(s, from, to, i, thisPage);
        CountBound(Alias(s, from, to, i), to, i);
        memMap[thisPage.frame - low] := memMap[thisPage.frame - low] + 1;
      }
      assert Snap() == Alias(s, from, to, i);
    }

    /** One entry of one row of copy_page_tables. */
    method CopyEntry(ghost s0: State, from: nat, to: nat, limit: nat, ghost n: nat, k: nat, i: nat)
      requires ForkArgs(s0, from, to, n) && i < limit <= ENTRIES && k < n && s0.dir[from + k].present
      requires Forking(s0, Snap(), from, to, limit, k, i) && dir[to + k].present && dir[from + k].present
      modifies memMap, table
      ensures Forking(s0, Snap(), from, to, limit, k, i + 1) && FreeFrames(Snap()) == FreeFrames(old(Snap()))
    {
      var e := table[dir[from + k].frame][i];
      assert e == PteAt(Snap(), from + k, i);
      if e.present {
        ForkShares(s0, Snap(), from, to, limit, n, k, i);
        ShareWord(from + k, to + k, i);
      } else {
        ForkPasses(s0, Snap(), from, to, limit, n, k, i);
      }
    }

    /** One row of copy_page_tables. */
    method CopyRow(ghost s0: State, from: nat, to: nat, limit: nat, ghost n: nat, k: nat)
      requires ForkArgs(s0, from, to, n) && limit <= ENTRIES && k < n && s0.dir[from + k].present
      requires Forking(s0, Snap(), from, to, limit, k, 0) && dir[to + k].present && dir[from + k].present
      modifies memMap, table
      ensures Forking(s0, Snap(), from, to, limit, k + 1, 0) && dir[..] == old(dir[..])
      ensures FreeFrames(Snap()) == FreeFrames(old(Snap()))
    {
      assert to + k < dir.Length;
      var i := 0;
      while i < limit
        invariant 0 <= i <= limit && Forking(s0, Snap(), from, to, limit, k, i)
        invariant dir[..] == old(dir[..]) && FreeFrames(Snap()) == FreeFrames(old(Snap()))
      {
        CopyEntry(s0, from, to, limit, n, k, i);
        i := i + 1;
      }
      assert Snap().dir[to + k] == dir[to + k];
      ForkTurns(s0, Snap(), from, to, limit, n, k);
    }
  
    /** One directory entry of copy_page_tables; false if there is no frame for its page table. */
    method CopyTable(ghost s0: State, from: nat, to: nat, limit: nat, ghost n: nat, k: nat) returns (ok: bool)
      requires ForkArgs(s0, from, to, n) && limit <= ENTRIES && k < n && to + k < dir.Length && from + k < dir.Length
      requires Copied(s0, Snap(), from, to, limit, k)
      modifies this, memMap, dir, table, data
      ensures ok ==> Copied(s0, Snap(), from, to, limit, k + 1)
      ensures !ok ==> Snap() == old(Snap()) && FreeFrames(Snap()) == {} && s0.dir[from + k].present
    {
      hide FreeFrames;
      assert dir[to + k] == s0.dir[to + k] && dir[from + k] == s0.dir[from + k];
      if !dir[from + k].present {
        ForkSkips(s0, Snap(), from, to, limit, n, k);
        return true;
      }
      ok := NewTable(to + k);
      if ok {
        ForkTakesTable(s0, old(Snap()), Snap(), from, to, limit, k);
        CopyRow(s0, from, to, limit, n, k);
      }
    }

    /** Directory entries from .. from + n are shared with to .. to + n; false if memory runs out. */
    method CopyPageTables(from: nat, to: nat, n: nat) returns (ok: bool, ghost rows: nat)
      requires ForkArgs(Snap(), from, to, n)
      modifies this, memMap, dir, table, data
      ensures rows <= n && Copied(old(Snap()), Snap(), from, to, ForkLimit(from), rows)
      ensures ok <==> rows == n
      ensures ok <==> Tables(old(Snap()), from, n) <= |FreeFrames(old(Snap()))|
    {
      hide Copied;
      ghost var s0 := Snap();
      var limit := if from == 0 then LOW_COPY else ENTRIES;
      ForkStarts(s0, from, to, limit, n);
      assert n <= TASK_DIRS && from + TASK_DIRS <= dir.Length && to + TASK_DIRS <= dir.Length == |s0.dir|;
      var k := 0;
      while k < n
        invariant 0 <= k <= n && Copied(s0, Snap(), from, to, limit, k)
      {
        ok := CopyTable(s0, from, to, limit, n, k);
        if !ok {
          CopyFails(s0, Snap(), from, to, limit, n, k);
          return false, k;
        }
        k := k + 1;
      }
      CopyWorks(s0, Snap(), from, to, limit, n);
      return true, n;
    }
  
    /** Fork's memory: shared page tables, or nothing at all if memory runs out. */
    method CopyMem(from: nat, to: nat, n: nat) returns (ok: bool)
      requires ForkArgs(Snap(), from, to, n)
      modifies this, memMap, dir, table, data
      ensures Valid() && held == old(held)
      ensures ok <==> Tables(old(Snap()), from, n) <= |FreeFrames(old(Snap()))|
      ensures ok ==> View(Snap()) == EagerFork(View(old(Snap())), from, to, ForkLimit(from), n)
      ensures !ok ==> View(Snap()) == View(old(Snap())) && memMap[..] == old(memMap[..])
      ensures Dirty(Snap()) == Touch(Dirty(old(Snap())), Fork(from, to, n), if ok then Done else Refused)
    {
      ghost var s0 := Snap();
      ghost var rows;
      ok, rows := CopyPageTables(from, to, n);
      if ok {
        ForkDone(s0, Snap(), from, to, n);
      } else {
        ghost var s := Snap();
        FreePageTables(to, n);
        assert Stripped(s, Snap(), to, n);
        ForkUndone(s0, s, Snap(), from, to, n, rows);
      }
    }

    /** copy_process's use of memory: a page for the task, p, then copy_mem; if there is not enough for both,
        everything is given back. */
    method CopyProcess(from: nat, to: nat, n: nat) returns (ok: bool, p: nat)
      requires ForkArgs(Snap(), from, to, n)
      modifies this, memMap, dir, table, data
      ensures Valid()
      ensures ok <==> 1 + Tables(old(Snap()), from, n) <= |FreeFrames(old(Snap()))|
      ensures ok ==> low <= p < high && Held(Snap(), p) == 1 && held == old(held) + multiset{p}
      ensures ok ==> View(Snap()) == EagerFork(View(old(Snap())), from, to, ForkLimit(from), n)
      ensures !ok ==> View(Snap()) == View(old(Snap())) && memMap[..] == old(memMap[..]) && held == old(held)
    {
      hide View;
      p := GetFreePage();
      if p == 0 {
        return false, 0;
      }
      ghost var s1 := Snap();
      TablesSame(old(Snap()), s1, from, n);
      ok := CopyMem(from, to, n);
      if !ok {
        ghost var s2 := Snap();
        assert s2.counts == s1.counts;
        GiveBack(p);
      }
    }

    /** free_page of a page the kernel holds. */
    method GiveBack(p: nat)
      requires Valid() && low <= p < high && memMap[p - low] == 1 && Held(Snap(), p) == 1
      modifies this, memMap
      ensures Valid() && Snap() == Unhold(old(Snap()), p) && View(Snap()) == View(old(Snap())) && SamePte(old(Snap()), Snap())
    {
      ghost var s := Snap();
      UnholdKeeps(s, p);
      FreePage(p);
      held := held - multiset{p};
      assert Snap() == Unhold(s, p);
    }

    /** A page the kernel holds is mapped at an address that has none; false if there is no frame for the
        page table. */
    method PutPage(f: nat, d: nat, i: nat) returns (ok: bool)
      requires Valid() && d < dir.Length && i < ENTRIES && !PteAt(Snap(), d, i).present
      requires low <= f < high && memMap[f - low] == 1 && Held(Snap(), f) == 1
      modifies this, memMap, dir, table, data
      ensures Valid()
      ensures ok ==> View(Snap()) == Put(View(old(Snap())), d, i, Own(old(data[f]))) && held == old(held) - multiset{f}
      ensures ok <==> old(dir[d].present) || FreeFrames(old(Snap())) != {}
      ensures ok ==> PteAt(Snap(), d, i) == User(f)
      ensures forall d', x | !(d' == d && x == i) :: PteAt(Snap(), d', x) == PteAt(old(Snap()), d', x)
      ensures !ok ==> Snap() == old(Snap())
    {
      hide View, Put, FrameOk, See;
      if !dir[d].present {
        ok := NewTable(d);
        if !ok {
          return false;
        }
      }
      ghost var s := Snap();
      PutPteKeeps(s, d, i, f);
      WriteWord(d, i, User(f));
      held := held - multiset{f};
      assert Snap() == PutPte(s, d, i, f);
      assert PteAt(Snap(), d, i) == User(f);
      return true;
    }
  
    /** An empty page is mapped at an address that has none; false if memory runs out. */
    method GetEmptyPage(d: nat, i: nat) returns (ok: bool)
      requires Valid() && d < dir.Length && i < ENTRIES && !PteAt(Snap(), d, i).present
      modifies this, memMap, dir, table, data
      ensures Valid() && held == old(held)
      ensures ok <==> 1 + One(!old(dir[d].present)) <= |FreeFrames(old(Snap()))|
      ensures ok ==> View(Snap()) == Put(View(old(Snap())), d, i, Own(ZeroPage()))
      ensures !ok ==> View(Snap()) == View(old(Snap())) && memMap[..] == old(memMap[..])
      ensures Dirty(Snap()) == Touch(Dirty(old(Snap())), MapEmpty(d, i), if ok then Done else Refused)
    {
      hide View;
      ghost var s0 := Snap();
      var tmp := GetFreePage();
      if tmp == 0 {
        return false;
      }
      assert Snap().counts[tmp - low] == 1;
      ghost var s := Snap();
      ok := PutPage(tmp, d, i);
      if !ok {
        assert Snap() == s;
        GiveBack(tmp);
        SameTouched(s0, Snap());
      } else {
        WordTouched(s0, Snap(), d, i);
      }
    }

    /** A present page that may not be written becomes one that may: its own if it is shared or belongs to
        the kernel, itself otherwise.  False if a new page is needed and there is none. */
    method UnWpPage(d: nat, i: nat) returns (ok: bool)
      requires Valid() && HasPte(Snap(), d, i) && PteAt(Snap(), d, i).present && !PteAt(Snap(), d, i).rw
      modifies this, memMap, table, data
      ensures Valid() && held == old(held)
      ensures var e := PteAt(old(Snap()), d, i);
              ok <==> (low <= e.frame && old(memMap[e.frame - low]) == 1) || FreeFrames(old(Snap())) != {}
      ensures !ok ==> Snap() == old(Snap())
      ensures ok ==> PteAt(Snap(), d, i).rw && DiffersAt(old(Snap()), Snap(), d, i)
      ensures ok ==> View(Snap()) == match See(old(Snap()), d, i)
                                     case Kernel(f) => Put(View(old(Snap())), d, i, Own(old(data[f])))
                                     case _ => View(old(Snap()))
      ensures ok ==> PteAt(Snap(), d, i).present && low <= PteAt(Snap(), d, i).frame
      ensures var e := PteAt(old(Snap()), d, i);
              if low <= e.frame && old(memMap[e.frame - low]) == 1 then Snap() == SetPte(old(Snap()), d, i, e.(rw := true))
              else ok ==> PteAt(Snap(), d, i).frame - low in FreeFrames(old(Snap()))
    {
      ghost var s := Snap();
      var e := table[dir[d].frame][i];
      assert e == PteAt(s, d, i);
      if low <= e.frame && memMap[e.frame - low] == 1 {
        FlagsKeep(s, d, i, Pte(true, true, e.dirty, e.frame));
        WriteWord(d, i, Pte(true, true, e.dirty, e.frame));
        return true;
      }
      ok := CopyPage(d, i);
    }

    /** The page becomes a copy of itself in a free frame. */
    method CopyPage(d: nat, i: nat) returns (ok: bool)
      requires Valid() && HasPte(Snap(), d, i) && PteAt(Snap(), d, i).present
      modifies this, memMap, table, data
      ensures Valid() && held == old(held) && (ok <==> FreeFrames(old(Snap())) != {}) && (!ok ==> Snap() == old(Snap()))
      ensures ok ==> DiffersAt(old(Snap()), Snap(), d, i) && PteAt(Snap(), d, i) == User(PteAt(Snap(), d, i).frame)
      ensures ok ==> low <= PteAt(Snap(), d, i).frame && PteAt(Snap(), d, i).frame - low in FreeFrames(old(Snap()))
      ensures ok ==> View(Snap()) == match See(old(Snap()), d, i)
                                     case Kernel(f) => Put(View(old(Snap())), d, i, Own(old(data[f])))
                                     case _ => View(old(Snap()))
    {
      hide View;
      ghost var s := Snap();
      var newPage := GetFreePage();
      if newPage == 0 {
        return false;
      }
      MappedCounts(s, d, i);
      assert Snap().data[PteAt(s, d, i).frame] == s.data[PteAt(s, d, i).frame];
      SplitKeeps(Snap(), d, i, newPage);
      TakePage(d, i, newPage);
      SplitSeen(s, View(s), d, i);
      return true;
    }

    /** The word's page is replaced by a held copy of it. */
    method TakePage(d: nat, i: nat, newPage: nat)
      requires Valid() && HasPte(Snap(), d, i) && PteAt(Snap(), d, i).present
      requires low <= newPage < high && memMap[newPage - low] == 1 == Held(Snap(), newPage)
      modifies this, memMap, table, data
      ensures Valid() && Snap() == Split(old(Snap()), d, i, newPage)
    {
      hide View, Exact;
      ghost var s := Snap();
      var oldPage := table[dir[d].frame][i].frame;
      assert oldPage == PteAt(s, d, i).frame;
      MappedCounts(s, d, i);
      SplitKeeps(s, d, i, newPage);
      if low <= oldPage {
        memMap[oldPage - low] := memMap[oldPage - low] - 1;
      }
      WriteWord(d, i, User(newPage));
      held := held - multiset{newPage};
      data[newPage] := data[oldPage];
      assert Snap() == Split(s, d, i, newPage);
    }

    /** Before the kernel writes to a user page; false if memory runs out. */
    method WriteVerify(d: nat, i: nat) returns (ok: bool)
      requires Valid() && d < dir.Length && i < ENTRIES
      modifies this, memMap, table, data
      ensures Valid() && held == old(held)
      ensures ok && PteAt(Snap(), d, i).present ==> PteAt(Snap(), d, i).rw
      ensures PteAt(Snap(), d, i).present == PteAt(old(Snap()), d, i).present
      ensures !ok || !PteAt(Snap(), d, i).present || PteAt(old(Snap()), d, i).rw ==> Snap() == old(Snap())
      ensures !ok ==> FreeFrames(Snap()) == {} && !PteAt(Snap(), d, i).rw
      ensures !See(old(Snap()), d, i).Kernel? ==> View(Snap()) == View(old(Snap()))
    {
      if !dir[d].present {
        return true;
      }
      var e := table[dir[d].frame][i];
      assert e == PteAt(Snap(), d, i);
      if e.present && !e.rw {
        ok := UnWpPage(d, i);
      } else {
        ok := true;
      }
    }
  
    /** A clean page of another task running the same program is mapped here too. */
    method TryToShare(from: nat, to: nat, i: nat) returns (r: Sharing)
      requires Valid() && from < dir.Length && to < dir.Length && i < ENTRIES
      requires from != to && from % TASK_DIRS == to % TASK_DIRS && !PteAt(Snap(), to, i).present
      modifies this, memMap, dir, table, data
      ensures Valid() && held == old(held)
      ensures var e := PteAt(old(Snap()), from, i); r == NotShared <==> !e.present || e.dirty || e.frame < low
      ensures r == OutOfMemory <==> r != NotShared && !old(dir[to].present) && FreeFrames(old(Snap())) == {}
      ensures r != Shared ==> Snap() == old(Snap())
      ensures r == Shared ==> View(Snap()) == Put(View(old(Snap())), to, i, See(old(Snap()), from, i))
      ensures r == Shared ==> PteAt(Snap(), to, i) == PteAt(Snap(), from, i) == ReadOnly(PteAt(old(Snap()), from, i))
      ensures Dirty(Snap()) == Touch(Dirty(old(Snap())), Share(from, to, i), if r == Shared then Done else Refused)
    {
      ghost var s := Snap();
      if !dir[from].present {
        return NotShared;
      }
      var physAddr := table[dir[from].frame][i];
      assert physAddr == PteAt(s, from, i);
      if !physAddr.present || physAddr.dirty {
        return NotShared;
      }
      if physAddr.frame >= high || physAddr.frame < low {
        return NotShared;
      }
      if !dir[to].present {
        var ok := NewTable(to);
        if !ok {
          return OutOfMemory;
        }
      }
      SameSight(s, Snap(), from, i);
      AliasKeeps(Snap(), from, to, i);
      ShareWord(from, to, i);
      AliasTouches(s, Snap(), from, to, i);
      return Shared;
    }

    /** The processor stores a byte; a page that may not be written faults and is made writable first. */
    method StoreByte(d: nat, i: nat, offset: nat, b: Byte) returns (out: Outcome)
      requires Valid() && HasPte(Snap(), d, i) && PteAt(Snap(), d, i).present && Legal(Store(d, i, offset, b))
      modifies this, memMap, table, data
      ensures Valid() && Stepped(old(Snap()), Snap(), Store(d, i, offset, b), out)
    {
      ghost var s := Snap();
      assert table[dir[d].frame][i] == PteAt(s, d, i);
      if !table[dir[d].frame][i].rw {
        var ok := UnWpPage(d, i);
        if !ok {
          StoreRefused(s, d, i, offset, b);
          return Refused;
        }
      }
      ghost var s1 := Snap();
      StoreStepped(s, s1, d, i, offset, b);
      out := if table[dir[d].frame][i].frame < low then KernelWrite else Done;
      WriteStored(d, i, offset, b);
    }

    /** The store itself, into a page that may be written. */
    method WriteStored(d: nat, i: nat, offset: nat, b: Byte)
      requires Valid() && HasPte(Snap(), d, i) && PteAt(Snap(), d, i).present && PteAt(Snap(), d, i).rw && offset < PAGE_SIZE
      modifies table, data
      ensures Valid() && Snap() == Write(old(Snap()), d, i, offset, b)
    {
      ghost var s := Snap();
      var f := table[dir[d].frame][i].frame;
      WriteKeeps(s, d, i, offset, b);
      WriteWord(d, i, Pte(true, true, true, f));
      data[f] := Poke(data[f], offset, b);
      assert Snap() == Write(s, d, i, offset, b);
    }

    /** Fork's memory, if the child has no page tables yet. */
    method DoFork(from: nat, to: nat, n: nat) returns (out: Outcome)
      requires Valid() && Legal(Fork(from, to, n))
      modifies this, memMap, dir, table, data
      ensures Valid() && Stepped(old(Snap()), Snap(), Fork(from, to, n), out)
    {
      ViewFilled(Snap());
      var d := to;
      while d < to + n && !dir[d].present
        invariant to <= d <= to + n && forall d' | to <= d' < d :: !dir[d'].present
      {
        d := d + 1;
      }
      if d < to + n {
        return Refused;
      }
      var ok := CopyMem(from, to, n);
      out := if ok then Done else Refused;
    }

    /** An empty page where there is none. */
    method DoMapEmpty(d: nat, i: nat) returns (out: Outcome)
      requires Valid() && Legal(MapEmpty(d, i))
      modifies this, memMap, dir, table, data
      ensures Valid() && Stepped(old(Snap()), Snap(), MapEmpty(d, i), out)
    {
      ViewFilled(Snap());
      out := Refused;
      if !dir[d].present || !table[dir[d].frame][i].present {
        var ok := GetEmptyPage(d, i);
        out := if ok then Done else Refused;
      }
    }

    /** A page of another task where there is none. */
    method DoShare(from: nat, to: nat, i: nat) returns (out: Outcome)
      requires Valid() && Legal(Share(from, to, i))
      modifies this, memMap, dir, table, data
      ensures Valid() && Stepped(old(Snap()), Snap(), Share(from, to, i), out)
    {
      ViewFilled(Snap());
      out := Refused;
      if !dir[to].present || !table[dir[to].frame][i].present {
        assert View(Snap()).view[from][i] == See(Snap(), from, i);
        var r := TryToShare(from, to, i);
        out := if r == Shared then Done else Refused;
      }
    }

    /** One operation.  It is refused exactly when memory runs out or the page words do not allow it. */
    method Step(op: Op) returns (out: Outcome)
      requires Valid() && Legal(op)
      modifies this, memMap, dir, table, data
      ensures Valid() && Stepped(old(Snap()), Snap(), op, out)
    {
      ViewFilled(Snap());
      match op {
        case Fork(from, to, n) => out := DoFork(from, to, n);
        case Store(d, i, offset, b) =>
          out := Refused;
          if dir[d].present && table[dir[d].frame][i].present {
            out := StoreByte(d, i, offset, b);
          }
        case MapEmpty(d, i) => out := DoMapEmpty(d, i);
        case Share(from, to, i) => out := DoShare(from, to, i);
        case Free(base, n) =>
          ghost var s := Snap();
          FreePageTables(base, n);
          FreeTouches(s, Snap(), base, n);
          out := Done;
      }
    }

    /** Any run: every task sees what it would see if every fork had copied every page; and every operation is done
        that the state before it allows. */
    method Run(ops: seq<Op>) returns (outs: seq<Outcome>, ghost states: seq<State>)
      requires Valid() && forall op | op in ops :: Legal(op)
      modifies this, memMap, dir, table, data
      ensures Valid() && held == old(held) && |outs| == |ops| && WellFilled(View(old(Snap())))
      ensures View(Snap()) == EagerRun(View(old(Snap())), ops, outs)
      ensures Traced(states, ops, outs) && states[0] == old(Snap()) && states[|ops|] == Snap()
      ensures Dirty(Snap()) == TouchRun(Dirty(old(Snap())), ops, outs)
    {
      ghost var s0 := Snap();
      FollowedNone(s0);
      hide Followed, Inv, View, Dirty;
      outs, states := [], [Snap()];
      for k := 0 to |ops|
        invariant Valid() && |outs| == k && Followed(s0, Snap(), states, ops[..k], outs)
      {
        ghost var s := Snap();
        var out := Step(ops[k]);
        assert ops[..k + 1] == ops[..k] + [ops[k]];
        FollowedMore(s0, s, Snap(), states, ops[..k], outs, ops[k], out);
        outs, states := outs + [out], states + [Snap()];
      }
      assert ops[..|ops|] == ops;
      FollowedIs(s0, Snap(), states, ops, outs);
    }
  }

  /** A run from s0 has come to s by these states. */
  ghost predicate Followed(s0: State, s: State, states: seq<State>, ops: seq<Op>, outs: seq<Outcome>) {
    && WellFilled(View0(s0)) && (forall op | op in ops :: Legal(op)) && |outs| == |ops| && s.held == s0.held && s.low <= |s.data|
    && View(s) == EagerRun(View0(s0), ops, outs) && Dirty(s) == TouchRun(Dirty(s0), ops, outs)
    && Traced(states, ops, outs) && states[0] == s0 && states[|ops|] == s
  }

  ghost function View0(s: State): Eager { if s.low <= |s.data| then View(s) else Eager([], []) }

  lemma FollowedNone(s0: State)
    requires Inv(s0)
    ensures Followed(s0, s0, [s0], [], [])
  {
    ViewFilled(s0);
  }

  lemma FollowedMore(s0: State, s: State, s': State, states: seq<State>, ops: seq<Op>, outs: seq<Outcome>, op: Op, out: Outcome)
    requires Followed(s0, s, states, ops, outs) && Inv(s) && Inv(s') && Legal(op) && Stepped(s, s', op, out)
    ensures Followed(s0, s', states + [s'], ops + [op], outs + [out])
  {
    hide EagerStep, CanDo, InKernel, Inv, WellFilled, View, EagerRun, Touch, TouchRun, Dirty, Legal;
    assert TracedAt([s, s'], [op], [out], 0);
    TracedMore(states, ops, outs, s', op, out);
    hide Traced, TracedAt;
    EagerRunMore(View0(s0), ops, outs, op, out);
    TouchRunMore(Dirty(s0), ops, outs, op, out);
  }

  lemma FollowedIs(s0: State, s: State, states: seq<State>, ops: seq<Op>, outs: seq<Outcome>)
    requires Followed(s0, s, states, ops, outs) && Inv(s0)
    ensures |outs| == |ops| && (forall op | op in ops :: Legal(op)) && s.held == s0.held && WellFilled(View(s0))
    ensures s.low <= |s.data| && View(s) == EagerRun(View(s0), ops, outs) && Dirty(s) == TouchRun(Dirty(s0), ops, outs)
    ensures Traced(states, ops, outs) && states[0] == s0 && states[|ops|] == s
  {
  }

  /** The dirty bits tell which pages have been stored into, at every point of a run. */
  lemma {:induction false} DirtyIsTouched(states: seq<State>, ops: seq<Op>, outs: seq<Outcome>, k: nat)
    requires Traced(states, ops, outs) && k <= |ops|
    ensures Dirty(states[k]) == TouchRun(Dirty(states[0]), ops[..k], outs[..k])
  {
    hide Touch, Dirty, EagerStep, CanDo, View, Inv;
    if k > 0 {
      DirtyIsTouched(states, ops, outs, k - 1);
      assert TracedAt(states, ops, outs, k - 1);
      TouchRunMore(Dirty(states[0]), ops[..k - 1], outs[..k - 1], ops[k - 1], outs[k - 1]);
      assert ops[..k] == ops[..k - 1] + [ops[k - 1]] && outs[..k] == outs[..k - 1] + [outs[k - 1]];
    }
  }

  /** A page may be shared exactly when its task sees it as its own, nobody has stored into it since it was mapped, here
      or in the parent it was forked from, and there is room for it; so no task is ever given what another has written. */
  lemma SharesUntouched(states: seq<State>, ops: seq<Op>, outs: seq<Outcome>, k: nat)
    requires Traced(states, ops, outs) && k < |ops| && ops[k].Share?
    ensures var op, s, t := ops[k], states[k], TouchRun(Dirty(states[0]), ops[..k], outs[..k]);
            && s.low <= |s.data| && WellFilled(View(s)) && Legal(op)
            && (outs[k] == Done <==> && View(s).view[op.from][op.i].Own? && View(s).view[op.to][op.i].Absent?
                                     && (op.from, op.i) !in t && (s.dir[op.to].present || FreeFrames(s) != {}))
  {
    DirtyIsTouched(states, ops, outs, k);
    assert TracedAt(states, ops, outs, k);
    var op, s := ops[k], states[k];
    assert View(s).view[op.from][op.i] == See(s, op.from, op.i) && View(s).view[op.to][op.i] == See(s, op.to, op.i);
    assert (op.from, op.i) in Dirty(s) <==> PteAt(s, op.from, op.i).present && PteAt(s, op.from, op.i).dirty;
  }

  lemma {:induction false} TablesSame(s: State, s': State, from: nat, k: nat)
    requires from + k <= |s.dir| && s'.dir == s.dir
    ensures Tables(s', from, k) == Tables(s, from, k)
  {
    if k > 0 { TablesSame(s, s', from, k - 1); }
  }

  lemma TracedMore(states: seq<State>, ops: seq<Op>, outs: seq<Outcome>, s': State, op: Op, out: Outcome)
    requires Traced(states, ops, outs)
    requires TracedAt([states[|ops|], s'], [op], [out], 0)
    ensures Traced(states + [s'], ops + [op], outs + [out])
  {
    forall k | 0 <= k < |ops| + 1 ensures TracedAt(states + [s'], ops + [op], outs + [out], k) {
      if k < |ops| { assert TracedAt(states, ops, outs, k); }
    }
  }
}
