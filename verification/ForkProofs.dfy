/** How copy_page_tables advances: the page words and the view after each row and each entry. */
module ForkProofs {
  import opened Counting
  import opened PagingSpec
  import opened PagingProofs

  /** Two different tasks, the second without page tables in its first n directory entries. */
  ghost predicate ForkArgs(s: State, from: nat, to: nat, n: nat) {
    && Inv(s) && n <= TASK_DIRS && from != to && from % TASK_DIRS == to % TASK_DIRS == 0
    && from + TASK_DIRS <= |s.dir| && to + TASK_DIRS <= |s.dir|
    && forall d | to <= d < to + n :: !s.dir[d].present
  }

  /** State s is what a fork from s0 has reached after k rows and i entries of row k. */
  ghost predicate Forking(s0: State, s: State, from: nat, to: nat, limit: nat, k: nat, i: nat)
    requires Shaped(s0) && from + TASK_DIRS <= |s0.dir| && to + TASK_DIRS <= |s0.dir|
    requires k <= TASK_DIRS && (i > 0 ==> k < TASK_DIRS)
  {
    && Inv(s) && s.low == s0.low && s.high == s0.high && |s.counts| == |s0.counts| && s.held == s0.held
    && View(s) == ForkPart(View(s0), from, to, limit, k, i)
    && Words(s0, s, from, to, limit, k, i)
    && (forall d | 0 <= d < |s0.dir| && !(to <= d <= to + k) :: s.dir[d] == s0.dir[d])
    && (forall d | to <= d < to + k :: s.dir[d].present == s0.dir[d - to + from].present)
  }

  /** The first fork copies only the low 640K of the kernel. */
  function ForkLimit(from: nat): nat { if from == 0 then LOW_COPY else ENTRIES }

  ghost predicate Words(s0: State, s: State, from: nat, to: nat, limit: nat, k: nat, i: nat) {
    forall d, x :: PteAt(s, d, x) == ForkedPte(s0, from, to, limit, k, i, d, x)
  }

  /** Directory entries from .. from + k that have a page table. */
  function Tables(s: State, from: nat, k: nat): nat
    requires from + k <= |s.dir|
  {
    if k == 0 then 0 else Tables(s, from, k - 1) + One(s.dir[from + k - 1].present)
  }

  lemma TablesGrow(s: State, from: nat, j: nat, k: nat)
    requires j <= k && from + k <= |s.dir|
    ensures Tables(s, from, j) <= Tables(s, from, k)
  {
    if j < k { TablesGrow(s, from, j, k - 1); }
  }

  /** k rows are copied, each with a page table taken from the free frames. */
  ghost predicate Copied(s0: State, s: State, from: nat, to: nat, limit: nat, k: nat)
    requires Shaped(s0) && from + TASK_DIRS <= |s0.dir| && to + TASK_DIRS <= |s0.dir| && k <= TASK_DIRS
  {
    && Forking(s0, s, from, to, limit, k, 0)
    && |s.dir| == |s0.dir| && (forall d | 0 <= d < |s.dir| && !(to <= d < to + k) :: s.dir[d] == s0.dir[d])
    && |FreeFrames(s)| == |FreeFrames(s0)| - Tables(s0, from, k)
  }

  /** There was a frame for every page table. */
  lemma CopyWorks(s0: State, s: State, from: nat, to: nat, limit: nat, n: nat)
    requires ForkArgs(s0, from, to, n) && Copied(s0, s, from, to, limit, n)
    ensures Tables(s0, from, n) <= |FreeFrames(s0)|
  {
  }

  /** There was none for the page table of row k. */
  lemma CopyFails(s0: State, s: State, from: nat, to: nat, limit: nat, n: nat, k: nat)
    requires ForkArgs(s0, from, to, n) && k < n && Copied(s0, s, from, to, limit, k)
    requires FreeFrames(s) == {} && s0.dir[from + k].present
    ensures Tables(s0, from, n) > |FreeFrames(s0)|
  {
    TablesGrow(s0, from, k + 1, n);
  }

  lemma ForkStarts(s: State, from: nat, to: nat, limit: nat, n: nat)
    requires ForkArgs(s, from, to, n) && limit <= ENTRIES
    ensures Copied(s, s, from, to, limit, 0)
  {
    ViewIs(s, ForkPart(View(s), from, to, limit, 0, 0));
  }

  /** A row whose parent has no page table is left alone. */
  lemma ForkSkips(s0: State, s: State, from: nat, to: nat, limit: nat, n: nat, k: nat)
    requires ForkArgs(s0, from, to, n) && limit <= ENTRIES && k < n && !s0.dir[from + k].present
    requires Forking(s0, s, from, to, limit, k, 0) && s.dir[to + k] == s0.dir[to + k]
    ensures Forking(s0, s, from, to, limit, k + 1, 0)
  {
    TasksApart(s0, from, to, n, k);
    ForkPartRow(View(s0), from, to, limit, k, 0);
  }

  /** The row gets its page table. */
  lemma ForkTakesTable(s0: State, s: State, s': State, from: nat, to: nat, limit: nat, k: nat)
    requires Shaped(s0) && from + TASK_DIRS <= |s0.dir| && to + TASK_DIRS <= |s0.dir| && k < TASK_DIRS
    requires Forking(s0, s, from, to, limit, k, 0) && Inv(s') && View(s') == View(s) && SamePte(s, s')
    requires s'.low == s.low && s'.high == s.high && |s'.counts| == |s.counts| && s'.held == s.held
    requires forall d | 0 <= d < |s.dir| && d != to + k :: s'.dir[d] == s.dir[d]
    ensures Forking(s0, s', from, to, limit, k, 0)
  {
  }

  /** One more word of the row. */
  lemma WordsMove(s0: State, s: State, s': State, from: nat, to: nat, limit: nat, n: nat, k: nat, i: nat)
    requires ForkArgs(s0, from, to, n) && k < n && i < limit <= ENTRIES && Words(s0, s, from, to, limit, k, i)
    requires PteAt(s', to + k, i) == ChildPte(PteAt(s0, from + k, i))
    requires PteAt(s', from + k, i) == ParentPte(s0, PteAt(s0, from + k, i))
    requires forall d, x | !(d == to + k && x == i) && !(d == from + k && x == i) :: PteAt(s', d, x) == PteAt(s, d, x)
    ensures Words(s0, s', from, to, limit, k, i + 1)
  {
    TasksApart(s0, from, to, n, k);
    forall d, x ensures PteAt(s', d, x) == ForkedPte(s0, from, to, limit, k, i + 1, d, x) {
      assert PteAt(s, d, x) == ForkedPte(s0, from, to, limit, k, i, d, x);
    }
  }

  /** The next word of the row: as it was in the parent, and not yet in the child. */
  lemma ForkNext(s0: State, s: State, from: nat, to: nat, limit: nat, n: nat, k: nat, i: nat)
    requires ForkArgs(s0, from, to, n) && i < limit <= ENTRIES && k < n && Forking(s0, s, from, to, limit, k, i)
    ensures PteAt(s, from + k, i) == PteAt(s0, from + k, i) && PteAt(s, to + k, i) == NONE
    ensures Put(View(s), to + k, i, See(s, from + k, i)) == ForkPart(View(s0), from, to, limit, k, i + 1)
    ensures !PteAt(s, from + k, i).present ==> View(s) == ForkPart(View(s0), from, to, limit, k, i + 1)
  {
    TasksApart(s0, from, to, n, k);
    ForkPartEntry(View(s0), from, to, limit, k, i);
    assert See(s, from + k, i) == View(s).view[from + k][i];
    assert PteAt(s, from + k, i) == ForkedPte(s0, from, to, limit, k, i, from + k, i);
    assert PteAt(s, to + k, i) == ForkedPte(s0, from, to, limit, k, i, to + k, i);
    if !PteAt(s, from + k, i).present { PutSame(View(s), to + k, i); }
  }

  lemma SamePlace(from: nat, to: nat, k: nat)
    requires from % TASK_DIRS == to % TASK_DIRS == 0 && k < TASK_DIRS
    ensures (from + k) % TASK_DIRS == (to + k) % TASK_DIRS
  {
    assert (from + k) % TASK_DIRS == k && (to + k) % TASK_DIRS == k;
  }

  /** One more entry of the row, where the parent has a page. */
  lemma ForkShares(s0: State, s: State, from: nat, to: nat, limit: nat, n: nat, k: nat, i: nat)
    requires ForkArgs(s0, from, to, n) && i < limit <= ENTRIES && k < n && Forking(s0, s, from, to, limit, k, i)
    requires s.dir[to + k].present && s.dir[from + k].present && PteAt(s, from + k, i).present
    ensures Inv(s) && from + k != to + k && (from + k) % TASK_DIRS == (to + k) % TASK_DIRS
    ensures !PteAt(s, to + k, i).present
    ensures Forking(s0, Alias(s, from + k, to + k, i), from, to, limit, k, i + 1)
    ensures SameBounds(s, Alias(s, from + k, to + k, i))
    ensures FreeFrames(Alias(s, from + k, to + k, i)) == FreeFrames(s)
  {
    hide Shaped;
    SamePlace(from, to, k);
    ForkNext(s0, s, from, to, limit, n, k, i);
    hide Words, Alias, View, See, FreeFrames, Inv;
    AliasKeeps(s, from + k, to + k, i);
    AliasFree(s, from + k, to + k, i);
    RowMoves(s0, s, Alias(s, from + k, to + k, i), from, to, limit, n, k, i);
  }

  /** The row goes on with the parent's page shared. */
  lemma RowMoves(s0: State, s: State, s': State, from: nat, to: nat, limit: nat, n: nat, k: nat, i: nat)
    requires ForkArgs(s0, from, to, n) && i < limit <= ENTRIES && k < n && Forking(s0, s, from, to, limit, k, i)
    requires Inv(s') && SameBounds(s, s') && View(s') == Put(View(s), to + k, i, See(s, from + k, i))
    requires var e := PteAt(s, from + k, i);
             && e.present && PteAt(s', to + k, i) == ReadOnly(e)
             && PteAt(s', from + k, i) == if Managed(s, e.frame) then ReadOnly(e) else e
    requires forall d, x | !(d == to + k && x == i) && !(d == from + k && x == i) :: PteAt(s', d, x) == PteAt(s, d, x)
    ensures Forking(s0, s', from, to, limit, k, i + 1)
  {
    ForkNext(s0, s, from, to, limit, n, k, i);
    hide View, See, PteAt, Inv;
    WordsMove(s0, s, s', from, to, limit, n, k, i);
    hide Words;
  }

  /** One more entry of the row, where the parent has none. */
  lemma ForkPasses(s0: State, s: State, from: nat, to: nat, limit: nat, n: nat, k: nat, i: nat)
    requires ForkArgs(s0, from, to, n) && i < limit <= ENTRIES && k < n && Forking(s0, s, from, to, limit, k, i)
    requires !PteAt(s, from + k, i).present
    ensures Forking(s0, s, from, to, limit, k, i + 1)
  {
    ForkNext(s0, s, from, to, limit, n, k, i);
    WordsMove(s0, s, s, from, to, limit, n, k, i);
  }

  /** The row is complete. */
  lemma ForkTurns(s0: State, s: State, from: nat, to: nat, limit: nat, n: nat, k: nat)
    requires ForkArgs(s0, from, to, n) && limit <= ENTRIES && k < n
    requires Forking(s0, s, from, to, limit, k, limit) && s.dir[to + k].present && s0.dir[from + k].present
    ensures Forking(s0, s, from, to, limit, k + 1, 0)
  {
    TasksApart(s0, from, to, n, k);
    ForkPartRow(View(s0), from, to, limit, k, limit);
  }

  predicate NoPages(e: Eager, d: nat)
    requires d < |e.view|
  {
    forall x | 0 <= x < |e.view[d]| :: e.view[d][x] == Absent
  }

  ghost predicate Apart(e: Eager, from: nat, to: nat) {
    && Framed(e) && from + TASK_DIRS <= |e.view| && to + TASK_DIRS <= |e.view|
    && (from + TASK_DIRS <= to || to + TASK_DIRS <= from)
  }

  lemma TasksApart(s: State, from: nat, to: nat, n: nat, k: nat)
    requires ForkArgs(s, from, to, n) && k < n
    ensures Apart(View(s), from, to) && NoPages(View(s), to + k)
    ensures !s.dir[from + k].present ==> NoPages(View(s), from + k)
  {
  }

  lemma ForkPartRow(e: Eager, from: nat, to: nat, limit: nat, k: nat, i: nat)
    requires Apart(e, from, to) && limit <= ENTRIES && k < TASK_DIRS && NoPages(e, to + k)
    requires i == limit || (i == 0 && NoPages(e, from + k))
    ensures ForkPart(e, from, to, limit, k, i) == ForkPart(e, from, to, limit, k + 1, 0)
  {
    var a, b := ForkPart(e, from, to, limit, k, i), ForkPart(e, from, to, limit, k + 1, 0);
    forall d | 0 <= d < |e.view| ensures a.view[d] == b.view[d] {
      forall x | 0 <= x < ENTRIES ensures a.view[d][x] == b.view[d][x] {
        if d == to + k { assert e.view[to + k][x] == Absent; }
      }
    }
    assert a.view == b.view;
  }

  lemma ForkPartEntry(e: Eager, from: nat, to: nat, limit: nat, k: nat, i: nat)
    requires Apart(e, from, to) && i < limit <= ENTRIES && k < TASK_DIRS && NoPages(e, to + k)
    ensures var v := ForkPart(e, from, to, limit, k, i);
            && v.view[from + k][i] == e.view[from + k][i] && v.view[to + k][i] == Absent
            && Put(v, to + k, i, e.view[from + k][i]) == ForkPart(e, from, to, limit, k, i + 1)
  {
    var a, b := ForkPart(e, from, to, limit, k, i), ForkPart(e, from, to, limit, k, i + 1);
    var c := Put(a, to + k, i, e.view[from + k][i]);
    forall d | 0 <= d < |e.view| ensures c.view[d] == b.view[d] {
      forall x | 0 <= x < ENTRIES ensures c.view[d][x] == b.view[d][x] {
        if d == to + k { assert d - to + from == from + k; }
      }
    }
    assert c.view == b.view;
  }

  lemma PutSame(e: Eager, d: nat, i: nat)
    requires d < |e.view| && i < |e.view[d]|
    ensures Put(e, d, i, e.view[d][i]) == e
  {
    assert e.view[d][i := e.view[d][i]] == e.view[d];
    assert Put(e, d, i, e.view[d][i]).view == e.view;
  }

  /** Sharing a page takes no frame. */
  lemma AliasFree(s: State, from: nat, to: nat, i: nat)
    requires Inv(s) && HasPte(s, from, i) && HasPte(s, to, i) && PteAt(s, from, i).present
    ensures FreeFrames(Alias(s, from, to, i)) == FreeFrames(s)
  {
    MappedCounts(s, from, i);
  }

  lemma ForkEnds(s0: State, s: State, from: nat, to: nat, limit: nat, n: nat)
    requires ForkArgs(s0, from, to, n) && limit <= ENTRIES && Forking(s0, s, from, to, limit, n, 0)
    ensures View(s) == EagerFork(View(s0), from, to, limit, n)
  {
    var a, b := View(s), EagerFork(View(s0), from, to, limit, n);
    forall d | 0 <= d < |s0.dir| ensures a.view[d] == b.view[d] {
      forall x | 0 <= x < ENTRIES ensures a.view[d][x] == b.view[d][x] { }
    }
    assert a.view == b.view;
  }

  /** s' is s without the page tables of the directory entries to .. to + n. */
  ghost predicate Stripped(s: State, s': State, to: nat, n: nat) {
    && Inv(s') && s'.low == s.low && |s'.counts| == |s.counts| && |s'.dir| == |s.dir| && s'.held == s.held
    && s.low <= |s.data| && View(s') == EagerFree(View(s), to, n)
    && (forall d, x :: PteAt(s', d, x) == if to <= d < to + n then NONE else PteAt(s, d, x))
    && forall d | 0 <= d < |s.dir| :: if to <= d < to + n then !s'.dir[d].present else s'.dir[d] == s.dir[d]
  }

  /** After a failed fork and free_page_tables every task sees what it saw. */
  lemma ForkUnseen(s0: State, s: State, s': State, from: nat, to: nat, limit: nat, n: nat, k: nat)
    requires ForkArgs(s0, from, to, n) && limit <= ENTRIES && k <= n && Copied(s0, s, from, to, limit, k)
    requires Stripped(s, s', to, n)
    ensures View(s') == View(s0)
  {
    forall d | 0 <= d < |s0.dir| ensures View(s').view[d] == View(s0).view[d] {
      forall x | 0 <= x < ENTRIES ensures View(s').view[d][x] == View(s0).view[d][x] { }
    }
    assert View(s').view == View(s0).view;
  }

  /** Reference bytes are determined by the references. */
  lemma SameRefs(s: State, s': State)
    requires Inv(s) && Inv(s') && s'.low == s.low && |s'.counts| == |s.counts| && |s'.dir| == |s.dir| && s'.held == s.held
    requires forall d, x, f :: Maps(s', d, x, f) <==> Maps(s, d, x, f)
    requires forall d, f :: DirUses(s', d, f) <==> DirUses(s, d, f)
    ensures s'.counts == s.counts
  {
    forall j | 0 <= j < |s.counts| ensures s'.counts[j] == s.counts[j] {
      assert FrameOk(s, j + s.low) && FrameOk(s', j + s.low) && Managed(s, j + s.low);
      assert PteRefs(s', j + s.low) == PteRefs(s, j + s.low);
      assert DirRefs(s', j + s.low) == DirRefs(s, j + s.low);
    }
  }

  /** After a failed fork and free_page_tables every reference byte is as it was. */
  lemma ForkUncounted(s0: State, s: State, s': State, from: nat, to: nat, limit: nat, n: nat, k: nat)
    requires ForkArgs(s0, from, to, n) && limit <= ENTRIES && k <= n && Copied(s0, s, from, to, limit, k)
    requires Stripped(s, s', to, n)
    ensures s'.counts == s0.counts
  {
    hide Shaped;
    forall d, x, f ensures Maps(s', d, x, f) <==> Maps(s0, d, x, f) {
      assert PteAt(s, d, x) == ForkedPte(s0, from, to, limit, k, 0, d, x);
    }
    SameRefs(s0, s');
  }

  /** A task's exit frees exactly the frames that nothing else refers to. */
  lemma ExitFrees(s: State, s': State, base: nat, n: nat, f: int)
    requires Inv(s) && Stripped(s, s', base, n) && Managed(s, f)
    ensures s'.counts[f - s.low] == 0 <==>
              && Held(s, f) == 0
              && (forall d, x | Maps(s, d, x, f) :: base <= d < base + n)
              && forall d | DirUses(s, d, f) :: base <= d < base + n
  {
    assert FrameOk(s', f);
    if s'.counts[f - s.low] == 0 {
      Unreferenced(s', f);
      forall d, x | Maps(s, d, x, f) ensures base <= d < base + n { assert !Maps(s', d, x, f); }
      forall d | DirUses(s, d, f) ensures base <= d < base + n { assert !DirUses(s', d, f); }
    } else if Held(s, f) == 0 && forall d, x | Maps(s, d, x, f) :: base <= d < base + n {
      forall d, x ensures !Maps(s', d, x, f) { assert Maps(s', d, x, f) ==> Maps(s, d, x, f); }
      assert PteRefs(s', f) == {};
      assert DirRefs(s', f) != {};
      var d :| d in DirRefs(s', f);
      assert DirUses(s, d, f);
    }
  }
}
