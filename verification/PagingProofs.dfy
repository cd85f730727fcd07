/** Each step of PagingSpec keeps the invariant; what it does to the page words and to the view. */
module PagingProofs {
  import opened Counting
  import opened PagingSpec

  /** Writing a page word changes that word and no other. */
  lemma SetPteOnly(s: State, d: nat, i: nat, e: Pte)
    requires Inv(s) && HasPte(s, d, i)
    ensures forall d', i' :: PteAt(SetPte(s, d, i, e), d', i') == if d' == d && i' == i then e else PteAt(s, d', i')
  {
    forall d', i'
      ensures PteAt(SetPte(s, d, i, e), d', i') == if d' == d && i' == i then e else PteAt(s, d', i')
    {
      assert FrameOk(s, s.dir[d].frame);
      assert DirUses(s, d, s.dir[d].frame);
      assert d' != d ==> !DirUses(s, d', s.dir[d].frame);
    }
  }

  ghost predicate SamePte(s: State, s': State) {
    |s'.dir| == |s.dir| && forall d, i :: PteAt(s', d, i) == PteAt(s, d, i)
  }

  ghost predicate DiffersAt(s: State, s': State, d: int, i: int) {
    s'.dir == s.dir && 0 <= d < |s.dir| && 0 <= i < ENTRIES &&
    forall d', i' | !(d' == d && i' == i) :: PteAt(s', d', i') == PteAt(s, d', i')
  }

  ghost predicate SameBounds(s: State, s': State) {
    s'.low == s.low && s'.high == s.high && |s'.counts| == |s.counts| && s'.dir == s.dir && s'.held == s.held
  }

  ghost predicate SameCounts(s: State, s': State, f: int) {
    && s'.low == s.low && s'.high == s.high && |s'.counts| == |s.counts|
    && (Managed(s, f) ==> s'.counts[f - s.low] == s.counts[f - s.low]) && Held(s', f) == Held(s, f)
  }

  /** Changing one page word moves the reference counts by that word alone. */
  lemma RefsMove(s: State, s': State, d: int, i: int, f: int)
    requires DiffersAt(s, s', d, i)
    ensures |PteRefs(s', f)| == |PteRefs(s, f)| - One(Maps(s, d, i, f)) + One(Maps(s', d, i, f))
    ensures DirRefs(s', f) == DirRefs(s, f)
  {
    forall p | p != (d, i) ensures p in PteRefs(s', f) <==> p in PteRefs(s, f) {
      assert PteAt(s', p.0, p.1) == PteAt(s, p.0, p.1);
    }
    assert (d, i) in Places(|s.dir|);
    CardMove(PteRefs(s, f), PteRefs(s', f), (d, i));
  }

  /** Changing one directory entry to or from the zero word. */
  lemma DirRefsMove(s: State, s': State, d: int, f: int)
    requires |s'.dir| == |s.dir| && 0 <= d < |s.dir|
    requires forall d' | 0 <= d' < |s.dir| && d' != d :: s'.dir[d'] == s.dir[d']
    ensures |DirRefs(s', f)| == |DirRefs(s, f)| - One(DirUses(s, d, f)) + One(DirUses(s', d, f))
  {
    CardMove(DirRefs(s, f), DirRefs(s', f), d);
  }

  /** A frame that the changed word neither left nor entered. */
  lemma FrameAside(s: State, s': State, d: int, i: int, f: int)
    requires FrameOk(s, f) && DiffersAt(s, s', d, i) && SameCounts(s, s', f)
    requires !Maps(s, d, i, f) && !Maps(s', d, i, f)
    ensures FrameOk(s', f)
  {
    RefsMove(s, s', d, i, f);
    assert forall d', i' :: Maps(s', d', i', f) <==> Maps(s, d', i', f);
    assert forall d' :: DirUses(s', d', f) <==> DirUses(s, d', f);
  }

  /** No page word and no directory entry refers to a frame whose count the kernel holds. */
  lemma Unreferenced(s: State, f: int)
    requires FrameOk(s, f) && Managed(s, f) && Held(s, f) == s.counts[f - s.low]
    requires Shaped(s)
    ensures forall d, i :: !Maps(s, d, i, f)
    ensures forall d :: !DirUses(s, d, f)
  {
    assert PteRefs(s, f) == {} && DirRefs(s, f) == {};
    forall d, i ensures !Maps(s, d, i, f) { assert (d, i) !in PteRefs(s, f); }
    forall d ensures !DirUses(s, d, f) { assert d !in DirRefs(s, f); }
  }

  lemma ClaimKeeps(s: State, f: nat)
    requires Inv(s) && Managed(s, f) && s.counts[f - s.low] == 0
    ensures var s' := Claim(s, f); Inv(s') && Held(s', f) == 1 && View(s') == View(s) && SamePte(s, s')
  {
    assert FrameOk(s, f);
    Unreferenced(s, f);
    var s' := Claim(s, f);
    forall d, i ensures PteAt(s', d, i) == PteAt(s, d, i) { assert !DirUses(s, d, f); }
    forall g ensures FrameOk(s', g) {
      assert FrameOk(s, g);
      assert PteRefs(s', g) == PteRefs(s, g);
      assert DirRefs(s', g) == DirRefs(s, g);
      assert forall d, i :: Maps(s', d, i, g) <==> Maps(s, d, i, g);
      assert forall d :: DirUses(s', d, g) <==> DirUses(s, d, g);
    }
    forall d, i | PteAt(s, d, i).present
      ensures s'.data[PteAt(s, d, i).frame] == s.data[PteAt(s, d, i).frame] { assert !Maps(s, d, i, f); }
    ViewSame(s, s');
  }

  /** Same words, same contents behind them: same view. */
  lemma ViewSame(s: State, s': State)
    requires Shaped(s) && Shaped(s') && SamePte(s, s') && s'.low == s.low && |s'.data| == |s.data|
    requires s'.data[..s.low] == s.data[..s.low]
    requires forall d, i | PteAt(s, d, i).present :: s'.data[PteAt(s, d, i).frame] == s.data[PteAt(s, d, i).frame]
    ensures View(s') == View(s)
  {
    ViewIs(s', View(s));
  }

  /** A page word changes and nothing else that a view depends on. */
  lemma ViewMoves(s: State, s': State, d: nat, i: nat)
    requires Shaped(s) && DiffersAt(s, s', d, i)
    requires s'.low == s.low && |s'.data| == |s.data| && s'.data[..s.low] == s.data[..s.low]
    requires forall d', i' | PteAt(s, d', i').present && !(d' == d && i' == i) ::
               s'.data[PteAt(s, d', i').frame] == s.data[PteAt(s, d', i').frame]
    ensures View(s') == Put(View(s), d, i, See(s', d, i))
  {
    ViewIs(s', Put(View(s), d, i, See(s', d, i)));
  }

  lemma UnholdKeeps(s: State, f: nat)
    requires Inv(s) && Managed(s, f) && 0 < Held(s, f) && f < s.high
    ensures Inv(Unhold(s, f)) && View(Unhold(s, f)) == View(s) && SamePte(s, Unhold(s, f))
  {
    var s' := Unhold(s, f);
    assert SamePte(s, s');
    forall g ensures FrameOk(s', g) {
      assert FrameOk(s, g);
      assert PteRefs(s', g) == PteRefs(s, g);
      assert DirRefs(s', g) == DirRefs(s, g);
      assert forall d, i :: Maps(s', d, i, g) <==> Maps(s, d, i, g);
      assert forall d :: DirUses(s', d, g) <==> DirUses(s, d, g);
    }
    ViewSame(s, s');
  }

  lemma PutTableKeeps(s: State, d: nat, f: nat)
    requires Inv(s) && Managed(s, f) && f < s.high && Held(s, f) == 1 == s.counts[f - s.low]
    requires s.table[f] == ZeroTable() && d < |s.dir| && !s.dir[d].present
    ensures Inv(PutTable(s, d, f)) && View(PutTable(s, d, f)) == View(s) && SamePte(s, PutTable(s, d, f))
  {
    assert FrameOk(s, f);
    Unreferenced(s, f);
    var s' := PutTable(s, d, f);
    forall d', i ensures PteAt(s', d', i) == PteAt(s, d', i) { assert !DirUses(s, d', f); }
    forall g ensures FrameOk(s', g) {
      assert FrameOk(s, g);
      assert PteRefs(s', g) == PteRefs(s, g);
      DirRefsMove(s, s', d, g);
      assert forall d, i :: Maps(s', d, i, g) <==> Maps(s, d, i, g);
      assert forall d' :: DirUses(s', d', g) <==> DirUses(s, d', g) || (d' == d && g == f);
    }
    ViewSame(s, s');
  }

  lemma PutPteKeeps(s: State, d: nat, i: nat, f: nat)
    requires Inv(s) && Managed(s, f) && f < s.high && Held(s, f) == 1 == s.counts[f - s.low]
    requires HasPte(s, d, i) && !PteAt(s, d, i).present
    ensures var s' := PutPte(s, d, i, f);
            Inv(s') && DiffersAt(s, s', d, i) && View(s') == Put(View(s), d, i, Own(s.data[f]))
  {
    assert FrameOk(s, f);
    Unreferenced(s, f);
    var s' := PutPte(s, d, i, f);
    SetPteOnly(s, d, i, User(f));
    assert DiffersAt(s, s', d, i);
    forall g ensures FrameOk(s', g) {
      assert FrameOk(s, g);
      if g != f {
        FrameAside(s, s', d, i, g);
      } else {
        RefsMove(s, s', d, i, g);
        forall d', i' ensures Maps(s', d', i', f) <==> d' == d && i' == i { assert !Maps(s, d', i', f); }
        assert forall d' :: DirUses(s', d', f) <==> DirUses(s, d', f);
      }
    }
    ViewMoves(s, s', d, i);
  }

  /** A word of a managed frame whose byte is one is the frame's only word. */
  lemma OnlyWord(s: State, d: int, i: int, f: int)
    requires Shaped(s) && FrameOk(s, f) && Managed(s, f) && Maps(s, d, i, f) && s.counts[f - s.low] == 1
    ensures forall d', i' | Maps(s, d', i', f) :: d' == d && i' == i
  {
    assert (d, i) in PteRefs(s, f);
    assert |PteRefs(s, f) - {(d, i)}| == 0;
    forall d', i' | Maps(s, d', i', f) ensures d' == d && i' == i {
      assert (d', i') in PteRefs(s, f);
      assert (d', i') !in PteRefs(s, f) - {(d, i)};
    }
  }

  /** Changing the flags of a word: allowed unless it makes a shared managed page writable. */
  lemma FlagsKeep(s: State, d: nat, i: nat, e: Pte)
    requires Inv(s) && HasPte(s, d, i) && PteAt(s, d, i).present && e.present && e.frame == PteAt(s, d, i).frame
    requires e.rw && Managed(s, e.frame) && !PteAt(s, d, i).rw ==> s.counts[e.frame - s.low] == 1
    ensures var s' := SetPte(s, d, i, e); Inv(s') && DiffersAt(s, s', d, i) && View(s') == View(s)
  {
    var s' := SetPte(s, d, i, e);
    SetPteOnly(s, d, i, e);
    forall g ensures FrameOk(s', g) {
      assert FrameOk(s, g);
      if g != e.frame {
        FrameAside(s, s', d, i, g);
      } else {
        RefsMove(s, s', d, i, g);
        if Managed(s, g) && s.counts[g - s.low] == 1 { OnlyWord(s, d, i, g); }
        assert forall d', i' :: Maps(s', d', i', g) <==> Maps(s, d', i', g);
        assert forall d' :: DirUses(s', d', g) <==> DirUses(s, d', g);
      }
    }
    ViewMoves(s, s', d, i);
    assert See(s', d, i) == See(s, d, i);
    ViewIs(s', View(s));
  }

  /** The second word of Alias: a page that is no longer writable gets one more read-only word. */
  lemma LinkKeeps(s: State, from: nat, to: nat, i: nat)
    requires Inv(s) && HasPte(s, from, i) && HasPte(s, to, i) && from % TASK_DIRS == to % TASK_DIRS
    requires PteAt(s, from, i).present && !PteAt(s, to, i).present
    requires Managed(s, PteAt(s, from, i).frame) ==> !PteAt(s, from, i).rw
    ensures var s' := Link(s, from, to, i);
            Inv(s') && DiffersAt(s, s', to, i) && View(s') == Put(View(s), to, i, See(s, from, i))
  {
    var e := PteAt(s, from, i);
    var s' := Link(s, from, to, i);
    SetPteOnly(s, to, i, ReadOnly(e));
    assert DiffersAt(s, s', to, i);
    assert Maps(s, from, i, e.frame);
    forall g ensures FrameOk(s', g) {
      assert FrameOk(s, g);
      if g != e.frame {
        FrameAside(s, s', to, i, g);
      } else {
        RefsMove(s, s', to, i, g);
        forall d', i' ensures Maps(s', d', i', g) <==> Maps(s, d', i', g) || (d' == to && i' == i) { }
        assert forall d' :: DirUses(s', d', g) <==> DirUses(s, d', g);
        assert PageShared(s', g);
      }
    }
    ViewMoves(s, s', to, i);
  }

  /** Sharing one page: what the second task now sees is what the first one sees. */
  lemma AliasKeeps(s: State, from: nat, to: nat, i: nat)
    requires Inv(s) && HasPte(s, from, i) && HasPte(s, to, i) && from != to && from % TASK_DIRS == to % TASK_DIRS
    requires PteAt(s, from, i).present && !PteAt(s, to, i).present
    ensures var s' := Alias(s, from, to, i);
            && Inv(s') && SameBounds(s, s') && View(s') == Put(View(s), to, i, See(s, from, i))
            && PteAt(s', to, i) == ReadOnly(PteAt(s, from, i))
            && PteAt(s', from, i) == (if Managed(s, PteAt(s, from, i).frame) then ReadOnly(PteAt(s, from, i))
                                      else PteAt(s, from, i))
            && forall d', i' | !(d' == to && i' == i) && !(d' == from && i' == i) :: PteAt(s', d', i') == PteAt(s, d', i')
  {
    var e := PteAt(s, from, i);
    if Managed(s, e.frame) {
      var s1 := SetPte(s, from, i, ReadOnly(e));
      FlagsKeep(s, from, i, ReadOnly(e));
      LinkKeeps(s1, from, to, i);
    } else {
      LinkKeeps(s, from, to, i);
    }
  }

  lemma DropKeeps(s: State, d: nat, i: nat)
    requires Inv(s) && HasPte(s, d, i)
    ensures var s' := Drop(s, d, i);
            Inv(s') && DiffersAt(s, s', d, i) && PteAt(s', d, i) == NONE && View(s') == Put(View(s), d, i, Absent)
  {
    var s' := Drop(s, d, i);
    SetPteOnly(s, d, i, NONE);
    assert DiffersAt(s, s', d, i);
    forall g ensures FrameOk(s', g) {
      assert FrameOk(s, g);
      if !Maps(s, d, i, g) {
        FrameAside(s, s', d, i, g);
      } else {
        RefsMove(s, s', d, i, g);
        forall d', i' ensures Maps(s', d', i', g) ==> Maps(s, d', i', g) { }
        assert forall d' :: DirUses(s', d', g) <==> DirUses(s, d', g);
      }
    }
    ViewMoves(s, s', d, i);
  }

  lemma DropTableKeeps(s: State, d: nat)
    requires Inv(s) && d < |s.dir| && s.dir[d].present && forall i :: !PteAt(s, d, i).present
    ensures Inv(DropTable(s, d)) && View(DropTable(s, d)) == View(s)
    ensures forall d', i' :: PteAt(DropTable(s, d), d', i') == if d' == d then NONE else PteAt(s, d', i')
  {
    var s' := DropTable(s, d);
    assert forall d', i' | d' != d :: PteAt(s', d', i') == PteAt(s, d', i');
    forall g ensures FrameOk(s', g) {
      assert FrameOk(s, g);
      forall d', i' ensures Maps(s', d', i', g) <==> Maps(s, d', i', g) { }
      assert PteRefs(s', g) == PteRefs(s, g);
      DirRefsMove(s, s', d, g);
      assert forall d' :: DirUses(s', d', g) <==> DirUses(s, d', g) && d' != d;
    }
    ViewIs(s', View(s));
  }

  /** New contents for a page, words unchanged. */
  function Fill(s: State, f: nat, page: Page): State
    requires f < |s.data|
  {
    s.(data := s.data[f := page])
  }

  lemma FillKeepsInv(s: State, f: nat, page: Page)
    requires Inv(s) && f < |s.data| && |page| == PAGE_SIZE
    ensures Inv(Fill(s, f, page)) && SamePte(s, Fill(s, f, page))
  {
    var s' := Fill(s, f, page);
    assert SamePte(s, s');
    forall g ensures FrameOk(s', g) {
      assert FrameOk(s, g);
      assert PteRefs(s', g) == PteRefs(s, g);
      assert DirRefs(s', g) == DirRefs(s, g);
      assert forall d, i :: Maps(s', d, i, g) <==> Maps(s, d, i, g);
      assert forall d :: DirUses(s', d, g) <==> DirUses(s, d, g);
    }
  }

  /** A managed page with one word is seen through that word only. */
  lemma FillKeeps(s: State, d: nat, i: nat, f: nat, page: Page)
    requires Inv(s) && HasPte(s, d, i) && Managed(s, f) && Maps(s, d, i, f) && |page| == PAGE_SIZE
    requires forall d', i' | Maps(s, d', i', f) :: d' == d && i' == i
    ensures Inv(Fill(s, f, page)) && SamePte(s, Fill(s, f, page))
    ensures View(Fill(s, f, page)) == Put(View(s), d, i, Own(page))
  {
    FillKeepsInv(s, f, page);
    forall d', i' | PteAt(s, d', i').present && !(d' == d && i' == i)
      ensures Fill(s, f, page).data[PteAt(s, d', i').frame] == s.data[PteAt(s, d', i').frame] {
      assert !Maps(s, d', i', f);
    }
    ViewMoves(s, Fill(s, f, page), d, i);
  }

  /** Splitting a page off: the task keeps its contents and loses its claim on the old frame. */
  lemma SplitKeeps(s: State, d: nat, i: nat, g: nat)
    requires Inv(s) && HasPte(s, d, i) && PteAt(s, d, i).present
    requires Managed(s, g) && g < s.high && Held(s, g) == 1 == s.counts[g - s.low]
    ensures var s' := Split(s, d, i, g);
            && Inv(s') && DiffersAt(s, s', d, i) && PteAt(s', d, i) == User(g)
            && View(s') == Put(View(s), d, i, Own(s.data[PteAt(s, d, i).frame]))
  {
    var f := PteAt(s, d, i).frame;
    assert Maps(s, d, i, f);
    assert FrameOk(s, g);
    Unreferenced(s, g);
    DropKeeps(s, d, i);
    var s1 := Drop(s, d, i);
    PutPteKeeps(s1, d, i, g);
    var s2 := PutPte(s1, d, i, g);
    forall d', i' | Maps(s2, d', i', g) ensures d' == d && i' == i { assert !Maps(s, d', i', g); }
    SetPteOnly(s1, d, i, User(g));
    FillKeeps(s2, d, i, g, s.data[f]);
    SetPteTwice(AddCount(s, f, -1), d, i, NONE, User(g));
    assert Split(s, d, i, g) == Fill(s2, g, s.data[f]);
    PutTwice(View(s), d, i, Absent, Own(s.data[g]));
    PutTwice(View(s), d, i, Own(s.data[g]), Own(s.data[f]));
  }

  lemma SetPteTwice(s: State, d: nat, i: nat, e: Pte, e': Pte)
    requires d < |s.dir| && s.dir[d].frame < |s.table| && i < |s.table[s.dir[d].frame]|
    ensures SetPte(SetPte(s, d, i, e), d, i, e') == SetPte(s, d, i, e')
  {
    var f := s.dir[d].frame;
    assert s.table[f][i := e][i := e'] == s.table[f][i := e'];
    assert SetPte(SetPte(s, d, i, e), d, i, e').table == SetPte(s, d, i, e').table;
  }

  lemma PutTwice(v: Eager, d: nat, i: nat, a: Seen, b: Seen)
    requires d < |v.view| && i < |v.view[d]|
    ensures Put(Put(v, d, i, a), d, i, b) == Put(v, d, i, b)
  {
    assert v.view[d][i := a][i := b] == v.view[d][i := b];
    assert Put(Put(v, d, i, a), d, i, b).view == Put(v, d, i, b).view;
  }

  /** A store through a writable word is seen through that word and, in managed memory, no other. */
  lemma WriteKeeps(s: State, d: nat, i: nat, offset: nat, b: Byte)
    requires Inv(s) && HasPte(s, d, i) && PteAt(s, d, i).present && PteAt(s, d, i).rw && offset < PAGE_SIZE
    ensures var s' := Write(s, d, i, offset, b);
            var f := PteAt(s, d, i).frame;
            && Inv(s')
            && View(s') == if f < s.low then View(s).(kernel := s.data[..s.low][f := Poke(s.data[f], offset, b)])
                           else Put(View(s), d, i, Own(Poke(s.data[f], offset, b)))
  {
    var f := PteAt(s, d, i).frame;
    var e := Pte(true, true, true, f);
    FlagsKeep(s, d, i, e);
    var s1 := SetPte(s, d, i, e);
    var page := Poke(s.data[f], offset, b);
    assert Write(s, d, i, offset, b) == Fill(s1, f, page);
    FillKeepsInv(s1, f, page);
    if f < s.low {
      ViewIs(Fill(s1, f, page), View(s).(kernel := s.data[..s.low][f := page]));
    } else {
      assert FrameOk(s1, f);
      assert Maps(s1, d, i, f);
      FillKeeps(s1, d, i, f, page);
    }
  }

  /** A mapped page has at most one word for each task, so its reference byte cannot wrap. */
  lemma CountBound(s: State, d: int, i: int)
    requires Inv(s) && PteAt(s, d, i).present && Managed(s, PteAt(s, d, i).frame)
    ensures s.counts[PteAt(s, d, i).frame - s.low] <= TASKS
  {
    var f := PteAt(s, d, i).frame;
    assert FrameOk(s, f);
    assert Maps(s, d, i, f);
    forall d' ensures d' !in DirRefs(s, f) { }
    assert DirRefs(s, f) == {};
    Pigeons(PteRefs(s, f), TASKS);
  }

  /** Words at the same place in different tasks are no more than the tasks. */
  lemma Pigeons(refs: set<(int, int)>, n: nat)
    requires forall r | r in refs :: 0 <= r.0 < n * TASK_DIRS
    requires forall r, r' | r in refs && r' in refs :: r.0 % TASK_DIRS == r'.0 % TASK_DIRS && r.1 == r'.1
    ensures |refs| <= n
  {
    if n == 0 {
      assert refs == {};
    } else if last :| last in refs && last.0 >= (n - 1) * TASK_DIRS {
      forall r | r in refs - {last} ensures r.0 < (n - 1) * TASK_DIRS { SameTask(r.0, last.0, n - 1); }
      Pigeons(refs - {last}, n - 1);
      assert |refs| == |refs - {last}| + 1;
    } else {
      Pigeons(refs, n - 1);
    }
  }

  lemma SameTask(a: int, b: int, t: nat)
    requires a % TASK_DIRS == b % TASK_DIRS && t * TASK_DIRS <= b < t * TASK_DIRS + TASK_DIRS
    ensures t * TASK_DIRS <= a < t * TASK_DIRS + TASK_DIRS ==> a == b
  {
  }

  lemma ClaimTakesFree(s: State, f: nat)
    requires Shaped(s) && Managed(s, f) && s.counts[f - s.low] == 0
    ensures |FreeFrames(Claim(s, f))| == |FreeFrames(s)| - 1
  {
    assert f - s.low in FreeFrames(s);
    assert FreeFrames(Claim(s, f)) == FreeFrames(s) - {f - s.low};
  }

  /** A page that some word may write to has no other reference. */
  lemma WritableAlone(s: State, d: int, i: int)
    requires Inv(s) && PteAt(s, d, i).present && PteAt(s, d, i).rw && Managed(s, PteAt(s, d, i).frame)
    ensures s.counts[PteAt(s, d, i).frame - s.low] == 1
  {
    var f: int := PteAt(s, d, i).frame;
    assert FrameOk(s, f) && Maps(s, d, i, f);
    forall r | r in PteRefs(s, f) ensures r == (d, i) { assert Maps(s, r.0, r.1, f); }
    assert (d, i) in Places(|s.dir|);
    assert PteRefs(s, f) == {(d, i)};
    forall d' ensures !DirUses(s, d', f) {}
    assert DirRefs(s, f) == {};
  }

  /** A mapped managed page counts at least one, so freeing it cannot panic. */
  lemma MappedCounts(s: State, d: int, i: int)
    requires Inv(s) && PteAt(s, d, i).present
    ensures Managed(s, PteAt(s, d, i).frame) ==> s.counts[PteAt(s, d, i).frame - s.low] > 0
  {
    var f := PteAt(s, d, i).frame;
    assert FrameOk(s, f);
    assert Maps(s, d, i, f);
    assert (d, i) in PteRefs(s, f);
  }

  lemma TableCounts(s: State, d: int)
    requires Inv(s) && 0 <= d < |s.dir| && s.dir[d].present
    ensures Managed(s, s.dir[d].frame) ==> s.counts[s.dir[d].frame - s.low] == 1
  {
    var f: int := s.dir[d].frame;
    assert FrameOk(s, f) && DirUses(s, d, f);
    if Managed(s, f) {
      forall d' | d' in DirRefs(s, f) ensures d' == d { assert DirUses(s, d', f); }
      assert DirRefs(s, f) == {d};
      assert PteRefs(s, f) == {};
    }
  }

  lemma EagerFreeMore(e: Eager, base: nat, k: nat)
    ensures EagerFree(EagerFree(e, base, k), base + k, 1) == EagerFree(e, base, k + 1)
  {
    assert EagerFree(EagerFree(e, base, k), base + k, 1).view == EagerFree(e, base, k + 1).view;
  }

  lemma FreePartMore(e: Eager, d: nat, i: nat)
    requires d < |e.view| && i < |e.view[d]|
    ensures Put(FreePart(e, d, i), d, i, Absent) == FreePart(e, d, i + 1)
  {
    assert FreePart(e, d, i).view[d][i := Absent] == FreePart(e, d, i + 1).view[d];
    assert Put(FreePart(e, d, i), d, i, Absent).view == FreePart(e, d, i + 1).view;
  }

  lemma FreePartAll(e: Eager, d: nat)
    requires Framed(e) && d < |e.view|
    ensures FreePart(e, d, 0) == e && FreePart(e, d, ENTRIES) == EagerFree(e, d, 1)
  {
    assert FreePart(e, d, 0).view[d] == e.view[d];
    assert FreePart(e, d, 0).view == e.view;
    assert FreePart(e, d, ENTRIES).view[d] == EagerFree(e, d, 1).view[d];
    assert FreePart(e, d, ENTRIES).view == EagerFree(e, d, 1).view;
  }

  /** Words of two different page tables may be written in either order. */
  lemma SetPteSwap(s: State, a: nat, b: nat, i: nat, e: Pte)
    requires a < |s.dir| && b < |s.dir| && s.dir[a].frame < |s.table| && s.dir[b].frame < |s.table|
    requires s.dir[a].frame != s.dir[b].frame && i < |s.table[s.dir[a].frame]| && i < |s.table[s.dir[b].frame]|
    ensures SetPte(SetPte(s, b, i, e), a, i, e) == SetPte(SetPte(s, a, i, e), b, i, e)
  {
    assert SetPte(SetPte(s, b, i, e), a, i, e).table == SetPte(SetPte(s, a, i, e), b, i, e).table;
  }

  /** Splitting a managed page off leaves the view as it is. */
  lemma SplitSeen(s: State, e: Eager, d: nat, i: nat)
    requires Shaped(s) && e == View(s) && d < |s.dir| && i < ENTRIES
    ensures Put(e, d, i, See(s, d, i)) == e
  {
    ViewIs(s, Put(e, d, i, See(s, d, i)));
  }

  /** A view is filled with whole pages. */
  lemma ViewFilled(s: State)
    requires Inv(s)
    ensures WellFilled(View(s))
  {
    forall d, i | 0 <= d < |s.dir| && 0 <= i < ENTRIES
      ensures var seen := View(s).view[d][i];
              (seen.Own? ==> |seen.page| == PAGE_SIZE) && (seen.Kernel? ==> seen.frame < s.low)
    {
      assert View(s).view[d][i] == See(s, d, i);
    }
  }

  /** A fault, if there was one, and the store together are one eager store. */
  lemma StoreSeen(s: State, s1: State, d: nat, i: nat, offset: nat, b: Byte)
    requires Inv(s) && Inv(s1) && s1.low == s.low && HasPte(s, d, i) && HasPte(s1, d, i) && offset < PAGE_SIZE
    requires PteAt(s, d, i).present && PteAt(s1, d, i).present && PteAt(s1, d, i).rw
    requires s1 == s || (s.low <= PteAt(s1, d, i).frame &&
                         View(s1) == match See(s, d, i)
                                     case Kernel(f) => Put(View(s), d, i, Own(s.data[f]))
                                     case _ => View(s))
    ensures WellFilled(View(s))
    ensures View(Write(s1, d, i, offset, b)) ==
            EagerStep(View(s), Store(d, i, offset, b), if PteAt(s1, d, i).frame < s.low then KernelWrite else Done)
  {
    ViewFilled(s);
    WriteKeeps(s1, d, i, offset, b);
    assert View(s).view[d][i] == See(s, d, i);
    assert View(s1).view[d][i] == See(s1, d, i);
    if s1 != s && See(s, d, i).Kernel? {
      var f := PteAt(s, d, i).frame;
      assert View(s1).view[d][i] == Own(s.data[f]);
      PutTwice(View(s), d, i, Own(s.data[f]), Own(Poke(s.data[f], offset, b)));
    }
  }

  lemma SameSight(s: State, s': State, d: nat, i: nat)
    requires Shaped(s) && Shaped(s') && View(s') == View(s) && d < |s.dir| && i < ENTRIES && |s'.dir| == |s.dir|
    ensures See(s', d, i) == See(s, d, i)
  {
    assert View(s').view[d][i] == See(s', d, i);
    assert View(s).view[d][i] == See(s, d, i);
  }

  lemma {:induction false} UsedMarksCount(low: nat, frames: nat, start: nat, high: nat, f: nat)
    ensures UsedMarks(low, frames, start, high)[f] == if low <= f < low + frames && !(start <= f < high) then USED else 0
  {
    if frames > 0 { UsedMarksCount(low, frames - 1, start, high, f); }
  }

  /** The state after mem_init satisfies the invariant. */
  lemma InitKeeps(s: State, start: nat)
    requires 2 <= s.low <= ENTRIES && s.low <= start <= s.high <= s.low + |s.counts|
    requires |s.dir| == TASKS * TASK_DIRS && |s.table| == |s.data| == s.low + |s.counts|
    requires forall d | 0 <= d < |s.dir| :: s.dir[d] == if d == 0 then User(1) else NONE
    requires forall f | 0 <= f < |s.table| :: s.table[f] == if f == 1 then KernelTable(s.low) else ZeroTable()
    requires forall f | 0 <= f < |s.data| :: s.data[f] == ZeroPage()
    requires forall j | 0 <= j < |s.counts| :: s.counts[j] == if start <= s.low + j < s.high then 0 else USED
    requires s.held == UsedMarks(s.low, |s.counts|, start, s.high)
    ensures Inv(s)
    ensures forall d, i :: PteAt(s, d, i) == if d == 0 && 0 <= i < s.low then User(i) else NONE
  {
    forall d, i ensures PteAt(s, d, i) == if d == 0 && 0 <= i < s.low then User(i) else NONE { }
    forall f ensures FrameOk(s, f) {
      if Managed(s, f) {
        UsedMarksCount(s.low, |s.counts|, start, s.high, f);
        assert PteRefs(s, f) == {} && DirRefs(s, f) == {};
        assert s.counts[f - s.low] == if start <= f < s.high then 0 else USED;
      }
    }
  }
}
