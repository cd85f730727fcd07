/** The bucket allocator of lib/malloc.c.  The chains of bucket descriptors are sequences; the free lists
    are threaded through the pages themselves, word by word. */
module Malloc {
  const PAGE_SIZE: nat := 4096
  const BUCKETS: nat := 9
  const NULL: int := 0

  function SizeOf(i: nat): (s: nat)
    requires i < BUCKETS
    ensures 0 < s <= PAGE_SIZE
  {
    [16, 32, 64, 128, 256, 512, 1024, 2048, 4096][i]
  }

  /** The number of objects in a page. */
  function SlotsOf(i: nat): (n: nat)
    requires i < BUCKETS
    ensures n * SizeOf(i) == PAGE_SIZE && 0 < n
  {
    [256, 128, 64, 32, 16, 8, 4, 2, 1][i]
  }

  datatype Desc = Desc(page: int, freeptr: int, refcnt: int)

  /** The address of slot k of a page of bucket i. */
  function Addr(page: int, i: nat, k: int): int
    requires i < BUCKETS
  {
    page + k * SizeOf(i)
  }

  lemma AddrApart(page: int, i: nat, k: int, l: int)
    requires i < BUCKETS && 0 <= k < l < SlotsOf(i)
    ensures Addr(page, i, k) + SizeOf(i) <= Addr(page, i, l) && Addr(page, i, l) + SizeOf(i) <= page + PAGE_SIZE
  {
    Mul(k + 1, l, SizeOf(i));
    Mul(l + 1, SlotsOf(i), SizeOf(i));
  }

  lemma AddrIn(page: int, i: nat, k: int)
    requires i < BUCKETS && 0 <= k < SlotsOf(i)
    ensures page <= Addr(page, i, k) && Addr(page, i, k) + SizeOf(i) <= page + PAGE_SIZE
  {
    Mul(k + 1, SlotsOf(i), SizeOf(i));
    Mul(0, k, SizeOf(i));
  }

  lemma Mul(a: int, b: int, c: nat)
    requires a <= b
    ensures a * c <= b * c
  {
  }

  /** The buckets; the words in the pages; and, per page, which slots are on its free list, in order. */
  datatype Heap = Heap(chains: seq<seq<Desc>>, mem: map<int, int>, free: map<int, seq<int>>)

  /** The free list that starts at ptr goes through the slots `list`. */
  ghost predicate Threaded(mem: map<int, int>, page: int, i: nat, ptr: int, list: seq<int>)
    requires i < BUCKETS
    decreases list
  {
    if list == [] then ptr == NULL
    else
      && 0 <= list[0] < SlotsOf(i) && list[0] !in list[1..]
      && ptr == Addr(page, i, list[0]) && ptr in mem && Threaded(mem, page, i, mem[ptr], list[1..])
  }

  /** A bucket's page: its free list and its live objects make up its slots, and refcnt counts the latter. */
  ghost predicate DescOk(h: Heap, i: nat, d: Desc)
    requires i < BUCKETS
  {
    && d.page > 0 && d.page % PAGE_SIZE == 0 && d.page in h.free
    && Threaded(h.mem, d.page, i, d.freeptr, h.free[d.page])
    && d.refcnt == SlotsOf(i) - |h.free[d.page]| && d.refcnt > 0
  }

  predicate IsDesc(h: Heap, i: int, j: int) { 0 <= i < |h.chains| && 0 <= j < |h.chains[i]| }

  ghost predicate Inv(h: Heap) {
    && |h.chains| == BUCKETS
    && (forall i, j | IsDesc(h, i, j) :: i < BUCKETS && DescOk(h, i, h.chains[i][j]))
    && (forall i, j, i', j' | IsDesc(h, i, j) && IsDesc(h, i', j') && h.chains[i][j].page == h.chains[i'][j'].page ::
          i == i' && j == j')
  }

  /** Slot k of page is allocated from bucket i. */
  ghost predicate Live(h: Heap, i: int, page: int, k: int) {
    0 <= i < BUCKETS && 0 <= k < SlotsOf(i)
    && exists j :: IsDesc(h, i, j) && h.chains[i][j].page == page && page in h.free && k !in h.free[page]
  }

  /** Live objects do not overlap, are inside their page and are never at address zero. */
  lemma LiveApart(h: Heap, i: nat, page: int, k: int, i': nat, page': int, k': int)
    requires Inv(h) && Live(h, i, page, k) && Live(h, i', page', k') && !(i == i' && page == page' && k == k')
    ensures Addr(page, i, k) + SizeOf(i) <= Addr(page', i', k') || Addr(page', i', k') + SizeOf(i') <= Addr(page, i, k)
    ensures page <= Addr(page, i, k) && Addr(page, i, k) + SizeOf(i) <= page + PAGE_SIZE && page > 0
  {
    LivePage(h, i, page, k, i', page', k');
    LivePage(h, i', page', k', i, page, k);
    hide Inv, Live, Addr, SizeOf, SlotsOf;
    AddrIn(page, i, k);
    AddrIn(page', i', k');
    if page == page' {
      if k < k' { AddrApart(page, i, k, k'); } else { AddrApart(page, i, k', k); }
    } else {
      PagesApart(page, page');
    }
  }

  /** A live object's slot and page; objects in one page come from one bucket. */
  lemma LivePage(h: Heap, i: nat, page: int, k: int, i': nat, page': int, k': int)
    requires Inv(h) && Live(h, i, page, k) && Live(h, i', page', k')
    ensures i < BUCKETS && 0 <= k < SlotsOf(i) && page > 0 && page % PAGE_SIZE == 0 && (page == page' ==> i == i')
  {
    var j :| IsDesc(h, i, j) && h.chains[i][j].page == page;
    var j' :| IsDesc(h, i', j') && h.chains[i'][j'].page == page';
    assert DescOk(h, i, h.chains[i][j]);
  }

  lemma PagesApart(p: int, q: int)
    requires p % PAGE_SIZE == 0 == q % PAGE_SIZE && p != q
    ensures p + PAGE_SIZE <= q || q + PAGE_SIZE <= p
  {}

  /** All slots of a threaded list are distinct. */
  lemma {:induction false} ThreadedDistinct(mem: map<int, int>, page: int, i: nat, ptr: int, list: seq<int>)
    requires i < BUCKETS && Threaded(mem, page, i, ptr, list)
    ensures forall m, n | 0 <= m < n < |list| :: list[m] != list[n]
    ensures forall m | 0 <= m < |list| :: 0 <= list[m] < SlotsOf(i)
    ensures |list| <= SlotsOf(i)
    decreases list
  {
    if list != [] {
      ThreadedDistinct(mem, page, i, mem[ptr], list[1..]);
      assert forall m | 0 < m < |list| :: list[m] == list[1..][m - 1];
      AtMost(list, SlotsOf(i));
    }
  }

  lemma {:induction false} AtMost(list: seq<int>, n: nat)
    requires forall m, o | 0 <= m < o < |list| :: list[m] != list[o]
    requires forall m | 0 <= m < |list| :: 0 <= list[m] < n
    ensures |list| <= n
  {
    var s := set x | x in list;
    Distinct(list);
    Below(s, n);
  }

  lemma {:induction false} Distinct(list: seq<int>)
    requires forall m, o | 0 <= m < o < |list| :: list[m] != list[o]
    ensures |set x | x in list| == |list|
  {
    if list != [] {
      Distinct(list[1..]);
      assert list == [list[0]] + list[1..];
      assert (set x | x in list) == {list[0]} + (set x | x in list[1..]);
    }
  }

  lemma {:induction false} Below(s: set<int>, n: nat)
    requires forall x | x in s :: 0 <= x < n
    ensures |s| <= n
  {
    if n == 0 { assert forall x :: x !in s; } else {
      Below(s - {n - 1}, n - 1);
      assert |s| <= |s - {n - 1}| + 1 by { if n - 1 in s { assert s == s - {n - 1} + {n - 1}; } else { assert s == s - {n - 1}; } }
    }
  }

  /** Writing a word outside the free slots leaves the free list as it is. */
  lemma {:induction false} ThreadedApart(mem: map<int, int>, page: int, i: nat, ptr: int, list: seq<int>, a: int, v: int)
    requires i < BUCKETS && Threaded(mem, page, i, ptr, list)
    requires forall m | 0 <= m < |list| :: a != Addr(page, i, list[m])
    ensures Threaded(mem[a := v], page, i, ptr, list)
    decreases list
  {
    if list != [] {
      assert forall m | 0 <= m < |list| - 1 :: list[1..][m] == list[m + 1];
      ThreadedApart(mem, page, i, mem[ptr], list[1..], a, v);
    }
  }

  // ----- the steps of malloc and free_s

  /** The slots k .. n in order. */
  function Range(k: nat, n: nat): (r: seq<int>)
    requires k <= n
    ensures |r| == n - k && forall m | 0 <= m < n - k :: r[m] == k + m
  {
    seq(n - k, m requires 0 <= m < n - k => k + m)
  }

  predicate PointsOn(mem: map<int, int>, page: int, i: nat, m: int)
    requires i < BUCKETS
  {
    Addr(page, i, m) in mem && mem[Addr(page, i, m)] == if m + 1 < SlotsOf(i) then Addr(page, i, m + 1) else NULL
  }

  /** A page whose slots point each to the next is one free list. */
  lemma {:induction false} PageThreaded(mem: map<int, int>, page: int, i: nat, k: nat)
    requires i < BUCKETS && k < SlotsOf(i)
    requires forall m | 0 <= m < SlotsOf(i) :: PointsOn(mem, page, i, m)
    ensures Threaded(mem, page, i, Addr(page, i, k), Range(k, SlotsOf(i)))
    decreases SlotsOf(i) - k
  {
    var r := Range(k, SlotsOf(i));
    assert PointsOn(mem, page, i, k);
    if k + 1 < SlotsOf(i) {
      PageThreaded(mem, page, i, k + 1);
      assert r[1..] == Range(k + 1, SlotsOf(i));
    } else {
      assert r[1..] == [];
    }
  }

  /** A free list in a page is not touched by a write outside that page. */
  lemma {:induction false} ThreadedElsewhere(mem: map<int, int>, mem': map<int, int>, page: int, i: nat, ptr: int, list: seq<int>)
    requires i < BUCKETS && Threaded(mem, page, i, ptr, list)
    requires forall a | page <= a < page + PAGE_SIZE && a in mem :: a in mem' && mem'[a] == mem[a]
    ensures Threaded(mem', page, i, ptr, list)
    decreases list
  {
    if list != [] {
      AddrIn(page, i, list[0]);
      ThreadedElsewhere(mem, mem', page, i, mem[ptr], list[1..]);
    }
  }

  /** A new bucket: the page, all its slots free, in front of the chain.  Not yet in use. */
  function Opened(h: Heap, i: nat, page: int, mem: map<int, int>): Heap
    requires i < BUCKETS <= |h.chains|
  {
    Heap(h.chains[i := [Desc(page, page, 0)] + h.chains[i]], mem, h.free[page := Range(0, SlotsOf(i))])
  }

  /** The first free slot of descriptor j of bucket i is taken. */
  function Allocated(h: Heap, i: nat, j: nat): Heap
    requires IsDesc(h, i, j) && h.chains[i][j].freeptr in h.mem
    requires h.chains[i][j].page in h.free && h.free[h.chains[i][j].page] != []
  {
    var d := h.chains[i][j];
    Heap(h.chains[i := h.chains[i][j := Desc(d.page, h.mem[d.freeptr], d.refcnt + 1)]], h.mem,
         h.free[d.page := h.free[d.page][1..]])
  }

  /** The invariant, but descriptor j of bucket i may be one with no object yet. */
  ghost predicate Opening(h: Heap, i: nat, j: nat) {
    && |h.chains| == BUCKETS && IsDesc(h, i, j)
    && (forall i', j' | IsDesc(h, i', j') && !(i' == i && j' == j) :: DescOk(h, i', h.chains[i'][j']))
    && (forall i, j, i', j' | IsDesc(h, i, j) && IsDesc(h, i', j') && h.chains[i][j].page == h.chains[i'][j'].page ::
          i == i' && j == j')
    && var d := h.chains[i][j];
       && d.page > 0 && d.page % PAGE_SIZE == 0 && d.page in h.free && h.free[d.page] != []
       && Threaded(h.mem, d.page, i, d.freeptr, h.free[d.page])
       && d.refcnt == SlotsOf(i) - |h.free[d.page]|
  }

  lemma FullOrFree(h: Heap, i: nat, j: nat)
    requires Inv(h) && IsDesc(h, i, j)
    ensures h.chains[i][j].page in h.free && (h.chains[i][j].freeptr == NULL <==> h.free[h.chains[i][j].page] == [])
  {
    var d := h.chains[i][j];
    assert DescOk(h, i, d);
    if h.free[d.page] != [] { AddrIn(d.page, i, h.free[d.page][0]); }
  }

  lemma OpenedKeeps(h: Heap, i: nat, page: int, mem: map<int, int>)
    requires Inv(h) && i < BUCKETS && page > 0 && page % PAGE_SIZE == 0
    requires forall i, j | IsDesc(h, i, j) :: h.chains[i][j].page != page
    requires forall a | !(page <= a < page + PAGE_SIZE) && a in h.mem :: a in mem && mem[a] == h.mem[a]
    requires Threaded(mem, page, i, page, Range(0, SlotsOf(i)))
    ensures Opening(Opened(h, i, page, mem), i, 0)
    ensures forall i', p', k' :: Live(Opened(h, i, page, mem), i', p', k') <==> Live(h, i', p', k')
  {
    hide Addr;
    var h' := Opened(h, i, page, mem);
    forall i', j' | IsDesc(h', i', j') && !(i' == i && j' == 0) ensures DescOk(h', i', h'.chains[i'][j']) {
      var d := h'.chains[i'][j'];
      assert IsDesc(h, i', if i' == i then j' - 1 else j');
      assert d == h.chains[i'][if i' == i then j' - 1 else j'] && DescOk(h, i', d);
      ThreadedElsewhere(h.mem, mem, d.page, i', d.freeptr, h.free[d.page]);
    }
    forall i', p', k' ensures Live(h', i', p', k') <==> Live(h, i', p', k') { OpenedLive(h, i, page, mem, i', p', k'); }
  }

  lemma OpenedLive(h: Heap, i: nat, page: int, mem: map<int, int>, i': int, p': int, k': int)
    requires |h.chains| == BUCKETS && i < BUCKETS
    requires forall i, j | IsDesc(h, i, j) :: h.chains[i][j].page != page
    ensures Live(Opened(h, i, page, mem), i', p', k') <==> Live(h, i', p', k')
  {
    var h' := Opened(h, i, page, mem);
    if Live(h, i', p', k') {
      var j :| IsDesc(h, i', j) && h.chains[i'][j].page == p' && p' in h.free && k' !in h.free[p'];
      assert IsDesc(h', i', if i' == i then j + 1 else j);
      assert h'.chains[i'][if i' == i then j + 1 else j].page == p';
    }
    if Live(h', i', p', k') {
      assert i' == i ==> Range(0, SlotsOf(i))[k'] == k';
      var j :| IsDesc(h', i', j) && h'.chains[i'][j].page == p' && p' in h'.free && k' !in h'.free[p'];
      assert IsDesc(h, i', if i' == i then j - 1 else j);
      assert h.chains[i'][if i' == i then j - 1 else j].page == p';
    }
  }

  /** malloc keeps the invariant; the object was not live, is now, and no other changes. */
  lemma AllocatedKeeps(h: Heap, i: nat, j: nat)
    requires Opening(h, i, j)
    ensures h.chains[i][j].freeptr in h.mem && h.free[h.chains[i][j].page][0] in Range(0, SlotsOf(i))
    ensures h.chains[i][j].freeptr == Addr(h.chains[i][j].page, i, h.free[h.chains[i][j].page][0])
    ensures Inv(Allocated(h, i, j))
  {
    var d := h.chains[i][j];
    var list := h.free[d.page];
    assert Range(0, SlotsOf(i))[list[0]] == list[0];
    ThreadedDistinct(h.mem, d.page, i, d.freeptr, list);
    var h' := Allocated(h, i, j);
    forall i', j' | IsDesc(h', i', j') ensures DescOk(h', i', h'.chains[i'][j']) {
      if i' == i && j' == j { assert |list[1..]| == |list| - 1; } else { assert IsDesc(h, i', j') && DescOk(h, i', h.chains[i'][j']); }
    }
    forall i1, j1, i2, j2 | IsDesc(h', i1, j1) && IsDesc(h', i2, j2) && h'.chains[i1][j1].page == h'.chains[i2][j2].page
      ensures i1 == i2 && j1 == j2 { assert IsDesc(h, i1, j1) && IsDesc(h, i2, j2); }
  }

  lemma AllocatedLive(h: Heap, i: nat, j: nat, i': int, p': int, k': int)
    requires Opening(h, i, j)
    ensures h.chains[i][j].freeptr in h.mem
    ensures var page, k := h.chains[i][j].page, h.free[h.chains[i][j].page][0];
            && !Live(h, i, page, k)
            && (Live(Allocated(h, i, j), i', p', k') <==> Live(h, i', p', k') || (i' == i && p' == page && k' == k))
  {
    var d := h.chains[i][j];
    var list := h.free[d.page];
    var h' := Allocated(h, i, j);
    ThreadedDistinct(h.mem, d.page, i, d.freeptr, list);
    assert list == [list[0]] + list[1..];
    assert forall i', j' :: IsDesc(h', i', j') ==> IsDesc(h, i', j') && h'.chains[i'][j'].page == h.chains[i'][j'].page;
    assert forall i', j' :: IsDesc(h, i', j') ==> IsDesc(h', i', j') && h'.chains[i'][j'].page == h.chains[i'][j'].page;
  }

  /** Slot k is put back on its page's free list. */
  function Released(h: Heap, i: nat, j: nat, k: int): Heap
    requires IsDesc(h, i, j) && h.chains[i][j].page in h.free && i < BUCKETS
  {
    var d := h.chains[i][j];
    var a := Addr(d.page, i, k);
    Heap(h.chains[i := h.chains[i][j := Desc(d.page, a, d.refcnt - 1)]], h.mem[a := d.freeptr],
         h.free[d.page := [k] + h.free[d.page]])
  }

  /** A page without objects leaves its chain. */
  function Closed(h: Heap, i: nat, j: nat): Heap
    requires IsDesc(h, i, j)
  {
    Heap(h.chains[i := h.chains[i][..j] + h.chains[i][j + 1..]], h.mem, h.free - {h.chains[i][j].page})
  }

  /** The other pages are as they were. */
  lemma ReleasedOthers(h: Heap, i: nat, j: nat, k: int)
    requires Inv(h) && IsDesc(h, i, j) && 0 <= k < SlotsOf(i) && h.chains[i][j].page in h.free
    ensures var h' := Released(h, i, j, k);
            && (forall i', j' | IsDesc(h', i', j') && !(i' == i && j' == j) :: DescOk(h', i', h'.chains[i'][j']))
            && forall i1, j1, i2, j2 | IsDesc(h', i1, j1) && IsDesc(h', i2, j2) && h'.chains[i1][j1].page == h'.chains[i2][j2].page ::
                 i1 == i2 && j1 == j2
  {
    var d, h' := h.chains[i][j], Released(h, i, j, k);
    assert DescOk(h, i, d);
    AddrIn(d.page, i, k);
    forall i', j' | IsDesc(h', i', j') && !(i' == i && j' == j) ensures DescOk(h', i', h'.chains[i'][j']) {
      assert IsDesc(h, i', j') && DescOk(h, i', h.chains[i'][j']);
      var e := h.chains[i'][j'];
      ThreadedElsewhere(h.mem, h'.mem, e.page, i', e.freeptr, h.free[e.page]);
    }
    forall i1, j1, i2, j2 | IsDesc(h', i1, j1) && IsDesc(h', i2, j2) && h'.chains[i1][j1].page == h'.chains[i2][j2].page
      ensures i1 == i2 && j1 == j2 { assert IsDesc(h, i1, j1) && IsDesc(h, i2, j2); }
  }

  lemma ReleasedKeeps(h: Heap, i: nat, j: nat, k: int)
    requires Inv(h) && IsDesc(h, i, j) && 0 <= k < SlotsOf(i)
    requires h.chains[i][j].page in h.free && k !in h.free[h.chains[i][j].page]
    ensures var h' := Released(h, i, j, k); Opening(h', i, j) && (h'.chains[i][j].refcnt > 0 ==> Inv(h'))
  {
    var d := h.chains[i][j];
    var a := Addr(d.page, i, k);
    var list := h.free[d.page];
    assert DescOk(h, i, d);
    ThreadedDistinct(h.mem, d.page, i, d.freeptr, list);
    forall m | 0 <= m < |list| ensures a != Addr(d.page, i, list[m]) {
      assert list[m] in list;
      if k < list[m] { AddrApart(d.page, i, k, list[m]); } else { AddrApart(d.page, i, list[m], k); }
    }
    ThreadedApart(h.mem, d.page, i, d.freeptr, list, a, d.freeptr);
    assert ([k] + list)[1..] == list;
    var h' := Released(h, i, j, k);
    ReleasedOthers(h, i, j, k);
    hide DescOk;
  }

  lemma ReleasedLive(h: Heap, i: nat, j: nat, k: int, i': int, p': int, k': int)
    requires Inv(h) && IsDesc(h, i, j) && h.chains[i][j].page in h.free
    ensures Live(Released(h, i, j, k), i', p', k') <==> Live(h, i', p', k') && !(p' == h.chains[i][j].page && k' == k)
  {
    var h' := Released(h, i, j, k);
    assert forall i', j' :: IsDesc(h', i', j') ==> IsDesc(h, i', j') && h'.chains[i'][j'].page == h.chains[i'][j'].page;
    assert forall i', j' :: IsDesc(h, i', j') ==> IsDesc(h', i', j') && h'.chains[i'][j'].page == h.chains[i'][j'].page;
  }

  lemma ClosedKeeps(h: Heap, i: nat, j: nat)
    requires Opening(h, i, j) && h.chains[i][j].refcnt == 0
    ensures Inv(Closed(h, i, j))
  {
    var h' := Closed(h, i, j);
    forall i', j' | IsDesc(h', i', j') ensures DescOk(h', i', h'.chains[i'][j']) {
      var l := if i' == i && j' >= j then j' + 1 else j';
      assert IsDesc(h, i', l) && h'.chains[i'][j'] == h.chains[i'][l];
      assert DescOk(h, i', h.chains[i'][l]);
    }
    forall i1, j1, i2, j2 | IsDesc(h', i1, j1) && IsDesc(h', i2, j2) && h'.chains[i1][j1].page == h'.chains[i2][j2].page
      ensures i1 == i2 && j1 == j2 {
      assert IsDesc(h, i1, if i1 == i && j1 >= j then j1 + 1 else j1) && IsDesc(h, i2, if i2 == i && j2 >= j then j2 + 1 else j2);
    }
  }

  /** A free list as long as the page has slots has them all. */
  lemma AllFree(h: Heap, i: nat, j: nat, k: int)
    requires Opening(h, i, j) && h.chains[i][j].refcnt == 0 && 0 <= k < SlotsOf(i)
    ensures k in h.free[h.chains[i][j].page]
  {
    var d := h.chains[i][j];
    var list := h.free[d.page];
    ThreadedDistinct(h.mem, d.page, i, d.freeptr, list);
    if k !in list {
      assert forall m | 0 <= m < |list| :: list[m] in list;
      AtMost([k] + list, SlotsOf(i));
    }
  }

  lemma ClosedLive(h: Heap, i: nat, j: nat, i': int, p': int, k': int)
    requires Opening(h, i, j) && h.chains[i][j].refcnt == 0
    ensures Live(Closed(h, i, j), i', p', k') <==> Live(h, i', p', k')
  {
    hide Threaded;
    var h' := Closed(h, i, j);
    if Live(h, i', p', k') {
      var j' :| IsDesc(h, i', j') && h.chains[i'][j'].page == p' && p' in h.free && k' !in h.free[p'];
      if i' == i && j' == j { AllFree(h, i, j, k'); }
      assert IsDesc(h', i', if i' == i && j' > j then j' - 1 else j');
      assert h'.chains[i'][if i' == i && j' > j then j' - 1 else j'].page == p';
    }
    if Live(h', i', p', k') {
      var j' :| IsDesc(h', i', j') && h'.chains[i'][j'].page == p' && p' in h'.free && k' !in h'.free[p'];
      assert IsDesc(h, i', if i' == i && j' >= j then j' + 1 else j');
      assert h.chains[i'][if i' == i && j' >= j then j' + 1 else j'].page == p';
    }
  }

  /** The client may write into its own object: the free lists, which lie in the same pages, stay as they are. */
  lemma ClientWrites(h: Heap, i: nat, page: int, k: int, a: int, v: int)
    requires Inv(h) && Live(h, i, page, k) && Addr(page, i, k) <= a < Addr(page, i, k) + SizeOf(i)
    ensures Inv(h.(mem := h.mem[a := v]))
    ensures forall i', p', k' :: Live(h.(mem := h.mem[a := v]), i', p', k') <==> Live(h, i', p', k')
  {
    var h' := h.(mem := h.mem[a := v]);
    forall i', j' | IsDesc(h', i', j') ensures i' < BUCKETS && DescOk(h', i', h'.chains[i'][j']) {
      assert IsDesc(h, i', j') && DescOk(h, i', h.chains[i'][j']);
      WriteMisses(h, i, page, k, a, v, i', j');
    }
  }

  lemma WriteMisses(h: Heap, i: nat, page: int, k: int, a: int, v: int, i': nat, j': int)
    requires Inv(h) && Live(h, i, page, k) && Addr(page, i, k) <= a < Addr(page, i, k) + SizeOf(i) && IsDesc(h, i', j')
    ensures i' < BUCKETS && DescOk(h, i', h.chains[i'][j'])
    ensures var d := h.chains[i'][j']; Threaded(h.mem[a := v], d.page, i', d.freeptr, h.free[d.page])
  {
    var d := h.chains[i'][j'];
    assert DescOk(h, i', d);
    var list := h.free[d.page];
    ThreadedDistinct(h.mem, d.page, i', d.freeptr, list);
    forall m | 0 <= m < |list| ensures Addr(d.page, i', list[m]) != a { FreeApart(h, i, page, k, a, i', j', list[m]); }
    ThreadedApart(h.mem, d.page, i', d.freeptr, list, a, v);
  }

  lemma FreeApart(h: Heap, i: nat, page: int, k: int, a: int, i': nat, j': int, l: int)
    requires Inv(h) && Live(h, i, page, k) && Addr(page, i, k) <= a < Addr(page, i, k) + SizeOf(i)
    requires IsDesc(h, i', j') && i' < BUCKETS && 0 <= l < SlotsOf(i') && h.chains[i'][j'].page in h.free && l in h.free[h.chains[i'][j'].page]
    ensures Addr(h.chains[i'][j'].page, i', l) != a
  {
    var j :| IsDesc(h, i, j) && h.chains[i][j].page == page && page in h.free && k !in h.free[page];
    var q := h.chains[i'][j'].page;
    assert DescOk(h, i, h.chains[i][j]) && DescOk(h, i', h.chains[i'][j']);
    AddrIn(page, i, k);
    AddrIn(q, i', l);
    if q == page {
      assert i == i' && l != k;
      hide Inv, Live, Addr, SizeOf, SlotsOf;
      if l < k { AddrApart(page, i, l, k); } else { AddrApart(page, i, k, l); }
    } else {
      hide Inv, Live, Addr, SizeOf, SlotsOf;
      PagesApart(page, q);
    }
  }

  class Allocator {
    var chains: seq<seq<Desc>>
    var mem: map<int, int>
    ghost var free: map<int, seq<int>>

    ghost function Snap(): Heap
      reads this
    {
      Heap(chains, mem, free)
    }

    ghost predicate Valid()
      reads this
    {
      Inv(Snap())
    }

    constructor ()
      ensures Valid() && forall i, p, k :: !Live(Snap(), i, p, k)
    {
      chains := [[], [], [], [], [], [], [], [], []];
      mem := map[];
      free := map[];
    }

    /** The loop of malloc that makes a page one free list. */
    method ThreadPage(page: int, i: nat)
      requires i < BUCKETS
      modifies this`mem
      ensures Threaded(mem, page, i, page, Range(0, SlotsOf(i)))
      ensures forall a | !(page <= a < page + PAGE_SIZE) && a in old(mem) :: a in mem && mem[a] == old(mem)[a]
    {
      var cp, k := page, SlotsOf(i);
      ghost var m := 0;
      while k > 1
        invariant 1 <= k <= SlotsOf(i) && m == SlotsOf(i) - k && cp == Addr(page, i, m)
        invariant forall l | 0 <= l < m :: PointsOn(mem, page, i, l)
        invariant forall a | !(page <= a < page + PAGE_SIZE) && a in old(mem) :: a in mem && mem[a] == old(mem)[a]
      {
        ghost var before := mem;
        AddrIn(page, i, m);
        NextAddr(page, i, m);
        mem := mem[cp := cp + SizeOf(i)];
        forall l | 0 <= l <= m ensures PointsOn(mem, page, i, l) {
          if l < m { AddrApart(page, i, l, m); assert PointsOn(before, page, i, l); }
        }
        cp := cp + SizeOf(i);
        k, m := k - 1, m + 1;
      }
      ghost var before := mem;
      AddrIn(page, i, m);
      mem := mem[cp := NULL];
      forall l | 0 <= l <= m ensures PointsOn(mem, page, i, l) {
        if l < m { AddrApart(page, i, l, m); assert PointsOn(before, page, i, l); }
      }
      PageThreaded(mem, page, i, 0);
    }

    /** The smallest bucket that holds len bytes. */
    method FindBucket(len: nat) returns (i: nat)
      requires len <= PAGE_SIZE
      ensures i < BUCKETS && len <= SizeOf(i) && forall l: nat | l < i :: SizeOf(l) < len
    {
      i := 0;
      while SizeOf(i) < len
        invariant i < BUCKETS && forall l: nat | l < i :: SizeOf(l) < len
        decreases BUCKETS - i
      {
        i := i + 1;
      }
    }

    /** malloc; `page` is what get_free_page returns should it be asked. */
    method Alloc(len: nat, page: int) returns (retval: int, usedPage: bool, ghost i: nat, ghost p: int, ghost k: int)
      requires Valid() && len <= PAGE_SIZE
      requires page > 0 && page % PAGE_SIZE == 0 && forall i, j | IsDesc(Snap(), i, j) :: chains[i][j].page != page
      modifies this
      ensures Valid() && i < BUCKETS && retval == Addr(p, i, k)
      ensures len <= SizeOf(i) && forall l: nat | l < i :: SizeOf(l) < len
      ensures !Live(old(Snap()), i, p, k)
      ensures forall i', p', k' ::
                Live(Snap(), i', p', k') <==> Live(old(Snap()), i', p', k') || (i' == i && p' == p && k' == k)
      ensures usedPage <==> forall j | IsDesc(old(Snap()), i, j) :: old(chains)[i][j].freeptr == NULL
      ensures forall a | !(usedPage && page <= a < page + PAGE_SIZE) && a in old(mem) :: a in mem && mem[a] == old(mem)[a]
    {
      hide Live, Threaded;
      ghost var h := Snap();
      var b := FindBucket(len);
      i := b;
      var j := 0;
      while j < |chains[b]| && chains[b][j].freeptr == NULL
        invariant 0 <= j <= |chains[b]| && forall l | 0 <= l < j :: chains[b][l].freeptr == NULL
      {
        j := j + 1;
      }
      usedPage := j == |chains[b]|;
      if usedPage {
        ThreadPage(page, b);
        OpenedKeeps(h, b, page, mem);
        chains := chains[b := [Desc(page, page, 0)] + chains[b]];
        free := free[page := Range(0, SlotsOf(b))];
        j := 0;
      } else {
        assert IsDesc(h, b, j);
        FullOrFree(h, b, j);
        assert DescOk(h, b, h.chains[b][j]);
      }
      ghost var h1 := Snap();
      assert Opening(h1, b, j);
      AllocatedKeeps(h1, b, j);
      retval := chains[b][j].freeptr;
      p, k := chains[b][j].page, free[chains[b][j].page][0];
      AllocatedLive(h1, b, j, b, p, k);
      forall i', p', k' ensures Live(Allocated(h1, b, j), i', p', k') <==> Live(h, i', p', k') || (i' == b && p' == p && k' == k) {
        AllocatedLive(h1, b, j, i', p', k');
      }
      chains := chains[b := chains[b][j := Desc(chains[b][j].page, mem[retval], chains[b][j].refcnt + 1)]];
      free := free[p := free[p][1..]];
      assert Snap() == Allocated(h1, b, j);
    }

    /** The search of free_s; a size of zero searches every bucket. */
    method FindPage(page: int, size: nat, ghost b: nat, ghost c: nat) returns (i: nat, j: nat)
      requires Valid() && IsDesc(Snap(), b, c) && chains[b][c].page == page && size <= SizeOf(b)
      ensures i == b && j == c
    {
      i := 0;
      while true
        invariant i <= b < BUCKETS
        decreases BUCKETS - i
      {
        if SizeOf(i) >= size {
          j := 0;
          while j < |chains[i]|
            invariant 0 <= j <= |chains[i]| && (i == b ==> j <= c)
          {
            if chains[i][j].page == page {
              assert IsDesc(Snap(), i, j);
              return;
            }
            j := j + 1;
          }
        }
        i := i + 1;
      }
    }

    /** free_s of a live object, with its size or a smaller number or 0; the page it gives back, or 0. */
    method Free(obj: int, size: nat, ghost b: nat, ghost p: int, ghost k: int) returns (returned: int)
      requires Valid() && Live(Snap(), b, p, k) && obj == Addr(p, b, k) && size <= SizeOf(b)
      modifies this
      ensures Valid()
      ensures forall i', p', k' :: Live(Snap(), i', p', k') <==> Live(old(Snap()), i', p', k') && !(p' == p && k' == k)
      ensures returned == (if forall k' :: !Live(Snap(), b, p, k') then p else NULL)
      ensures returned != NULL ==> forall i, j | IsDesc(Snap(), i, j) :: chains[i][j].page != p
      ensures forall a | a != obj && a in old(mem) :: a in mem && mem[a] == old(mem)[a]
    {
      hide Threaded;
      ghost var h := Snap();
      ghost var c :| IsDesc(h, b, c) && h.chains[b][c].page == p && p in free && k !in free[p];
      assert DescOk(h, b, h.chains[b][c]);
      AddrIn(p, b, k);
      var page := obj / PAGE_SIZE * PAGE_SIZE;
      assert page == p;
      var i, j := FindPage(page, size, b, c);
      ReleasedKeeps(h, i, j, k);
      forall i', p', k' ensures Live(Released(h, i, j, k), i', p', k') <==> Live(h, i', p', k') && !(p' == p && k' == k) {
        ReleasedLive(h, i, j, k, i', p', k');
      }
      var d := chains[i][j];
      mem := mem[obj := d.freeptr];
      chains := chains[i := chains[i][j := Desc(d.page, obj, d.refcnt - 1)]];
      free := free[p := [k] + free[p]];
      ghost var h1 := Snap();
      assert h1 == Released(h, i, j, k);
      if d.refcnt - 1 == 0 {
        ClosedKeeps(h1, i, j);
        forall i', p', k' ensures Live(Closed(h1, i, j), i', p', k') <==> Live(h1, i', p', k') { ClosedLive(h1, i, j, i', p', k'); }
        chains := chains[i := chains[i][..j] + chains[i][j + 1..]];
        free := free - {p};
        assert Snap() == Closed(h1, i, j);
        PageGone(h1, i, j);
        return page;
      }
      SomeLive(h1, i, j);
      return NULL;
    }
  }

  lemma NextAddr(page: int, i: nat, m: int)
    requires i < BUCKETS
    ensures Addr(page, i, m + 1) == Addr(page, i, m) + SizeOf(i)
  {
    assert (m + 1) * SizeOf(i) == m * SizeOf(i) + SizeOf(i);
  }

  lemma PageGone(h: Heap, i: nat, j: nat)
    requires Opening(h, i, j) && h.chains[i][j].refcnt == 0
    ensures forall i', j' | IsDesc(Closed(h, i, j), i', j') :: Closed(h, i, j).chains[i'][j'].page != h.chains[i][j].page
    ensures forall k :: !Live(Closed(h, i, j), i, h.chains[i][j].page, k)
  {
    var h' := Closed(h, i, j);
    forall i', j' | IsDesc(h', i', j') ensures h'.chains[i'][j'].page != h.chains[i][j].page {
      var l := if i' == i && j' >= j then j' + 1 else j';
      assert IsDesc(h, i', l) && h'.chains[i'][j'] == h.chains[i'][l];
    }
  }

  /** A page that counts an object has a live one. */
  lemma SomeLive(h: Heap, i: nat, j: nat)
    requires Inv(h) && IsDesc(h, i, j)
    ensures exists k :: Live(h, i, h.chains[i][j].page, k)
  {
    var d := h.chains[i][j];
    assert DescOk(h, i, d);
    var list := h.free[d.page];
    var k := Missing(list, SlotsOf(i));
    assert Live(h, i, d.page, k);
  }

  /** Fewer entries than numbers below n leave one out. */
  lemma {:induction false} Missing(list: seq<int>, n: nat) returns (k: nat)
    requires |list| < n
    ensures k < n && k !in list
  {
    if n - 1 !in list { return n - 1; }
    var m :| 0 <= m < |list| && list[m] == n - 1;
    k := Missing(list[..m] + list[m + 1..], n - 1);
    assert list == list[..m] + [list[m]] + list[m + 1..];
  }
}
