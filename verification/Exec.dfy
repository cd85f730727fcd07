/** The argument block of a new program, fs/exec.c: strings packed downward from the top of up to 32 pages, then
    moved to the top of the new data segment, where the pointer tables are built below them. */
module Exec {
  const PAGE_SIZE: nat := 4096
  const MAX_ARG_PAGES: nat := 32
  const TOP: nat := PAGE_SIZE * MAX_ARG_PAGES

  // ---- strings and bytes ------------------------------------------------------

  /** mem holds the string s at a, with the zero byte that ends it. */
  predicate StringAt(mem: seq<int>, a: int, s: seq<int>) {
    0 <= a && a + |s| < |mem| && mem[a..a + |s|] == s && mem[a + |s|] == 0 && 0 !in s
  }

  /** The strings one after another, each with its zero byte. */
  function Packed(strs: seq<seq<int>>): seq<int> {
    if strs == [] then [] else strs[0] + [0] + Packed(strs[1..])
  }

  lemma {:induction false} PackedApp(a: seq<seq<int>>, b: seq<seq<int>>)
    ensures Packed(a + b) == Packed(a) + Packed(b)
  {
    if a == [] { assert a + b == b; } else {
      PackedApp(a[1..], b);
      assert (a + b)[1..] == a[1..] + b;
    }
  }

  /** Where the i-th string starts. */
  function Offset(strs: seq<seq<int>>, i: nat): nat
    requires i <= |strs|
  {
    |Packed(strs[..i])|
  }

  lemma OffsetNext(strs: seq<seq<int>>, i: nat)
    requires i < |strs|
    ensures Offset(strs, 0) == 0 && Offset(strs, i + 1) == Offset(strs, i) + |strs[i]| + 1 <= |Packed(strs)|
    ensures Packed(strs)[Offset(strs, i)..Offset(strs, i + 1)] == strs[i] + [0]
  {
    assert strs[..0] == [];
    assert strs[..i + 1] == strs[..i] + [strs[i]];
    PackedApp(strs[..i], [strs[i]]);
    assert [strs[i]][1..] == [];
    assert Packed([strs[i]]) == strs[i] + [0];
    assert strs == strs[..i + 1] + strs[i + 1..];
    PackedApp(strs[..i + 1], strs[i + 1..]);
  }

  /** mem holds data at p. */
  predicate Holds(mem: seq<int>, p: int, data: seq<int>) {
    0 <= p && p + |data| <= |mem| && mem[p..p + |data|] == data
  }

  lemma PackedHolds(mem: seq<int>, p: int, strs: seq<seq<int>>, i: nat)
    requires Holds(mem, p, Packed(strs)) && i < |strs| && 0 !in strs[i]
    ensures StringAt(mem, p + Offset(strs, i), strs[i])
  {
    hide Packed, Offset, Holds, StringAt;
    OffsetNext(strs, i);
    SubString(mem, p, Packed(strs), Offset(strs, i), strs[i]);
  }

  lemma SubString(mem: seq<int>, p: int, d: seq<int>, o: nat, s: seq<int>)
    requires Holds(mem, p, d) && o + |s| + 1 <= |d| && d[o..o + |s| + 1] == s + [0] && 0 !in s
    ensures StringAt(mem, p + o, s)
  {
    forall k | 0 <= k <= |s| ensures mem[p + o + k] == (s + [0])[k] {
      assert mem[p..p + |d|][o + k] == mem[p + (o + k)];
      assert d[o..o + |s| + 1][k] == d[o + k];
    }
    assert mem[p + o + |s|] == (s + [0])[|s|];
    forall k | 0 <= k < |s| ensures mem[p + o..p + o + |s|][k] == s[k] { assert mem[p + o + k] == (s + [0])[k]; }
  }

  // ---- the pages --------------------------------------------------------------

  /** A page is its 4096 bytes, or [] where none has been taken. */
  predicate PageOk(page: seq<int>) { page == [] || |page| == PAGE_SIZE }

  predicate PagesOk(pages: seq<seq<int>>) {
    |pages| == MAX_ARG_PAGES && forall k | 0 <= k < |pages| :: PageOk(pages[k])
  }

  /** Byte a of the block. */
  function At(pages: seq<seq<int>>, a: int): int {
    if 0 <= a && a / PAGE_SIZE < |pages| && a % PAGE_SIZE < |pages[a / PAGE_SIZE]| then pages[a / PAGE_SIZE][a % PAGE_SIZE] else 0
  }

  predicate Taken(pages: seq<seq<int>>, a: int) { 0 <= a && a / PAGE_SIZE < |pages| && pages[a / PAGE_SIZE] != [] }

  /** The pages hold data at p. */
  predicate Has(pages: seq<seq<int>>, p: int, data: seq<int>) {
    forall a | p <= a < p + |data| :: Taken(pages, a) && At(pages, a) == data[a - p]
  }

  function Poke(pages: seq<seq<int>>, k: nat, o: nat, b: int): seq<seq<int>>
    requires k < |pages| && o < |pages[k]|
  {
    pages[k := pages[k][o := b]]
  }

  function Fresh(): (r: seq<int>)
    ensures |r| == PAGE_SIZE && forall i | 0 <= i < |r| :: r[i] == 0
  {
    seq(PAGE_SIZE, _ => 0)
  }

  /** A byte put just below what is there, after taking the page it falls in. */
  lemma PutBelow(pages: seq<seq<int>>, took: seq<seq<int>>, p: nat, data: seq<int>, b: int)
    requires PagesOk(pages) && 0 < p && p + |data| <= TOP && Has(pages, p, data)
    requires took == if Taken(pages, p - 1) then pages else pages[(p - 1) / PAGE_SIZE := Fresh()]
    ensures PagesOk(took) && (p - 1) / PAGE_SIZE < |took| && |took[(p - 1) / PAGE_SIZE]| == PAGE_SIZE
    ensures var n := Poke(took, (p - 1) / PAGE_SIZE, (p - 1) % PAGE_SIZE, b);
            PagesOk(n) && Has(n, p - 1, [b] + data)
  {
    var k, o := (p - 1) / PAGE_SIZE, (p - 1) % PAGE_SIZE;
    assert k < MAX_ARG_PAGES && PageOk(pages[k]);
    var n := Poke(took, k, o, b);
    forall a | p - 1 <= a < p + |data| ensures Taken(n, a) && At(n, a) == ([b] + data)[a - (p - 1)] {
      if a >= p {
        assert Taken(pages, a) && At(pages, a) == data[a - p];
        assert a / PAGE_SIZE == k ==> a % PAGE_SIZE != o;
      }
    }
    forall i | 0 <= i < |n| ensures PageOk(n[i]) { assert PageOk(pages[i]); }
  }

  /** What copy_strings returns: the new p, 0 when it gives up; Wild when it has gone on below the block, writing
      through whatever page[p / PAGE_SIZE] is for a p that has passed 0: the test p - len < 0 is made on an
      unsigned number and never holds. */
  datatype Outcome = Now(p: nat) | Wild

  function U32(n: int): nat { n % 0x1_0000_0000 }

  /** For a string longer than what is left the test p - len < 0 sees a number that is not even below p. */
  lemma TestNeverHolds(p: nat, len: nat)
    requires p < len <= 0x1_0000_0000
    ensures U32(p - len) == p + (0x1_0000_0000 - len) >= p
  {}

  // ---- how many pages it takes ------------------------------------------------

  /** The page after the last one that bytes below from are in. */
  function Hi(from: nat): nat { if from == 0 then 0 else (from - 1) / PAGE_SIZE + 1 }

  function Missing(pages: seq<seq<int>>, k: nat): nat { if k < |pages| && pages[k] == [] then 1 else 0 }

  function NeededIn(pages: seq<seq<int>>, a: nat, b: nat): nat
    decreases b - a
  {
    if a >= b then 0 else NeededIn(pages, a + 1, b) + Missing(pages, a)
  }

  /** The pages still to be taken for the bytes from p up to from. */
  function Needed(pages: seq<seq<int>>, p: nat, from: nat): nat {
    if p >= from then 0 else NeededIn(pages, p / PAGE_SIZE, Hi(from))
  }

  lemma NeededDown(pages: seq<seq<int>>, p: nat, from: nat)
    requires 0 < p <= from
    ensures Needed(pages, p - 1, from)
            == Needed(pages, p, from) + if p == from || p % PAGE_SIZE == 0 then Missing(pages, (p - 1) / PAGE_SIZE) else 0
  {
    var a := (p - 1) / PAGE_SIZE;
    if p == from {
      assert NeededIn(pages, a + 1, Hi(from)) == 0;
    } else if p % PAGE_SIZE == 0 {
      assert p / PAGE_SIZE == a + 1 && a < Hi(from);
    } else {
      assert p / PAGE_SIZE == a;
    }
  }

  lemma {:induction false} NeededMono(pages: seq<seq<int>>, lo: nat, p: nat, from: nat)
    requires lo <= p <= from
    ensures Needed(pages, p, from) <= Needed(pages, lo, from)
    decreases p - lo
  {
    if lo < p {
      NeededDown(pages, p, from);
      NeededMono(pages, lo, p - 1, from);
    }
  }

  /** Exactly the pages from p up to from have been taken besides those that were. */
  predicate TookDown(was: seq<seq<int>>, pages: seq<seq<int>>, p: nat, from: nat) {
    && |was| == |pages|
    && forall k | 0 <= k < |pages| :: pages[k] == [] <==> was[k] == [] && !(p < from && p / PAGE_SIZE <= k < Hi(from))
  }

  /** The next byte below takes its page if it is missing. */
  lemma TookByte(was: seq<seq<int>>, pages: seq<seq<int>>, n: seq<seq<int>>, p: nat, from: nat)
    requires 0 < p <= from <= TOP && TookDown(was, pages, p, from) && |n| == |pages| == MAX_ARG_PAGES
    requires forall k | 0 <= k < |n| :: n[k] == [] <==> pages[k] == [] && k != (p - 1) / PAGE_SIZE
    ensures TookDown(was, n, p - 1, from)
    ensures Needed(was, p - 1, from) == Needed(was, p, from) + Missing(pages, (p - 1) / PAGE_SIZE)
  {
    NeededDown(was, p, from);
    var k := (p - 1) / PAGE_SIZE;
    assert k < Hi(from) && (p < from && p % PAGE_SIZE != 0 ==> p / PAGE_SIZE == k < Hi(from));
    assert p % PAGE_SIZE == 0 ==> k < p / PAGE_SIZE;
  }

  lemma {:induction false} NeededJoin(was: seq<seq<int>>, mid: seq<seq<int>>, p: nat, q: nat, from: nat)
    requires p <= q <= from <= TOP && TookDown(was, mid, q, from) && |mid| == MAX_ARG_PAGES
    ensures Needed(was, p, from) == Needed(was, q, from) + Needed(mid, p, q)
    decreases q - p
  {
    if p < q {
      NeededJoin(was, mid, p + 1, q, from);
      NeededDown(was, p + 1, from);
      NeededDown(mid, p + 1, q);
      var k := p / PAGE_SIZE;
      assert k < MAX_ARG_PAGES && (p + 1 < q && (p + 1) % PAGE_SIZE == 0 ==> k < q / PAGE_SIZE);
      assert p + 1 == q && q < from ==> (q % PAGE_SIZE == 0 <==> k < q / PAGE_SIZE) && k < Hi(from);
    }
  }

  lemma TookJoin(was: seq<seq<int>>, mid: seq<seq<int>>, pages: seq<seq<int>>, p: nat, q: nat, from: nat)
    requires p <= q <= from && TookDown(was, mid, q, from) && TookDown(mid, pages, p, q)
    ensures TookDown(was, pages, p, from)
  {
    assert p < q ==> p / PAGE_SIZE <= (q - 1) / PAGE_SIZE <= q / PAGE_SIZE;
    assert q < from ==> Hi(q) <= Hi(from) && (q > 0 ==> q / PAGE_SIZE <= Hi(q));
  }

  /** offset and at point at byte p, or offset is 0 and the byte below falls in another page. */
  predicate Follows(pages: seq<seq<int>>, p: int, offset: int, at: nat) {
    offset == 0 || (0 <= offset == p % PAGE_SIZE && at == p / PAGE_SIZE && Taken(pages, p))
  }

  /** The strings from the argc-th on: those copied so far. */
  function Rest(strs: seq<seq<int>>, argc: int): seq<seq<int>> {
    if argc < 0 then strs else if argc <= |strs| then strs[argc..] else []
  }

  lemma FollowsStart(pages: seq<seq<int>>, p: int)
    ensures Follows(pages, p, 0, 0)
  {}

  lemma Regroup(a: seq<int>, b: seq<int>, c: seq<int>)
    ensures a + (b + c) == (a + b) + c
  {}

  lemma RestAll(strs: seq<seq<int>>, argc: int)
    requires argc <= 0
    ensures Rest(strs, argc) == strs
  {}

  lemma RestStart(strs: seq<seq<int>>, argc: int)
    requires |strs| == if argc < 0 then 0 else argc
    ensures Packed(Rest(strs, argc)) == []
  {}

  lemma RestStep(strs: seq<seq<int>>, argc: nat)
    requires argc < |strs|
    ensures Packed(Rest(strs, argc)) == strs[argc] + [0] + Packed(Rest(strs, argc + 1))
  {
    assert strs[argc..][1..] == strs[argc + 1..];
  }

  lemma RestShorter(strs: seq<seq<int>>, argc: nat)
    requires argc < |strs|
    ensures |Packed(Rest(strs, argc))| <= |Packed(strs)|
  {
    assert strs == strs[..argc] + strs[argc..];
    PackedApp(strs[..argc], strs[argc..]);
  }

  class ArgBlock {
    const page: array<seq<int>>
    var free: nat               // pages get_free_page can still give

    ghost predicate Valid()
      reads this, page
    {
      PagesOk(page[..])
    }

    constructor (pages: nat)
      ensures Valid() && fresh(page) && free == pages && forall k | 0 <= k < MAX_ARG_PAGES :: page[k] == []
    {
      page := new seq<int>[MAX_ARG_PAGES](_ => []);
      free := pages;
    }

    /** The rest of the inner loop of copy_strings, once p, tmp and len have been decreased: the byte b goes to p.
        offset is the place in page number at where the byte above went. */
    method PutByte(p: nat, offset0: int, at0: nat, b: int, ghost data: seq<int>) returns (offset: int, at: nat, ok: bool)
      requires Valid() && p + 1 + |data| <= TOP && Has(page[..], p + 1, data) && Follows(page[..], p + 1, offset0, at0)
      modifies this`free, page
      ensures Valid() && (ok <==> Missing(old(page[..]), p / PAGE_SIZE) <= old(free))
      ensures !ok ==> free == old(free) && page[..] == old(page[..])
      ensures ok ==> Has(page[..], p, [b] + data) && Follows(page[..], p, offset, at)
      ensures ok ==> free == old(free) - Missing(old(page[..]), p / PAGE_SIZE)
      ensures ok ==> forall k | 0 <= k < page.Length :: page[..][k] == [] <==> old(page[..])[k] == [] && k != p / PAGE_SIZE
    {
      offset, at, ok := offset0 - 1, at0, true;
      ghost var before := page[..];
      if offset < 0 {
        offset, at := p % PAGE_SIZE, p / PAGE_SIZE;
        if page[at] == [] {
          if free == 0 { return offset, at, false; }
          free := free - 1;
          page[at] := Fresh();
        }
      }
      assert at == p / PAGE_SIZE && offset == p % PAGE_SIZE;
      PutBelow(before, page[..], p + 1, data, b);
      page[at] := page[at][offset := b];
    }

    /** copy_strings' inner loop: one string and its zero byte, from the last byte to the first. It stops when a page
        cannot be had, or below the block. */
    method CopyDown(mem: seq<int>, a: nat, end: nat, from: nat, offset0: int, at0: nat, ghost rest: seq<int>)
      returns (r: Outcome, offset: int, at: nat, stop: bool)
      requires Valid() && a <= end <= |mem| && from + |rest| <= TOP && Has(page[..], from, rest)
      requires Follows(page[..], from, offset0, at0)
      modifies this`free, page
      ensures Valid() && Copied(old(page[..]), old(free), end - a, from, r, stop)
      ensures !stop ==> Has(page[..], r.p, mem[a..end] + rest) && Follows(page[..], r.p, offset, at)
      ensures !stop ==> Accounted(old(page[..]), old(free), page[..], free, r.p, from)
    {
      hide Has, Follows, TookDown, Needed, Missing;
      var p, tmp := from, end;
      offset, at := offset0, at0;
      ghost var was := page[..];
      TookNone(was, free, from);
      assert mem[end..end] + rest == rest;
      while tmp > a
        invariant Valid() && a <= tmp <= end && end - tmp <= from && p == from - (end - tmp)
        invariant Has(page[..], p, mem[tmp..end] + rest) && Follows(page[..], p, offset, at)
        invariant Accounted(was, old(free), page[..], free, p, from)
      {
        if p == 0 {
          assert U32(-1) / PAGE_SIZE >= MAX_ARG_PAGES;
          return Wild, offset, at, true;
        }
        tmp, p := tmp - 1, p - 1;
        ghost var before, left := page[..], free;
        var ok;
        offset, at, ok := PutByte(p, offset, at, mem[tmp], mem[tmp + 1..end] + rest);
        if !ok {
          NoPage(was, old(free), before, left, p + 1, from, end - a);
          return Now(0), offset, at, true;
        }
        TookByte(was, before, page[..], p + 1, from);
        assert [mem[tmp]] + (mem[tmp + 1..end] + rest) == mem[tmp..end] + rest;
      }
      r, stop := Now(p), false;
    }

    /** One turn of copy_strings' outer loop. */
    method CopyString(mem: seq<int>, tmp: nat, from: nat, offset0: int, at0: nat, ghost s: seq<int>, ghost rest: seq<int>)
      returns (r: Outcome, offset: int, at: nat, stop: bool)
      requires Valid() && from + |rest| <= TOP && Has(page[..], from, rest) && Follows(page[..], from, offset0, at0)
      requires StringAt(mem, tmp, s)
      modifies this`free, page
      ensures Valid() && Copied(old(page[..]), old(free), |s| + 1, from, r, stop)
      ensures !stop ==> Has(page[..], r.p, s + [0] + rest) && Follows(page[..], r.p, offset, at)
      ensures !stop ==> Accounted(old(page[..]), old(free), page[..], free, r.p, from)
    {
      var len := 0;
      assert forall i | tmp <= i < tmp + |s| :: mem[i] == mem[tmp..tmp + |s|][i - tmp];
      while mem[tmp + len] != 0
        invariant 0 <= len <= |s|
        decreases |s| - len
      {
        len := len + 1;
      }
      len := len + 1;
      assert mem[tmp..tmp + len] == s + [0];
      if from < len <= 0x1_0000_0000 { TestNeverHolds(from, len); }
      r, offset, at, stop := CopyDown(mem, tmp, tmp + len, from, offset0, at0, rest);
    }

    /** copy_strings: the strings argv points to end up below from, in order, above what is there, if and only if
        they fit and there are pages for them; if they are longer and there are pages down to the bottom of the
        block, the write goes wild; and exactly the pages needed are taken. */
    method CopyStrings(mem: seq<int>, argc0: int, argv: seq<nat>, from: nat, ghost strs: seq<seq<int>>, ghost rest: seq<int>)
      returns (r: Outcome)
      requires Valid() && from + |rest| <= TOP && Has(page[..], from, rest)
      requires |strs| == (if argc0 < 0 then 0 else argc0) <= |argv|
      requires forall i | 0 <= i < |strs| :: StringAt(mem, argv[i], strs[i])
      modifies this`free, page
      ensures Valid()
      ensures r.Now? && r.p > 0 <==> |Packed(strs)| < from && Needed(old(page[..]), from - |Packed(strs)|, from) <= old(free)
      ensures r.Wild? <==> 0 < from < |Packed(strs)| && Needed(old(page[..]), 0, from) <= old(free)
      ensures r.Now? && r.p > 0 ==> r.p == from - |Packed(strs)| && Has(page[..], r.p, Packed(strs) + rest)
      ensures r.Now? && r.p > 0 ==> Accounted(old(page[..]), old(free), page[..], free, r.p, from)
    {
      hide Packed, Has, Follows, Rest, TookDown, Needed;
      if from == 0 { return Now(0); }
      var p, argc, offset, at := from, argc0, 0, 0;
      ghost var done: seq<int> := [];
      ghost var was := page[..];
      RestStart(strs, argc0);
      assert done + rest == rest;
      FollowsStart(page[..], from);
      TookNone(was, free, from);
      while argc > 0
        invariant Valid() && argc <= argc0 && done == Packed(Rest(strs, argc)) && |done| <= |Packed(strs)|
        invariant |done| <= from && p == from - |done| && Has(page[..], p, done + rest) && Follows(page[..], p, offset, at)
        invariant Accounted(was, old(free), page[..], free, p, from)
      {
        argc := argc - 1;
        RestStep(strs, argc);
        RestShorter(strs, argc);
        ghost var mid, left := page[..], free;
        var q, stop := p, false;
        r, offset, at, stop := CopyString(mem, argv[argc], p, offset, at, strs[argc], done + rest);
        if stop {
          StringStops(was, old(free), mid, left, |strs[argc]| + 1, q, from, r, |Packed(strs)|);
          return;
        }
        p := r.p;
        AccountJoin(was, old(free), mid, left, page[..], free, p, q, from);
        Regroup(strs[argc] + [0], done, rest);
        done := strs[argc] + [0] + done;
      }
      RestAll(strs, argc);
      r := Now(p);
    }
  }

  /** How copying n bytes down from there ends: done; without a page; or below the block. */
  ghost predicate Copied(was: seq<seq<int>>, free: nat, n: nat, from: nat, r: Outcome, stop: bool) {
    && (!stop <==> n <= from && Needed(was, from - n, from) <= free)
    && (stop ==> (r.Wild? <==> n > from && Needed(was, 0, from) <= free) && (r.Now? ==> r.p == 0))
    && (!stop ==> r == Now(from - n))
  }

  /** The pages taken on the way from there down to p, and those left. */
  predicate Accounted(was: seq<seq<int>>, free0: int, pages: seq<seq<int>>, free: int, p: nat, from: nat) {
    TookDown(was, pages, p, from) && free == free0 - Needed(was, p, from)
  }

  /** Without a page for the byte below p, none of the n bytes' copies ends well. */
  lemma NoPage(was: seq<seq<int>>, free0: nat, pages: seq<seq<int>>, free: nat, p: nat, from: nat, n: nat)
    requires 0 < p <= from <= TOP && Accounted(was, free0, pages, free, p, from) && |pages| == MAX_ARG_PAGES
    requires Missing(pages, (p - 1) / PAGE_SIZE) > free && from - n < p
    ensures Copied(was, free0, n, from, Now(0), true)
  {
    TookByte(was, pages, pages[(p - 1) / PAGE_SIZE := [0]], p, from);
    NeededMono(was, 0, p - 1, from);
    if n <= from { NeededMono(was, from - n, p - 1, from); }
  }

  lemma TookNone(pages: seq<seq<int>>, free: nat, from: nat)
    ensures Accounted(pages, free, pages, free, from, from)
  {}

  lemma AccountJoin(was: seq<seq<int>>, free0: nat, mid: seq<seq<int>>, left: nat, pages: seq<seq<int>>, free: int,
                    p: nat, q: nat, from: nat)
    requires p <= q <= from <= TOP && |mid| == MAX_ARG_PAGES
    requires Accounted(was, free0, mid, left, q, from) && Accounted(mid, left, pages, free, p, q)
    ensures Accounted(was, free0, pages, free, p, from)
  {
    NeededJoin(was, mid, p, q, from);
    TookJoin(was, mid, pages, p, q, from);
  }

  /** If one string cannot be copied, neither can all of them. */
  lemma StringStops(was: seq<seq<int>>, free0: nat, mid: seq<seq<int>>, left: nat, n: nat, q: nat, from: nat, r: Outcome, total: nat)
    requires q <= from <= TOP && |mid| == MAX_ARG_PAGES && Accounted(was, free0, mid, left, q, from)
    requires Copied(mid, left, n, q, r, true) && from - q + n <= total
    ensures r.Wild? <==> from < total && Needed(was, 0, from) <= free0
    ensures !(total <= from && Needed(was, from - total, from) <= free0) && (r.Now? ==> r.p == 0)
  {
    NeededJoin(was, mid, 0, q, from);
    if n <= q {
      NeededJoin(was, mid, q - n, q, from);
      NeededMono(was, 0, q - n, from);
      if total <= from { NeededMono(was, from - total, q - n, from); }
    } else {
      assert total > from;
    }
  }

  // ---- the tables -------------------------------------------------------------

  /** The 32-bit word at a, low byte first. */
  function Long(mem: seq<int>, a: int): int {
    if 0 <= a && a + 4 <= |mem| then mem[a] + 0x100 * mem[a + 1] + 0x1_0000 * mem[a + 2] + 0x100_0000 * mem[a + 3] else 0
  }

  /** What create_tables leaves at sp for the strings packed at p: the two counts' words, the table of pointers to
      args, NULL, the table of pointers to env, NULL, all below p. */
  predicate Laid(mem: seq<int>, sp: int, p: int, args: seq<seq<int>>, env: seq<seq<int>>) {
    var argv := sp + 12;
    var envp := argv + 4 * (|args| + 1);
    && 0 <= sp && sp % 4 == 0 && envp + 4 * (|env| + 1) <= p
    && Long(mem, sp) == |args| && Long(mem, sp + 4) == argv && Long(mem, sp + 8) == envp
    && AllPoint(mem, argv, p, args) && AllPoint(mem, envp, p, env)
  }

  /** A table of pointers to the strings, in order, and NULL. */
  predicate AllPoint(mem: seq<int>, table: int, p: int, strs: seq<seq<int>>) {
    (forall i | 0 <= i < |strs| :: Points(mem, table, i, p, strs[i])) && Long(mem, table + 4 * |strs|) == 0
  }

  /** The i-th pointer of a table points to the string s, at p or above. */
  predicate Points(mem: seq<int>, table: int, i: int, p: int, s: seq<int>) {
    p <= Long(mem, table + 4 * i) && StringAt(mem, Long(mem, table + 4 * i), s)
  }

  /** n pointers to the strings packed at p, and NULL. */
  predicate Table(mem: seq<int>, table: int, n: nat, p: int, strs: seq<seq<int>>) {
    Pointers(mem, table, n, p, strs) && Long(mem, table + 4 * n) == 0
  }

  predicate Pointers(mem: seq<int>, table: int, n: nat, p: int, strs: seq<seq<int>>) {
    n <= |strs| && forall i | 0 <= i < n :: Long(mem, table + 4 * i) == p + Offset(strs, i)
  }

  class UserMemory {
    const mem: array<int>

    constructor (limit: nat)
      ensures mem.Length == limit && fresh(mem) && forall a | 0 <= a < limit :: mem[a] == 0
    {
      mem := new int[limit](_ => 0);
    }

    /** put_fs_long. */
    method PutLong(v: int, a: nat)
      requires 0 <= v < 0x1_0000_0000 && a + 4 <= mem.Length
      modifies mem
      ensures Long(mem[..], a) == v
      ensures forall b | 0 <= b < mem.Length && !(a <= b < a + 4) :: mem[b] == old(mem[b])
    {
      mem[a], mem[a + 1], mem[a + 2], mem[a + 3] := v % 0x100, v / 0x100 % 0x100, v / 0x1_0000 % 0x100, v / 0x100_0000;
      Bytes(v);
    }

    /** One of the two loops of create_tables: n pointers to the strings from p on, and NULL. */
    method PutTable(n: nat, table: nat, p: nat, ghost strs: seq<seq<int>>) returns (end: nat)
      requires table + 4 * (n + 1) <= p && n <= |strs| && Holds(mem[..], p, Packed(strs)) && Strings(strs)
      requires mem.Length < 0x1_0000_0000
      modifies mem
      ensures Table(mem[..], table, n, p, strs) && end == p + Offset(strs, n)
      ensures forall b | 0 <= b < mem.Length && !(table <= b < table + 4 * (n + 1)) :: mem[b] == old(mem[b])
    {
      hide Long;
      end := p;
      var k, at := 0, table;
      assert strs[..0] == [];
      hide Packed;
      while k < n
        invariant 0 <= k <= n && at == table + 4 * k && end == p + Offset(strs, k)
        invariant Pointers(mem[..], table, k, p, strs) && Holds(mem[..], p, Packed(strs))
        invariant forall b | 0 <= b < mem.Length && !(table <= b < table + 4 * k) :: mem[b] == old(mem[b])
      {
        OffsetNext(strs, k);
        ghost var before := mem[..];
        PutLong(end, at);
        PointersStill(before, mem[..], table, k, p, strs);
        HoldsStill(before, mem[..], p, Packed(strs));
        end := PastString(end, p, strs, k);
        at := at + 4;
        k := k + 1;
      }
      ghost var before := mem[..];
      PutLong(0, at);
      PointersStill(before, mem[..], table, n, p, strs);
    }

    /** while (get_fs_byte(p++)): past the end of one string. */
    method PastString(from: nat, p: nat, ghost strs: seq<seq<int>>, ghost k: nat) returns (end: nat)
      requires k < |strs| && from == p + Offset(strs, k) && Strings(strs) && Holds(mem[..], p, Packed(strs))
      ensures end == p + Offset(strs, k + 1)
    {
      OffsetNext(strs, k);
      PackedHolds(mem[..], p, strs, k);
      assert StringAt(mem[..], from, strs[k]);
      assert forall i | from <= i < from + |strs[k]| :: mem[i] == mem[..][from..from + |strs[k]|][i - from];
      end := from;
      while mem[end] != 0
        invariant from <= end <= from + |strs[k]|
        decreases from + |strs[k]| - end
      {
        end := end + 1;
      }
      end := end + 1;
    }
  
    /** create_tables, for the strings packed at p: the first argc are the arguments, the next envc the environment.
        The new stack pointer is sp. */
    method CreateTables(p: nat, argc: nat, envc: nat, ghost strs: seq<seq<int>>) returns (sp: int)
      requires argc + envc <= |strs| && Strings(strs) && Holds(mem[..], p, Packed(strs))
      requires 4 * (argc + envc + 5) + 3 <= p && mem.Length < 0x1_0000_0000
      modifies mem
      ensures Laid(mem[..], sp, p, strs[..argc], strs[argc..argc + envc])
      ensures forall b | p <= b < mem.Length :: mem[b] == old(mem[b])
    {
      hide Table, AllPoint, Packed, Laid, Long;
      sp := p - p % 4;
      sp := sp - 4 * (envc + 1);
      var envp := sp;
      sp := sp - 4 * (argc + 1);
      var argv := sp;
      sp := PutHead(envp, argv, argc);
      ghost var head := mem[..];
      HoldsStill(old(mem[..]), head, p, Packed(strs));
      PutTables(sp, argv, envp, p, argc, envc, strs);
      LongsStill(head, mem[..], sp, argv);
      HoldsStill(head, mem[..], p, Packed(strs));
      TablesAreLaid(mem[..], sp, p, argc, envc, strs);
    }

    /** The three words pushed below the tables. */
    method PutHead(envp: nat, argv: nat, argc: nat) returns (sp: nat)
      requires 12 <= argv <= mem.Length && argc < 0x1_0000_0000 && envp < 0x1_0000_0000 && mem.Length < 0x1_0000_0000
      modifies mem
      ensures sp == argv - 12
      ensures Long(mem[..], sp) == argc && Long(mem[..], sp + 4) == argv && Long(mem[..], sp + 8) == envp
      ensures forall b | 0 <= b < mem.Length && !(sp <= b < argv) :: mem[b] == old(mem[b])
    {
      sp := argv - 4;
      PutLong(envp, sp);
      ghost var m1 := mem[..];
      sp := sp - 4;
      PutLong(argv, sp);
      ghost var m2 := mem[..];
      sp := sp - 4;
      PutLong(argc, sp);
      LongsStill(m1, mem[..], sp + 8, sp + 12);
      LongsStill(m2, mem[..], sp + 4, sp + 8);
    }

    /** The two loops of create_tables, one after the other. */
    method PutTables(ghost sp: nat, argv: nat, envp: nat, p: nat, argc: nat, envc: nat, ghost strs: seq<seq<int>>)
      requires argc + envc <= |strs| && Strings(strs) && Holds(mem[..], p, Packed(strs)) && mem.Length < 0x1_0000_0000
      requires envp == argv + 4 * (argc + 1) && envp + 4 * (envc + 1) <= p
      modifies mem
      ensures Table(mem[..], argv, argc, p, strs) && Table(mem[..], envp, envc, p + Offset(strs, argc), strs[argc..])
      ensures forall b | 0 <= b < mem.Length && !(argv <= b < p) :: mem[b] == old(mem[b])
    {
      hide Table, Long, Packed, Offset;
      var mid := PutTable(argc, argv, p, strs);
      ghost var m4 := mem[..];
      HoldsStill(old(mem[..]), m4, p, Packed(strs));
      RestPacked(m4, p, strs, argc);
      var end := PutTable(envc, envp, mid, strs[argc..]);
      TableStill(m4, mem[..], argv, argc, p, strs);
    }

    /** The end of change_ldt: the pages taken come to the top of the data segment. */
    method PutPages(page: array<seq<int>>)
      requires PagesOk(page[..]) && TOP <= mem.Length
      modifies mem
      ensures forall a | 0 <= a < TOP && Taken(page[..], a) :: mem[mem.Length - TOP + a] == At(page[..], a)
    {
      var i, base := MAX_ARG_PAGES - 1, mem.Length;
      while i >= 0
        invariant -1 <= i < MAX_ARG_PAGES && base == mem.Length - TOP + PAGE_SIZE * (i + 1)
        invariant forall a | PAGE_SIZE * (i + 1) <= a < TOP && Taken(page[..], a) :: mem[mem.Length - TOP + a] == At(page[..], a)
      {
        base := base - PAGE_SIZE;
        if page[i] != [] {
          assert PageOk(page[..][i]);
          PutPage(page[i], base);
        }
        i := i - 1;
      }
    }

    /** put_page: from now on these bytes are the page's. */
    method PutPage(page: seq<int>, base: nat)
      requires |page| == PAGE_SIZE && base + PAGE_SIZE <= mem.Length
      modifies mem
      ensures forall a | 0 <= a < mem.Length :: mem[a] == if base <= a < base + PAGE_SIZE then page[a - base] else old(mem[a])
    {
      var o := 0;
      while o < PAGE_SIZE
        invariant 0 <= o <= PAGE_SIZE
        invariant forall a | 0 <= a < mem.Length :: mem[a] == if base <= a < base + o then page[a - base] else old(mem[a])
      {
        mem[base + o] := page[o];
        o := o + 1;
      }
    }
  }

  lemma LongsStill(a: seq<int>, b: seq<int>, from: int, to: int)
    requires |a| == |b| && forall i | 0 <= i < |a| && from <= i < to :: a[i] == b[i]
    ensures forall x | from <= x && x + 4 <= to :: Long(b, x) == Long(a, x)
  {}

  lemma PointersStill(a: seq<int>, b: seq<int>, table: int, n: nat, p: int, strs: seq<seq<int>>)
    requires Pointers(a, table, n, p, strs)
    requires |a| == |b| && forall i | 0 <= i < |a| && table <= i < table + 4 * n :: a[i] == b[i]
    ensures Pointers(b, table, n, p, strs)
  {
    LongsStill(a, b, table, table + 4 * n);
    forall i | 0 <= i < n ensures Long(b, table + 4 * i) == p + Offset(strs, i) {
      assert Long(a, table + 4 * i) == p + Offset(strs, i);
    }
  }

  lemma TableStill(a: seq<int>, b: seq<int>, table: int, n: nat, p: int, strs: seq<seq<int>>)
    requires Table(a, table, n, p, strs)
    requires |a| == |b| && forall i | 0 <= i < |a| && table <= i < table + 4 * (n + 1) :: a[i] == b[i]
    ensures Table(b, table, n, p, strs)
  {
    PointersStill(a, b, table, n, p, strs);
    LongsStill(a, b, table, table + 4 * (n + 1));
  }

  lemma TablePoints(m: seq<int>, table: int, n: nat, p: nat, strs: seq<seq<int>>, low: int)
    requires Table(m, table, n, p, strs) && Holds(m, p, Packed(strs)) && Strings(strs) && low <= p
    ensures AllPoint(m, table, low, strs[..n])
  {
    forall i | 0 <= i < n ensures Points(m, table, i, low, strs[..n][i]) { PackedHolds(m, p, strs, i); }
  }

  lemma TablesAreLaid(m: seq<int>, sp: nat, p: nat, argc: nat, envc: nat, strs: seq<seq<int>>)
    requires argc + envc <= |strs| && Strings(strs) && Holds(m, p, Packed(strs)) && sp % 4 == 0
    requires Long(m, sp) == argc && Long(m, sp + 4) == sp + 12 && Long(m, sp + 8) == sp + 12 + 4 * (argc + 1)
    requires sp + 12 + 4 * (argc + 1) + 4 * (envc + 1) <= p && Table(m, sp + 12, argc, p, strs)
    requires Table(m, sp + 12 + 4 * (argc + 1), envc, p + Offset(strs, argc), strs[argc..])
    ensures Laid(m, sp, p, strs[..argc], strs[argc..argc + envc])
  {
    hide Table, AllPoint, Packed, Holds, Long, Offset;
    RestPacked(m, p, strs, argc);
    TablePoints(m, sp + 12, argc, p, strs, p);
    TablePoints(m, sp + 12 + 4 * (argc + 1), envc, p + Offset(strs, argc), strs[argc..], p);
    assert strs[argc..][..envc] == strs[argc..argc + envc];
  }

  lemma HoldsStill(a: seq<int>, b: seq<int>, p: nat, data: seq<int>)
    requires |a| == |b| && Holds(a, p, data) && forall i | p <= i < |a| :: a[i] == b[i]
    ensures Holds(b, p, data)
  {}

  lemma HoldsEnd(mem: seq<int>, p: nat, a: seq<int>, b: seq<int>)
    requires Holds(mem, p, a + b)
    ensures Holds(mem, p + |a|, b)
  {
    forall i | 0 <= i < |b| ensures mem[p + |a| + i] == b[i] {
      assert mem[p..p + |a + b|][|a| + i] == (a + b)[|a| + i];
    }
  }

  /** The strings from the k-th on are packed where the k-th starts. */
  lemma RestPacked(mem: seq<int>, p: nat, strs: seq<seq<int>>, k: nat)
    requires Holds(mem, p, Packed(strs)) && k <= |strs|
    ensures Holds(mem, p + Offset(strs, k), Packed(strs[k..]))
  {
    hide Holds, Packed;
    assert strs == strs[..k] + strs[k..];
    PackedApp(strs[..k], strs[k..]);
    HoldsEnd(mem, p, Packed(strs[..k]), Packed(strs[k..]));
  }

  ghost predicate Strings(strs: seq<seq<int>>) { forall i | 0 <= i < |strs| :: 0 !in strs[i] }

  lemma Bytes(v: int)
    requires 0 <= v < 0x1_0000_0000
    ensures v == v % 0x100 + 0x100 * (v / 0x100 % 0x100) + 0x1_0000 * (v / 0x1_0000 % 0x100) + 0x100_0000 * (v / 0x100_0000)
  {
    var a := v / 0x100;
    assert v == 0x100 * a + v % 0x100 && a == 0x100 * (a / 0x100) + a % 0x100;
    assert a / 0x100 == v / 0x1_0000;
    assert a / 0x100 == 0x100 * (a / 0x1_0000) + a / 0x100 % 0x100 && a / 0x1_0000 == v / 0x100_0000;
  }

  // ---- execve -----------------------------------------------------------------

  /** The interpreter's name and, if there is one, its argument, from a line that starts with #!. */
  datatype Script = None | Bang(name: seq<int>, arg: seq<seq<int>>)

  /** The argument list the new program should get. */
  function Wanted(script: Script, filename: seq<int>, args: seq<seq<int>>): seq<seq<int>> {
    if script.None? then args
    else [script.name] + script.arg + [filename] + (if args == [] then [] else args[1..])
  }

  /** What execve packs, and how many of it it calls arguments: --argc makes -1 of 0. */
  function Argc(script: Script, args: seq<seq<int>>): int {
    if script.None? then |args| else |args| - 1 + 2 + |script.arg|
  }

  datatype Result = NoMemory | Trampled | Started(sp: int)

  /** count. */
  method Count(argv: seq<nat>) returns (i: nat)
    requires 0 in argv
    ensures i < |argv| && argv[i] == 0 && forall k | 0 <= k < i :: argv[k] != 0
  {
    i := 0;
    while argv[i] != 0
      invariant i < |argv| && forall k | 0 <= k < i :: argv[k] != 0
      invariant exists k :: i <= k < |argv| && argv[k] == 0
      decreases |argv| - i
    {
      i := i + 1;
    }
  }

  /** argv's pointers, up to NULL, point to the strings strs in user memory. */
  predicate Lists(mem: seq<int>, argv: seq<nat>, strs: seq<seq<int>>) {
    && |strs| < |argv| && argv[|strs|] == 0
    && forall i | 0 <= i < |strs| :: argv[i] != 0 && StringAt(mem, argv[i], strs[i])
  }

  // ---- the calls of copy_strings, one after another ---------------------------

  const START: nat := TOP - 4

  function NoPages(): (pages: seq<seq<int>>)
    ensures |pages| == MAX_ARG_PAGES && forall k | 0 <= k < |pages| :: pages[k] == []
  {
    seq(MAX_ARG_PAGES, _ => [])
  }

  /** The pages that n bytes at the top of the block are in. */
  function PagesFor(n: nat): nat { if n == 0 || n > START then 0 else MAX_ARG_PAGES - (START - n) / PAGE_SIZE }

  lemma {:induction false} NoneNeeded(a: nat)
    requires a <= MAX_ARG_PAGES
    ensures NeededIn(NoPages(), a, MAX_ARG_PAGES) == MAX_ARG_PAGES - a
    decreases MAX_ARG_PAGES - a
  {
    if a < MAX_ARG_PAGES { NoneNeeded(a + 1); }
  }

  lemma NeededIs(p: nat)
    requires p <= START
    ensures Needed(NoPages(), p, START) == PagesFor(START - p)
  {
    if p < START { NoneNeeded(p / PAGE_SIZE); }
  }

  /** The block after a call, if it goes on: the pages taken are those of the bytes so far, of the given number. */
  predicate Running(page: seq<seq<int>>, free: int, given: nat, o: Outcome) {
    o.Now? && o.p > 0 ==> o.p <= START && Accounted(NoPages(), given, page, free, o.p, START)
  }

  /** One more call, with n bytes. */
  function Called(o: Outcome, n: nat, given: nat): Outcome {
    if o.Wild? || o.p == 0 then o
    else if n < o.p && o.p - n <= START && PagesFor(START - (o.p - n)) <= given then Now(o.p - n)
    else if n > o.p && MAX_ARG_PAGES <= given then Wild
    else Now(0)
  }

  method Call(block: ArgBlock, mem: seq<int>, argc: int, argv: seq<nat>, from: nat, ghost strs: seq<seq<int>>, ghost rest: seq<int>,
              ghost given: nat) returns (r: Outcome)
    requires block.Valid() && from <= START && from + |rest| <= TOP && Has(block.page[..], from, rest)
    requires Running(block.page[..], block.free, given, Now(from))
    requires |strs| == (if argc < 0 then 0 else argc) <= |argv|
    requires forall i | 0 <= i < |strs| :: StringAt(mem, argv[i], strs[i])
    modifies block`free, block.page
    ensures block.Valid() && r == Called(Now(from), |Packed(strs)|, given) && Running(block.page[..], block.free, given, r)
    ensures r.Now? && r.p > 0 ==> Has(block.page[..], r.p, Packed(strs) + rest)
  {
    ghost var mid, left := block.page[..], block.free;
    r := block.CopyStrings(mem, argc, argv, from, strs, rest);
    if from > 0 { CallIs(mid, left, block.page[..], block.free, given, from, |Packed(strs)|, r); }
  }

  lemma CallIs(mid: seq<seq<int>>, left: nat, pages: seq<seq<int>>, free: int, given: nat, from: nat, n: nat, r: Outcome)
    requires 0 < from <= START && |mid| == MAX_ARG_PAGES && Accounted(NoPages(), given, mid, left, from, START)
    requires r.Now? && r.p > 0 <==> n < from && Needed(mid, from - n, from) <= left
    requires r.Wild? <==> 0 < from < n && Needed(mid, 0, from) <= left
    requires r.Now? && r.p > 0 ==> r.p == from - n && Accounted(mid, left, pages, free, r.p, from)
    ensures r == Called(Now(from), n, given) && Running(pages, free, given, r)
  {
    NeededIs(from);
    NeededIs(0);
    NeededJoin(NoPages(), mid, 0, from, START);
    if n < from {
      NeededIs(from - n);
      NeededJoin(NoPages(), mid, from - n, from, START);
      if r.Now? && r.p > 0 { AccountJoin(NoPages(), given, mid, left, pages, free, r.p, from, START); }
    }
  }

  /** A kernel string, as copy_strings finds it through one pointer. */
  method CallOne(block: ArgBlock, s: seq<int>, from: nat, ghost rest: seq<int>, ghost given: nat) returns (r: Outcome)
    requires block.Valid() && 0 !in s && from <= START && from + |rest| <= TOP && Has(block.page[..], from, rest)
    requires Running(block.page[..], block.free, given, Now(from))
    modifies block`free, block.page
    ensures block.Valid() && r == Called(Now(from), |s| + 1, given) && Running(block.page[..], block.free, given, r)
    ensures r.Now? && r.p > 0 ==> Has(block.page[..], r.p, s + [0] + rest)
  {
    assert (s + [0])[0..0 + |s|] == s;
    assert Packed([s]) == s + [0] by { assert [s][1..] == []; }
    r := Call(block, s + [0], 1, [0], from, [s], rest, given);
  }

  lemma PackedOne(s: seq<int>, strs: seq<seq<int>>)
    ensures Packed([s] + strs) == s + [0] + Packed(strs)
  {
    assert ([s] + strs)[1..] == strs;
  }

  /** The calls for the spliced list: filename, the interpreter's argument, its name, in this order from the top. */
  function Spliced(o: Outcome, script: Script, filename: seq<int>, given: nat): Outcome
    requires script.Bang?
  {
    var o := Called(o, |filename| + 1, given);
    var o := if script.arg == [] then o else Called(o, |script.arg[0]| + 1, given);
    Called(o, |script.name| + 1, given)
  }

  method Splice(block: ArgBlock, script: Script, filename: seq<int>, from: nat, ghost strs: seq<seq<int>>, ghost given: nat)
    returns (r: Outcome)
    requires block.Valid() && from <= START && from + |Packed(strs)| <= TOP && Has(block.page[..], from, Packed(strs))
    requires Running(block.page[..], block.free, given, Now(from)) && script.Bang?
    requires 0 !in filename && 0 !in script.name && |script.arg| <= 1 && Strings(script.arg)
    modifies block`free, block.page
    ensures block.Valid() && r == Spliced(Now(from), script, filename, given) && Running(block.page[..], block.free, given, r)
    ensures r.Now? && r.p > 0 ==> Has(block.page[..], r.p, Packed([script.name] + script.arg + [filename] + strs))
  {
    hide Packed;
    ghost var l1 := [filename] + strs;
    ghost var l2 := script.arg + l1;
    ghost var l3 := [script.name] + l2;
    PackedOne(filename, strs);
    PackedOne(script.name, l2);
    if script.arg != [] { PackedOne(script.arg[0], l1); assert [script.arg[0]] + l1 == l2; } else { assert l2 == l1; }
    assert [script.name] + script.arg + [filename] + strs == l3;
    hide Packed, Has, Accounted;
    HasNothing(block.page[..]);
    r := CallOne(block, filename, from, Packed(strs), given);
    if r.Wild? { return; }
    if script.arg != [] {
      HasNothing(block.page[..]);
      r := CallOne(block, script.arg[0], r.p, if r.p == 0 then [] else Packed(l1), given);
      if r.Wild? { return; }
    }
    HasNothing(block.page[..]);
    r := CallOne(block, script.name, r.p, if r.p == 0 then [] else Packed(l2), given);
  }

  lemma HasNothing(pages: seq<seq<int>>)
    ensures Has(pages, 0, [])
  {}

  /** All the strings execve packs, from the bottom up. */
  function AllStrings(script: Script, filename: seq<int>, args: seq<seq<int>>, env: seq<seq<int>>): seq<seq<int>> {
    Wanted(script, filename, args) + env
  }

  /** The arguments copied from the caller's list. */
  function Kept(script: Script, args: seq<seq<int>>): seq<seq<int>> {
    if script.Bang? && args != [] then args[1..] else args
  }

  /** How do_execve's calls end. */
  function AllCalled(script: Script, filename: seq<int>, args: seq<seq<int>>, env: seq<seq<int>>, given: nat): Outcome {
    var o := Called(Called(Now(START), |Packed(env)|, given), |Packed(Kept(script, args))|, given);
    if script.Bang? then Spliced(o, script, filename, given) else o
  }

  /** do_execve's calls of copy_strings. */
  method PackAll(block: ArgBlock, mem: seq<int>, argv: seq<nat>, envp: seq<nat>, script: Script, filename: seq<int>,
                 ghost args: seq<seq<int>>, ghost env: seq<seq<int>>) returns (r: Outcome, argc: int, envc: nat)
    requires block.Valid() && block.page[..] == NoPages() && Lists(mem, argv, args) && Lists(mem, envp, env)
    requires 0 !in filename && (script.Bang? ==> 0 !in script.name && |script.arg| <= 1 && Strings(script.arg))
    modifies block`free, block.page
    ensures block.Valid() && argc == Argc(script, args) && envc == |env|
    ensures r == AllCalled(script, filename, args, env, old(block.free))
    ensures r.Now? && r.p > 0 ==> Has(block.page[..], r.p, Packed(AllStrings(script, filename, args, env)))
  {
    argc := CountStrings(mem, argv, args);
    envc := CountStrings(mem, envp, env);
    ghost var given, kept := block.free, Kept(script, args);
    AllIs(script, filename, args, env);
    KeptAt(mem, argv, script, args);
    var from := if script.Bang? then 1 else 0;
    if script.Bang? { argc := argc - 1; }
    hide Packed, Has, Accounted, Running, Called, Wanted, Kept, AllStrings;
    r := PackLists(block, mem, argc, argv[from..], kept, envc, envp, env);
    if script.Bang? {
      if r.Now? {
        HasNothing(block.page[..]);
        r := Splice(block, script, filename, r.p, if r.p == 0 then [] else kept + env, given);
      }
      argc := argc + 2 + |script.arg|;
    }
  }

  /** The two calls for the caller's lists. */
  method PackLists(block: ArgBlock, mem: seq<int>, argc: int, argv: seq<nat>, ghost args: seq<seq<int>>,
                   envc: nat, envp: seq<nat>, ghost env: seq<seq<int>>) returns (r: Outcome)
    requires block.Valid() && block.page[..] == NoPages()
    requires |args| == (if argc < 0 then 0 else argc) <= |argv| && |env| == envc <= |envp|
    requires forall i | 0 <= i < |args| :: StringAt(mem, argv[i], args[i])
    requires forall i | 0 <= i < |env| :: StringAt(mem, envp[i], env[i])
    modifies block`free, block.page
    ensures var given := old(block.free);
            && r == Called(Called(Now(START), |Packed(env)|, given), |Packed(args)|, given)
            && block.Valid() && Running(block.page[..], block.free, given, r)
    ensures r.Now? ==> r.p <= START && (r.p == 0 || r.p + |Packed(args + env)| <= TOP)
    ensures r.Now? && r.p > 0 ==> Has(block.page[..], r.p, Packed(args + env))
  {
    ghost var given := block.free;
    PackedApp(args, env);
    StartRuns(given);
    HasNone(block.page[..], START);
    assert Packed(env) + [] == Packed(env);
    CalledBound(Now(START), |Packed(env)|, given);
    hide Packed, Has, Running, Called;
    r := Call(block, mem, envc, envp, START, env, [], given);
    if r.Now? {
      HasNothing(block.page[..]);
      CalledBound(r, |Packed(args)|, given);
      r := Call(block, mem, argc, argv, r.p, args, if r.p == 0 then [] else Packed(env), given);
    } else {
      WildStays(|Packed(args)|, given);
    }
  }

  lemma StartRuns(given: nat)
    ensures Running(NoPages(), given, given, Now(START))
  {
    TookNone(NoPages(), given, START);
  }

  lemma HasNone(pages: seq<seq<int>>, p: int)
    ensures Has(pages, p, [])
  {}

  lemma WildStays(n: nat, given: nat)
    ensures Called(Wild, n, given) == Wild
  {}

  lemma CalledBound(o: Outcome, n: nat, given: nat)
    requires o.Now? && o.p <= START
    ensures var r := Called(o, n, given); r.Now? ==> r.p <= START && (r.p > 0 ==> r.p + n == o.p)
  {}

  lemma KeptAt(mem: seq<int>, argv: seq<nat>, script: Script, args: seq<seq<int>>)
    requires Lists(mem, argv, args)
    ensures var from, kept := if script.Bang? then 1 else 0, Kept(script, args);
            && from <= |argv| && |kept| <= |argv| - from
            && |kept| == (if script.Bang? then (if args == [] then 0 else |args| - 1) else |args|)
            && forall i | 0 <= i < |kept| :: StringAt(mem, argv[from..][i], kept[i])
  {
    forall i | 0 <= i < |Kept(script, args)|
      ensures StringAt(mem, argv[if script.Bang? then 1 else 0..][i], Kept(script, args)[i]) {
      assert StringAt(mem, argv[if script.Bang? then i + 1 else i], args[if script.Bang? then i + 1 else i]);
    }
  }

  lemma AllIs(script: Script, filename: seq<int>, args: seq<seq<int>>, env: seq<seq<int>>)
    ensures var strs := Kept(script, args) + env;
            AllStrings(script, filename, args, env) == if script.Bang? then [script.name] + script.arg + [filename] + strs else strs
  {}

  // ---- when everything fits ---------------------------------------------------

  /** After calls with m bytes in all: going on exactly when they fit and there are pages for them, wild exactly when
      they do not fit, there are pages for the whole block, and no call ended exactly at its bottom (hit). */
  predicate Reached(o: Outcome, m: nat, given: nat, hit: bool) {
    && (o.Now? && o.p > 0 <==> m < START && PagesFor(m) <= given)
    && (o.Now? && o.p > 0 ==> o.p == START - m)
    && (o.Wild? <==> m > START && MAX_ARG_PAGES <= given && !hit)
    && (hit ==> m >= START) && (m == START ==> hit)
  }

  lemma CalledReaches(o: Outcome, m: nat, n: nat, given: nat, hit: bool)
    requires Reached(o, m, given, hit)
    ensures Reached(Called(o, n, given), m + n, given, hit || m + n == START)
  {}

  /** Some call before the last ends exactly at the bottom of the block, or the last one does. */
  predicate FillsExactly(script: Script, filename: seq<int>, args: seq<seq<int>>, env: seq<seq<int>>) {
    var e := |Packed(env)|;
    var k := e + |Packed(Kept(script, args))|;
    e == START || k == START ||
    (script.Bang? && (var f := k + |filename| + 1;
                      f == START || (script.arg != [] && f + |script.arg[0]| + 1 == START)
                      || |Packed(AllStrings(script, filename, args, env))| == START))
  }

  lemma AllCalledIs(script: Script, filename: seq<int>, args: seq<seq<int>>, env: seq<seq<int>>, given: nat)
    requires script.Bang? ==> |script.arg| <= 1
    ensures Reached(AllCalled(script, filename, args, env, given), |Packed(AllStrings(script, filename, args, env))|, given,
                    FillsExactly(script, filename, args, env))
  {
    hide Packed, Called, PagesFor, Reached, Spliced, AllStrings, Kept;
    var kept := Kept(script, args);
    var e, k := |Packed(env)|, |Packed(env)| + |Packed(kept)|;
    var o1 := Called(Now(START), e, given);
    var o2 := Called(o1, |Packed(kept)|, given);
    StartReached(given);
    CalledReaches(Now(START), 0, e, given, false);
    CalledReaches(o1, e, |Packed(kept)|, given, e == START);
    AllIs(script, filename, args, env);
    PackedEnd(kept, env);
    if script.Bang? {
      PackedEnd([script.name] + script.arg + [filename], kept + env);
      SpliceSize(script, filename);
      SplicedReaches(o2, script, filename, k, given, e == START || k == START);
    }
  }

  lemma StartReached(given: nat)
    ensures Reached(Now(START), 0, given, false)
  {}

  lemma SplicedReaches(o: Outcome, script: Script, filename: seq<int>, k: nat, given: nat, hit: bool)
    requires script.Bang? && Reached(o, k, given, hit)
    ensures var f := k + |filename| + 1;
            var g := if script.arg == [] then f else f + |script.arg[0]| + 1;
            var m := g + |script.name| + 1;
            Reached(Spliced(o, script, filename, given), m, given, hit || f == START || g == START || m == START)
  {
    hide Called, PagesFor, Reached;
    var f, o3 := k + |filename| + 1, Called(o, |filename| + 1, given);
    CalledReaches(o, k, |filename| + 1, given, hit);
    if script.arg == [] {
      CalledReaches(o3, f, |script.name| + 1, given, hit || f == START);
    } else {
      var g := f + |script.arg[0]| + 1;
      CalledReaches(o3, f, |script.arg[0]| + 1, given, hit || f == START);
      CalledReaches(Called(o3, |script.arg[0]| + 1, given), g, |script.name| + 1, given, hit || f == START || g == START);
    }
  }

  lemma SpliceSize(script: Script, filename: seq<int>)
    requires script.Bang? && |script.arg| <= 1
    ensures |Packed([script.name] + script.arg + [filename])|
            == |filename| + 1 + (if script.arg == [] then 0 else |script.arg[0]| + 1) + |script.name| + 1
  {
    PackedEnd([script.name] + script.arg, [filename]);
    PackedEnd([script.name], script.arg);
    assert [filename][1..] == [] && [script.name][1..] == [];
    if script.arg != [] { assert script.arg[1..] == []; }
  }

  lemma PackedEnd(a: seq<seq<int>>, b: seq<seq<int>>)
    ensures |Packed(a + b)| == |Packed(a)| + |Packed(b)|
  {
    PackedApp(a, b);
  }

  method CountStrings(mem: seq<int>, argv: seq<nat>, ghost strs: seq<seq<int>>) returns (n: nat)
    requires Lists(mem, argv, strs)
    ensures n == |strs|
  {
    assert argv[|strs|] == 0;
    n := Count(argv);
  }

  const LIMIT: nat := 0x400_0000

  /** The new program finds its arguments and environment at sp. Without a script, or with at least one argument,
      they are the ones wanted; a script started with an empty argument list gets one argument too few, and the
      file's name as its first environment string. */
  ghost predicate StartedWell(mem: seq<int>, sp: int, script: Script, filename: seq<int>, args: seq<seq<int>>, env: seq<seq<int>>) {
    var p := LIMIT - 4 - |Packed(AllStrings(script, filename, args, env))|;
    if script.None? || args != [] then Laid(mem, sp, p, Wanted(script, filename, args), env)
    else Laid(mem, sp, p, [script.name] + script.arg, ([filename] + env)[..|env|])
  }

  /** The argument part of do_execve. */
  method DoExecve(mem: seq<int>, argv: seq<nat>, envp: seq<nat>, script: Script, filename: seq<int>, pages: nat,
                  ghost args: seq<seq<int>>, ghost env: seq<seq<int>>) returns (r: Result, to: UserMemory)
    requires Lists(mem, argv, args) && Lists(mem, envp, env)
    requires 0 !in filename && (script.Bang? ==> 0 !in script.name && |script.arg| <= 1 && Strings(script.arg))
    ensures var n := |Packed(AllStrings(script, filename, args, env))|;
            && (r.Started? <==> n < START && PagesFor(n) <= pages)
            && (r.Trampled? <==> n > START && MAX_ARG_PAGES <= pages && !FillsExactly(script, filename, args, env))
    ensures r.Started? ==> StartedWell(to.mem[..], r.sp, script, filename, args, env)
  {
    hide Packed, Laid, Lists, Has, Holds, Taken, At, Wanted, AllStrings, Strings, Called, FillsExactly, AllCalled;
    var block := new ArgBlock(pages);
    assert block.page[..] == NoPages();
    to := new UserMemory(LIMIT);
    AllCalledIs(script, filename, args, env, pages);
    var o, argc, envc := PackAll(block, mem, argv, envp, script, filename, args, env);
    if o.Wild? { return Trampled, to; }
    if o.p == 0 { return NoMemory, to; }
    ghost var all := AllStrings(script, filename, args, env);
    to.PutPages(block.page);
    HasHolds(block.page[..], to.mem[..], o.p, Packed(all));
    Shares(script, filename, args, env);
    CountPacked(all);
    AllAreStrings(mem, argv, envp, script, filename, args, env);
    var p := o.p + (LIMIT - TOP);
    var sp := to.CreateTables(p, argc, envc, all);
    r := Started(sp);
  }

  /** For example: the script a, started with an empty argument list and one page, for the interpreter s. It is
      started, but not with the two arguments it should have. */
  method EmptyList() returns (r: Result, to: UserMemory)
    ensures r.Started? && !Laid(to.mem[..], r.sp, LIMIT - 8, [['s' as int], ['a' as int]], [])
  {
    var name, file := ['s' as int], ['a' as int];
    r, to := DoExecve([], [0], [0], Bang(name, []), file, 1, [], []);
    ghost var all := AllStrings(Bang(name, []), file, [], []);
    assert all == [name] + ([file] + []);
    PackedOne(name, [file] + []);
    PackedOne(file, []);
    PassedOn(to.mem[..], r.sp, Bang(name, []), file, [], []);
    assert Wanted(Bang(name, []), file, []) == [name, file];
  }

  /** How the packed strings fall into argc arguments and envc environment strings. */
  lemma Shares(script: Script, filename: seq<int>, args: seq<seq<int>>, env: seq<seq<int>>)
    ensures var all, argc := AllStrings(script, filename, args, env), Argc(script, args);
            && 0 <= argc && argc + |env| <= |all|
            && if script.None? || args != [] then all[..argc] == Wanted(script, filename, args) && all[argc..argc + |env|] == env
               else all[..argc] == [script.name] + script.arg && all[argc..argc + |env|] == ([filename] + env)[..|env|]
  {
    var all, argc := AllStrings(script, filename, args, env), Argc(script, args);
    if script.Bang? && args == [] {
      assert all == [script.name] + script.arg + ([filename] + env);
    }
  }

  lemma {:induction false} CountPacked(strs: seq<seq<int>>)
    ensures |strs| <= |Packed(strs)|
  {
    if strs != [] { CountPacked(strs[1..]); }
  }

  lemma HasHolds(pages: seq<seq<int>>, mem: seq<int>, p: nat, data: seq<int>)
    requires PagesOk(pages) && Has(pages, p, data) && p + |data| <= TOP <= |mem|
    requires forall a | 0 <= a < TOP && Taken(pages, a) :: mem[|mem| - TOP + a] == At(pages, a)
    ensures Holds(mem, p + (|mem| - TOP), data)
  {
    var q := p + (|mem| - TOP);
    forall i | 0 <= i < |data| ensures mem[q..q + |data|][i] == data[i] {
      assert Taken(pages, p + i) && At(pages, p + i) == data[i];
      assert mem[|mem| - TOP + (p + i)] == At(pages, p + i);
    }
  }

  lemma AllAreStrings(mem: seq<int>, argv: seq<nat>, envp: seq<nat>, script: Script, filename: seq<int>,
                      args: seq<seq<int>>, env: seq<seq<int>>)
    requires Lists(mem, argv, args) && Lists(mem, envp, env)
    requires 0 !in filename && (script.Bang? ==> 0 !in script.name && Strings(script.arg))
    ensures Strings(AllStrings(script, filename, args, env))
  {
    assert forall i | 0 <= i < |args| :: StringAt(mem, argv[i], args[i]);
    assert forall i | 0 <= i < |env| :: StringAt(mem, envp[i], env[i]);
  }

  /** A script started with an empty argument list is the only case in which what fits is not passed on. */
  lemma PassedOn(mem: seq<int>, sp: int, script: Script, filename: seq<int>, args: seq<seq<int>>, env: seq<seq<int>>)
    requires StartedWell(mem, sp, script, filename, args, env)
    ensures Laid(mem, sp, LIMIT - 4 - |Packed(AllStrings(script, filename, args, env))|, Wanted(script, filename, args), env)
            <==> script.None? || args != []
  {}
}
