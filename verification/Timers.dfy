/** The timer list of kernel/sched.c: each timer holds the ticks after the one before it. */
module Timers {
  const NULL: int := -1

  /** A pending timer: its delta, and which registration it is. */
  datatype Timer = Timer(delta: int, id: int)

  function Sum(list: seq<Timer>): int { if list == [] then 0 else list[0].delta + Sum(list[1..]) }

  /** The ticks until the k-th timer fires, if nothing else happens. */
  function Due(list: seq<Timer>, k: nat): int
    requires k < |list|
  {
    Sum(list[..k + 1])
  }

  /** How many timers add_timer's loop passes with j ticks to go. */
  function Passed(list: seq<Timer>, j: int): (k: nat)
    ensures k <= |list|
  {
    if list != [] && list[0].delta < j then 1 + Passed(list[1..], j - list[0].delta) else 0
  }

  function Insert(list: seq<Timer>, j: int, id: int): seq<Timer> {
    var k := Passed(list, j);
    list[..k] + [Timer(j - Sum(list[..k]), id)] + list[k..]
  }

  predicate Positive(list: seq<Timer>) { forall k | 0 <= k < |list| :: list[k].delta > 0 }

  lemma {:induction false} SumSplit(a: seq<Timer>, b: seq<Timer>)
    ensures Sum(a + b) == Sum(a) + Sum(b)
  {
    if a == [] { assert a + b == b; } else {
      SumSplit(a[1..], b);
      assert (a + b)[1..] == a[1..] + b;
    }
  }

  lemma {:induction false} SumPositive(list: seq<Timer>)
    requires Positive(list)
    ensures Sum(list) >= |list|
  {
    if list != [] { SumPositive(list[1..]); }
  }

  /** The timers passed are due before j, the next one is not. */
  lemma {:induction false} PassedSum(list: seq<Timer>, j: int)
    requires Positive(list) && j > 0
    ensures Sum(list[..Passed(list, j)]) < j
    ensures Passed(list, j) < |list| ==> j <= Due(list, Passed(list, j))
  {
    if list != [] && list[0].delta < j {
      var k := Passed(list[1..], j - list[0].delta);
      PassedSum(list[1..], j - list[0].delta);
      assert list[..k + 1][1..] == list[1..][..k];
      if k + 1 < |list| { assert list[..k + 2][1..] == list[1..][..k + 1]; }
    } else if list != [] {
      assert list[..1] == [list[0]] && list[..1][1..] == [];
    }
  }

  /** add_timer: the new timer is due in exactly j ticks; those before it keep their time; those behind it
      are put off by its delta, because theirs is not shortened. */
  lemma InsertDue(list: seq<Timer>, j: int, id: int, m: nat)
    requires Positive(list) && j > 0 && m <= |list|
    ensures Positive(Insert(list, j, id)) && |Insert(list, j, id)| == |list| + 1
    ensures var k, r := Passed(list, j), Insert(list, j, id);
            && r[k].id == id && Due(r, k) == j
            && (m < k ==> r[m] == list[m] && Due(r, m) == Due(list, m))
            && (k <= m < |list| ==> r[m + 1] == list[m] && Due(r, m + 1) == Due(list, m) + (j - Sum(list[..k])))
  {
    PassedSum(list, j);
    var k, r := Passed(list, j), Insert(list, j, id);
    var t := Timer(j - Sum(list[..k]), id);
    assert r[..k + 1] == list[..k] + [t];
    SumSplit(list[..k], [t]);
    if m < k { assert r[..m + 1] == list[..m + 1]; }
    if k <= m < |list| { InsertPutsOff(list, k, t, m); }
  }

  lemma InsertPutsOff(list: seq<Timer>, k: nat, t: Timer, m: nat)
    requires k <= m < |list|
    ensures Due(list[..k] + [t] + list[k..], m + 1) == Due(list, m) + t.delta
  {
    assert (list[..k] + [t] + list[k..])[..m + 2] == list[..k] + [t] + list[k..m + 1];
    SumSplit(list[..k] + [t], list[k..m + 1]);
    SumSplit(list[..k], [t]);
    assert Sum([t]) == t.delta + Sum([t][1..]);
    assert list[..m + 1] == list[..k] + list[k..m + 1];
    SumSplit(list[..k], list[k..m + 1]);
  }

  lemma {:induction false} PassesAll(list: seq<Timer>, j: int)
    requires Positive(list) && j > 0
    ensures Passed(list, j) == |list| <==> Sum(list) < j
  {
    if list != [] {
      SumPositive(list[1..]);
      if list[0].delta < j { PassesAll(list[1..], j - list[0].delta); }
    }
  }

  /** A new timer puts no other one off if and only if it is due after all of them. */
  lemma PutOff(list: seq<Timer>, j: int, id: int)
    requires Positive(list) && j > 0
    ensures (forall m | 0 <= m < |list| :: exists m' | 0 <= m' <= |list| ::
               Insert(list, j, id)[m'] == list[m] && m' == (if m < Passed(list, j) then m else m + 1)
               && Due(Insert(list, j, id), m') == Due(list, m))
            <==> Sum(list) < j
  {
    PassesAll(list, j);
    PassedSum(list, j);
    InsertDue(list, j, id, 0);
    var k := Passed(list, j);
    if k == |list| {
      forall m | 0 <= m < |list| ensures exists m' | 0 <= m' <= |list| ::
               Insert(list, j, id)[m'] == list[m] && m' == (if m < k then m else m + 1) && Due(Insert(list, j, id), m') == Due(list, m) {
        InsertDue(list, j, id, m);
        assert Insert(list, j, id)[m] == list[m];
      }
    } else {
      InsertDue(list, j, id, k);
    }
  }

  /** For example: with one timer due in 10 ticks, a timer of 4 ticks makes it due in 14. */
  lemma PutOffExample()
    ensures Due([Timer(10, 1)], 0) == 10
    ensures Insert([Timer(10, 1)], 4, 2) == [Timer(4, 2), Timer(10, 1)] && Due(Insert([Timer(10, 1)], 4, 2), 1) == 14
  {
    var l := [Timer(4, 2), Timer(10, 1)];
    assert l[..2] == l && l[1..] == [Timer(10, 1)];
    assert [Timer(10, 1)][..1] == [Timer(10, 1)];
  }

  /** What do_timer does to the list, and whom it calls. */
  function Ticked(list: seq<Timer>): seq<Timer> {
    if list == [] then [] else if list[0].delta <= 1 then list[1..]
    else [Timer(list[0].delta - 1, list[0].id)] + list[1..]
  }

  function Fires(list: seq<Timer>): seq<int> {
    if list != [] && list[0].delta <= 1 then [list[0].id] else []
  }

  /** Every tick brings every pending timer one tick nearer; the one called is exactly the one that was due in one tick. */
  lemma TickedDue(list: seq<Timer>, k: nat)
    requires Positive(list) && k < |list|
    ensures Positive(Ticked(list))
    ensures Due(list, k) == 1 <==> k == 0 && Fires(list) == [list[k].id]
    ensures var d := |Fires(list)|;
            k >= d ==> Ticked(list)[k - d].id == list[k].id && Due(Ticked(list), k - d) == Due(list, k) - 1
  {
    SumPositive(list[..k + 1]);
    assert list[..k + 1] == [list[0]] + list[1..][..k];
    SumSplit([list[0]], list[1..][..k]);
    assert Sum([list[0]]) == list[0].delta + Sum([list[0]][1..]);
    SumPositive(list[1..][..k]);
    if list[0].delta > 1 {
      var t := Timer(list[0].delta - 1, list[0].id);
      assert Ticked(list)[..k + 1] == [t] + list[1..][..k];
      SumSplit([t], list[1..][..k]);
      assert Sum([t]) == t.delta + Sum([t][1..]);
    } else if k > 0 {
      assert Ticked(list)[..k - 1 + 1] == list[1..][..k];
    }
  }

  // ---- runs -------------------------------------------------------------------

  datatype Event = Add(ticks: int) | Tick

  /** The list, the time, when each registration asked to be called, and the calls made: whom and when. */
  datatype Clock = Clock(list: seq<Timer>, now: int, wanted: seq<int>, called: seq<Call>)
  datatype Call = Call(id: int, at: int)

  function Calls(ids: seq<int>, now: int): (r: seq<Call>) { seq(|ids|, k requires 0 <= k < |ids| => Call(ids[k], now)) }

  function Next(c: Clock, e: Event): Clock {
    match e
    case Tick => Clock(Ticked(c.list), c.now + 1, c.wanted, c.called + Calls(Fires(c.list), c.now + 1))
    case Add(j) =>
      if j <= 0 then Clock(c.list, c.now, c.wanted + [c.now + j], c.called + [Call(|c.wanted|, c.now)])
      else Clock(Insert(c.list, j, |c.wanted|), c.now, c.wanted + [c.now + j], c.called)
  }

  function Play(es: seq<Event>): Clock {
    if es == [] then Clock([], 0, [], []) else Next(Play(es[..|es| - 1]), es[|es| - 1])
  }

  ghost predicate Listed(c: Clock, id: int) { exists k :: 0 <= k < |c.list| && c.list[k].id == id }
  ghost predicate Called(c: Clock, id: int) { exists m :: 0 <= m < |c.called| && c.called[m].id == id }

  predicate NotEarly(c: Clock, m: nat)
    requires m < |c.called|
  {
    0 <= c.called[m].id < |c.wanted| && c.wanted[c.called[m].id] <= c.called[m].at <= c.now
  }

  predicate WillNotBeEarly(c: Clock, k: nat)
    requires k < |c.list|
  {
    0 <= c.list[k].id < |c.wanted| && c.wanted[c.list[k].id] <= c.now + Due(c.list, k)
  }

  ghost predicate Inv(c: Clock) {
    && Positive(c.list)
    && (forall m | 0 <= m < |c.called| :: NotEarly(c, m))
    && (forall k | 0 <= k < |c.list| :: WillNotBeEarly(c, k))
    && (forall m, n | 0 <= m < n < |c.called| :: c.called[m].id != c.called[n].id)
    && (forall k, l | 0 <= k < l < |c.list| :: c.list[k].id != c.list[l].id)
    && (forall k, m | 0 <= k < |c.list| && 0 <= m < |c.called| :: c.list[k].id != c.called[m].id)
    && (forall id | 0 <= id < |c.wanted| :: Listed(c, id) || Called(c, id))
  }

  lemma NowKeeps(c: Clock, j: int)
    requires Inv(c) && j <= 0
    ensures Inv(Next(c, Add(j)))
  {
    var n, id := Next(c, Add(j)), |c.wanted|;
    assert n.called[|c.called|] == Call(id, c.now);
    forall m | 0 <= m < |c.called| ensures n.called[m] == c.called[m] && NotEarly(n, m) && c.called[m].id < id { assert NotEarly(c, m); }
    forall k | 0 <= k < |c.list| ensures WillNotBeEarly(n, k) && c.list[k].id < id { assert WillNotBeEarly(c, k); }
    forall i | 0 <= i < |n.wanted| ensures Listed(n, i) || Called(n, i) {
      if i < id && Called(c, i) {
        var m :| 0 <= m < |c.called| && c.called[m].id == i;
        assert n.called[m].id == i;
      }
    }
  }

  lemma LaterIsNotEarly(c: Clock, j: int, k: nat)
    requires Inv(c) && j > 0 && k <= |c.list|
    ensures var n, p := Next(c, Add(j)), Passed(c.list, j);
            && Positive(n.list) && |n.list| == |c.list| + 1 && WillNotBeEarly(n, k) && n.list[p].id == |c.wanted|
            && (k < p ==> n.list[k] == c.list[k]) && (k > p ==> n.list[k] == c.list[k - 1])
  {
    hide Due, Insert;
    var p := Passed(c.list, j);
    PassedSum(c.list, j);
    InsertDue(c.list, j, |c.wanted|, if k > p then k - 1 else k);
    if k < p { assert WillNotBeEarly(c, k); }
    if k > p { assert WillNotBeEarly(c, k - 1); }
  }

  lemma LaterIsListed(c: Clock, j: int, i: nat)
    requires j > 0 && (i < |c.wanted| ==> Listed(c, i) || Called(c, i)) && i <= |c.wanted|
    ensures Listed(Next(c, Add(j)), i) || Called(Next(c, Add(j)), i)
  {
    var n, p := Next(c, Add(j)), Passed(c.list, j);
    if i == |c.wanted| { assert n.list[p].id == i; } else if Listed(c, i) {
      var k :| 0 <= k < |c.list| && c.list[k].id == i;
      assert n.list[if k < p then k else k + 1].id == i;
    }
  }

  lemma LaterIsDistinct(c: Clock, j: int, k: nat, l: nat)
    requires Inv(c) && j > 0 && k < l <= |c.list| == |Next(c, Add(j)).list| - 1
    ensures Next(c, Add(j)).list[k].id != Next(c, Add(j)).list[l].id
  {
    LaterIsNotEarly(c, j, k);
    LaterIsNotEarly(c, j, l);
    var p := Passed(c.list, j);
    if k < |c.list| { assert WillNotBeEarly(c, k); }
    if l > p { assert WillNotBeEarly(c, l - 1); }
  }

  lemma LaterKeeps(c: Clock, j: int)
    requires Inv(c) && j > 0
    ensures Inv(Next(c, Add(j)))
  {
    var n, id, p := Next(c, Add(j)), |c.wanted|, Passed(c.list, j);
    LaterIsNotEarly(c, j, 0);
    forall k | 0 <= k < |n.list| ensures WillNotBeEarly(n, k) { LaterIsNotEarly(c, j, k); }
    forall m | 0 <= m < |c.called| ensures NotEarly(n, m) && c.called[m].id < id { assert NotEarly(c, m); }
    forall k, l | 0 <= k < l < |n.list| ensures n.list[k].id != n.list[l].id { LaterIsDistinct(c, j, k, l); }
    forall k, m | 0 <= k < |n.list| && 0 <= m < |c.called| ensures n.list[k].id != c.called[m].id {
      LaterIsNotEarly(c, j, k);
    }
    forall i | 0 <= i < |n.wanted| ensures Listed(n, i) || Called(n, i) { LaterIsListed(c, j, i); }
  }

  lemma TickIsListed(c: Clock, i: int)
    requires Listed(c, i) || Called(c, i)
    ensures Listed(Next(c, Tick), i) || Called(Next(c, Tick), i)
  {
    var n, d := Next(c, Tick), |Fires(c.list)|;
    if Listed(c, i) {
      var k :| 0 <= k < |c.list| && c.list[k].id == i;
      if k < d { assert n.called[|c.called|].id == i; } else { assert n.list[k - d].id == i; }
    } else {
      var m :| 0 <= m < |c.called| && c.called[m].id == i;
      assert n.called[m].id == i;
    }
  }

  lemma TickIsNotEarly(c: Clock, m: nat)
    requires Inv(c) && m < |Next(c, Tick).called|
    ensures NotEarly(Next(c, Tick), m)
  {
    if m < |c.called| { assert NotEarly(c, m); } else {
      TickedDue(c.list, 0);
      assert WillNotBeEarly(c, 0);
    }
  }

  lemma TickKeeps(c: Clock)
    requires Inv(c)
    ensures Inv(Next(c, Tick))
  {
    var n, d := Next(c, Tick), |Fires(c.list)|;
    forall m | 0 <= m < |n.called| ensures NotEarly(n, m) { TickIsNotEarly(c, m); }
    forall k | 0 <= k < |n.list| ensures n.list[k].id == c.list[k + d].id && n.list[k].delta > 0 && WillNotBeEarly(n, k) {
      TickedDue(c.list, k + d);
      assert WillNotBeEarly(c, k + d);
    }
    forall i | 0 <= i < |n.wanted| ensures Listed(n, i) || Called(n, i) { TickIsListed(c, i); }
  }

  /** Over any run of add_timer and do_timer no timer is called before its time, none is called twice, and none
      is lost: what is not pending has been called. */
  lemma {:induction false} NeverEarly(es: seq<Event>)
    ensures var c := Play(es);
            && (forall m | 0 <= m < |c.called| :: NotEarly(c, m))
            && (forall m, n | 0 <= m < n < |c.called| :: c.called[m].id != c.called[n].id)
            && (forall id | 0 <= id < |c.wanted| :: Listed(c, id) != Called(c, id))
    ensures Inv(Play(es))
  {
    if es != [] {
      var e := es[|es| - 1];
      NeverEarly(es[..|es| - 1]);
      match e {
        case Tick => TickKeeps(Play(es[..|es| - 1]));
        case Add(j) => if j <= 0 { NowKeeps(Play(es[..|es| - 1]), j); } else { LaterKeeps(Play(es[..|es| - 1]), j); }
      }
    }
  }

  // ---- the list in place ------------------------------------------------------

  /** One entry of timer_list; fn is 0 in a free slot. */
  datatype Slot = Slot(ticks: int, fn: int, next: int)

  /** timer_list and next_timer; nodes are the slots on the list, in order. */
  datatype Chain = Chain(slot: seq<Slot>, first: int, nodes: seq<int>)

  predicate NodeOk(c: Chain, k: nat)
    requires k < |c.nodes|
  {
    && 0 <= c.nodes[k] < |c.slot| && c.slot[c.nodes[k]].fn != 0
    && c.slot[c.nodes[k]].next == if k + 1 < |c.nodes| then c.nodes[k + 1] else NULL
  }

  /** The nodes are distinct slots, linked in order, and a slot is on the list exactly when its fn is set. */
  predicate Linked(c: Chain) {
    && c.first == (if c.nodes == [] then NULL else c.nodes[0])
    && (forall k | 0 <= k < |c.nodes| :: NodeOk(c, k))
    && (forall k, l | 0 <= k < l < |c.nodes| :: c.nodes[k] != c.nodes[l])
    && (forall i | 0 <= i < |c.slot| :: c.slot[i].fn != 0 ==> i in c.nodes)
  }

  function Node(c: Chain, k: nat): Timer
    requires k < |c.nodes| && 0 <= c.nodes[k] < |c.slot|
  {
    Timer(c.slot[c.nodes[k]].ticks, c.slot[c.nodes[k]].fn)
  }

  function Contents(c: Chain): (r: seq<Timer>)
    requires Linked(c)
    ensures |r| == |c.nodes| && forall k | 0 <= k < |c.nodes| :: NodeOk(c, k) && r[k] == Node(c, k)
  {
    seq(|c.nodes|, k requires 0 <= k < |c.nodes| && Linked(c) => assert NodeOk(c, k); Node(c, k))
  }

  function Pushed(c: Chain, p: nat, j: int, f: int): Chain
    requires p < |c.slot|
  {
    Chain(c.slot[p := Slot(j, f, c.first)], p, [p] + c.nodes)
  }

  lemma PushKeeps(c: Chain, p: nat, j: int, f: int)
    requires Linked(c) && p < |c.slot| && c.slot[p].fn == 0 && f != 0
    ensures Linked(Pushed(c, p, j, f)) && Contents(Pushed(c, p, j, f)) == [Timer(j, f)] + Contents(c)
  {
    var d := Pushed(c, p, j, f);
    forall k | 0 <= k < |d.nodes| ensures NodeOk(d, k) && Node(d, k) == ([Timer(j, f)] + Contents(c))[k] {
      if k > 0 { assert NodeOk(c, k - 1) && Contents(c)[k - 1] == Node(c, k - 1); }
    }
    forall k | 0 <= k < |c.nodes| ensures c.nodes[k] != p { assert NodeOk(c, k); }
    forall i | 0 <= i < |d.slot| && d.slot[i].fn != 0 ensures i in d.nodes {
      if i == p { assert d.nodes[0] == i; } else { assert i in c.nodes; }
    }
  }

  function Swapped(c: Chain, p: nat, q: nat): Chain
    requires p < |c.slot| && q < |c.slot|
  {
    var x, y := c.slot[p], c.slot[q];
    c.(slot := c.slot[p := Slot(y.ticks, y.fn, x.next)][q := Slot(x.ticks - y.ticks, x.fn, y.next)])
  }

  lemma SwapKeeps(c: Chain, at: nat)
    requires Linked(c) && at + 1 < |c.nodes|
    ensures NodeOk(c, at) && NodeOk(c, at + 1)
    ensures var d := Swapped(c, c.nodes[at], c.nodes[at + 1]);
            Linked(d) && Contents(d) == Traded(Contents(c), at)
  {
    assert NodeOk(c, at) && NodeOk(c, at + 1);
    var d := Swapped(c, c.nodes[at], c.nodes[at + 1]);
    forall k | 0 <= k < |d.nodes| ensures NodeOk(d, k) && Node(d, k) == Traded(Contents(c), at)[k] {
      assert NodeOk(c, k) && Contents(c)[k] == Node(c, k);
    }
  }

  function Popped(c: Chain): Chain
    requires c.nodes != [] && 0 <= c.first < |c.slot|
  {
    Chain(c.slot[c.first := c.slot[c.first].(fn := 0)], c.slot[c.first].next, c.nodes[1..])
  }

  lemma PopKeeps(c: Chain)
    requires Linked(c) && c.nodes != []
    ensures NodeOk(c, 0) && Linked(Popped(c)) && Contents(Popped(c)) == Contents(c)[1..]
  {
    assert NodeOk(c, 0);
    var d := Popped(c);
    forall k | 0 <= k < |d.nodes| ensures NodeOk(d, k) && Node(d, k) == Contents(c)[k + 1] { assert NodeOk(c, k + 1); }
    forall i | 0 <= i < |d.slot| && d.slot[i].fn != 0 ensures i in d.nodes {
      var k :| 0 <= k < |c.nodes| && c.nodes[k] == i;
      assert d.nodes[k - 1] == i;
    }
  }

  function Lowered(c: Chain): Chain
    requires 0 <= c.first < |c.slot|
  {
    c.(slot := c.slot[c.first := c.slot[c.first].(ticks := c.slot[c.first].ticks - 1)])
  }

  lemma LowerKeeps(c: Chain)
    requires Linked(c) && c.nodes != []
    ensures NodeOk(c, 0) && Linked(Lowered(c))
    ensures var l := Contents(c); Contents(Lowered(c)) == [Timer(l[0].delta - 1, l[0].id)] + l[1..]
  {
    assert NodeOk(c, 0);
    var d, l := Lowered(c), Contents(c);
    forall k | 0 <= k < |d.nodes| ensures NodeOk(d, k) && Node(d, k) == ([Timer(l[0].delta - 1, l[0].id)] + l[1..])[k] {
      assert NodeOk(c, k);
    }
  }

  lemma SomeFree(c: Chain)
    requires Linked(c) && |c.nodes| < |c.slot|
    ensures exists i :: 0 <= i < |c.slot| && c.slot[i].fn == 0
  {
    if forall i | 0 <= i < |c.slot| :: c.slot[i].fn != 0 { Crowded(c.nodes, |c.slot|); }
  }

  class TimerList {
    const slot: array<Slot>
    var first: int
    ghost var nodes: seq<int>

    ghost function Snap(): Chain
      reads this, slot
    {
      Chain(slot[..], first, nodes)
    }

    ghost predicate Valid()
      reads this, slot
    {
      Linked(Snap()) && Positive(Contents(Snap()))
    }

    ghost function List(): seq<Timer>
      requires Valid()
      reads this, slot
    {
      Contents(Snap())
    }

    constructor (n: nat)
      ensures Valid() && slot.Length == n && List() == [] && fresh(slot)
    {
      slot := new Slot[n](_ => Slot(0, 0, NULL));
      first := NULL;
      nodes := [];
    }

    method FreeSlot() returns (p: nat)
      requires Valid() && |nodes| < slot.Length
      ensures p < slot.Length && slot[p].fn == 0
    {
      p := 0;
      SomeFree(Snap());
      while p < slot.Length && slot[p].fn != 0
        invariant p <= slot.Length && forall i | 0 <= i < p :: slot[i].fn != 0
      {
        p := p + 1;
      }
    }

    method Push(jiffies: int, f: int) returns (p: nat)
      requires Valid() && |nodes| < slot.Length && f != 0
      modifies this`first, this`nodes, slot
      ensures Linked(Snap()) && nodes == [p] + old(nodes) && Contents(Snap()) == [Timer(jiffies, f)] + old(List())
    {
      p := FreeSlot();
      PushKeeps(Snap(), p, jiffies, f);
      slot[p] := Slot(jiffies, f, first);
      first := p;
      nodes := [p] + nodes;
      assert Snap() == Pushed(old(Snap()), p, jiffies, f);
    }

    /** One turn of add_timer's loop: slot p and the one behind it trade places, less the ticks passed. */
    method Trade(p: nat) returns (q: nat)
      requires p < slot.Length && 0 <= slot[p].next < slot.Length && slot[p].next != p
      modifies slot
      ensures q == old(slot[p].next) && Snap() == Swapped(old(Snap()), p, q)
    {
      q := slot[p].next;
      slot[p] := slot[p].(ticks := slot[p].ticks - slot[q].ticks);
      slot[p], slot[q] := slot[p].(fn := slot[q].fn), slot[q].(fn := slot[p].fn);
      slot[p], slot[q] := slot[p].(ticks := slot[q].ticks), slot[q].(ticks := slot[p].ticks);
    }

    /** add_timer: the slot taken is put first, then its contents trade places down the list. */
    method AddTimer(jiffies: int, f: int) returns (called: bool)
      requires Valid() && (f != 0 && jiffies > 0 ==> |nodes| < slot.Length)
      modifies this`first, this`nodes, slot
      ensures Valid() && called == (f != 0 && jiffies <= 0)
      ensures List() == if f == 0 || jiffies <= 0 then old(List()) else Insert(old(List()), jiffies, f)
    {
      hide Due, Insert, Passed, Linked, Contents;
      if f == 0 { return false; }
      if jiffies <= 0 { return true; }
      ghost var was, at := List(), 0;
      var p := Push(jiffies, f);
      while slot[p].next != NULL && slot[slot[p].next].ticks < slot[p].ticks
        invariant Linked(Snap()) && at <= |was| && |nodes| == |was| + 1 && nodes[at] == p
        invariant NodeOk(Snap(), at) && (at < |was| ==> NodeOk(Snap(), at + 1))
        invariant Moving(was, jiffies, f, at, Contents(Snap()))
        decreases |was| - at
      {
        MoveOn(was, jiffies, f, at, Contents(Snap()));
        SwapKeeps(Snap(), at);
        p := Trade(p);
        at := at + 1;
      }
      Moved(was, jiffies, f, at, Contents(Snap()));
      InsertDue(was, jiffies, f, 0);
      called := false;
    }

    /** The first timer leaves the list and its slot is free. */
    method Pop() returns (f: int)
      requires nodes != [] && 0 <= first < slot.Length
      modifies this`first, this`nodes, slot
      ensures Snap() == Popped(old(Snap())) && f == old(slot[first].fn)
    {
      f := slot[first].fn;
      slot[first] := slot[first].(fn := 0);
      first := slot[first].next;
      nodes := nodes[1..];
    }

    /** do_timer's loop: calls what is due. */
    method CallDue() returns (ran: seq<int>)
      requires Linked(Snap()) && Positive(Contents(Snap())[if nodes == [] then 0 else 1..])
      modifies this`first, this`nodes, slot
      ensures Linked(Snap())
      ensures var l := old(Contents(Snap()));
              if l != [] && l[0].delta <= 0 then ran == [l[0].id] && Contents(Snap()) == l[1..]
              else ran == [] && Contents(Snap()) == l
    {
      ran := [];
      ghost var l := Contents(Snap());
      ghost var turn := 0;
      FirstDelta(Snap());
      assert forall k | 1 <= k < |l| :: l[k] == l[1..][k - 1];
      while first != NULL && slot[first].ticks <= 0
        invariant forall k | 1 <= k < |l| :: l[k].delta > 0
        invariant Linked(Snap()) && turn <= |l| && Contents(Snap()) == l[turn..]
        invariant nodes != [] ==> 0 <= first < slot.Length && slot[first].ticks == Contents(Snap())[0].delta
        invariant if turn == 0 then ran == [] else turn == 1 && l[0].delta <= 0 && ran == [l[0].id]
        decreases |nodes|
      {
        PopKeeps(Snap());
        FirstDelta(Snap());
        var f := Pop();
        ran := ran + [f];
        turn := turn + 1;
        FirstDelta(Snap());
      }
    }

    /** The list's part of do_timer; ran lists the handlers called. */
    method Tick() returns (ran: seq<int>)
      requires Valid()
      modifies this`first, this`nodes, slot
      ensures Valid()
      ensures List() == Ticked(old(List())) && ran == Fires(old(List()))
    {
      ran := [];
      if first != NULL {
        ghost var was := List();
        LowerKeeps(Snap());
        slot[first] := slot[first].(ticks := slot[first].ticks - 1);
        assert Snap() == Lowered(old(Snap()));
        hide Linked, Contents, Lowered;
        ghost var low := Contents(Snap());
        assert low[1..] == was[1..];
        ran := CallDue();
      }
    }
  }

  lemma FirstDelta(c: Chain)
    requires Linked(c)
    ensures c.nodes == [] <==> c.first == NULL
    ensures c.nodes != [] ==> 0 <= c.first < |c.slot| && Contents(c)[0] == Timer(c.slot[c.first].ticks, c.slot[c.first].fn)
  {
    if c.nodes != [] { assert NodeOk(c, 0); }
  }

  lemma {:induction false} Crowded(nodes: seq<int>, n: nat)
    requires forall i | 0 <= i < n :: i in nodes
    ensures |nodes| >= n
  {
    if n > 0 {
      assert n - 1 in nodes;
      var k :| 0 <= k < |nodes| && nodes[k] == n - 1;
      var rest := nodes[..k] + nodes[k + 1..];
      forall i | 0 <= i < n - 1 ensures i in rest {
        assert i in nodes;
        var l :| 0 <= l < |nodes| && nodes[l] == i;
        assert rest[if l < k then l else l - 1] == i;
      }
      Crowded(rest, n - 1);
    }
  }

  /** The list after one turn of add_timer's loop. */
  function Traded(c: seq<Timer>, at: nat): seq<Timer>
    requires at + 1 < |c|
  {
    c[at := c[at + 1]][at + 1 := Timer(c[at].delta - c[at + 1].delta, c[at].id)]
  }

  /** The new timer has come past the first at timers, and add_timer would not have stopped before. */
  predicate Moving(was: seq<Timer>, j: int, id: int, at: nat, c: seq<Timer>) {
    && at <= |was| && Passed(was, j) == at + Passed(was[at..], j - Sum(was[..at]))
    && c == was[..at] + [Timer(j - Sum(was[..at]), id)] + was[at..]
  }

  lemma MoveOn(was: seq<Timer>, j: int, id: int, at: nat, c: seq<Timer>)
    requires Moving(was, j, id, at, c) && at < |was| && c[at + 1].delta < c[at].delta
    ensures Moving(was, j, id, at + 1, Traded(c, at))
  {
    assert was[at..][1..] == was[at + 1..];
    assert was[..at + 1] == was[..at] + [was[at]];
    SumSplit(was[..at], [was[at]]);
    assert Sum([was[at]]) == was[at].delta + Sum([was[at]][1..]);
    assert Traded(c, at) == was[..at + 1] + [Timer(j - Sum(was[..at + 1]), id)] + was[at + 1..];
  }

  lemma Moved(was: seq<Timer>, j: int, id: int, at: nat, c: seq<Timer>)
    requires Moving(was, j, id, at, c) && (at < |was| ==> c[at + 1].delta >= c[at].delta)
    ensures c == Insert(was, j, id)
  {}

  // ---- the list in place over a run -------------------------------------------

  function Handler(handlers: seq<int>, id: int): int { if 0 <= id < |handlers| then handlers[id] else 0 }

  /** The list with each registration's handler in place of its number. */
  function Named(list: seq<Timer>, handlers: seq<int>): (r: seq<Timer>)
    ensures |r| == |list| && forall k | 0 <= k < |list| :: r[k] == Timer(list[k].delta, Handler(handlers, list[k].id))
  {
    seq(|list|, k requires 0 <= k < |list| => Timer(list[k].delta, Handler(handlers, list[k].id)))
  }

  lemma {:induction false} NamedSum(list: seq<Timer>, handlers: seq<int>)
    ensures Sum(Named(list, handlers)) == Sum(list)
  {
    if list != [] {
      NamedSum(list[1..], handlers);
      assert Named(list, handlers)[1..] == Named(list[1..], handlers);
    }
  }

  lemma {:induction false} NamedPassed(list: seq<Timer>, handlers: seq<int>, j: int)
    ensures Passed(Named(list, handlers), j) == Passed(list, j)
  {
    if list != [] {
      NamedPassed(list[1..], handlers, j - list[0].delta);
      assert Named(list, handlers)[1..] == Named(list[1..], handlers);
    }
  }

  /** Insertion looks at the ticks only. */
  lemma NamedInsert(list: seq<Timer>, handlers: seq<int>, j: int, f: int)
    requires forall k | 0 <= k < |list| :: 0 <= list[k].id < |handlers|
    ensures Insert(Named(list, handlers), j, f) == Named(Insert(list, j, |handlers|), handlers + [f])
  {
    NamedPassed(list, handlers, j);
    var p := Passed(list, j);
    assert Named(list, handlers)[..p] == Named(list[..p], handlers);
    NamedSum(list[..p], handlers);
    var a, b := Insert(Named(list, handlers), j, f), Named(Insert(list, j, |handlers|), handlers + [f]);
    forall k | 0 <= k < |a| ensures a[k] == b[k] {
      if k < p { assert a[k] == Named(list, handlers)[k]; } else if k > p { assert a[k] == Named(list, handlers)[k - 1]; }
    }
  }

  lemma NamedTick(list: seq<Timer>, handlers: seq<int>)
    ensures Ticked(Named(list, handlers)) == Named(Ticked(list), handlers)
    ensures |Fires(Named(list, handlers))| == |Fires(list)|
    ensures forall k | 0 <= k < |Fires(list)| :: Fires(Named(list, handlers))[k] == Handler(handlers, Fires(list)[k])
  {
    var a, b := Ticked(Named(list, handlers)), Named(Ticked(list), handlers);
    var d := |Fires(list)|;
    assert |a| == |b| == |list| - d;
    forall k | 0 <= k < |a| ensures a[k] == b[k] {
      assert Named(list, handlers)[k + d] == Timer(list[k + d].delta, Handler(handlers, list[k + d].id));
    }
  }

  /** The timers of the kernel, with the number of each registration and the calls made so far. */
  class RunningTimers {
    const timers: TimerList
    ghost var clock: Clock
    ghost var handlers: seq<int>

    /** No timer has been called before its time, none twice, and each is pending or has been called. */
    ghost predicate Valid()
      reads this, timers, timers.slot
    {
      timers.Valid() && Inv(clock) && |handlers| == |clock.wanted| && timers.List() == Named(clock.list, handlers)
    }

    constructor (n: nat)
      ensures Valid() && fresh(timers) && fresh(timers.slot) && timers.slot.Length == n && clock == Clock([], 0, [], [])
    {
      timers := new TimerList(n);
      clock, handlers := Clock([], 0, [], []), [];
    }

    method AddTimer(jiffies: int, f: int) returns (called: bool)
      requires Valid() && (f != 0 && jiffies > 0 ==> |timers.nodes| < timers.slot.Length)
      modifies this, timers, timers.slot
      ensures Valid() && called == (f != 0 && jiffies <= 0)
      ensures clock == (if f == 0 then old(clock) else Next(old(clock), Add(jiffies)))
      ensures handlers == (if f == 0 then old(handlers) else old(handlers) + [f])
    {
      called := timers.AddTimer(jiffies, f);
      if f != 0 {
        if jiffies <= 0 { NowKeeps(clock, jiffies); } else { LaterKeeps(clock, jiffies); }
        AllKnown(clock);
        NamedInsert(clock.list, handlers, jiffies, f);
        NamedMore(clock.list, handlers, f);
        clock, handlers := Next(clock, Add(jiffies)), handlers + [f];
      }
    }

    method DoTimer() returns (ran: seq<int>)
      requires Valid()
      modifies this, timers, timers.slot
      ensures Valid() && clock == Next(old(clock), Tick) && handlers == old(handlers)
      ensures ran == Fires(old(timers.List())) && |clock.called| == |old(clock).called| + |ran|
      ensures forall k | 0 <= k < |ran| :: ran[k] == Handler(handlers, clock.called[|old(clock).called| + k].id)
    {
      ran := timers.Tick();
      TickKeeps(clock);
      NamedTick(clock.list, handlers);
      clock := Next(clock, Tick);
    }
  }

  lemma AllKnown(c: Clock)
    requires Inv(c)
    ensures forall k | 0 <= k < |c.list| :: 0 <= c.list[k].id < |c.wanted|
  {
    forall k | 0 <= k < |c.list| ensures 0 <= c.list[k].id < |c.wanted| { assert WillNotBeEarly(c, k); }
  }

  lemma NamedMore(list: seq<Timer>, handlers: seq<int>, f: int)
    requires forall k | 0 <= k < |list| :: 0 <= list[k].id < |handlers|
    ensures Named(list, handlers + [f]) == Named(list, handlers)
  {}
}
