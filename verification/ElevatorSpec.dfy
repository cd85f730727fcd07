/** The order in which kernel/blk_drv serves requests: add_request's insertion and end_request's removal on
    the queue of one device, and why no request waits for ever. */
module ElevatorSpec {
  /** The fields that IN_ORDER compares. */
  datatype Key = Key(cmd: int, dev: int, sector: int)

  predicate InOrder(a: Key, b: Key) {
    a.cmd < b.cmd || (a.cmd == b.cmd && (a.dev < b.dev || (a.dev == b.dev && a.sector < b.sector)))
  }

  /** The loop of add_request stops at k: x goes between k and k + 1. */
  predicate Fits(q: seq<Key>, x: Key, k: nat)
    requires k + 1 < |q|
  {
    (InOrder(q[k], x) || !InOrder(q[k], q[k + 1])) && InOrder(x, q[k + 1])
  }

  /** The place after which add_request inserts x, looking from k on. */
  function Slot(q: seq<Key>, x: Key, k: nat): (p: nat)
    requires k < |q|
    ensures k <= p < |q| && (forall j | k <= j < p :: !Fits(q, x, j)) && (p + 1 < |q| ==> Fits(q, x, p))
    decreases |q| - k
  {
    if k + 1 == |q| || Fits(q, x, k) then k else Slot(q, x, k + 1)
  }

  function Insert(q: seq<Key>, x: Key): seq<Key> {
    if q == [] then [x] else q[..Slot(q, x, 0) + 1] + [x] + q[Slot(q, x, 0) + 1..]
  }

  predicate Descent(q: seq<Key>, i: int) { 0 <= i && i + 1 < |q| && !InOrder(q[i], q[i + 1]) }

  ghost predicate Distinct(q: seq<Key>) { forall i, j | 0 <= i < j < |q| :: q[i] != q[j] }

  /** The rest of the present sweep and, after at most one step down, the whole of the next. */
  ghost predicate TwoSweeps(q: seq<Key>) {
    Distinct(q) && forall i, j | Descent(q, i) && Descent(q, j) :: i == j
  }

  /** Between two positions without a step down the keys ascend. */
  lemma {:induction false} Ascends(q: seq<Key>, i: nat, j: nat)
    requires i < j < |q| && forall k | i <= k < j :: !Descent(q, k)
    ensures InOrder(q[i], q[j])
    decreases j - i
  {
    assert !Descent(q, j - 1);
    if i < j - 1 { Ascends(q, i, j - 1); }
  }

  /** In the sweep that x belongs to, x was not inserted before the end only because it comes after
      everything. */
  lemma {:induction false} PassesAll(q: seq<Key>, x: Key, i: nat, j: nat)
    requires i <= j < |q| && x !in q && (forall k | i <= k < j :: !Descent(q, k)) && InOrder(q[i], x)
    requires forall k | i <= k < j :: !Fits(q, x, k)
    ensures InOrder(q[j], x)
    decreases j - i
  {
    if i < j { PassesAll(q, x, i, j - 1); assert !Descent(q, j - 1) && !Fits(q, x, j - 1); }
  }

  /** If there is a next sweep and x goes to the end, x is the last of that sweep. */
  lemma GoesLast(q: seq<Key>, x: Key, i: nat)
    requires TwoSweeps(q) && x !in q && Descent(q, i) && Slot(q, x, 0) == |q| - 1
    ensures InOrder(q[|q| - 1], x)
  {
    assert !Fits(q, x, i);
    assert q[i + 1] in q;
    PassesAll(q, x, i + 1, |q| - 1);
  }

  /** Where the steps down are after an insertion. */
  lemma InsertDescents(q: seq<Key>, x: Key)
    requires q != [] && x !in q
    ensures var p := Slot(q, x, 0);
            var r := Insert(q, x);
            && r[0] == q[0] && r[p] == q[p] && r[p + 1] == x
            && (forall i | 0 <= i < p :: Descent(r, i) <==> Descent(q, i))
            && (forall i | p + 1 < i :: Descent(r, i) <==> Descent(q, i - 1))
            && (Descent(r, p) <==> !InOrder(q[p], x)) && !Descent(r, p + 1)
  {
    var p := Slot(q, x, 0);
    var r := Insert(q, x);
    assert forall i | 0 <= i <= p :: r[i] == q[i];
    assert forall i | p + 1 < i < |r| :: r[i] == q[i - 1];
  }

  /** The place in q of the step down that is at i once something is inserted after p. */
  function Before(p: int, i: int): int { if i <= p then i else i - 1 }

  lemma StepsDown(q: seq<Key>, x: Key, i: int)
    requires q != [] && x !in q && Descent(Insert(q, x), i)
    ensures var p := Slot(q, x, 0); i != p + 1 && (i != p || p + 1 < |q| ==> Descent(q, Before(p, i)))
  {
    InsertDescents(q, x);
  }

  lemma InsertOneDescent(q: seq<Key>, x: Key, i: int, j: int)
    requires q != [] && TwoSweeps(q) && x !in q && Descent(Insert(q, x), i) && Descent(Insert(q, x), j)
    ensures i == j
  {
    var p := Slot(q, x, 0);
    InsertDescents(q, x);
    StepsDown(q, x, i);
    StepsDown(q, x, j);
    if i == p && j != p && p + 1 == |q| { GoesLast(q, x, Before(p, j)); }
    if j == p && i != p && p + 1 == |q| { GoesLast(q, x, Before(p, i)); }
  }

  lemma InsertDistinct(q: seq<Key>, x: Key)
    requires Distinct(q) && x !in q
    ensures Distinct(Insert(q, x))
  {
  }

  /** add_request keeps at most two sweeps and never displaces the request being served. */
  lemma InsertKeeps(q: seq<Key>, x: Key)
    requires TwoSweeps(q) && x !in q
    ensures TwoSweeps(Insert(q, x))
    ensures q != [] ==> Insert(q, x)[0] == q[0]
  {
    InsertDistinct(q, x);
    if q != [] {
      InsertDescents(q, x);
      forall i, j | Descent(Insert(q, x), i) && Descent(Insert(q, x), j) ensures i == j {
        InsertOneDescent(q, x, i, j);
      }
    }
  }

  /** end_request keeps at most two sweeps. */
  lemma RemoveKeeps(q: seq<Key>)
    requires TwoSweeps(q) && q != []
    ensures TwoSweeps(q[1..])
  {
    assert forall i :: Descent(q[1..], i) ==> Descent(q, i + 1);
  }

  // ----- what the order means for commands and sectors

  /** After the i-th request of a queue the head has to go back: to an earlier command, or for the same command to a lower
      device, or for the same device to a sector that is not higher. */
  predicate GoesBack(q: seq<Key>, i: int) {
    && 0 <= i && i + 1 < |q|
    && (q[i].cmd > q[i + 1].cmd
        || (q[i].cmd == q[i + 1].cmd
            && (q[i].dev > q[i + 1].dev || (q[i].dev == q[i + 1].dev && q[i].sector >= q[i + 1].sector))))
  }

  /** A queue is two sweeps if and only if its requests differ and the head goes back once at most. */
  lemma SweepsAscend(q: seq<Key>)
    ensures TwoSweeps(q) <==> Distinct(q) && forall i, j | GoesBack(q, i) && GoesBack(q, j) :: i == j
  {
    forall i ensures GoesBack(q, i) <==> Descent(q, i) { }
    hide GoesBack, Descent;
  }

  /** A request that the sweep still comes to goes behind those it comes to before, and before the next. */
  lemma {:induction false} JoinsSweep(q: seq<Key>, x: Key, j: nat)
    requires q != [] && x !in q && InOrder(q[0], x) && j <= Slot(q, x, 0)
    ensures InOrder(q[j], x)
    decreases j
  {
    if j > 0 {
      JoinsSweep(q, x, j - 1);
      assert !Fits(q, x, j - 1) && q[j] in q;
    }
  }

  /** Behind a request being served, one for the same device and of the same command at a higher sector is served before
      every one of a later command, and in the order of sectors with those of its own. */
  lemma GoesBeforeLater(q: seq<Key>, x: Key)
    requires q != [] && x !in q && x.cmd == q[0].cmd && x.dev == q[0].dev && x.sector > q[0].sector
    ensures var r, p := Insert(q, x), Slot(q, x, 0) + 1;
            && p < |r| && r[p] == x
            && (forall j | 0 <= j < |r| && r[j].cmd > x.cmd :: p < j)
            && (forall j | 0 <= j < p && r[j].cmd == x.cmd && r[j].dev == x.dev :: r[j].sector < x.sector)
            && (p + 1 < |r| && r[p + 1].cmd == x.cmd && r[p + 1].dev == x.dev ==> x.sector < r[p + 1].sector)
  {
    var r, p := Insert(q, x), Slot(q, x, 0) + 1;
    forall j | 0 <= j < p ensures r[j] == q[j] && InOrder(q[j], x) { JoinsSweep(q, x, j); }
    assert p < |q| ==> r[p + 1] == q[p];
  }

  // ----- no request waits for ever

  datatype Event = Arrive(key: Key) | Complete

  function Next(q: seq<Key>, e: Event): seq<Key>
    requires e.Complete? ==> q != []
  {
    match e
    case Arrive(x) => Insert(q, x)
    case Complete => q[1..]
  }

  /** A run: new requests are for other sectors than the waiting ones; something is served on completion. */
  predicate Possible(q: seq<Key>, events: seq<Event>)
    decreases |events|
  {
    events == [] ||
    ((if events[0].Complete? then q != [] else events[0].key !in q) && Possible(Next(q, events[0]), events[1..]))
  }

  function Play(q: seq<Key>, events: seq<Event>): seq<Key>
    requires Possible(q, events)
    decreases |events|
  {
    if events == [] then q else Play(Next(q, events[0]), events[1..])
  }

  function Completions(events: seq<Event>): nat {
    if events == [] then 0 else (if events[0].Complete? then 1 else 0) + Completions(events[1..])
  }

  /** x waits, and is not the request being served, all through the run. */
  predicate Waits(q: seq<Key>, events: seq<Event>, x: Key)
    requires Possible(q, events)
    decreases |events|
  {
    x in q && q[0] != x && (events != [] ==> Waits(Next(q, events[0]), events[1..], x))
  }

  /** The number of keys of `all` that are served before k in a sweep. */
  ghost function Rank(all: set<Key>, k: Key): nat { |set b | b in all && InOrder(b, k)| }

  lemma RankGrows(all: set<Key>, a: Key, b: Key)
    requires a in all && b in all
    ensures Rank(all, a) < |all|
    ensures InOrder(a, b) ==> Rank(all, a) < Rank(all, b)
  {
    var below := set k | k in all && InOrder(k, a);
    Smaller(below, all, a);
    if InOrder(a, b) { Smaller(below, (set k | k in all && InOrder(k, b)), a); }
  }

  lemma Smaller(s: set<Key>, t: set<Key>, x: Key)
    requires s <= t && x in t && x !in s
    ensures |s| < |t|
  {
    assert t == s + (t - s);
    assert x in t - s;
  }

  function IndexOf(q: seq<Key>, x: Key): (i: nat)
    requires x in q
    ensures i < |q| && q[i] == x
  {
    if q[0] == x then 0 else 1 + IndexOf(q[1..], x)
  }

  lemma {:induction false} IndexIs(q: seq<Key>, x: Key, i: nat)
    requires i < |q| && q[i] == x && Distinct(q)
    ensures IndexOf(q, x) == i
  {
  }

  /** x will be served in the present sweep. */
  predicate ThisSweep(q: seq<Key>, i: nat) { forall j | 0 <= j < i :: !Descent(q, j) }

  /** How far the sweep still has to go, in keys, before it comes to x. */
  ghost function Distance(all: set<Key>, q: seq<Key>, x: Key): int
    requires x in q
  {
    Rank(all, x) - Rank(all, q[0]) + if ThisSweep(q, IndexOf(q, x)) then 0 else |all|
  }

  lemma DistanceBound(all: set<Key>, q: seq<Key>, x: Key)
    requires TwoSweeps(q) && x in q && q[0] != x && forall k | k in q :: k in all
    ensures 1 <= Distance(all, q, x) <= 2 * |all| - 1
  {
    RankGrows(all, q[0], x);
    RankGrows(all, x, x);
    if ThisSweep(q, IndexOf(q, x)) { Ascends(q, 0, IndexOf(q, x)); }
  }

  /** A new request does not move the sweep away from x, wherever it goes. */
  lemma ArrivalIsFair(all: set<Key>, q: seq<Key>, x: Key, y: Key)
    requires TwoSweeps(q) && x in q && y !in q
    ensures x in Insert(q, y) && Distance(all, Insert(q, y), x) == Distance(all, q, x)
  {
    var p, i, r := Slot(q, y, 0), IndexOf(q, x), Insert(q, y);
    InsertDescents(q, y);
    InsertDistinct(q, y);
    var i' := if i <= p then i else i + 1;
    assert r[i'] == x;
    IndexIs(r, x, i');
    if i > p {
      assert Descent(r, p) <==> Descent(q, p);
      SweepMoves(q, r, p, i);
    }
  }

  /** A key put in at p + 1 with no new descent leaves the sweep of a later one as it is. */
  lemma SweepMoves(q: seq<Key>, r: seq<Key>, p: nat, i: nat)
    requires p < i < |q| && |r| == |q| + 1
    requires forall j | 0 <= j <= p :: Descent(r, j) <==> Descent(q, j)
    requires !Descent(r, p + 1) && forall j | p + 1 < j :: Descent(r, j) <==> Descent(q, j - 1)
    ensures ThisSweep(r, i + 1) <==> ThisSweep(q, i)
  {
    hide Descent;
    if ThisSweep(r, i + 1) {
      forall j | 0 <= j < i ensures !Descent(q, j) { assert if j <= p then !Descent(r, j) else !Descent(r, j + 1); }
    }
    if ThisSweep(q, i) {
      forall j | 0 <= j < i + 1 ensures !Descent(r, j) {
        assert j > p + 1 ==> !Descent(q, j - 1);
        assert j <= p ==> !Descent(q, j);
      }
    }
  }

  /** A completion brings the sweep nearer to x. */
  lemma CompletionIsProgress(all: set<Key>, q: seq<Key>, x: Key)
    requires TwoSweeps(q) && x in q && q[0] != x && forall k | k in q :: k in all
    ensures x in q[1..] && Distance(all, q[1..], x) < Distance(all, q, x)
  {
    var r, i := q[1..], IndexOf(q, x);
    RemoveKeeps(q);
    IndexIs(r, x, i - 1);
    RankGrows(all, q[0], q[1]);
    assert forall j | 0 <= j :: Descent(r, j) <==> Descent(q, j + 1);
    if Descent(q, 0) {
      assert ThisSweep(r, i - 1);
    } else if ThisSweep(r, i - 1) {
      forall j | 0 <= j < i ensures !Descent(q, j) { if j > 0 { assert !Descent(r, j - 1); } }
    }
  }

  /** While x waits, each completion brings the sweep nearer and no arrival takes it back. */
  lemma {:induction false} WaitIsPaid(all: set<Key>, q: seq<Key>, events: seq<Event>, x: Key)
    requires TwoSweeps(q) && Possible(q, events) && Waits(q, events, x)
    requires forall k | k in q :: k in all
    requires forall e | e in events && e.Arrive? :: e.key in all
    ensures Completions(events) < Distance(all, q, x)
    decreases |events|
  {
    if events == [] {
      DistanceBound(all, q, x);
    } else {
      assert events[0] in events;
      StepIsPaid(all, q, events[0], x);
      hide Distance, TwoSweeps;
      WaitIsPaid(all, Next(q, events[0]), events[1..], x);
    }
  }

  lemma StepIsPaid(all: set<Key>, q: seq<Key>, e: Event, x: Key)
    requires TwoSweeps(q) && x in q && q[0] != x && (e.Arrive? ==> e.key !in q && e.key in all) && forall k | k in q :: k in all
    ensures TwoSweeps(Next(q, e)) && x in Next(q, e) && forall k | k in Next(q, e) :: k in all
    ensures Distance(all, Next(q, e), x) + (if e.Complete? then 1 else 0) <= Distance(all, q, x)
  {
    match e {
      case Arrive(y) => InsertKeeps(q, y); ArrivalIsFair(all, q, x, y);
      case Complete => RemoveKeeps(q); CompletionIsProgress(all, q, x);
    }
  }

  /** No starvation: on a device with |all| possible requests, whatever arrives, a request that is queued
      is being served after fewer than 2 * |all| completions. */
  lemma NoStarvation(all: set<Key>, q: seq<Key>, events: seq<Event>, x: Key)
    requires TwoSweeps(q) && Possible(q, events) && Waits(q, events, x)
    requires forall k | k in q :: k in all
    requires forall e | e in events && e.Arrive? :: e.key in all
    ensures Completions(events) + 1 < 2 * |all|
  {
    WaitIsPaid(all, q, events, x);
    DistanceBound(all, q, x);
  }
}
