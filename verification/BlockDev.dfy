/** The request table, the per-device queues threaded through it and the buffer locks of
    kernel/blk_drv/ll_rw_blk.c and blk.h.  A pointer into the request table is an index, NULL is -1. */
module BlockDev {
  import opened ElevatorSpec

  const NR_BLK_DEV: nat := 7
  const READ: int := 0
  const WRITE: int := 1
  const READA: int := 2
  const WRITEA: int := 3
  const NULL: int := -1

  /** A slot of the request table; dev is -1 in a free one. */
  datatype Request = Request(dev: int, cmd: int, sector: int, bh: int, next: int)

  datatype Buffer = Buffer(dev: int, block: int, lock: bool, dirt: bool, uptodate: bool)

  /** Queued; nothing to do; or the caller has to sleep and try again, with the buffer locked or not. */
  datatype Answer = Queued(started: bool) | Nothing | SleepOnBuffer | SleepOnRequests

  function Major(dev: int): int { dev / 256 }

  function KeyOf(r: Request): Key { Key(r.cmd, r.dev, r.sector) }

  predicate InTable(slots: seq<Request>, list: seq<int>) { forall k | 0 <= k < |list| :: 0 <= list[k] < |slots| }

  function Keys(slots: seq<Request>, list: seq<int>): (q: seq<Key>)
    requires InTable(slots, list)
    ensures |q| == |list| && forall k | 0 <= k < |list| :: q[k] == KeyOf(slots[list[k]])
  {
    seq(|list|, k requires 0 <= k < |list| => KeyOf(slots[list[k]]))
  }

  function NextIn(list: seq<int>, k: int): int { if 0 <= k && k + 1 < |list| then list[k + 1] else NULL }

  /** The queue that starts at `head` is `list`. */
  ghost predicate Chain(slots: seq<Request>, head: int, list: seq<int>) {
    && InTable(slots, list)
    && (forall k, l | 0 <= k < l < |list| :: list[k] != list[l])
    && head == (if list == [] then NULL else list[0])
    && forall k | 0 <= k < |list| :: slots[list[k]].next == NextIn(list, k)
  }

  /** A pending request has its block's buffer locked to itself. */
  ghost predicate Pending(slots: seq<Request>, bufs: seq<Buffer>, i: int)
    requires 0 <= i < |slots|
  {
    var r := slots[i];
    && 0 <= Major(r.dev) < NR_BLK_DEV && (r.cmd == READ || r.cmd == WRITE)
    && 0 <= r.bh < |bufs| && bufs[r.bh].lock && bufs[r.bh].dev == r.dev && r.sector == 2 * bufs[r.bh].block
    && (r.cmd == WRITE ==> i < |slots| * 2 / 3)
    && forall j | 0 <= j < |slots| && j != i && slots[j].dev >= 0 :: slots[j].bh != r.bh
  }

  /** No two buffers hold the same block. */
  ghost predicate Unique(bufs: seq<Buffer>) {
    forall b, c | 0 <= b < c < |bufs| && bufs[b].dev == bufs[c].dev != 0 :: bufs[b].block != bufs[c].block
  }

  /** The request table, the heads of the queues, the queues themselves, and the buffers. */
  datatype Table = Table(slots: seq<Request>, current: seq<int>, lists: seq<seq<int>>, bufs: seq<Buffer>)

  predicate Busy(t: Table, i: int) { 0 <= i < |t.slots| && t.slots[i].dev >= 0 }

  /** The queue of device m holds exactly its pending requests, in at most two sweeps. */
  ghost predicate QueueOk(t: Table, m: int) {
    && 0 <= m < |t.lists| && m < |t.current|
    && Chain(t.slots, t.current[m], t.lists[m]) && TwoSweeps(Keys(t.slots, t.lists[m]))
    && forall i :: i in t.lists[m] <==> Busy(t, i) && Major(t.slots[i].dev) == m
  }

  ghost predicate Inv(t: Table) {
    && |t.current| == |t.lists| == NR_BLK_DEV && Unique(t.bufs)
    && (forall i | Busy(t, i) :: Pending(t.slots, t.bufs, i))
    && forall m | 0 <= m < NR_BLK_DEV :: QueueOk(t, m)
  }

  /** The place the loop of add_request stops at is the specified one. */
  lemma {:induction false} SlotIs(q: seq<Key>, x: Key, k: nat, from: nat)
    requires from <= k < |q| && (forall j | from <= j < k :: !Fits(q, x, j)) && (k + 1 == |q| || Fits(q, x, k))
    ensures Slot(q, x, from) == k
    decreases k - from
  {
    if from < k { SlotIs(q, x, k, from + 1); }
  }

  function Spliced(list: seq<int>, k: nat, i: int): seq<int>
    requires k < |list|
  {
    list[..k + 1] + [i] + list[k + 1..]
  }

  /** Slot i linked in after the k-th slot of a queue. */
  function Splice(slots: seq<Request>, list: seq<int>, k: nat, i: nat): seq<Request>
    requires InTable(slots, list) && k < |list| && i < |slots|
  {
    slots[i := slots[i].(next := slots[list[k]].next)][list[k] := slots[list[k]].(next := i)]
  }

  lemma SpliceKeeps(slots: seq<Request>, head: int, list: seq<int>, k: nat, i: nat)
    requires Chain(slots, head, list) && i < |slots| && i !in list && k < |list|
    ensures Chain(Splice(slots, list, k, i), head, Spliced(list, k, i))
  {
    var l, s := Spliced(list, k, i), Splice(slots, list, k, i);
    SplicedAt(list, k, i);
    forall j | 0 <= j < |l| ensures 0 <= l[j] < |s| && s[l[j]].next == NextIn(l, j) {
      if j < k {
        assert list[j] != list[k] && slots[list[j]].next == NextIn(list, j);
      } else if j > k + 1 {
        assert list[j - 1] != list[k] && slots[list[j - 1]].next == NextIn(list, j - 1);
      } else {
        assert slots[list[k]].next == NextIn(list, k);
      }
    }
    forall j, j' | 0 <= j < j' < |l| ensures l[j] != l[j'] {
      if j' <= k { assert list[j] != list[j']; }
      if j < k + 1 < j' { assert list[j] != list[j' - 1]; }
      if k + 1 < j { assert list[j - 1] != list[j' - 1]; }
    }
  }

  lemma SplicedAt(list: seq<int>, k: nat, i: int)
    requires k < |list|
    ensures |Spliced(list, k, i)| == |list| + 1
    ensures forall j | 0 <= j <= |list| ::
              Spliced(list, k, i)[j] == if j <= k then list[j] else if j == k + 1 then i else list[j - 1]
  {
  }

  lemma SplicedHas(list: seq<int>, k: nat, i: int, j: int)
    requires k < |list|
    ensures j in Spliced(list, k, i) <==> j == i || j in list
  {
    assert list == list[..k + 1] + list[k + 1..];
  }

  predicate SameRequest(a: Request, b: Request) { a.dev == b.dev && a.cmd == b.cmd && a.sector == b.sector && a.bh == b.bh }

  /** add_request's insertion is the elevator's. */
  lemma SpliceInserts(slots: seq<Request>, list: seq<int>, k: nat, i: nat)
    requires InTable(slots, list) && i < |slots| && k < |list|
    requires k == Slot(Keys(slots, list), KeyOf(slots[i]), 0)
    ensures InTable(Splice(slots, list, k, i), Spliced(list, k, i))
    ensures Keys(Splice(slots, list, k, i), Spliced(list, k, i)) == Insert(Keys(slots, list), KeyOf(slots[i]))
  {
    hide SameRequest;
    var l, s, q := Spliced(list, k, i), Splice(slots, list, k, i), Keys(slots, list);
    SplicedAt(list, k, i);
    forall j | 0 <= j < |slots| ensures KeyOf(s[j]) == KeyOf(slots[j]) { }
    assert Keys(s, l) == q[..k + 1] + [KeyOf(slots[i])] + q[k + 1..];
  }

  /** The slots and the queue after add_request. */
  function AddedList(slots: seq<Request>, list: seq<int>, i: nat): seq<int>
    requires InTable(slots, list) && i < |slots|
  {
    if list == [] then [i] else Spliced(list, Slot(Keys(slots, list), KeyOf(slots[i]), 0), i)
  }

  function AddedSlots(slots: seq<Request>, list: seq<int>, i: nat): seq<Request>
    requires InTable(slots, list) && i < |slots|
  {
    if list == [] then slots[i := slots[i].(next := NULL)]
    else Splice(slots, list, Slot(Keys(slots, list), KeyOf(slots[i]), 0), i)
  }

  lemma AddedChain(slots: seq<Request>, head: int, list: seq<int>, i: nat)
    requires Chain(slots, head, list) && i < |slots| && i !in list
    ensures var l, s := AddedList(slots, list, i), AddedSlots(slots, list, i);
            l != [] && (list != [] ==> l[0] == head) && Chain(s, l[0], l)
            && Keys(s, l) == Insert(Keys(slots, list), KeyOf(slots[i]))
  {
    if list != [] {
      var k := Slot(Keys(slots, list), KeyOf(slots[i]), 0);
      SpliceKeeps(slots, head, list, k, i);
      SpliceInserts(slots, list, k, i);
      SplicedAt(list, k, i);
    }
  }

  lemma AddedHas(slots: seq<Request>, list: seq<int>, i: nat, j: int)
    requires InTable(slots, list) && i < |slots|
    ensures j in AddedList(slots, list, i) <==> j == i || j in list
    ensures |AddedSlots(slots, list, i)| == |slots|
    ensures 0 <= j < |slots| ==> SameRequest(AddedSlots(slots, list, i)[j], slots[j])
    ensures 0 <= j < |slots| && j != i && j !in list ==> AddedSlots(slots, list, i)[j] == slots[j]
  {
    if list != [] { SplicedHas(list, Slot(Keys(slots, list), KeyOf(slots[i]), 0), i, j); }
  }

  /** A request that may be put into slot i of the table. */
  ghost predicate Fresh(t: Table, i: nat, r: Request) {
    && i < |t.slots| && t.slots[i].dev < 0 && 0 < r.dev && 0 <= Major(r.dev) < NR_BLK_DEV
    && (r.cmd == READ || (r.cmd == WRITE && i < |t.slots| * 2 / 3))
    && 0 <= r.bh < |t.bufs| && t.bufs[r.bh].lock && t.bufs[r.bh].dev == r.dev && r.sector == 2 * t.bufs[r.bh].block
    && forall j | Busy(t, j) :: t.slots[j].bh != r.bh
  }

  /** The request is filled in and queued. */
  function Enqueue(t: Table, i: nat, r: Request): Table
    requires i < |t.slots| && 0 <= Major(r.dev) < |t.lists| == |t.current| && 0 <= r.bh < |t.bufs|
    requires InTable(t.slots, t.lists[Major(r.dev)])
  {
    var m, s := Major(r.dev), t.slots[i := r];
    var l := AddedList(s, t.lists[m], i);
    Table(AddedSlots(s, t.lists[m], i), t.current[m := l[0]], t.lists[m := l], t.bufs[r.bh := t.bufs[r.bh].(dirt := false)])
  }

  /** Filling a free slot leaves every queue as it is. */
  lemma FilledChain(slots: seq<Request>, head: int, list: seq<int>, i: nat, r: Request)
    requires Chain(slots, head, list) && i < |slots| && i !in list
    ensures Chain(slots[i := r], head, list) && Keys(slots[i := r], list) == Keys(slots, list)
  {
    forall k | 0 <= k < |list| ensures list[k] != i { assert list[k] in list; }
  }

  /** Locked buffers make pending requests distinct. */
  lemma KeyIsNew(t: Table, i: nat, r: Request)
    requires Inv(t) && Fresh(t, i, r)
    ensures InTable(t.slots, t.lists[Major(r.dev)])
    ensures i !in t.lists[Major(r.dev)] && KeyOf(r) !in Keys(t.slots, t.lists[Major(r.dev)])
  {
    assert QueueOk(t, Major(r.dev));
    var list := t.lists[Major(r.dev)];
    forall k | 0 <= k < |list| ensures KeyOf(t.slots[list[k]]) != KeyOf(r) {
      assert list[k] in list;
      assert Busy(t, list[k]) && Pending(t.slots, t.bufs, list[k]);
    }
  }

  /** The slots after queueing: the new one filled in, the others changed in their links at most. */
  lemma EnqueueSlots(t: Table, i: nat, r: Request, j: int)
    requires Inv(t) && Fresh(t, i, r)
    ensures QueueOk(t, Major(r.dev))
    ensures var t' := Enqueue(t, i, r);
            && |t'.slots| == |t.slots| && (0 <= j < |t.slots| ==> SameRequest(t'.slots[j], if j == i then r else t.slots[j]))
            && (0 <= j < |t.slots| && j != i && j !in t.lists[Major(r.dev)] ==> t'.slots[j] == t.slots[j])
            && (j in t'.lists[Major(r.dev)] <==> j == i || j in t.lists[Major(r.dev)])
  {
    assert QueueOk(t, Major(r.dev));
    AddedHas(t.slots[i := r], t.lists[Major(r.dev)], i, j);
  }

  /** With the slots as filled in, what is busy is a pending request. */
  lemma FilledPending(t: Table, slots: seq<Request>, bufs: seq<Buffer>, i: nat, r: Request, j: int)
    requires Inv(t) && Fresh(t, i, r) && |slots| == |t.slots| && bufs == t.bufs[r.bh := t.bufs[r.bh].(dirt := false)]
    requires forall k | 0 <= k < |slots| :: SameRequest(slots[k], if k == i then r else t.slots[k])
    requires 0 <= j < |slots| && slots[j].dev >= 0
    ensures Pending(slots, bufs, j)
  {
    hide QueueOk, Unique;
    assert SameRequest(slots[j], if j == i then r else t.slots[j]);
    if j != i { assert Busy(t, j) && Pending(t.slots, t.bufs, j); }
  }

  lemma EnqueuePending(t: Table, i: nat, r: Request, j: int)
    requires Inv(t) && Fresh(t, i, r)
    ensures QueueOk(t, Major(r.dev))
    ensures Busy(Enqueue(t, i, r), j) ==> Pending(Enqueue(t, i, r).slots, Enqueue(t, i, r).bufs, j)
  {
    assert QueueOk(t, Major(r.dev));
    var t' := Enqueue(t, i, r);
    forall k | 0 <= k < |t.slots| ensures SameRequest(t'.slots[k], if k == i then r else t.slots[k]) {
      EnqueueSlots(t, i, r, k);
    }
    EnqueueSlots(t, i, r, 0);
    if Busy(t', j) { FilledPending(t, t'.slots, t'.bufs, i, r, j); }
    hide Pending, SameRequest, QueueOk, Inv;
  }

  /** The queue of the device gets the request where the elevator puts it. */
  lemma EnqueueHere(t: Table, i: nat, r: Request)
    requires Inv(t) && Fresh(t, i, r)
    ensures QueueOk(t, Major(r.dev)) && QueueOk(Enqueue(t, i, r), Major(r.dev))
    ensures Keys(Enqueue(t, i, r).slots, Enqueue(t, i, r).lists[Major(r.dev)])
            == Insert(Keys(t.slots, t.lists[Major(r.dev)]), KeyOf(r))
  {
    var m, s := Major(r.dev), t.slots[i := r];
    assert QueueOk(t, m);
    var t' := Enqueue(t, i, r);
    KeyIsNew(t, i, r);
    FilledChain(t.slots, t.current[m], t.lists[m], i, r);
    AddedChain(s, t.current[m], t.lists[m], i);
    InsertKeeps(Keys(t.slots, t.lists[m]), KeyOf(r));
    forall j ensures j in t'.lists[m] <==> Busy(t', j) && Major(t'.slots[j].dev) == m { EnqueueSlots(t, i, r, j); }
  }

  /** The other queues stay as they are. */
  lemma EnqueueElsewhere(t: Table, i: nat, r: Request, m: nat)
    requires Inv(t) && Fresh(t, i, r) && m < NR_BLK_DEV && m != Major(r.dev)
    ensures QueueOk(t, Major(r.dev)) && QueueOk(t, m) && QueueOk(Enqueue(t, i, r), m)
    ensures Keys(Enqueue(t, i, r).slots, t.lists[m]) == Keys(t.slots, t.lists[m])
  {
    assert QueueOk(t, m) && QueueOk(t, Major(r.dev));
    var t' := Enqueue(t, i, r);
    EnqueueSlots(t, i, r, 0);
    forall k | 0 <= k < |t.lists[m]| ensures t'.slots[t.lists[m][k]] == t.slots[t.lists[m][k]] {
      assert t.lists[m][k] in t.lists[m];
      EnqueueSlots(t, i, r, t.lists[m][k]);
    }
    assert Keys(t'.slots, t.lists[m]) == Keys(t.slots, t.lists[m]);
    forall j ensures j in t'.lists[m] <==> Busy(t', j) && Major(t'.slots[j].dev) == m { EnqueueSlots(t, i, r, j); }
  }

  /** Queueing a request keeps the invariant. */
  lemma EnqueueKeeps(t: Table, i: nat, r: Request)
    requires Inv(t) && Fresh(t, i, r)
    ensures QueueOk(t, Major(r.dev)) && Inv(Enqueue(t, i, r))
  {
    assert QueueOk(t, Major(r.dev));
    var t' := Enqueue(t, i, r);
    forall j | Busy(t', j) ensures Pending(t'.slots, t'.bufs, j) { EnqueuePending(t, i, r, j); }
    forall m | 0 <= m < NR_BLK_DEV ensures QueueOk(t', m) {
      if m == Major(r.dev) { EnqueueHere(t, i, r); } else { EnqueueElsewhere(t, i, r, m); }
    }
  }

  /** A buffer without a pending request may be locked and unlocked. */
  lemma Unlocked(t: Table, b: nat)
    requires Inv(t) && b < |t.bufs| && forall j | Busy(t, j) :: t.slots[j].bh != b
    ensures forall lock: bool :: Inv(t.(bufs := t.bufs[b := t.bufs[b].(lock := lock)]))
  {
    forall lock: bool ensures Inv(t.(bufs := t.bufs[b := t.bufs[b].(lock := lock)])) {
      var t' := t.(bufs := t.bufs[b := t.bufs[b].(lock := lock)]);
      forall j | Busy(t', j) ensures Pending(t'.slots, t'.bufs, j) { assert Busy(t, j) && Pending(t.slots, t.bufs, j); }
      forall m | 0 <= m < NR_BLK_DEV ensures QueueOk(t', m) {
        assert QueueOk(t, m);
        assert forall i :: Busy(t', i) <==> Busy(t, i);
      }
    }
  }

  /** A task sleeps in make_request until a slot is free: it holds the lock of buffer b, which no request is pending for. */
  ghost predicate WaitsForSlot(t: Table, b: nat) {
    b < |t.bufs| && t.bufs[b].lock && forall j | Busy(t, j) :: t.slots[j].bh != b
  }

  /** Queueing another buffer's request leaves it waiting. */
  lemma EnqueueWaits(t: Table, i: nat, r: Request, b: nat)
    requires Inv(t) && Fresh(t, i, r) && WaitsForSlot(t, b) && b != r.bh
    ensures QueueOk(t, Major(r.dev)) && WaitsForSlot(Enqueue(t, i, r), b)
  {
    assert QueueOk(t, Major(r.dev));
    var t' := Enqueue(t, i, r);
    EnqueueSlots(t, i, r, 0);
    forall j | Busy(t', j) ensures t'.slots[j].bh != b { EnqueueSlots(t, i, r, j); assert j != i ==> Busy(t, j); }
  }

  /** So does a completion, whose buffer is another one. */
  lemma DequeueWaits(t: Table, m: nat, uptodate: bool, b: nat)
    requires Inv(t) && m < NR_BLK_DEV && QueueOk(t, m) && t.lists[m] != [] && WaitsForSlot(t, b)
    requires 0 <= t.lists[m][0] < |t.slots| && Pending(t.slots, t.bufs, t.lists[m][0])
    ensures WaitsForSlot(Dequeue(t, m, uptodate), b)
  {
    var t' := Dequeue(t, m, uptodate);
    assert t.lists[m][0] in t.lists[m] && Busy(t, t.lists[m][0]);
    forall j | Busy(t', j) ensures t'.slots[j].bh != b { assert Busy(t, j); }
  }

  /** A slot is free that the request may take: a write only one of the first two thirds. */
  predicate Room(slots: seq<Request>, command: int) {
    exists j :: 0 <= j < (if command % 2 == WRITE then |slots| * 2 / 3 else |slots|) && slots[j].dev < 0
  }

  /** Whether the request has any work to do. */
  predicate Needed(command: int, b: Buffer) { if command % 2 == WRITE then b.dirt else !b.uptodate }

  /** Only a buffer that is not up to date need be read, ahead or not, and only a dirty one written. */
  lemma NeededIs(b: Buffer)
    ensures (Needed(READ, b) <==> !b.uptodate) && (Needed(READA, b) <==> !b.uptodate)
    ensures (Needed(WRITE, b) <==> b.dirt) && (Needed(WRITEA, b) <==> b.dirt)
  {}

  /** The first request of a device's queue is over. */
  function Dequeue(t: Table, m: nat, uptodate: bool): Table
    requires m < |t.lists| == |t.current| && t.lists[m] != [] && 0 <= t.lists[m][0] < |t.slots|
    requires 0 <= t.slots[t.lists[m][0]].bh < |t.bufs|
  {
    var i := t.lists[m][0];
    var b := t.slots[i].bh;
    Table(t.slots[i := t.slots[i].(dev := -1)], t.current[m := t.slots[i].next], t.lists[m := t.lists[m][1..]],
          t.bufs[b := t.bufs[b].(lock := false, uptodate := uptodate)])
  }

  lemma HeadIsPending(t: Table, m: nat)
    requires Inv(t) && m < NR_BLK_DEV && QueueOk(t, m) && t.lists[m] != []
    ensures 0 <= t.lists[m][0] < |t.slots| && Pending(t.slots, t.bufs, t.lists[m][0]) && Major(t.slots[t.lists[m][0]].dev) == m
  {
    assert t.lists[m][0] in t.lists[m] && Busy(t, t.lists[m][0]);
  }

  lemma DequeuePending(t: Table, m: nat, uptodate: bool, j: int)
    requires Inv(t) && m < NR_BLK_DEV && QueueOk(t, m) && t.lists[m] != []
    ensures 0 <= t.lists[m][0] < |t.slots| && 0 <= t.slots[t.lists[m][0]].bh < |t.bufs|
    ensures Busy(Dequeue(t, m, uptodate), j) ==>
              Pending(Dequeue(t, m, uptodate).slots, Dequeue(t, m, uptodate).bufs, j)
  {
    HeadIsPending(t, m);
    if Busy(Dequeue(t, m, uptodate), j) { assert Busy(t, j) && Pending(t.slots, t.bufs, j); }
  }

  /** The rest of a queue once its first slot is marked free. */
  lemma ChainTail(slots: seq<Request>, head: int, list: seq<int>)
    requires Chain(slots, head, list) && list != []
    ensures var s := slots[list[0] := slots[list[0]].(dev := -1)];
            && Chain(s, slots[list[0]].next, list[1..]) && Keys(s, list[1..]) == Keys(slots, list)[1..]
            && list[0] !in list[1..]
  {
    var s, l := slots[list[0] := slots[list[0]].(dev := -1)], list[1..];
    assert slots[list[0]].next == NextIn(list, 0);
    forall k | 0 <= k < |l| ensures l[k] != list[0] && s[l[k]].next == NextIn(l, k) {
      assert list[0] != list[k + 1] && slots[list[k + 1]].next == NextIn(list, k + 1);
    }
  }

  lemma DequeueHere(t: Table, m: nat, uptodate: bool)
    requires Inv(t) && m < NR_BLK_DEV && QueueOk(t, m) && t.lists[m] != []
    ensures 0 <= t.lists[m][0] < |t.slots| && 0 <= t.slots[t.lists[m][0]].bh < |t.bufs|
    ensures QueueOk(Dequeue(t, m, uptodate), m)
    ensures Keys(Dequeue(t, m, uptodate).slots, t.lists[m][1..]) == Keys(t.slots, t.lists[m])[1..]
  {
    HeadIsPending(t, m);
    var t', l := Dequeue(t, m, uptodate), t.lists[m];
    ChainTail(t.slots, t.current[m], l);
    RemoveKeeps(Keys(t.slots, l));
    forall j ensures j in t'.lists[m] <==> Busy(t', j) && Major(t'.slots[j].dev) == m {
      assert j in l <==> Busy(t, j) && Major(t.slots[j].dev) == m;
      assert j in l <==> j == l[0] || j in l[1..];
    }
  }

  lemma DequeueElsewhere(t: Table, m: nat, uptodate: bool, m': nat)
    requires Inv(t) && m < NR_BLK_DEV && QueueOk(t, m) && t.lists[m] != [] && m' < NR_BLK_DEV && m' != m
    ensures 0 <= t.lists[m][0] < |t.slots| && 0 <= t.slots[t.lists[m][0]].bh < |t.bufs|
    ensures QueueOk(t, m') && QueueOk(Dequeue(t, m, uptodate), m')
    ensures Keys(Dequeue(t, m, uptodate).slots, t.lists[m']) == Keys(t.slots, t.lists[m'])
  {
    HeadIsPending(t, m);
    assert QueueOk(t, m');
    var t', l := Dequeue(t, m, uptodate), t.lists[m'];
    forall k | 0 <= k < |l| ensures t'.slots[l[k]] == t.slots[l[k]] { assert l[k] in l; }
    assert Keys(t'.slots, l) == Keys(t.slots, l);
    forall j ensures j in l <==> Busy(t', j) && Major(t'.slots[j].dev) == m' {
      assert j in l <==> Busy(t, j) && Major(t.slots[j].dev) == m';
    }
  }

  /** A completion keeps the invariant and takes the first request off its queue. */
  lemma DequeueKeeps(t: Table, m: nat, uptodate: bool)
    requires Inv(t) && m < NR_BLK_DEV && QueueOk(t, m) && t.lists[m] != []
    ensures 0 <= t.lists[m][0] < |t.slots| && 0 <= t.slots[t.lists[m][0]].bh < |t.bufs|
    ensures Inv(Dequeue(t, m, uptodate))
    ensures Keys(Dequeue(t, m, uptodate).slots, t.lists[m][1..]) == Keys(t.slots, t.lists[m])[1..]
  {
    HeadIsPending(t, m);
    DequeueHere(t, m, uptodate);
    var t' := Dequeue(t, m, uptodate);
    forall j | Busy(t', j) ensures Pending(t'.slots, t'.bufs, j) { DequeuePending(t, m, uptodate, j); }
    forall m' | 0 <= m' < NR_BLK_DEV ensures QueueOk(t', m') { if m' != m { DequeueElsewhere(t, m, uptodate, m'); } }
  }

  /** What queueing a request does to all queues and sleepers. */
  lemma EnqueueAll(t: Table, i: nat, r: Request)
    requires Inv(t) && Fresh(t, i, r)
    ensures QueueOk(t, Major(r.dev))
    ensures var m, t' := Major(r.dev), Enqueue(t, i, r);
            && Inv(t') && QueueOk(t', m)
            && Keys(t'.slots, t'.lists[m]) == Insert(Keys(t.slots, t.lists[m]), KeyOf(r))
            && (forall m' | 0 <= m' < NR_BLK_DEV && m' != m ::
                  QueueOk(t, m') && QueueOk(t', m') && Keys(t'.slots, t'.lists[m']) == Keys(t.slots, t.lists[m']))
            && forall c | WaitsForSlot(t, c) && c != r.bh :: WaitsForSlot(t', c)
  {
    EnqueueKeeps(t, i, r);
    EnqueueHere(t, i, r);
    forall m' | 0 <= m' < NR_BLK_DEV && m' != Major(r.dev)
      ensures QueueOk(t, m') && QueueOk(Enqueue(t, i, r), m')
              && Keys(Enqueue(t, i, r).slots, Enqueue(t, i, r).lists[m']) == Keys(t.slots, t.lists[m']) {
      EnqueueElsewhere(t, i, r, m');
    }
    forall c | WaitsForSlot(t, c) && c != r.bh ensures WaitsForSlot(Enqueue(t, i, r), c) { EnqueueWaits(t, i, r, c); }
  }

  /** A read that the sweep still comes to is served before all writes. */
  lemma ReadsGoFirst(q: seq<Key>, x: Key)
    requires q != [] && x !in q && q[0].cmd == READ == x.cmd && x.dev == q[0].dev && x.sector > q[0].sector
    ensures exists p :: 0 <= p < |Insert(q, x)| && Insert(q, x)[p] == x
                        && forall j | 0 <= j < |Insert(q, x)| && Insert(q, x)[j].cmd == WRITE :: p < j
  {
    GoesBeforeLater(q, x);
  }

  class BlockLayer {
    const slots: array<Request>
    const current: array<int>
    const bufs: array<Buffer>
    ghost var lists: seq<seq<int>>

    ghost function Snap(): Table
      reads this, slots, current, bufs
    {
      Table(slots[..], current[..], lists, bufs[..])
    }

    ghost predicate Valid()
      reads this, slots, current, bufs
    {
      Inv(Snap())
    }

    /** The queue of one device, as the keys its requests are ordered by. */
    ghost function Queue(m: nat): seq<Key>
      requires Valid() && m < NR_BLK_DEV
      reads this, slots, current, bufs
    {
      assert QueueOk(Snap(), m);
      Keys(slots[..], lists[m])
    }

    /** blk_dev_init: every slot is free, every queue empty. */
    constructor (requests: nat, buffers: seq<Buffer>)
      requires Unique(buffers)
      ensures Valid() && fresh(slots) && fresh(current) && fresh(bufs) && slots.Length == requests && bufs[..] == buffers
      ensures forall m | 0 <= m < NR_BLK_DEV :: lists[m] == []
    {
      slots := new Request[requests](_ => Request(-1, READ, 0, NULL, NULL));
      current := new int[NR_BLK_DEV](_ => NULL);
      bufs := new Buffer[|buffers|](b requires 0 <= b < |buffers| => buffers[b]);
      lists := seq(NR_BLK_DEV, _ => []);
      new;
      assert bufs[..] == buffers;
    }

    /** The slot after which add_request links slot i in: the k-th of the queue. */
    method FindPlace(m: nat, i: nat) returns (tmp: nat, ghost k: nat)
      requires current.Length == |lists| == NR_BLK_DEV && m < NR_BLK_DEV && i < slots.Length
      requires Chain(slots[..], current[m], lists[m]) && lists[m] != []
      ensures k < |lists[m]| && tmp == lists[m][k] && k == Slot(Keys(slots[..], lists[m]), KeyOf(slots[i]), 0)
    {
      ghost var list, x := lists[m], KeyOf(slots[i]);
      ghost var q := Keys(slots[..], list);
      tmp := current[m];
      k := 0;
      assert slots[..][list[k]].next == NextIn(list, k);
      while slots[tmp].next != NULL
        invariant k < |list| && tmp == list[k] && tmp < slots.Length
        invariant forall j | 0 <= j < k :: !Fits(q, x, j)
        invariant slots[tmp].next == NextIn(list, k)
        decreases |list| - k
      {
        var next := slots[tmp].next;
        if (InOrder(KeyOf(slots[tmp]), KeyOf(slots[i])) || !InOrder(KeyOf(slots[tmp]), KeyOf(slots[next])))
           && InOrder(KeyOf(slots[i]), KeyOf(slots[next])) {
          break;
        }
        tmp := next;
        k := k + 1;
        assert slots[..][list[k]].next == NextIn(list, k);
      }
      SlotIs(q, x, k, 0);
    }

    /** Request i, filled in, is put into the queue of device m.  True if the device was idle. */
    method AddRequest(m: nat, i: nat) returns (started: bool)
      requires current.Length == |lists| == NR_BLK_DEV && m < NR_BLK_DEV && i < slots.Length
      requires Chain(slots[..], current[m], lists[m]) && i !in lists[m]
      requires 0 <= slots[i].bh < bufs.Length
      modifies this, slots, current, bufs
      ensures started <==> old(lists[m]) == []
      ensures slots[..] == AddedSlots(old(slots[..]), old(lists[m]), i)
      ensures lists == old(lists)[m := AddedList(old(slots[..]), old(lists[m]), i)]
      ensures current[..] == old(current[..])[m := lists[m][0]]
      ensures bufs[..] == old(bufs[..])[slots[i].bh := old(bufs[slots[i].bh]).(dirt := false)]
    {
      bufs[slots[i].bh] := bufs[slots[i].bh].(dirt := false);
      if current[m] == NULL {
        slots[i] := slots[i].(next := NULL);
        current[m] := i;
        lists := lists[m := [i]];
        return true;
      }
      ghost var k: nat;
      var tmp;
      tmp, k := FindPlace(m, i);
      ghost var s := slots[..];
      SplicedAt(lists[m], k, i);
      slots[i] := slots[i].(next := slots[tmp].next);
      slots[tmp] := slots[tmp].(next := i);
      assert slots[..] == Splice(s, lists[m], k, i);
      lists := lists[m := Spliced(lists[m], k, i)];
      return false;
    }

    /** make_request up to the search for a slot.  READA and WRITEA give up on a locked buffer. */
    method MakeRequest(m: nat, command: int, b: nat) returns (r: Answer)
      requires Valid() && m < NR_BLK_DEV && b < bufs.Length && 0 < bufs[b].dev && Major(bufs[b].dev) == m && READ <= command <= WRITEA
      modifies this, slots, current, bufs
      ensures Valid() && forall c | WaitsForSlot(old(Snap()), c) :: WaitsForSlot(Snap(), c)
      ensures r == SleepOnRequests ==> WaitsForSlot(Snap(), b)
      ensures !old(bufs[b].lock) && Needed(command, old(bufs[b])) ==> (r.Queued? <==> Room(old(slots[..]), command))
      ensures old(bufs[b].lock) ==> Snap() == old(Snap()) && r == if command >= READA then Nothing else SleepOnBuffer
      ensures !old(bufs[b].lock) && !Needed(command, old(bufs[b])) ==> Snap() == old(Snap()) && r == Nothing
      ensures !old(bufs[b].lock) && Needed(command, old(bufs[b])) ==>
                && (r.Queued? ==>
                      && Queue(m) == Insert(old(Queue(m)), Key(command % 2, bufs[b].dev, 2 * bufs[b].block))
                      && (forall m' | 0 <= m' < NR_BLK_DEV && m' != m :: Queue(m') == old(Queue(m')))
                      && bufs[..] == old(bufs[..])[b := old(bufs[b]).(lock := true, dirt := false)])
                && (!r.Queued? ==> r == if command >= READA then Nothing else SleepOnRequests)
                && (r == SleepOnRequests ==>
                      Snap() == old(Snap()).(bufs := old(bufs[..])[b := old(bufs[b]).(lock := true)]))
                && (r == Nothing ==> Snap() == old(Snap()))
    {
      hide Splice, QueueOk, Slot, Insert;
      ghost var t := Snap();
      var ahead := command == READA || command == WRITEA;
      var rw := if command == READA then READ else if command == WRITEA then WRITE else command;
      if ahead && bufs[b].lock {
        return Nothing;
      }
      if bufs[b].lock {
        return SleepOnBuffer;
      }
      if (rw == WRITE && !bufs[b].dirt) || (rw == READ && bufs[b].uptodate) {
        return Nothing;
      }
      forall j | Busy(t, j) ensures slots[j].bh != b { assert Pending(t.slots, t.bufs, j); }
      Unlocked(t, b);
      bufs[b] := bufs[b].(lock := true);
      assert Snap() == t.(bufs := t.bufs[b := t.bufs[b].(lock := true)]);
      forall m' | 0 <= m' < NR_BLK_DEV ensures Queue(m') == old(Queue(m')) { assert QueueOk(t, m'); }
      r := Repeat(m, rw, ahead, b);
      if r == Nothing {
        assert bufs[..] == t.bufs;
      }
    }

    /** A free slot for the request: any for a read, one of the first two thirds for a write. */
    method FindSlot(rw: int) returns (i: int)
      ensures -1 <= i < slots.Length
      ensures i >= 0 ==> slots[i].dev < 0 && (rw != READ ==> i < slots.Length * 2 / 3)
      ensures forall j | i < j < (if rw == READ then slots.Length else slots.Length * 2 / 3) :: slots[j].dev >= 0
    {
      var limit := if rw == READ then slots.Length else slots.Length * 2 / 3;
      i := limit - 1;
      while i >= 0 && slots[i].dev >= 0
        invariant -1 <= i < limit
        invariant forall j | i < j < limit :: slots[j].dev >= 0
      {
        i := i - 1;
      }
    }

    /** make_request from the search for a slot on; the buffer is locked and no request is pending for it. */
    method Repeat(m: nat, rw: int, ahead: bool, b: nat) returns (r: Answer)
      requires Valid() && m < NR_BLK_DEV && b < bufs.Length && 0 < bufs[b].dev && Major(bufs[b].dev) == m
      requires rw == READ || rw == WRITE
      requires WaitsForSlot(Snap(), b)
      modifies this, slots, current, bufs
      ensures Valid() && r != SleepOnBuffer && (r.Queued? <==> Room(old(slots[..]), rw))
      ensures forall c | WaitsForSlot(old(Snap()), c) && c != b :: WaitsForSlot(Snap(), c)
      ensures r.Queued? ==> Queue(m) == Insert(old(Queue(m)), Key(rw, bufs[b].dev, 2 * bufs[b].block))
      ensures r.Queued? ==> (r.started <==> old(Queue(m)) == [])
      ensures r.Queued? ==> forall m' | 0 <= m' < NR_BLK_DEV && m' != m :: Queue(m') == old(Queue(m'))
      ensures r.Queued? ==> bufs[..] == old(bufs[..])[b := old(bufs[b]).(dirt := false)]
      ensures !r.Queued? ==> Snap() == old(Snap()).(bufs := bufs[..])
      ensures !r.Queued? ==> bufs[..] == if ahead then old(bufs[..])[b := old(bufs[b]).(lock := false)] else old(bufs[..])
      ensures !r.Queued? ==> r == if ahead then Nothing else SleepOnRequests
      ensures !r.Queued? ==>
                forall j | 0 <= j < (if rw == READ then slots.Length else slots.Length * 2 / 3) :: slots[j].dev >= 0
    {
      ghost var t := Snap();
      var i := FindSlot(rw);
      if i < 0 {
        if ahead {
          Unlocked(t, b);
          bufs[b] := bufs[b].(lock := false);
          assert forall j :: Busy(Snap(), j) <==> Busy(t, j);
          return Nothing;
        }
        return SleepOnRequests;
      }
      var started := Fill(m, i, Request(bufs[b].dev, rw, 2 * bufs[b].block, b, NULL));
      return Queued(started);
    }

    /** The request is filled in and put into its queue. */
    method Fill(m: nat, i: nat, req: Request) returns (started: bool)
      requires Valid() && m < NR_BLK_DEV && Fresh(Snap(), i, req) && m == Major(req.dev)
      modifies this, slots, current, bufs
      ensures Valid() && Queue(m) == Insert(old(Queue(m)), KeyOf(req))
      ensures started <==> old(Queue(m)) == []
      ensures forall m' | 0 <= m' < NR_BLK_DEV && m' != m :: Queue(m') == old(Queue(m'))
      ensures bufs[..] == old(bufs[..])[req.bh := old(bufs[req.bh]).(dirt := false)]
      ensures forall c | WaitsForSlot(old(Snap()), c) && c != req.bh :: WaitsForSlot(Snap(), c)
    {
      ghost var t := Snap();
      EnqueueAll(t, i, req);
      KeyIsNew(t, i, req);
      FilledChain(t.slots, t.current[m], t.lists[m], i, req);
      hide Inv, QueueOk, Insert, Keys, WaitsForSlot;
      slots[i] := req;
      started := AddRequest(m, i);
      assert Snap() == Enqueue(t, i, req);
    }

    /** The request being served is over: its buffer is unlocked, its slot is free, the next one is served. */
    method EndRequest(m: nat, uptodate: bool)
      requires Valid() && m < NR_BLK_DEV && Queue(m) != []
      modifies this, slots, current, bufs
      ensures Valid() && Queue(m) == old(Queue(m))[1..] && forall c | WaitsForSlot(old(Snap()), c) :: WaitsForSlot(Snap(), c)
      ensures forall m' | 0 <= m' < NR_BLK_DEV && m' != m :: Queue(m') == old(Queue(m'))
      ensures var i := old(current[m]);
              && 0 <= i < slots.Length && slots[..] == old(slots[..])[i := old(slots[i]).(dev := -1)]
              && var b := old(slots[i].bh);
                 0 <= b < bufs.Length && bufs[..] == old(bufs[..])[b := old(bufs[b]).(lock := false, uptodate := uptodate)]
    {
      ghost var t := Snap();
      assert QueueOk(t, m);
      var i := current[m];
      assert i in t.lists[m] && Busy(t, i) && Pending(t.slots, t.bufs, i);
      assert slots[i].next == NextIn(t.lists[m], 0);
      DequeueKeeps(t, m, uptodate);
      var b := slots[i].bh;
      bufs[b] := bufs[b].(uptodate := uptodate, lock := false);
      slots[i] := slots[i].(dev := -1);
      current[m] := slots[i].next;
      lists := lists[m := lists[m][1..]];
      assert Snap() == Dequeue(t, m, uptodate);
      forall m' | 0 <= m' < NR_BLK_DEV && m' != m ensures Queue(m') == old(Queue(m')) {
        DequeueElsewhere(t, m, uptodate, m');
      }
      forall c | WaitsForSlot(t, c) ensures WaitsForSlot(Snap(), c) { DequeueWaits(t, m, uptodate, c); }
    }
  }
}
