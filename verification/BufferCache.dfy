/** The hash chains and the circular list of fs/buffer.c over the same buffer heads, updated in place.  A
    pointer to a buffer head is an index, NULL is -1. */
module BufferCache {
  const NR_HASH: nat := 307
  const NULL: int := -1

  datatype Header = Header(dev: nat, block: nat, dirt: bool, uptodate: bool, count: nat, lock: bool,
                           prev: int, next: int, prevFree: int, nextFree: int)

  function Xor(a: nat, b: nat): nat {
    if a == 0 then b else if b == 0 then a else 2 * Xor(a / 2, b / 2) + (a + b) % 2
  }

  function Hash(dev: nat, block: nat): (h: nat)
    ensures h < NR_HASH
  {
    Xor(dev, block) % NR_HASH
  }

  function Badness(b: Header): nat { (if b.dirt then 2 else 0) + (if b.lock then 1 else 0) }

  ghost predicate Places(list: seq<int>, n: nat) {
    && (forall k | 0 <= k < |list| :: 0 <= list[k] < n)
    && forall k, l | 0 <= k < l < |list| :: list[k] != list[l]
  }

  /** The position after and before k round a ring of n. */
  function After(n: nat, k: nat): nat { if k + 1 < n then k + 1 else 0 }

  function Before(n: nat, k: nat): nat { if k > 0 then k - 1 else if n > 0 then n - 1 else 0 }

  function NextIn(chain: seq<int>, k: nat): int { if k + 1 < |chain| then chain[k + 1] else NULL }

  function PrevIn(chain: seq<int>, k: nat): int { if 0 < k <= |chain| then chain[k - 1] else NULL }

  /** The circular list that starts at `free` is `ring`. */
  ghost predicate RingOk(heads: seq<Header>, free: int, ring: seq<int>) {
    && ring != [] && Places(ring, |heads|) && free == ring[0]
    && forall k | 0 <= k < |ring| :: Ringed(heads, ring, k)
  }

  predicate Ringed(heads: seq<Header>, ring: seq<int>, k: nat)
    requires k < |ring| && 0 <= ring[k] < |heads|
  {
    heads[ring[k]].nextFree == ring[After(|ring|, k)] && heads[ring[k]].prevFree == ring[Before(|ring|, k)]
  }

  /** The hash chain that starts at `head` is `chain`. */
  ghost predicate ChainOk(heads: seq<Header>, head: int, chain: seq<int>) {
    && Places(chain, |heads|) && head == NextIn([NULL] + chain, 0)
    && forall k | 0 <= k < |chain| :: heads[chain[k]].next == NextIn(chain, k) && heads[chain[k]].prev == PrevIn(chain, k)
  }

  function Cut(list: seq<int>, k: nat): seq<int>
    requires k < |list|
  {
    list[..k] + list[k + 1..]
  }

  lemma CutAt(list: seq<int>, k: nat)
    requires k < |list|
    ensures |Cut(list, k)| == |list| - 1
    ensures forall j | 0 <= j < |list| - 1 :: Cut(list, k)[j] == if j < k then list[j] else list[j + 1]
  {
  }

  /** Unlinking from the circular list. */
  function Unring(heads: seq<Header>, b: nat): seq<Header>
    requires b < |heads| && 0 <= heads[b].prevFree < |heads| && 0 <= heads[b].nextFree < |heads|
  {
    var h := heads[heads[b].prevFree := heads[heads[b].prevFree].(nextFree := heads[b].nextFree)];
    h[heads[b].nextFree := h[heads[b].nextFree].(prevFree := heads[b].prevFree)]
  }

  lemma UnringNext(heads: seq<Header>, free: int, ring: seq<int>, k: nat, i: nat)
    requires RingOk(heads, free, ring) && k < |ring| && 2 <= |ring| && i < |ring| && i != k
    ensures Ringed(heads, ring, k)
    ensures Unring(heads, ring[k])[ring[i]].nextFree
            == ring[if After(|ring|, i) == k then After(|ring|, k) else After(|ring|, i)]
  {
    assert Ringed(heads, ring, k) && Ringed(heads, ring, i);
    assert ring[i] == ring[Before(|ring|, k)] <==> i == Before(|ring|, k);
  }

  lemma UnringPrev(heads: seq<Header>, free: int, ring: seq<int>, k: nat, i: nat)
    requires RingOk(heads, free, ring) && k < |ring| && 2 <= |ring| && i < |ring| && i != k
    ensures Ringed(heads, ring, k)
    ensures Unring(heads, ring[k])[ring[i]].prevFree
            == ring[if Before(|ring|, i) == k then Before(|ring|, k) else Before(|ring|, i)]
  {
    assert Ringed(heads, ring, k) && Ringed(heads, ring, i);
    assert ring[i] == ring[After(|ring|, k)] <==> i == After(|ring|, k);
  }

  lemma UnringKeeps(heads: seq<Header>, free: int, ring: seq<int>, k: nat)
    requires RingOk(heads, free, ring) && k < |ring| && 2 <= |ring|
    ensures Ringed(heads, ring, k)
    ensures var b := ring[k];
            RingOk(Unring(heads, b), if free == b then heads[b].nextFree else free, Cut(ring, k))
  {
    assert Ringed(heads, ring, k);
    CutPlaces(ring, k, |heads|);
    CutAt(ring, k);
    assert ring[k] == ring[0] <==> k == 0;
    forall j | 0 <= j < |ring| - 1 ensures Ringed(Unring(heads, ring[k]), Cut(ring, k), j) {
      UnringAt(heads, free, ring, k, j);
    }
  }

  /** Round the ring without its k-th, from the j-th on. */
  lemma CutRound(ring: seq<int>, k: nat, j: nat)
    requires k < |ring| && j < |ring| - 1
    ensures var (c, n, i) := (Cut(ring, k), |ring|, if j < k then j else j + 1);
            && |c| == n - 1 && c[j] == ring[i]
            && c[After(n - 1, j)] == ring[if After(n, i) == k then After(n, k) else After(n, i)]
            && c[Before(n - 1, j)] == ring[if Before(n, i) == k then Before(n, k) else Before(n, i)]
  {
  }

  lemma UnringAt(heads: seq<Header>, free: int, ring: seq<int>, k: nat, j: nat)
    requires RingOk(heads, free, ring) && k < |ring| && 2 <= |ring| && j < |ring| - 1
    ensures Ringed(heads, ring, k) && |Cut(ring, k)| == |ring| - 1 && 0 <= Cut(ring, k)[j] < |heads|
    ensures Ringed(Unring(heads, ring[k]), Cut(ring, k), j)
  {
    var i := if j < k then j else j + 1;
    CutRound(ring, k, j);
    assert 0 <= ring[i] < |heads|;
    UnringNext(heads, free, ring, k, i);
    UnringPrev(heads, free, ring, k, i);
    hide RingOk, Cut, Unring, After, Before;
  }

  lemma CutPlaces(list: seq<int>, k: nat, n: nat)
    requires Places(list, n) && k < |list|
    ensures Places(Cut(list, k), n) && forall b :: b in Cut(list, k) <==> b in list && b != list[k]
  {
    CutAt(list, k);
    forall b ensures b in Cut(list, k) <==> b in list && b != list[k] {
      if b in list && b != list[k] {
        var i :| 0 <= i < |list| && list[i] == b;
        assert Cut(list, k)[if i < k then i else i - 1] == b;
      }
    }
  }

  /** Linking at the end of the circular list. */
  function Enring(heads: seq<Header>, free: nat, b: nat): seq<Header>
    requires b < |heads| && free < |heads| && 0 <= heads[free].prevFree < |heads|
  {
    var last := heads[free].prevFree;
    var h := heads[b := heads[b].(nextFree := free, prevFree := last)];
    var h1 := h[last := h[last].(nextFree := b)];
    h1[free := h1[free].(prevFree := b)]
  }

  lemma EnringKeeps(heads: seq<Header>, free: nat, ring: seq<int>, b: nat)
    requires RingOk(heads, free, ring) && b < |heads| && b !in ring
    ensures 0 <= heads[free].prevFree < |heads| && RingOk(Enring(heads, free, b), free, ring + [b])
  {
    var n, r := |ring|, ring + [b];
    assert Ringed(heads, ring, 0);
    var h := Enring(heads, free, b);
    forall j | 0 <= j < |r| ensures Ringed(h, r, j) {
      if j < n { assert ring[j] != b && Ringed(heads, ring, j); }
    }
  }

  /** Unlinking from a hash chain. */
  function Unchain(heads: seq<Header>, b: nat): seq<Header>
    requires b < |heads| && heads[b].prev < |heads| && heads[b].next < |heads|
  {
    var h := if heads[b].next >= 0 then heads[heads[b].next := heads[heads[b].next].(prev := heads[b].prev)] else heads;
    if heads[b].prev >= 0 then h[heads[b].prev := h[heads[b].prev].(next := h[b].next)] else h
  }

  lemma UnchainLinks(heads: seq<Header>, head: int, chain: seq<int>, k: nat, i: nat)
    requires ChainOk(heads, head, chain) && k < |chain| && i < |chain| && i != k
    ensures var b := chain[k];
            && heads[b].prev < |heads| && heads[b].next < |heads| && heads[b].next != b && heads[b].prev != b
            && Unchain(heads, b)[chain[i]].next == (if i + 1 == k then NextIn(chain, k) else NextIn(chain, i))
            && Unchain(heads, b)[chain[i]].prev == (if i == k + 1 then PrevIn(chain, k) else PrevIn(chain, i))
  {
    hide ChainOk, Places;
    LinksAt(heads, head, chain, k);
    LinksAt(heads, head, chain, i);
    ChainDistinct(heads, head, chain, k, i);
  }

  lemma ChainDistinct(heads: seq<Header>, head: int, chain: seq<int>, k: nat, i: nat)
    requires ChainOk(heads, head, chain) && k < |chain| && i < |chain| && i != k
    ensures k + 1 < |chain| ==> (chain[i] == chain[k + 1] <==> i == k + 1)
    ensures k > 0 ==> (chain[i] == chain[k - 1] <==> i == k - 1)
  {}

  lemma LinksAt(heads: seq<Header>, head: int, chain: seq<int>, k: nat)
    requires ChainOk(heads, head, chain) && k < |chain|
    ensures 0 <= chain[k] < |heads| && NextIn(chain, k) < |heads| && PrevIn(chain, k) < |heads|
    ensures heads[chain[k]].next == NextIn(chain, k) != chain[k] && heads[chain[k]].prev == PrevIn(chain, k) != chain[k]
  {}

  lemma UnchainKeeps(heads: seq<Header>, head: int, chain: seq<int>, k: nat)
    requires ChainOk(heads, head, chain) && k < |chain|
    ensures var b := chain[k];
            && NULL <= heads[b].prev < |heads| && NULL <= heads[b].next < |heads|
            && heads[b].next != b && heads[b].prev != b
            && ChainOk(Unchain(heads, b), if head == b then heads[b].next else head, Cut(chain, k))
  {
    var b, c := chain[k], Cut(chain, k);
    CutAt(chain, k);
    assert heads[b].next == NextIn(chain, k) && heads[b].prev == PrevIn(chain, k);
    forall j | 0 <= j < |c|
      ensures Unchain(heads, b)[c[j]].next == NextIn(c, j) && Unchain(heads, b)[c[j]].prev == PrevIn(c, j) {
      UnchainAt(heads, head, chain, k, j);
    }
    CutPlaces(chain, k, |heads|);
    hide Unchain, NextIn, PrevIn;
    UnchainHead(heads, head, chain, k);
  }

  lemma UnchainAt(heads: seq<Header>, head: int, chain: seq<int>, k: nat, j: nat)
    requires ChainOk(heads, head, chain) && k < |chain| && j < |chain| - 1
    ensures var b, c := chain[k], Cut(chain, k);
            && heads[b].prev < |heads| && heads[b].next < |heads| && heads[b].next != b && heads[b].prev != b
            && |c| == |chain| - 1 && 0 <= c[j] < |heads|
            && Unchain(heads, b)[c[j]].next == NextIn(c, j) && Unchain(heads, b)[c[j]].prev == PrevIn(c, j)
  {
    var i := if j < k then j else j + 1;
    CutAt(chain, k);
    UnchainLinks(heads, head, chain, k, i);
    LinksAt(heads, head, chain, i);
    hide ChainOk, Unchain, Cut;
  }

  lemma UnchainHead(heads: seq<Header>, head: int, chain: seq<int>, k: nat)
    requires ChainOk(heads, head, chain) && k < |chain|
    ensures (if head == chain[k] then heads[chain[k]].next else head) == NextIn([NULL] + Cut(chain, k), 0)
  {
    CutAt(chain, k);
    LinksAt(heads, head, chain, k);
    assert k > 0 ==> chain[0] != chain[k];
  }

  /** Linking at the front of a hash chain; only a chain that has a first element has its back link set. */
  function Enchain(heads: seq<Header>, head: int, b: nat): seq<Header>
    requires b < |heads| && head < |heads|
  {
    var h := heads[b := heads[b].(prev := NULL, next := head)];
    if head >= 0 then h[head := h[head].(prev := b)] else h
  }

  lemma EnchainKeeps(heads: seq<Header>, head: int, chain: seq<int>, b: nat)
    requires ChainOk(heads, head, chain) && b < |heads| && b !in chain
    ensures head < |heads| && ChainOk(Enchain(heads, head, b), b, [b] + chain)
  {
    var c := [b] + chain;
    var h := Enchain(heads, head, b);
    forall j | 0 <= j < |c| ensures h[c[j]].next == NextIn(c, j) && h[c[j]].prev == PrevIn(c, j) {
      if j > 0 {
        assert chain[j - 1] != b;
        assert heads[chain[j - 1]].next == NextIn(chain, j - 1) && heads[chain[j - 1]].prev == PrevIn(chain, j - 1);
      }
    }
  }

  // ----- the whole cache

  datatype Cache = Cache(heads: seq<Header>, hash: seq<int>, free: int, ring: seq<int>, chains: seq<seq<int>>)

  /** The chain of bucket h holds exactly the buffers of its blocks; buffer x is in none. */
  ghost predicate BucketOk(c: Cache, h: nat, x: int)
    requires h < |c.hash| == |c.chains|
  {
    ChainOk(c.heads, c.hash[h], c.chains[h]) && forall b :: b in c.chains[h] <==> Belongs(c.heads, b, h) && b != x
  }

  predicate Belongs(heads: seq<Header>, b: int, h: nat) {
    0 <= b < |heads| && heads[b].dev != 0 && Hash(heads[b].dev, heads[b].block) == h
  }

  /** All is in order but for buffer x, which is in no queue, but that an only buffer stays linked to itself.  With
      x == NULL, all is in order. */
  ghost predicate InvBut(c: Cache, x: int) {
    && RingOk(c.heads, c.free, c.ring)
    && (forall b :: b in c.ring <==> 0 <= b < |c.heads| && (b != x || |c.heads| == 1))
    && |c.hash| == |c.chains| == NR_HASH
    && (forall h | 0 <= h < NR_HASH :: BucketOk(c, h, x))
    && forall b | 0 <= b < |c.heads| && b != x && c.heads[b].dev == 0 :: c.heads[b].prev == c.heads[b].next == NULL
  }

  /** Two heads that differ in their links at most. */
  predicate SameButLinks(a: Header, b: Header) {
    a.dev == b.dev && a.block == b.block && a.dirt == b.dirt && a.uptodate == b.uptodate
    && a.count == b.count && a.lock == b.lock
  }

  lemma RingApart(heads: seq<Header>, heads': seq<Header>, free: int, ring: seq<int>)
    requires RingOk(heads, free, ring) && |heads'| == |heads|
    requires forall b | 0 <= b < |heads| :: heads'[b].nextFree == heads[b].nextFree && heads'[b].prevFree == heads[b].prevFree
    ensures RingOk(heads', free, ring)
  {
    forall k | 0 <= k < |ring| ensures Ringed(heads', ring, k) { assert Ringed(heads, ring, k); }
  }

  lemma ChainApart(heads: seq<Header>, heads': seq<Header>, head: int, chain: seq<int>)
    requires ChainOk(heads, head, chain) && |heads'| == |heads|
    requires forall b | b in chain && 0 <= b < |heads| :: heads'[b].next == heads[b].next && heads'[b].prev == heads[b].prev
    ensures ChainOk(heads', head, chain)
  {
    forall k | 0 <= k < |chain| ensures heads'[chain[k]].next == NextIn(chain, k) && heads'[chain[k]].prev == PrevIn(chain, k) {
      assert chain[k] in chain;
      assert heads[chain[k]].next == NextIn(chain, k) && heads[chain[k]].prev == PrevIn(chain, k);
    }
  }

  function PositionOf(list: seq<int>, b: int): (k: nat)
    requires b in list
    ensures k < |list| && list[k] == b
  {
    if list[0] == b then 0 else 1 + PositionOf(list[1..], b)
  }

  function Without(list: seq<int>, b: int): seq<int> { if b in list then Cut(list, PositionOf(list, b)) else list }

  /** The circular list after b is unlinked, and after it is linked in at the end. */
  function Left(ring: seq<int>, b: int): seq<int> { if ring == [b] then ring else Without(ring, b) }

  function Joined(ring: seq<int>, b: int): seq<int> { if b in ring then ring else ring + [b] }

  predicate LinksInRange(heads: seq<Header>, b: nat) {
    && b < |heads| && NULL <= heads[b].prev < |heads| && NULL <= heads[b].next < |heads|
    && 0 <= heads[b].prevFree < |heads| && 0 <= heads[b].nextFree < |heads|
  }

  /** The hash bucket of a buffer. */
  function BucketOf(c: Cache, b: nat): nat
    requires b < |c.heads|
  {
    Hash(c.heads[b].dev, c.heads[b].block)
  }

  /** remove_from_queues: the hash chain. */
  function Unhashed(c: Cache, b: nat): Cache
    requires LinksInRange(c.heads, b) && |c.hash| == |c.chains| == NR_HASH
  {
    var h := BucketOf(c, b);
    Cache(Unchain(c.heads, b), if c.hash[h] == b then c.hash[h := c.heads[b].next] else c.hash, c.free, c.ring,
          c.chains[h := Without(c.chains[h], b)])
  }

  /** remove_from_queues: the circular list. */
  function Unlisted(c: Cache, b: nat): Cache
    requires LinksInRange(c.heads, b)
  {
    Cache(Unring(c.heads, b), c.hash, if c.free == b then c.heads[b].nextFree else c.free, Left(c.ring, b), c.chains)
  }

  lemma LinksOk(c: Cache, b: nat)
    requires InvBut(c, NULL) && b < |c.heads|
    ensures LinksInRange(c.heads, b)
  {
    var k := PositionOf(c.ring, b);
    assert Ringed(c.heads, c.ring, k);
    if c.heads[b].dev != 0 {
      assert BucketOk(c, BucketOf(c, b), NULL);
      UnchainKeeps(c.heads, c.hash[BucketOf(c, b)], c.chains[BucketOf(c, b)], PositionOf(c.chains[BucketOf(c, b)], b));
    }
  }

  /** The neighbours of a buffer in its chain are in that chain. */
  lemma Neighbours(c: Cache, b: nat)
    requires InvBut(c, NULL) && b < |c.heads|
    ensures var g, next, prev := BucketOf(c, b), c.heads[b].next, c.heads[b].prev;
            && (next >= 0 ==> next in c.chains[g]) && (prev >= 0 ==> prev in c.chains[g])
            && (c.hash[g] == b ==> c.heads[b].dev != 0) && (c.hash[g] >= 0 ==> c.hash[g] in c.chains[g])
  {
    var g := BucketOf(c, b);
    assert BucketOk(c, g, NULL);
    assert c.hash[g] >= 0 ==> c.chains[g][0] in c.chains[g];
    if c.heads[b].dev != 0 {
      assert Belongs(c.heads, b, g);
      var k := PositionOf(c.chains[g], b);
      assert c.heads[b].next == NextIn(c.chains[g], k) && c.heads[b].prev == PrevIn(c.chains[g], k);
      assert k + 1 < |c.chains[g]| ==> c.chains[g][k + 1] in c.chains[g];
      assert k > 0 ==> c.chains[g][k - 1] in c.chains[g];
    }
  }

  lemma UnhashedSame(c: Cache, b: nat, d: int)
    requires LinksInRange(c.heads, b) && |c.hash| == |c.chains| == NR_HASH && 0 <= d < |c.heads|
    ensures SameButLinks(Unhashed(c, b).heads[d], c.heads[d])
    ensures Unhashed(c, b).heads[d].nextFree == c.heads[d].nextFree && Unhashed(c, b).heads[d].prevFree == c.heads[d].prevFree
    ensures d != c.heads[b].next && d != c.heads[b].prev ==> Unhashed(c, b).heads[d] == c.heads[d]
  {
  }

  /** The buffer's own chain loses it. */
  lemma UnhashedHere(c: Cache, b: nat)
    requires InvBut(c, NULL) && b < |c.heads| && LinksInRange(c.heads, b)
    ensures BucketOk(Unhashed(c, b), BucketOf(c, b), b)
  {
    var c', g := Unhashed(c, b), BucketOf(c, b);
    assert BucketOk(c, g, NULL);
    forall d ensures Belongs(c'.heads, d, g) <==> Belongs(c.heads, d, g) { if 0 <= d < |c.heads| { UnhashedSame(c, b, d); } }
    if c.heads[b].dev != 0 {
      assert Belongs(c.heads, b, g);
      var k := PositionOf(c.chains[g], b);
      UnchainKeeps(c.heads, c.hash[g], c.chains[g], k);
      CutPlaces(c.chains[g], k, |c.heads|);
      hide InvBut, RingOk, ChainOk, Places;
    } else {
      Neighbours(c, b);
      assert !Belongs(c.heads, b, g);
      hide InvBut, RingOk;
    }
  }

  /** The other chains do not notice. */
  lemma UnhashedThere(c: Cache, b: nat, h: nat)
    requires InvBut(c, NULL) && b < |c.heads| && LinksInRange(c.heads, b) && h < NR_HASH && h != BucketOf(c, b)
    ensures BucketOk(Unhashed(c, b), h, b)
  {
    hide ChainOk;
    var c', g := Unhashed(c, b), BucketOf(c, b);
    assert BucketOk(c, g, NULL) && BucketOk(c, h, NULL);
    Neighbours(c, b);
    forall d ensures Belongs(c'.heads, d, h) <==> Belongs(c.heads, d, h) { if 0 <= d < |c.heads| { UnhashedSame(c, b, d); } }
    forall d | d in c.chains[h] && 0 <= d < |c.heads| ensures c'.heads[d] == c.heads[d] {
      assert Belongs(c.heads, d, h) && !Belongs(c.heads, d, g);
      UnhashedSame(c, b, d);
    }
    ChainApart(c.heads, c'.heads, c.hash[h], c.chains[h]);
    assert !Belongs(c.heads, b, h);
  }

  /** A bucket after changes that leave its members and their chain links alone. */
  lemma BucketApart(c: Cache, c': Cache, h: nat, x: int)
    requires h < |c.hash| == |c.chains| && h < |c'.hash| == |c'.chains| && BucketOk(c, h, x) && |c'.heads| == |c.heads|
    requires c'.hash[h] == c.hash[h] && c'.chains[h] == c.chains[h]
    requires forall d | 0 <= d < |c.heads| ::
               c'.heads[d].dev == c.heads[d].dev && c'.heads[d].block == c.heads[d].block
               && c'.heads[d].next == c.heads[d].next && c'.heads[d].prev == c.heads[d].prev
    ensures BucketOk(c', h, x)
  {
    ChainApart(c.heads, c'.heads, c.hash[h], c.chains[h]);
    assert forall d :: Belongs(c'.heads, d, h) <==> Belongs(c.heads, d, h);
  }

  /** remove_from_queues takes the buffer out of its chain and out of the circular list. */
  lemma RemoveKeeps(c: Cache, b: nat)
    requires InvBut(c, NULL) && b < |c.heads|
    ensures LinksInRange(c.heads, b) && LinksInRange(Unhashed(c, b).heads, b)
    ensures InvBut(Unlisted(Unhashed(c, b), b), b)
    ensures forall d | 0 <= d < |c.heads| :: SameButLinks(Unlisted(Unhashed(c, b), b).heads[d], c.heads[d])
  {
    LinksOk(c, b);
    var c1 := Unhashed(c, b);
    forall d | 0 <= d < |c.heads|
      ensures c1.heads[d].nextFree == c.heads[d].nextFree && c1.heads[d].prevFree == c.heads[d].prevFree
              && SameButLinks(c1.heads[d], c.heads[d]) {
      UnhashedSame(c, b, d);
    }
    RingApart(c.heads, c1.heads, c.free, c.ring);
    RemovedFromRing(c1, b);
    var c2 := Unlisted(c1, b);
    forall h | 0 <= h < NR_HASH ensures BucketOk(c2, h, b) {
      if h == BucketOf(c, b) { UnhashedHere(c, b); } else { UnhashedThere(c, b, h); }
      BucketApart(c1, c2, h, b);
    }
    forall d | 0 <= d < |c2.heads| && d != b && c2.heads[d].dev == 0 ensures c2.heads[d].prev == c2.heads[d].next == NULL {
      UnusedStays(c, b, d);
    }
  }

  lemma RemovedFromRing(c: Cache, b: nat)
    requires RingOk(c.heads, c.free, c.ring) && b < |c.heads| && forall d :: d in c.ring <==> 0 <= d < |c.heads|
    ensures 0 <= c.heads[b].prevFree < |c.heads| && 0 <= c.heads[b].nextFree < |c.heads|
    ensures var h := Unring(c.heads, b);
            && RingOk(h, if c.free == b then c.heads[b].nextFree else c.free, Left(c.ring, b))
            && (forall d :: d in Left(c.ring, b) <==> 0 <= d < |c.heads| && (d != b || |c.heads| == 1))
            && forall d | 0 <= d < |c.heads| ::
                 SameButLinks(h[d], c.heads[d]) && h[d].next == c.heads[d].next && h[d].prev == c.heads[d].prev
  {
    if |c.heads| == 1 {
      OnlyOne(c.heads, c.free, c.ring, b);
    } else {
      var k := PositionOf(c.ring, b);
      TwoOfThem(c.ring, |c.heads|);
      UnringKeeps(c.heads, c.free, c.ring, k);
      CutPlaces(c.ring, k, |c.heads|);
    }
  }

  /** An only buffer is its own neighbour, unlinked or not. */
  lemma OnlyOne(heads: seq<Header>, free: int, ring: seq<int>, b: nat)
    requires |heads| == 1 && b == 0 && RingOk(heads, free, ring)
    ensures ring == [b] && free == b && heads[b].prevFree == heads[b].nextFree == b
    ensures Unring(heads, b) == heads && Enring(heads, b, b) == heads
  {
    forall k {:trigger ring[k]} | 0 <= k < |ring| ensures k == 0 { assert ring[k] == ring[0]; }
    assert Ringed(heads, ring, 0);
  }

  lemma TwoOfThem(ring: seq<int>, n: nat)
    requires 2 <= n && forall b :: b in ring <==> 0 <= b < n
    ensures 2 <= |ring|
  {
    assert 0 in ring && 1 in ring;
  }

  /** An unused buffer is in no chain, so unlinking another leaves it alone. */
  lemma UnusedStays(c: Cache, b: nat, d: nat)
    requires InvBut(c, NULL) && b < |c.heads| && d < |c.heads| && d != b && c.heads[d].dev == 0 && LinksInRange(c.heads, b)
    ensures Unhashed(c, b).heads[d].prev == Unhashed(c, b).heads[d].next == NULL
  {
    assert BucketOk(c, BucketOf(c, b), NULL);
    Neighbours(c, b);
    assert !Belongs(c.heads, d, BucketOf(c, b));
    UnhashedSame(c, b, d);
  }

  /** insert_into_queues: the end of the circular list. */
  function Listed(c: Cache, b: nat): Cache
    requires b < |c.heads| && 0 <= c.free < |c.heads| && 0 <= c.heads[c.free].prevFree < |c.heads|
  {
    Cache(Enring(c.heads, c.free, b), c.hash, c.free, Joined(c.ring, b), c.chains)
  }

  /** insert_into_queues: the chain of the buffer's block, if it has one. */
  function Hashed(c: Cache, b: nat): Cache
    requires b < |c.heads| && |c.hash| == |c.chains| == NR_HASH && c.hash[BucketOf(c, b)] < |c.heads|
  {
    if c.heads[b].dev == 0 then c.(heads := c.heads[b := c.heads[b].(prev := NULL, next := NULL)])
    else Cache(Enchain(c.heads, c.hash[BucketOf(c, b)], b), c.hash[BucketOf(c, b) := b], c.free, c.ring,
               c.chains[BucketOf(c, b) := [b] + c.chains[BucketOf(c, b)]])
  }

  lemma ListedKeeps(c: Cache, b: nat)
    requires InvBut(c, b) && b < |c.heads|
    ensures 0 <= c.free < |c.heads| && 0 <= c.heads[c.free].prevFree < |c.heads|
    ensures var c' := Listed(c, b);
            && RingOk(c'.heads, c'.free, c'.ring) && (forall d :: d in c'.ring <==> 0 <= d < |c.heads|)
            && (forall h | 0 <= h < NR_HASH :: BucketOk(c', h, b))
            && forall d | 0 <= d < |c.heads| ::
                 SameButLinks(c'.heads[d], c.heads[d]) && c'.heads[d].next == c.heads[d].next && c'.heads[d].prev == c.heads[d].prev
  {
    if |c.heads| == 1 { OnlyOne(c.heads, c.free, c.ring, b); } else { EnringKeeps(c.heads, c.free, c.ring, b); }
    var c' := Listed(c, b);
    forall h | 0 <= h < NR_HASH ensures BucketOk(c', h, b) { assert BucketOk(c, h, b); BucketApart(c, c', h, b); }
  }

  lemma HashedBucket(c: Cache, b: nat, h: nat)
    requires b < |c.heads| && h < NR_HASH && |c.hash| == |c.chains| == NR_HASH
    requires BucketOk(c, h, b) && BucketOk(c, BucketOf(c, b), b)
    ensures NULL <= c.hash[BucketOf(c, b)] < |c.heads|
    ensures BucketOk(Hashed(c, b), h, NULL)
  {
    var c', g := Hashed(c, b), BucketOf(c, b);
    assert c.hash[g] >= 0 ==> c.chains[g][0] in c.chains[g];
    forall d ensures Belongs(c'.heads, d, h) <==> Belongs(c.heads, d, h) { }
    if c.heads[b].dev != 0 && h == g {
      EnchainKeeps(c.heads, c.hash[h], c.chains[h], b);
      assert Belongs(c.heads, b, h);
    } else {
      forall d | d in c.chains[h] && 0 <= d < |c.heads|
        ensures c'.heads[d].next == c.heads[d].next && c'.heads[d].prev == c.heads[d].prev {
        assert Belongs(c.heads, d, h) && d != b;
        assert c.heads[b].dev != 0 ==> !Belongs(c.heads, d, g);
      }
      ChainApart(c.heads, c'.heads, c.hash[h], c.chains[h]);
      assert !Belongs(c.heads, b, h);
    }
  }

  /** insert_into_queues puts the buffer at the end of the circular list and at the front of its chain. */
  lemma InsertKeeps(c: Cache, b: nat)
    requires InvBut(c, b) && b < |c.heads|
    ensures 0 <= c.free < |c.heads| && 0 <= c.heads[c.free].prevFree < |c.heads|
    ensures NULL <= c.hash[BucketOf(c, b)] < |c.heads|
    ensures InvBut(Hashed(Listed(c, b), b), NULL)
    ensures forall d | 0 <= d < |c.heads| :: SameButLinks(Hashed(Listed(c, b), b).heads[d], c.heads[d])
  {
    ListedKeeps(c, b);
    var c1 := Listed(c, b);
    assert BucketOk(c1, BucketOf(c, b), b);
    HashedBucket(c1, b, BucketOf(c, b));
    var c2 := Hashed(c1, b);
    RingApart(c1.heads, c2.heads, c1.free, c1.ring);
    forall h | 0 <= h < NR_HASH ensures BucketOk(c2, h, NULL) { HashedBucket(c1, b, h); }
    HashedUnuseds(c, c1, b);
    HashedSame(c1, b);
    hide RingOk, Listed, BucketOk, Hashed, Belongs;
    forall d | 0 <= d < |c.heads| ensures SameButLinks(c2.heads[d], c.heads[d]) {
      assert SameButLinks(c2.heads[d], c1.heads[d]) && SameButLinks(c1.heads[d], c.heads[d]);
    }
  }

  lemma HashedSame(c: Cache, b: nat)
    requires b < |c.heads| && |c.hash| == |c.chains| == NR_HASH && NULL <= c.hash[BucketOf(c, b)] < |c.heads|
    ensures var c' := Hashed(c, b);
            && |c'.heads| == |c.heads| && c'.free == c.free && c'.ring == c.ring && |c'.hash| == |c'.chains| == NR_HASH
            && forall d | 0 <= d < |c.heads| :: SameButLinks(c'.heads[d], c.heads[d])
  {}

  lemma HashedUnuseds(c: Cache, c1: Cache, b: nat)
    requires b < |c.heads| == |c1.heads| && |c1.hash| == |c1.chains| == NR_HASH && BucketOk(c1, BucketOf(c1, b), b)
    requires NULL <= c1.hash[BucketOf(c1, b)] < |c1.heads|
    requires forall d | 0 <= d < |c.heads| && d != b && c.heads[d].dev == 0 :: c.heads[d].prev == c.heads[d].next == NULL
    requires forall d | 0 <= d < |c.heads| ::
               SameButLinks(c1.heads[d], c.heads[d]) && c1.heads[d].next == c.heads[d].next && c1.heads[d].prev == c.heads[d].prev
    ensures forall d | 0 <= d < |c1.heads| && Hashed(c1, b).heads[d].dev == 0 ::
              Hashed(c1, b).heads[d].prev == Hashed(c1, b).heads[d].next == NULL
  {
    forall d | 0 <= d < |c1.heads| && Hashed(c1, b).heads[d].dev == 0
      ensures Hashed(c1, b).heads[d].prev == Hashed(c1, b).heads[d].next == NULL {
      HashedUnused(c1, b, d);
    }
  }

  lemma HashedUnused(c: Cache, b: nat, d: nat)
    requires b < |c.heads| && |c.hash| == |c.chains| == NR_HASH && BucketOk(c, BucketOf(c, b), b) && d < |c.heads|
    requires c.heads[d].dev == 0 && (d != b ==> c.heads[d].prev == c.heads[d].next == NULL)
    ensures NULL <= c.hash[BucketOf(c, b)] < |c.heads|
    ensures Hashed(c, b).heads[d].prev == Hashed(c, b).heads[d].next == NULL
  {
    var g := BucketOf(c, b);
    assert !Belongs(c.heads, d, g);
    assert c.hash[g] >= 0 ==> c.chains[g][0] in c.chains[g];
  }

  predicate Holds(b: Header, dev: nat, block: nat) { b.dev == dev && b.block == block }

  /** No two buffers hold the same block. */
  ghost predicate Unique(heads: seq<Header>) {
    forall b, d | 0 <= b < d < |heads| && heads[b].dev != 0 :: !Holds(heads[d], heads[b].dev, heads[b].block)
  }

  lemma NotItsOwnNeighbour(c: Cache, b: nat)
    requires InvBut(c, NULL) && b < |c.heads|
    ensures c.heads[b].next != b && c.heads[b].prev != b
  {
    if c.heads[b].dev != 0 {
      var g := BucketOf(c, b);
      assert BucketOk(c, g, NULL) && Belongs(c.heads, b, g);
      UnchainKeeps(c.heads, c.hash[g], c.chains[g], PositionOf(c.chains[g], b));
    }
  }

  class Buffers {
    const heads: array<Header>
    const hash: array<int>
    var freeList: int
    ghost var ring: seq<int>
    ghost var chains: seq<seq<int>>

    ghost function Snap(): Cache
      reads this, heads, hash
    {
      Cache(heads[..], hash[..], freeList, ring, chains)
    }

    ghost predicate Valid()
      reads this, heads, hash
    {
      InvBut(Snap(), NULL) && Unique(heads[..])
    }

    /** buffer_init: n unused buffers in a circle, and empty chains. */
    constructor (n: nat)
      requires n > 0
      ensures Valid() && fresh(heads) && fresh(hash) && heads.Length == n
      ensures forall b | 0 <= b < n ::
                SameButLinks(heads[b], Header(0, 0, false, false, 0, false, NULL, NULL, NULL, NULL))
    {
      heads := new Header[n](b => Header(0, 0, false, false, 0, false, NULL, NULL, Before(n, b), After(n, b)));
      hash := new int[NR_HASH](_ => NULL);
      freeList := 0;
      ring := seq(n, b => b);
      chains := seq(NR_HASH, _ => []);
      new;
      ghost var c := Snap();
      forall k | 0 <= k < n ensures Ringed(c.heads, ring, k) {}
      forall b ensures b in ring <==> 0 <= b < n { if 0 <= b < n { assert ring[b] == b; } }
      forall h | 0 <= h < NR_HASH ensures BucketOk(c, h, NULL) {}
    }

    /** remove_from_queues, first half: out of the hash chain. */
    method Unhash(b: nat)
      requires LinksInRange(Snap().heads, b) && hash.Length == |chains| == NR_HASH
      requires heads[b].next != b && heads[b].prev != b
      modifies this, heads, hash
      ensures Snap() == Unhashed(old(Snap()), b)
    {
      var next, prev := heads[b].next, heads[b].prev;
      if next != NULL {
        heads[next] := heads[next].(prev := prev);
      }
      if prev != NULL {
        heads[prev] := heads[prev].(next := next);
      }
      var h := Hash(heads[b].dev, heads[b].block);
      if hash[h] == b {
        hash[h] := next;
      }
      chains := chains[h := Without(chains[h], b)];
    }

    /** remove_from_queues, second half: out of the circular list. */
    method Unlist(b: nat)
      requires LinksInRange(Snap().heads, b)
      modifies this, heads
      ensures Snap() == Unlisted(old(Snap()), b)
    {
      var prevFree, nextFree := heads[b].prevFree, heads[b].nextFree;
      heads[prevFree] := heads[prevFree].(nextFree := nextFree);
      heads[nextFree] := heads[nextFree].(prevFree := prevFree);
      if freeList == b {
        freeList := nextFree;
      }
      ring := Left(ring, b);
    }

    method RemoveFromQueues(b: nat)
      requires InvBut(Snap(), NULL) && b < heads.Length
      modifies this, heads, hash
      ensures InvBut(Snap(), b) && ring == Left(old(ring), b)
      ensures forall d | 0 <= d < heads.Length :: SameButLinks(heads[d], old(heads[d]))
    {
      RemoveKeeps(Snap(), b);
      NotItsOwnNeighbour(Snap(), b);
      Unhash(b);
      Unlist(b);
    }

    /** insert_into_queues, first half: at the end of the circular list. */
    method List(b: nat)
      requires b < heads.Length && 0 <= freeList < heads.Length && 0 <= heads[freeList].prevFree < heads.Length
      modifies this, heads
      ensures Snap() == Listed(old(Snap()), b)
    {
      var last := heads[freeList].prevFree;
      heads[b] := heads[b].(nextFree := freeList, prevFree := last);
      heads[last] := heads[last].(nextFree := b);
      heads[freeList] := heads[freeList].(prevFree := b);
      ring := Joined(ring, b);
    }

    /** insert_into_queues, second half: at the front of the chain of its block, if it has one. */
    method HashIn(b: nat)
      requires b < heads.Length && hash.Length == |chains| == NR_HASH
      requires NULL <= hash[Hash(heads[b].dev, heads[b].block)] < heads.Length
      modifies this, heads, hash
      ensures Snap() == Hashed(old(Snap()), b)
    {
      if heads[b].dev == 0 {
        heads[b] := heads[b].(prev := NULL, next := NULL);
        return;
      }
      var h := Hash(heads[b].dev, heads[b].block);
      var first := hash[h];
      heads[b] := heads[b].(prev := NULL, next := first);
      hash[h] := b;
      if first != NULL {
        heads[first] := heads[first].(prev := b);
      }
      chains := chains[h := [b] + chains[h]];
    }

    method InsertIntoQueues(b: nat)
      requires InvBut(Snap(), b) && b < heads.Length
      modifies this, heads, hash
      ensures InvBut(Snap(), NULL) && ring == Joined(old(ring), b)
      ensures forall d | 0 <= d < heads.Length :: SameButLinks(heads[d], old(heads[d]))
    {
      InsertKeeps(Snap(), b);
      ListedKeeps(Snap(), b);
      List(b);
      HashIn(b);
    }

    /** The buffer that holds the block, NULL if and only if none does; device 0 marks an unused buffer. */
    method FindBuffer(dev: nat, block: nat) returns (tmp: int)
      requires InvBut(Snap(), NULL)
      ensures tmp != NULL ==> 0 <= tmp < heads.Length && Holds(heads[tmp], dev, block)
      ensures tmp == NULL <==> dev == 0 || forall b | 0 <= b < heads.Length :: !Holds(heads[b], dev, block)
    {
      ghost var c, h := Snap(), Hash(dev, block);
      assert BucketOk(c, h, NULL);
      ghost var k := 0;
      tmp := hash[Hash(dev, block)];
      while tmp != NULL
        invariant 0 <= k <= |chains[h]| && tmp == NextIn([NULL] + chains[h], k)
        invariant forall j | 0 <= j < k :: !Holds(heads[chains[h][j]], dev, block)
        decreases |chains[h]| - k
      {
        assert tmp == chains[h][k] && c.heads[chains[h][k]].next == NextIn(chains[h], k);
        assert Belongs(c.heads, tmp, h) by { assert tmp in chains[h]; }
        if Holds(heads[tmp], dev, block) {
          return;
        }
        tmp := heads[tmp].next;
        k := k + 1;
      }
      forall b | 0 <= b < heads.Length && dev != 0 ensures !Holds(heads[b], dev, block) {
        if Belongs(c.heads, b, h) { assert chains[h][PositionOf(chains[h], b)] == b; }
      }
    }

    /** getblk's choice of a buffer to reuse: of the free ones the best, of those the first in the list. */
    method ChooseBuffer() returns (bh: int)
      requires Valid()
      ensures bh == NULL <==> forall b | 0 <= b < heads.Length :: heads[b].count > 0
      ensures bh != NULL ==>
                && bh in ring && 0 <= bh < heads.Length && heads[bh].count == 0
                && (forall b | 0 <= b < heads.Length && heads[b].count == 0 :: Badness(heads[bh]) <= Badness(heads[b]))
                && forall j | 0 <= j < PositionOf(ring, bh) && 0 <= ring[j] < heads.Length && heads[ring[j]].count == 0 ::
                     Badness(heads[bh]) < Badness(heads[ring[j]])
    {
      ghost var at;
      bh, at := ScanList();
      forall b | 0 <= b < heads.Length && heads[b].count == 0
        ensures bh != NULL && Badness(heads[bh]) <= Badness(heads[b]) {
        assert b in ring;
        assert heads[ring[PositionOf(ring, b)]].count == 0;
      }
      if bh != NULL { PositionIs(ring, heads.Length, at); }
    }

    /** The do-while loop of getblk over the circular list. */
    method ScanList() returns (bh: int, ghost at: nat)
      requires RingOk(Snap().heads, freeList, ring)
      ensures bh == NULL <==> forall j | 0 <= j < |ring| :: heads[ring[j]].count > 0
      ensures bh != NULL ==>
                && at < |ring| && bh == ring[at] && heads[bh].count == 0
                && forall j | 0 <= j < |ring| && heads[ring[j]].count == 0 ::
                     Badness(heads[bh]) <= Badness(heads[ring[j]]) && (j < at ==> Badness(heads[bh]) < Badness(heads[ring[j]]))
    {
      ghost var c := Snap();
      ghost var k := 0;
      var tmp := freeList;
      bh, at := NULL, 0;
      while true
        invariant 0 <= k < |ring| && tmp == ring[k]
        invariant bh == NULL <==> forall j | 0 <= j < k :: heads[ring[j]].count > 0
        invariant bh != NULL ==> at < k && bh == ring[at] && heads[bh].count == 0 && Badness(heads[bh]) > 0
        invariant bh != NULL ==> forall j | 0 <= j < k && heads[ring[j]].count == 0 ::
                    Badness(heads[bh]) <= Badness(heads[ring[j]]) && (j < at ==> Badness(heads[bh]) < Badness(heads[ring[j]]))
        decreases |ring| - k
      {
        if heads[tmp].count == 0 && (bh == NULL || Badness(heads[tmp]) < Badness(heads[bh])) {
          bh, at := tmp, k;
          if Badness(heads[tmp]) == 0 {
            return;
          }
        }
        assert Ringed(c.heads, ring, k);
        tmp := heads[tmp].nextFree;
        if tmp == freeList {
          assert k == |ring| - 1;
          return;
        }
        k := k + 1;
      }
    }

    /** The end of getblk: the buffer is given to a block that no buffer holds, and goes to the end of the
        list. */
    method Reuse(b: nat, dev: nat, block: nat)
      requires Valid() && b < heads.Length && dev != 0
      requires forall d | 0 <= d < heads.Length :: !Holds(heads[d], dev, block)
      modifies this, heads, hash
      ensures Valid() && ring == Without(old(ring), b) + [b]
      ensures var o := old(heads[b]);
              SameButLinks(heads[b], o.(dev := dev, block := block, count := 1, dirt := false, uptodate := false))
      ensures forall d | 0 <= d < heads.Length && d != b :: SameButLinks(heads[d], old(heads[d]))
    {
      ghost var c := Snap();
      LeaveAndJoin(c, b);
      hide InvBut, Without, Left, Joined;
      heads[b] := heads[b].(count := 1, dirt := false, uptodate := false);
      FieldsKeep(c, Snap(), b, NULL);
      RemoveFromQueues(b);
      ghost var c1 := Snap();
      heads[b] := heads[b].(dev := dev, block := block);
      FieldsKeep(c1, Snap(), b, b);
      InsertIntoQueues(b);
      ghost var c2 := Snap();
      StillUnique(c.heads, c2.heads, b, dev, block);
    }
  }

  lemma StillUnique(a: seq<Header>, h: seq<Header>, b: nat, dev: nat, block: nat)
    requires Unique(a) && |h| == |a| && b < |a| && Holds(h[b], dev, block) && forall d | 0 <= d < |a| :: !Holds(a[d], dev, block)
    requires forall d | 0 <= d < |a| && d != b :: h[d].dev == a[d].dev && h[d].block == a[d].block
    ensures Unique(h)
  {}

  lemma LeaveAndJoin(c: Cache, b: nat)
    requires InvBut(c, NULL) && b < |c.heads|
    ensures Joined(Left(c.ring, b), b) == Without(c.ring, b) + [b]
  {
    CutPlaces(c.ring, PositionOf(c.ring, b), |c.heads|);
  }

  lemma PositionIs(list: seq<int>, n: nat, k: nat)
    requires Places(list, n) && k < |list|
    ensures PositionOf(list, list[k]) == k
  {
  }

  /** The fields of a buffer that its place in the queues does not depend on. */
  lemma FieldsKeep(c: Cache, c': Cache, b: nat, x: int)
    requires InvBut(c, x) && b < |c.heads| == |c'.heads| && c' == c.(heads := c'.heads)
    requires forall d | 0 <= d < |c.heads| && d != b :: c'.heads[d] == c.heads[d]
    requires c'.heads[b].prev == c.heads[b].prev && c'.heads[b].next == c.heads[b].next
    requires c'.heads[b].prevFree == c.heads[b].prevFree && c'.heads[b].nextFree == c.heads[b].nextFree
    requires b == x || (c'.heads[b].dev == c.heads[b].dev && c'.heads[b].block == c.heads[b].block)
    ensures InvBut(c', x)
  {
    RingApart(c.heads, c'.heads, c.free, c.ring);
    forall h | 0 <= h < NR_HASH ensures BucketOk(c', h, x) {
      assert BucketOk(c, h, x);
      ChainApart(c.heads, c'.heads, c.hash[h], c.chains[h]);
      assert forall d :: d != x ==> (Belongs(c'.heads, d, h) <==> Belongs(c.heads, d, h));
    }
  }
}
