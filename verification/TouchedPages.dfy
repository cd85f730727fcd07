/** Which pages have been stored into, by the history of operations alone; only the others may be handed to another
    task. */
module TouchedPages {
  import opened PagingSpec
  import opened PagingProofs
  import opened ForkProofs

  /** Pages, by directory entry and index. */
  type Marks = iset<(int, int)>

  /** The pages whose words have the dirty bit. */
  ghost function Dirty(s: State): Marks { iset d: int, i: int | PteAt(s, d, i).present && PteAt(s, d, i).dirty :: (d, i) }

  /** The pages stored into: a child has its parent's, and a new or freed page is none. */
  ghost function Touch(t: Marks, op: Op, out: Outcome): Marks {
    if out == Refused then t else
    match op
    case Fork(from, to, n) =>
      iset d: int, i: int | ForkMarks(t, from, to, n, d, i) :: (d, i)
    case Store(d, i, _, _) => t + iset{(d, i)}
    case MapEmpty(d, i) => t - iset{(d, i)}
    case Share(from, to, i) => if (from, i) in t then t + iset{(to, i)} else t - iset{(to, i)}
    case Free(base, n) => iset d: int, i: int | (d, i) in t && !(base <= d < base + n) :: (d, i)
  }

  ghost predicate ForkMarks(t: Marks, from: nat, to: nat, n: nat, d: int, i: int) {
    if to <= d < to + n then i < ForkLimit(from) && (d - to + from, i) in t else (d, i) in t
  }

  /** The pages stored into in a run. */
  ghost function TouchRun(t: Marks, ops: seq<Op>, outs: seq<Outcome>): Marks
    requires |outs| == |ops|
  {
    if ops == [] then t else Touch(TouchRun(t, ops[..|ops| - 1], outs[..|ops| - 1]), ops[|ops| - 1], outs[|ops| - 1])
  }

  lemma ForkTouches(s0: State, s: State, from: nat, to: nat, n: nat)
    requires ForkArgs(s0, from, to, n) && Forking(s0, s, from, to, ForkLimit(from), n, 0)
    ensures Dirty(s) == Touch(Dirty(s0), Fork(from, to, n), Done)
  {
    forall d: int, i: int ensures (d, i) in Dirty(s) <==> (d, i) in Touch(Dirty(s0), Fork(from, to, n), Done) {
      assert PteAt(s, d, i) == ForkedPte(s0, from, to, ForkLimit(from), n, 0, d, i);
    }
  }

  lemma FailedForkTouchesNone(s0: State, s: State, s': State, from: nat, to: nat, n: nat, k: nat)
    requires ForkArgs(s0, from, to, n) && k <= n && Copied(s0, s, from, to, ForkLimit(from), k) && Stripped(s, s', to, n)
    ensures Dirty(s') == Dirty(s0)
  {
    forall d: int, i: int ensures (d, i) in Dirty(s') <==> (d, i) in Dirty(s0) {
      assert PteAt(s, d, i) == ForkedPte(s0, from, to, ForkLimit(from), k, 0, d, i);
    }
  }

  /** One word has changed. */
  lemma WordTouched(s: State, s': State, d: int, i: int)
    requires forall d', i' | !(d' == d && i' == i) :: PteAt(s', d', i') == PteAt(s, d', i')
    ensures Dirty(s') == if PteAt(s', d, i).present && PteAt(s', d, i).dirty then Dirty(s) + iset{(d, i)} else Dirty(s) - iset{(d, i)}
  {
    forall d': int, i': int | !(d' == d && i' == i) ensures (d', i') in Dirty(s') <==> (d', i') in Dirty(s) { }
  }

  lemma SameTouched(s: State, s': State)
    requires forall d, i :: PteAt(s', d, i) == PteAt(s, d, i)
    ensures Dirty(s') == Dirty(s)
  {
    forall d: int, i: int ensures (d, i) in Dirty(s') <==> (d, i) in Dirty(s) { }
  }

  lemma FreeTouches(s: State, s': State, base: nat, n: nat)
    requires forall d, i :: PteAt(s', d, i) == if base <= d < base + n then NONE else PteAt(s, d, i)
    ensures Dirty(s') == Touch(Dirty(s), Free(base, n), Done)
  {
    forall d: int, i: int ensures (d, i) in Dirty(s') <==> (d, i) in Touch(Dirty(s), Free(base, n), Done) { }
  }

  /** A store marks its page. */
  lemma StoreTouches(s: State, s1: State, d: nat, i: nat, offset: nat, b: Byte)
    requires Inv(s1) && DiffersAt(s, s1, d, i) && HasPte(s1, d, i) && PteAt(s1, d, i).present && offset < PAGE_SIZE
    ensures Dirty(Write(s1, d, i, offset, b)) == Dirty(s) + iset{(d, i)}
  {
    var e := Pte(true, PteAt(s1, d, i).rw, true, PteAt(s1, d, i).frame);
    SetPteOnly(s1, d, i, e);
    var s' := Write(s1, d, i, offset, b);
    forall d', i' ensures PteAt(s', d', i') == PteAt(SetPte(s1, d, i, e), d', i') { }
    WordTouched(s, s', d, i);
  }

  /** Sharing a page leaves it as clean as it was, in both places. */
  lemma AliasTouches(s: State, s': State, from: nat, to: nat, i: nat)
    requires PteAt(s, from, i).present && PteAt(s', from, i) == PteAt(s', to, i) == ReadOnly(PteAt(s, from, i))
    requires forall d, x | !(d == to && x == i) && !(d == from && x == i) :: PteAt(s', d, x) == PteAt(s, d, x)
    ensures Dirty(s') == Touch(Dirty(s), Share(from, to, i), Done)
  {
    forall d: int, x: int ensures (d, x) in Dirty(s') <==> (d, x) in Touch(Dirty(s), Share(from, to, i), Done) { }
  }

  lemma TouchRunMore(t: Marks, ops: seq<Op>, outs: seq<Outcome>, op: Op, out: Outcome)
    requires |outs| == |ops|
    ensures TouchRun(t, ops + [op], outs + [out]) == Touch(TouchRun(t, ops, outs), op, out)
  {
    assert (ops + [op])[..|ops|] == ops && (outs + [out])[..|ops|] == outs;
  }
}
