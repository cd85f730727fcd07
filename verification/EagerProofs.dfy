/** Runs of the eager machine, and what one task can do to another in them. */
module EagerProofs {
  import opened PagingSpec

  lemma EagerStepFilled(e: Eager, op: Op, out: Outcome)
    requires WellFilled(e) && Legal(op)
    ensures WellFilled(EagerStep(e, op, out))
    ensures |EagerStep(e, op, out).kernel| == |e.kernel|
  {
    if op.Fork? { ForkFilled(e, op.from, op.to, if op.from == 0 then LOW_COPY else ENTRIES, op.n); }
    if op.Free? { FreeFilled(e, op.base, op.n); }
    hide EagerFork, EagerFree;
  }

  lemma ForkFilled(e: Eager, from: nat, to: nat, limit: nat, n: nat)
    requires WellFilled(e) && from + TASK_DIRS <= |e.view| && n <= TASK_DIRS
    ensures WellFilled(EagerFork(e, from, to, limit, n)) && EagerFork(e, from, to, limit, n).kernel == e.kernel
  {}

  lemma FreeFilled(e: Eager, base: nat, n: nat)
    requires WellFilled(e)
    ensures WellFilled(EagerFree(e, base, n)) && EagerFree(e, base, n).kernel == e.kernel
  {}

  /** The eager machine performs the operations one after the other, with the given outcomes. */
  function EagerRun(e: Eager, ops: seq<Op>, outs: seq<Outcome>): (r: Eager)
    requires WellFilled(e) && |outs| == |ops| && forall op | op in ops :: Legal(op)
    ensures WellFilled(r)
  {
    if |ops| == 0 then e
    else
      EagerStepFilled(EagerRun(e, ops[..|ops| - 1], outs[..|ops| - 1]), ops[|ops| - 1], outs[|ops| - 1]);
      EagerStep(EagerRun(e, ops[..|ops| - 1], outs[..|ops| - 1]), ops[|ops| - 1], outs[|ops| - 1])
  }

  lemma EagerRunMore(e: Eager, ops: seq<Op>, outs: seq<Outcome>, op: Op, out: Outcome)
    requires WellFilled(e) && |outs| == |ops| && Legal(op) && forall o | o in ops :: Legal(o)
    ensures EagerRun(e, ops + [op], outs + [out]) == EagerStep(EagerRun(e, ops, outs), op, out)
  {
    assert (ops + [op])[..|ops|] == ops && (outs + [out])[..|ops|] == outs;
  }

  /** The directory entries whose pages an operation may change. */
  predicate Changes(op: Op, d: nat) {
    match op
    case Fork(_, to, n) => to <= d < to + n
    case Store(d', _, _, _) => d' == d
    case MapEmpty(d', _) => d' == d
    case Share(_, to, _) => to == d
    case Free(base, n) => base <= d < base + n
  }

  lemma StepElsewhere(e: Eager, op: Op, out: Outcome, d: nat)
    requires WellFilled(e) && d < |e.view| && Legal(op) && !Changes(op, d)
    ensures EagerStep(e, op, out).view[d] == e.view[d]
    ensures out != KernelWrite ==> EagerStep(e, op, out).kernel == e.kernel
  {
  }

  /** In any run, a task's own pages change only by its own operations: if nothing is done to directory
      entry d, then whatever its neighbours and former relatives do, it sees what it saw; the bytes of kernel pages
      change only by stores into the kernel's own memory. */
  lemma {:induction false} Isolation(e: Eager, ops: seq<Op>, outs: seq<Outcome>, d: nat)
    requires WellFilled(e) && |outs| == |ops| && d < |e.view| && forall op | op in ops :: Legal(op) && !Changes(op, d)
    ensures EagerRun(e, ops, outs).view[d] == e.view[d]
    ensures KernelWrite !in outs ==> EagerRun(e, ops, outs).kernel == e.kernel
  {
    hide EagerStep, Legal, Changes;
    if |ops| > 0 {
      var n := |ops| - 1;
      Isolation(e, ops[..n], outs[..n], d);
      StepElsewhere(EagerRun(e, ops[..n], outs[..n]), ops[n], outs[n], d);
      assert outs == outs[..n] + [outs[n]];
    }
  }
}
