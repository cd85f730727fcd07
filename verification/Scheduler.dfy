/** Choosing the next task to run, kernel/sched.c. */
module Scheduler {
  datatype State = Running | Interruptible | Other

  /** A slot of the task table. */
  datatype Slot = Empty | Task(pid: int, state: State, counter: int, priority: int, alarm: int, signal: bv32, blocked: bv32)

  predicate CanRun(t: Slot) { t.Task? && t.state == Running }

  function Raise(signal: bv32, n: bv5): bv32 { signal | (1 << n) }

  /** A signal is pending that is not blocked; SIGKILL (9) and SIGSTOP (19) cannot be. */
  predicate Signalled(signal: bv32, blocked: bv32) { signal & !(blocked & 0xFFFB_FEFF) != 0 }

  /** One turn of schedule's first loop: raise SIGALRM (14) when the alarm has expired, and wake an interruptible
      task that has a signal. */
  function Roused(t: Slot, jiffies: int): Slot {
    if t.Empty? then t else Wakened(Alarmed(t, jiffies))
  }

  function Alarmed(t: Slot, jiffies: int): (r: Slot)
    requires t.Task?
    ensures r.Task?
  {
    if t.alarm != 0 && t.alarm < jiffies then t.(signal := Raise(t.signal, 13), alarm := 0) else t
  }

  function Wakened(t: Slot): (r: Slot)
    requires t.Task?
    ensures r.Task?
  {
    if Signalled(t.signal, t.blocked) && t.state == Interruptible then t.(state := Running) else t
  }

  function Refilled(t: Slot): Slot {
    if t.Empty? then t else t.(counter := t.counter / 2 + t.priority)
  }

  /** Both loops leave task 0 alone. */
  function AllRoused(tasks: seq<Slot>, jiffies: int): (r: seq<Slot>)
    ensures |r| == |tasks| && forall i | 0 <= i < |tasks| :: r[i] == if i == 0 then tasks[i] else Roused(tasks[i], jiffies)
  {
    seq(|tasks|, i requires 0 <= i < |tasks| => if i == 0 then tasks[i] else Roused(tasks[i], jiffies))
  }

  function AllRefilled(tasks: seq<Slot>): (r: seq<Slot>)
    ensures |r| == |tasks| && forall i | 0 <= i < |tasks| :: r[i] == if i == 0 then tasks[i] else Refilled(tasks[i])
  {
    seq(|tasks|, i requires 0 <= i < |tasks| => if i == 0 then tasks[i] else Refilled(tasks[i]))
  }

  // ---- what schedule chooses --------------------------------------------------

  /** next and c are what the scan from the top of the table down to from finds: the task that can run with the
      largest counter, the highest-numbered if several have it; 0 with -1 when none can run. */
  ghost predicate Best(tasks: seq<Slot>, from: nat, next: nat, c: int) {
    && (forall i | from <= i < |tasks| && CanRun(tasks[i]) :: tasks[i].counter <= c)
    && (c == -1 ==> next == 0)
    && (c != -1 ==> c >= 0 && from <= next < |tasks| && CanRun(tasks[next]) && tasks[next].counter == c)
    && (c != -1 ==> forall i | next < i < |tasks| && CanRun(tasks[i]) :: tasks[i].counter < c)
  }

  lemma BestIsOne(tasks: seq<Slot>, n: nat, c: int, n': nat, c': int)
    requires Best(tasks, 1, n, c) && Best(tasks, 1, n', c') && c >= -1 && c' >= -1
    ensures n == n' && c == c'
  {
    if c != -1 { assert CanRun(tasks[n]); }
    if c' != -1 { assert CanRun(tasks[n']); }
  }

  /** schedule, from one table and current task to the next. */
  ghost predicate Scheduled(tasks: seq<Slot>, jiffies: int, after: seq<Slot>, next: nat) {
    var roused := AllRoused(tasks, jiffies);
    exists n, c :: Best(roused, 1, n, c) && c >= -1 &&
      if c != 0 then after == roused && next == n
      else after == AllRefilled(roused) && exists c' :: c' > 0 && Best(after, 1, next, c')
  }

  // ---- runs -------------------------------------------------------------------

  /** The table, the running task, and the largest priority each task has held. */
  datatype Sys = Sys(tasks: seq<Slot>, current: nat, most: seq<int>)

  predicate SlotOk(t: Slot, most: int) { t.Task? ==> 0 < t.priority <= most && 0 <= t.counter <= 2 * most - 1 }

  predicate Inv(s: Sys) {
    && s.current < |s.tasks| == |s.most|
    && s.tasks[0].Task? && s.tasks[s.current].Task?
    && forall i | 0 <= i < |s.tasks| :: SlotOk(s.tasks[i], s.most[i])
  }

  datatype Event =
    | Tick(user: bool, jiffies: int)
    | Yield(jiffies: int)
    | Nice(increment: int)
    | Change(i: nat, state: State, alarm: int, signal: bv32, blocked: bv32)
    | Fork(i: nat, pid: int)
    | Release(i: nat)

  /** do_timer's charge to the running task. */
  function Charged(t: Slot): Slot { if t.Empty? then t else t.(counter := if t.counter > 1 then t.counter - 1 else 0) }

  function Niced(t: Slot, increment: int): Slot {
    if t.Task? && t.priority - increment > 0 then t.(priority := t.priority - increment) else t
  }

  /** The parts of copy_process that matter here: the child starts with its priority as its counter. */
  function Child(t: Slot, pid: int): Slot {
    if t.Empty? then t else Task(pid, Running, t.priority, t.priority, 0, 0, t.blocked)
  }

  predicate PidFree(tasks: seq<Slot>, pid: int) { forall i | 0 <= i < |tasks| :: tasks[i].Task? ==> tasks[i].pid != pid }

  predicate PidsDistinct(tasks: seq<Slot>) {
    forall i, j | 0 <= i < j < |tasks| :: tasks[i].Task? && tasks[j].Task? ==> tasks[i].pid != tasks[j].pid
  }

  ghost predicate Next(s: Sys, e: Event, n: Sys)
    requires Inv(s)
  {
    match e
    case Tick(user, jiffies) =>
      var t := Charged(s.tasks[s.current]);
      && n.most == s.most
      && if user && t.counter == 0 then Scheduled(s.tasks[s.current := t], jiffies, n.tasks, n.current)
         else n.tasks == s.tasks[s.current := t] && n.current == s.current
    case Yield(jiffies) => n.most == s.most && Scheduled(s.tasks, jiffies, n.tasks, n.current)
    case Nice(increment) =>
      var t := Niced(s.tasks[s.current], increment);
      && n.tasks == s.tasks[s.current := t] && n.current == s.current
      && n.most == s.most[s.current := if t.priority > s.most[s.current] then t.priority else s.most[s.current]]
    case Change(i, state, alarm, signal, blocked) =>
      && i < |s.tasks| && s.tasks[i].Task? && n.current == s.current && n.most == s.most
      && n.tasks == s.tasks[i := s.tasks[i].(state := state, alarm := alarm, signal := signal, blocked := blocked)]
    case Fork(i, pid) =>
      && 0 < i < |s.tasks| && s.tasks[i].Empty? && PidFree(s.tasks, pid) && n.current == s.current
      && n.tasks == s.tasks[i := Child(s.tasks[s.current], pid)] && n.most == s.most[i := s.tasks[s.current].priority]
    case Release(i) =>
      && 0 < i < |s.tasks| && i != s.current && n.current == s.current && n.most == s.most
      && n.tasks == s.tasks[i := Empty]
  }

  lemma RefillOk(t: Slot, most: int)
    requires SlotOk(t, most)
    ensures SlotOk(Refilled(t), most) && (t.Task? ==> Refilled(t).counter > 0)
  {}

  /** One refill is enough: the scan after it finds a positive counter. */
  lemma RefillIsEnough(tasks: seq<Slot>, most: seq<int>, n: nat, n': nat, c: int)
    requires |tasks| == |most| && (forall i | 0 <= i < |tasks| :: SlotOk(tasks[i], most[i]))
    requires Best(tasks, 1, n, 0) && Best(AllRefilled(tasks), 1, n', c)
    ensures c > 0
  {
    RefillOk(tasks[n], most[n]);
    assert CanRun(AllRefilled(tasks)[n]);
  }

  lemma ScheduleKeeps(s: Sys, tasks: seq<Slot>, jiffies: int, n: Sys)
    requires Inv(s) && Inv(s.(tasks := tasks)) && Scheduled(tasks, jiffies, n.tasks, n.current) && n.most == s.most
    ensures Inv(n)
  {
    hide Raise, Signalled;
    var r := AllRoused(tasks, jiffies);
    forall i | 0 <= i < |r| ensures SlotOk(r[i], s.most[i]) { assert SlotOk(tasks[i], s.most[i]); }
    forall i | 0 <= i < |r| ensures SlotOk(AllRefilled(r)[i], s.most[i]) { RefillOk(r[i], s.most[i]); }
  }

  /** Every counter stays within 0 and twice the task's largest priority, less one; the running task exists. */
  lemma NextKeeps(s: Sys, e: Event, n: Sys)
    requires Inv(s) && Next(s, e, n)
    ensures Inv(n)
  {
    assert SlotOk(s.tasks[s.current], s.most[s.current]);
    match e
    case Tick(user, jiffies) =>
      var tasks := s.tasks[s.current := Charged(s.tasks[s.current])];
      forall i | 0 <= i < |tasks| ensures SlotOk(tasks[i], s.most[i]) { assert SlotOk(s.tasks[i], s.most[i]); }
      if user && tasks[s.current].counter == 0 { ScheduleKeeps(s, tasks, jiffies, n); }
    case Yield(jiffies) => ScheduleKeeps(s, s.tasks, jiffies, n);
    case _ =>
      forall i | 0 <= i < |n.tasks| ensures SlotOk(n.tasks[i], n.most[i]) { assert SlotOk(s.tasks[i], s.most[i]); }
  }

  lemma PidsStayDistinct(s: Sys, e: Event, n: Sys)
    requires Inv(s) && Next(s, e, n) && PidsDistinct(s.tasks)
    ensures PidsDistinct(n.tasks)
  {
    forall i, j | 0 <= i < j < |n.tasks| && n.tasks[i].Task? && n.tasks[j].Task? ensures n.tasks[i].pid != n.tasks[j].pid {
      PidStays(s, e, n, i);
      PidStays(s, e, n, j);
    }
  }

  lemma PidStays(s: Sys, e: Event, n: Sys, i: nat)
    requires Inv(s) && Next(s, e, n) && i < |n.tasks| && n.tasks[i].Task?
    ensures |n.tasks| == |s.tasks|
    ensures if e.Fork? && e.i == i then n.tasks[i].pid == e.pid else s.tasks[i].Task? && s.tasks[i].pid == n.tasks[i].pid
  {
    match e {
      case Tick(user, jiffies) =>
        var tasks := s.tasks[s.current := Charged(s.tasks[s.current])];
        if user && Charged(s.tasks[s.current]).counter == 0 { SchedulePids(tasks, jiffies, n.tasks, n.current, i); }
        hide Scheduled;
      case Yield(jiffies) =>
        SchedulePids(s.tasks, jiffies, n.tasks, n.current, i);
        hide Scheduled;
      case _ =>
    }
  }

  lemma SchedulePids(tasks: seq<Slot>, jiffies: int, after: seq<Slot>, next: nat, i: nat)
    requires Scheduled(tasks, jiffies, after, next) && i < |after| && after[i].Task?
    ensures |after| == |tasks| && tasks[i].Task? && tasks[i].pid == after[i].pid
  {
    hide Raise, Signalled, Best;
  }

  // ---- progress ---------------------------------------------------------------

  function Weight(t: Slot): int { if t.Task? then t.counter else 0 }

  /** The counters of all tasks but x. */
  function Others(tasks: seq<Slot>, x: nat): int {
    if tasks == [] then 0 else
      var k := |tasks| - 1; Others(tasks[..k], x) + if k == x then 0 else Weight(tasks[k])
  }

  lemma {:induction false} OthersSame(a: seq<Slot>, b: seq<Slot>, x: nat)
    requires |a| == |b| && forall i | 0 <= i < |a| :: Weight(a[i]) == Weight(b[i])
    ensures Others(a, x) == Others(b, x)
  {
    if a != [] { OthersSame(a[..|a| - 1], b[..|b| - 1], x); }
  }

  lemma {:induction false} OthersSet(a: seq<Slot>, i: nat, t: Slot, x: nat)
    requires i < |a| && i != x
    ensures Others(a[i := t], x) == Others(a, x) - Weight(a[i]) + Weight(t)
  {
    var k := |a| - 1;
    if i == k { assert a[i := t][..k] == a[..k]; } else {
      OthersSet(a[..k], i, t, x);
      assert a[i := t][..k] == a[..k][i := t];
    }
  }

  lemma {:induction false} OthersAtLeast(a: seq<Slot>, i: nat, x: nat)
    requires forall k | 0 <= k < |a| :: Weight(a[k]) >= 0
    ensures Others(a, x) >= 0 && (i < |a| && i != x ==> Others(a, x) >= Weight(a[i]))
  {
    if a != [] { OthersAtLeast(a[..|a| - 1], i, x); }
  }

  /** What is left to run before x must be chosen. */
  function Left(s: Sys, x: nat): int
    requires s.current < |s.tasks|
  {
    Others(s.tasks, x) + if Weight(s.tasks[s.current]) == 0 then 1 else 0
  }

  predicate Waits(s: Sys, x: nat) {
    1 <= x < |s.tasks| && CanRun(s.tasks[x]) && s.tasks[x].counter > 0 && s.current != x
  }

  /** While x waits, schedule refills nobody, and chooses a task that has something left. */
  lemma NoRefill(s: Sys, tasks: seq<Slot>, jiffies: int, n: Sys, x: nat)
    requires Inv(s.(tasks := tasks)) && Scheduled(tasks, jiffies, n.tasks, n.current) && n.most == s.most
    requires 1 <= x < |tasks| && CanRun(tasks[x]) && tasks[x].counter > 0
    ensures |n.tasks| == |tasks| && Others(n.tasks, x) == Others(tasks, x)
    ensures Weight(n.tasks[x]) == Weight(tasks[x])
    ensures 1 <= n.current < |n.tasks| && Weight(n.tasks[n.current]) > 0
  {
    hide Raise, Signalled;
    var r := AllRoused(tasks, jiffies);
    assert CanRun(r[x]) && r[x].counter == tasks[x].counter;
    assert n.tasks == r;
    OthersSame(tasks, r, x);
  }

  lemma TickIsPaid(s: Sys, user: bool, jiffies: int, n: Sys, x: nat)
    requires Inv(s) && Next(s, Tick(user, jiffies), n) && Waits(s, x) && n.current != x && n.current < |n.tasks|
    ensures n.current != x ==> Left(n, x) + (if user then 1 else 0) <= Left(s, x)
    ensures user ==> Others(n.tasks, x) > 0
    ensures |n.tasks| == |s.tasks| && Weight(n.tasks[x]) == Weight(s.tasks[x])
  {
    hide Others;
    var t := Charged(s.tasks[s.current]);
    var tasks := s.tasks[s.current := t];
    assert SlotOk(s.tasks[s.current], s.most[s.current]);
    OthersSet(s.tasks, s.current, t, x);
    NextKeeps(s, Tick(user, jiffies), n);
    if user && t.counter == 0 {
      forall i | 0 <= i < |tasks| ensures SlotOk(tasks[i], s.most[i]) { assert SlotOk(s.tasks[i], s.most[i]); }
      NoRefill(s, tasks, jiffies, n, x);
    }
    forall i | 0 <= i < |n.tasks| ensures Weight(n.tasks[i]) >= 0 { assert SlotOk(n.tasks[i], n.most[i]); }
    OthersAtLeast(n.tasks, n.current, x);
  }

  /** Every step in which x waits on uses up what is left, by one for each user-mode tick. */
  lemma WaitIsPaid(s: Sys, e: Event, n: Sys, x: nat)
    requires Inv(s) && Next(s, e, n) && !e.Fork? && Waits(s, x)
    requires x < |n.tasks| && CanRun(n.tasks[x]) && n.current != x && n.current < |n.tasks|
    ensures Waits(n, x) && Left(n, x) + (if e.Tick? && e.user then 1 else 0) <= Left(s, x)
    ensures e.Tick? && e.user ==> Others(n.tasks, x) > 0
  {
    match e
    case Tick(user, jiffies) => TickIsPaid(s, user, jiffies, n, x);
    case Yield(jiffies) => NoRefill(s, s.tasks, jiffies, n, x);
    case Nice(increment) => OthersSet(s.tasks, s.current, n.tasks[s.current], x);
    case Change(i, state, alarm, signal, blocked) => OthersSame(s.tasks, n.tasks, x);
    case Release(i) =>
      assert SlotOk(s.tasks[i], s.most[i]);
      OthersSet(s.tasks, i, Empty, x);
  }

  function UserTicks(es: seq<Event>): nat {
    if es == [] then 0 else UserTicks(es[..|es| - 1]) + if es[|es| - 1].Tick? && es[|es| - 1].user then 1 else 0
  }

  ghost predicate IsRun(run: seq<Sys>, es: seq<Event>) {
    && |run| == |es| + 1 && (forall k | 0 <= k < |run| :: Inv(run[k]))
    && forall k | 0 <= k < |es| :: Next(run[k], es[k], run[k + 1])
  }

  /** In a run without fork, a task with a positive counter that stays able to run gets the processor before the
      user-mode ticks charged to the others exceed the sum of their counters. */
  lemma {:induction false} GetsTheProcessor(run: seq<Sys>, es: seq<Event>, x: nat)
    requires IsRun(run, es) && (forall k | 0 <= k < |es| :: !es[k].Fork?)
    requires 1 <= x < |run[0].tasks| && run[0].tasks[x].Task? && run[0].tasks[x].counter > 0
    requires forall k | 0 <= k < |run| :: x < |run[k].tasks| && CanRun(run[k].tasks[x]) && run[k].current != x
    ensures UserTicks(es) <= Others(run[0].tasks, x)
    ensures var m := run[|es|]; Waits(m, x) && UserTicks(es) + Left(m, x) <= Left(run[0], x)
    ensures UserTicks(es) > 0 ==> UserTicks(es) < Left(run[0], x)
  {
    var n := |es|;
    forall k | 0 <= k < |run[n].tasks| ensures Weight(run[n].tasks[k]) >= 0 { assert SlotOk(run[n].tasks[k], run[n].most[k]); }
    OthersAtLeast(run[n].tasks, x, x);
    if n > 0 {
      GetsTheProcessor(run[..n], es[..n - 1], x);
      assert Next(run[n - 1], es[n - 1], run[n]);
      WaitIsPaid(run[n - 1], es[n - 1], run[n], x);
    }
  }

  // ---- the table in place -----------------------------------------------------

  const LAST_PID := 0x7FFF_FFFF

  /** The k-th number find_empty_process tries after start; it never tries 0 or less. */
  function Try(start: nat, k: nat): nat
    requires k > 0
  {
    1 + (start - 1 + k) % LAST_PID
  }

  /** ++last_pid, which goes on from 1 when it overflows. */
  function Bump(pid: nat): nat
    requires pid <= LAST_PID
  {
    if pid == LAST_PID then 1 else pid + 1
  }

  lemma TryNext(start: nat, k: nat)
    requires start <= LAST_PID
    ensures 1 <= Try(start, 1) == Bump(start) && 1 <= Bump(Try(start, k + 1))
    ensures Try(start, k + 1) <= LAST_PID && Try(start, k + 2) == Bump(Try(start, k + 1))
  {}

  /** Slots that hold different tries are different, so there are no more of them than slots. */
  lemma {:induction false} Crowded(slots: seq<nat>, n: nat)
    requires (forall k | 0 <= k < |slots| :: slots[k] < n)
    requires forall k, l | 0 <= k < l < |slots| :: slots[k] != slots[l]
    ensures |slots| <= n
  {
    if slots != [] {
      assert slots[0] < n;
      if k :| 0 <= k < |slots| && slots[k] == n - 1 {
        var rest := slots[..k] + slots[k + 1..];
        forall l | 0 <= l < |rest| ensures rest[l] < n - 1 && rest[l] == slots[if l < k then l else l + 1] {}
        Crowded(rest, n - 1);
      } else {
        Crowded(slots, n - 1);
      }
    }
  }

  lemma TriesDiffer(start: nat, k: nat, l: nat)
    requires 0 < k < l && l - k < LAST_PID
    ensures Try(start, k) != Try(start, l)
  {}

  /** The tries so far are all held, by the slots in held. */
  predicate AllHeld(tasks: seq<Slot>, start: nat, held: seq<nat>) {
    forall k | 0 <= k < |held| :: held[k] < |tasks| && tasks[held[k]].Task? && tasks[held[k]].pid == Try(start, k + 1)
  }

  lemma FewHeld(tasks: seq<Slot>, start: nat, held: seq<nat>)
    requires AllHeld(tasks, start, held) && |held| <= |tasks| + 1 <= LAST_PID
    ensures |held| <= |tasks|
  {
    forall k, l | 0 <= k < l < |held| ensures held[k] != held[l] { TriesDiffer(start, k + 1, l + 1); }
    Crowded(held, |tasks|);
  }

  class TaskTable {
    const task: array<Slot>
    var current: nat
    var lastPid: nat
    ghost var most: seq<int>

    ghost function Snap(): Sys
      reads this, task
    {
      Sys(task[..], current, most)
    }

    /** sched_init: only task 0, with counter and priority 15. */
    constructor (n: nat)
      requires n > 0
      ensures Inv(Snap()) && PidsDistinct(Snap().tasks) && fresh(task) && task.Length == n
      ensures current == 0 && lastPid == 0 && forall i | 0 < i < n :: task[i].Empty?
    {
      task := new Slot[n](_ => Empty);
      current, lastPid := 0, 0;
      most := seq(n, _ => 15);
      new;
      task[0] := Task(0, Running, 15, 15, 0, 0, 0);
    }

    method RouseOne(p: nat, jiffies: int)
      requires p < task.Length && task[p].Task?
      modifies task
      ensures task[..] == old(task[..])[p := Roused(old(task[p]), jiffies)]
    {
      hide Signalled, Raise;
      if task[p].alarm != 0 && task[p].alarm < jiffies {
        task[p] := task[p].(signal := Raise(task[p].signal, 13), alarm := 0);
      }
      if Signalled(task[p].signal, task[p].blocked) && task[p].state == Interruptible {
        task[p] := task[p].(state := Running);
      }
    }

    method Rouse(jiffies: int)
      requires task.Length > 0
      modifies task
      ensures task[..] == AllRoused(old(task[..]), jiffies)
    {
      var p := task.Length - 1;
      while p > 0
        invariant 0 <= p < task.Length
        invariant forall i | 0 <= i <= p :: task[i] == old(task[i])
        invariant forall i | p < i < task.Length :: task[i] == Roused(old(task[i]), jiffies)
      {
        if task[p].Task? { RouseOne(p, jiffies); }
        p := p - 1;
      }
    }

    method Refill()
      requires task.Length > 0
      modifies task
      ensures task[..] == AllRefilled(old(task[..]))
    {
      var p := task.Length - 1;
      while p > 0
        invariant 0 <= p < task.Length
        invariant forall i | 0 <= i <= p :: task[i] == old(task[i])
        invariant forall i | p < i < task.Length :: task[i] == Refilled(old(task[i]))
      {
        if task[p].Task? { task[p] := task[p].(counter := task[p].counter / 2 + task[p].priority); }
        p := p - 1;
      }
    }

    method Scan() returns (next: nat, c: int)
      requires task.Length > 0
      ensures Best(task[..], 1, next, c) && c >= -1
    {
      c, next := -1, 0;
      var i := task.Length - 1;
      while i > 0
        invariant 0 <= i < task.Length
        invariant Best(task[..], i + 1, next, c) && c >= -1
      {
        if task[i].Task? && task[i].state == Running && task[i].counter > c {
          c, next := task[i].counter, i;
        }
        i := i - 1;
      }
    }

    /** schedule: its loop is over after one refill. */
    method Schedule(jiffies: int)
      requires Inv(Snap())
      modifies this`current, task
      ensures Scheduled(old(task[..]), jiffies, task[..], current) && Inv(Snap())
    {
      Rouse(jiffies);
      ghost var roused := task[..];
      assert forall i | 0 <= i < |roused| :: old(SlotOk(task[i], most[i])) ==> SlotOk(roused[i], most[i]);
      var next, c := Scan();
      ghost var turn, n0 := 0, next;
      while c == 0
        invariant turn <= 1
        invariant turn == 0 ==> task[..] == roused && Best(roused, 1, next, c) && c >= -1 && next == n0
        invariant turn == 1 ==> task[..] == AllRefilled(roused) && Best(roused, 1, n0, 0) && c > 0 && Best(task[..], 1, next, c)
        decreases 1 - turn
      {
        Refill();
        next, c := Scan();
        RefillIsEnough(roused, most, n0, next, c);
        turn := 1;
      }
      assert turn == 1 ==> Best(task[..], 1, next, c) && c > 0;
      assert turn == 0 ==> Best(roused, 1, next, c) && c != 0;
      current := next;
      assert Scheduled(old(task[..]), jiffies, task[..], current);
      ScheduleKeeps(old(Snap()), old(task[..]), jiffies, Snap());
    }

    /** The scheduling part of do_timer; user says whether the tick came in user mode. */
    method DoTimer(user: bool, jiffies: int)
      requires Inv(Snap())
      modifies this`current, task
      ensures Next(old(Snap()), Tick(user, jiffies), Snap()) && Inv(Snap())
    {
      ghost var was := Snap();
      assert SlotOk(was.tasks[current], most[current]);
      task[current] := task[current].(counter := task[current].counter - 1);
      if task[current].counter > 0 {
        NextKeeps(was, Tick(user, jiffies), Snap());
        return;
      }
      task[current] := task[current].(counter := 0);
      assert task[..] == was.tasks[current := Charged(was.tasks[current])];
      if user {
        forall i | 0 <= i < task.Length ensures SlotOk(task[i], most[i]) { assert SlotOk(was.tasks[i], most[i]); }
        Schedule(jiffies);
      }
      NextKeeps(was, Tick(user, jiffies), Snap());
    }

    /** sys_nice. */
    method SysNice(increment: int)
      requires Inv(Snap())
      modifies this`most, task
      ensures Next(old(Snap()), Nice(increment), Snap()) && Inv(Snap())
    {
      ghost var was := Snap();
      if task[current].priority - increment > 0 {
        task[current] := task[current].(priority := task[current].priority - increment);
      }
      most := most[current := if task[current].priority > most[current] then task[current].priority else most[current]];
      assert SlotOk(was.tasks[current], was.most[current]);
      NextKeeps(was, Nice(increment), Snap());
    }

    method PidInUse(pid: int) returns (at: nat)
      ensures at <= task.Length && (at == task.Length <==> PidFree(task[..], pid))
      ensures at < task.Length ==> task[at].Task? && task[at].pid == pid
    {
      at := 0;
      while at < task.Length && !(task[at].Task? && task[at].pid == pid)
        invariant at <= task.Length
        invariant forall i | 0 <= i < at :: task[i].Task? ==> task[i].pid != pid
      {
        at := at + 1;
      }
      if at < task.Length { assert !PidFree(task[..], pid) by { assert task[..][at].pid == pid; } }
    }

    /** The first loop of find_empty_process: a number no task has. */
    method NewPid()
      requires task.Length < LAST_PID && lastPid <= LAST_PID
      modifies this`lastPid
      ensures 1 <= lastPid <= LAST_PID && PidFree(task[..], lastPid)
    {
      hide Try, PidFree;
      ghost var start: nat, held: seq<nat> := lastPid, [];
      TryNext(start, 0);
      lastPid := Bump(lastPid);
      var at: nat := PidInUse(lastPid);
      while at < task.Length
        invariant 0 <= at <= task.Length && (at == task.Length <==> PidFree(task[..], lastPid))
        invariant at < task.Length ==> task[at].Task? && task[at].pid == lastPid
        invariant 1 <= lastPid <= LAST_PID && lastPid == Try(start, |held| + 1) && |held| <= task.Length
        invariant AllHeld(task[..], start, held)
        decreases task.Length - |held|
      {
        held := held + [at];
        FewHeld(task[..], start, held);
        TryNext(start, |held| - 1);
        lastPid := Bump(lastPid);
        at := PidInUse(lastPid);
      }
    }

    /** find_empty_process: a number no task has, and the first free slot, if there is one. */
    method FindEmptyProcess() returns (slot: int)
      requires 0 < task.Length < LAST_PID && lastPid <= LAST_PID
      modifies this`lastPid
      ensures 1 <= lastPid <= LAST_PID && PidFree(task[..], lastPid)
      ensures slot == -1 <==> forall i | 1 <= i < task.Length :: task[i].Task?
      ensures slot != -1 ==> 1 <= slot < task.Length && task[slot].Empty? && forall i | 1 <= i < slot :: task[i].Task?
    {
      NewPid();
      slot := 1;
      while slot < task.Length && task[slot].Task?
        invariant 1 <= slot <= task.Length
        invariant forall i | 1 <= i < slot :: task[i].Task?
      {
        slot := slot + 1;
      }
      if slot == task.Length { slot := -1; }
    }

    /** The scheduling part of copy_process, into a slot found by find_empty_process. */
    method CopyProcess(slot: nat)
      requires Inv(Snap()) && 0 < slot < task.Length && task[slot].Empty? && PidFree(task[..], lastPid)
      modifies this`most, task
      ensures Next(old(Snap()), Fork(slot, lastPid), Snap()) && Inv(Snap())
    {
      ghost var was := Snap();
      task[slot] := task[current];
      task[slot] := task[slot].(state := Other, pid := lastPid);
      task[slot] := task[slot].(counter := task[slot].priority, signal := 0, alarm := 0);
      task[slot] := task[slot].(state := Running);
      most := most[slot := task[slot].priority];
      NextKeeps(was, Fork(slot, lastPid), Snap());
    }
  }

}
