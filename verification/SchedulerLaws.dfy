/** What schedule means to the tasks: who is woken, and what sleeping is worth. */
module SchedulerLaws {
  import opened Scheduler

  /** Some signal is pending that the task does not block, or SIGKILL or SIGSTOP, which it cannot. */
  predicate Reached(signal: bv32, blocked: bv32) {
    signal & !blocked != 0 || signal & 0x0000_0100 != 0 || signal & 0x0004_0000 != 0
  }

  lemma Unblocked(signal: bv32, blocked: bv32)
    ensures signal & !(blocked & 0xFFFB_FEFF) != 0
            <==> signal & !blocked != 0 || signal & 0x0000_0100 != 0 || signal & 0x0004_0000 != 0
  {}

  lemma SignalledIs(signal: bv32, blocked: bv32)
    ensures Signalled(signal, blocked) <==> Reached(signal, blocked)
  {
    Unblocked(signal, blocked);
  }

  /** SIGALRM added. */
  function WithAlarm(signal: bv32): bv32 { signal | 0x0000_2000 }

  lemma RaiseIs(signal: bv32)
    ensures Raise(signal, 13) == WithAlarm(signal)
  {}

  predicate Rings(t: Slot, jiffies: int) { t.Task? && t.alarm != 0 && t.alarm < jiffies }

  /** A task as the first loop leaves it. */
  predicate Woken(t: Slot, jiffies: int, r: Slot)
    requires t.Task?
  {
    var signal := if Rings(t, jiffies) then WithAlarm(t.signal) else t.signal;
    && r.Task? && r.signal == signal && r.alarm == (if Rings(t, jiffies) then 0 else t.alarm)
    && r.state == (if t.state == Interruptible && Reached(signal, t.blocked) then Running else t.state)
    && r.pid == t.pid && r.priority == t.priority && r.blocked == t.blocked && r.counter == t.counter
  }

  lemma AlarmedIs(t: Slot, jiffies: int)
    requires t.Task?
    ensures var r := Alarmed(t, jiffies);
            && r.signal == (if Rings(t, jiffies) then WithAlarm(t.signal) else t.signal)
            && r.alarm == (if Rings(t, jiffies) then 0 else t.alarm)
            && r.pid == t.pid && r.priority == t.priority && r.blocked == t.blocked && r.counter == t.counter && r.state == t.state
  {
    hide Raise, WithAlarm;
    RaiseIs(t.signal);
  }

  lemma WakenedIs(t: Slot)
    requires t.Task?
    ensures Wakened(t) == t.(state := Wakened(t).state)
    ensures Wakened(t).state == if t.state == Interruptible && Reached(t.signal, t.blocked) then Running else t.state
  {
    hide Signalled, Reached;
    SignalledIs(t.signal, t.blocked);
  }

  lemma RousedIsWoken(t: Slot, jiffies: int)
    requires t.Task?
    ensures Woken(t, jiffies, Roused(t, jiffies))
  {
    hide Reached, WithAlarm, Alarmed, Wakened, Rings;
    AlarmedIs(t, jiffies);
    WakenedIs(Alarmed(t, jiffies));
  }

  /** Who sleeps interruptibly is running after schedule if and only if a signal reaches it, SIGALRM too if its alarm has
      gone off; all else but counters is as it was, and so is task 0. */
  lemma ScheduleWakes(tasks: seq<Slot>, jiffies: int, after: seq<Slot>, next: nat, i: nat)
    requires Scheduled(tasks, jiffies, after, next) && i < |tasks| && tasks[i].Task?
    ensures |after| == |tasks| && after[i].Task?
    ensures if i == 0 then after[0] == tasks[0] else Woken(tasks[i].(counter := after[i].counter), jiffies, after[i])
  {
    hide Best, Reached, Roused, WithAlarm, Raise, Signalled;
    RousedIsWoken(tasks[i], jiffies);
  }

  /** schedule gives new time to every task but task 0 if and only if all that can run have used theirs up: half of what
      is left, and the priority. */
  lemma ScheduleRefills(tasks: seq<Slot>, jiffies: int, after: seq<Slot>, next: nat, i: nat)
    requires Scheduled(tasks, jiffies, after, next) && 0 < i < |tasks| && tasks[i].Task? && tasks[i].counter >= 0
    requires forall j | 0 < j < |tasks| && tasks[j].Task? :: tasks[j].counter >= 0
    ensures |after| == |tasks| && after[i].Task?
    ensures var used := forall j | 0 < j < |tasks| && tasks[j].Task? && after[j].Task? && after[j].state == Running :: tasks[j].counter == 0;
            var some := exists j :: 0 < j < |tasks| && after[j].Task? && after[j].state == Running;
            2 * after[i].counter
            == if used && some then 2 * tasks[i].priority + tasks[i].counter - tasks[i].counter % 2 else 2 * tasks[i].counter
  {
    hide Raise, Signalled;
    var roused := AllRoused(tasks, jiffies);
    var n: nat, c :| Best(roused, 1, n, c) && c >= -1 &&
                if c != 0 then after == roused && next == n
                else after == AllRefilled(roused) && exists c' :: c' > 0 && Best(after, 1, next, c');
    assert forall j | 0 <= j < |tasks| ::
        after[j].Task? ==> tasks[j].Task? && roused[j].counter == tasks[j].counter && roused[j].state == after[j].state;
    if c != -1 { assert CanRun(after[n]) && 0 < n && roused[n].counter == c; }
  }

  function Refills(t: Slot, k: nat): Slot { if k == 0 then t else Refilled(Refills(t, k - 1)) }

  function Power(k: nat): nat { if k == 0 then 1 else 2 * Power(k - 1) }

  /** A task that sleeps while the others use up their time k times over comes to have almost twice its priority: what it
      lacks of that is halved each time. */
  lemma {:induction false} SleeperGains(t: Slot, k: nat)
    requires t.Task? && 0 <= t.counter < 2 * t.priority
    ensures var r := Refills(t, k);
            && r.Task? && r == t.(counter := r.counter) && 0 <= r.counter < 2 * t.priority
            && (2 * t.priority - r.counter - 1) * Power(k) <= 2 * t.priority - t.counter - 1
  {
    if k > 0 {
      SleeperGains(t, k - 1);
      var c, p, q := Refills(t, k - 1).counter, t.priority, Power(k - 1);
      assert 2 * (2 * p - (c / 2 + p) - 1) <= 2 * p - c - 1;
      Scale(2 * (2 * p - (c / 2 + p) - 1), 2 * p - c - 1, q);
    }
  }

  lemma Scale(a: int, b: int, q: nat)
    requires a <= b
    ensures a * q <= b * q
  {}

  /** A task with n left runs on through n - 1 ticks in user mode. */
  lemma {:induction false} TimeSlice(run: seq<Sys>, es: seq<Event>)
    requires IsRun(run, es) && (forall e | e in es :: e.Tick? && e.user)
    requires var s := run[0]; |es| < s.tasks[s.current].counter
    ensures var s, n := run[0], run[|es|];
            && Inv(n) && n.current == s.current
            && n.tasks == s.tasks[s.current := s.tasks[s.current].(counter := s.tasks[s.current].counter - |es|)]
  {
    if es != [] {
      var k := |es| - 1;
      assert forall e | e in es[..k] :: e in es;
      TimeSlice(run[..k + 1], es[..k]);
      assert es[k] in es && run[..k + 1][k] == run[k] && Next(run[k], es[k], run[k + 1]);
      NextKeeps(run[k], es[k], run[k + 1]);
    } else {
      assert run[0].tasks == run[0].tasks[run[0].current := run[0].tasks[run[0].current]];
    }
  }

  /** and the next one ends its turn: all who can run and have time left go before it. */
  lemma SliceEnds(s: Sys, jiffies: int, n: Sys, j: nat)
    requires Inv(s) && Next(s, Tick(true, jiffies), n) && s.tasks[s.current].counter <= 1
    requires 0 < j < |s.tasks| && j != s.current && CanRun(s.tasks[j]) && s.tasks[j].counter > 0 && s.current > 0
    ensures n.current != s.current
  {
    var tasks := s.tasks[s.current := Charged(s.tasks[s.current])];
    var roused := AllRoused(tasks, jiffies);
    hide Raise, Signalled;
    assert CanRun(roused[j]) && roused[j].counter > 0;
  }

  /** fork's child can run at once, with its parent's priority, all of it to use, and none of its signals and alarm. */
  lemma ForkedChild(s: Sys, i: nat, pid: int, n: Sys)
    requires Inv(s) && Next(s, Fork(i, pid), n)
    ensures |n.tasks| == |s.tasks| && n.current == s.current && (forall j | 0 <= j < |s.tasks| && j != i :: n.tasks[j] == s.tasks[j])
    ensures var t, c := s.tasks[s.current], n.tasks[i];
            && c.Task? && t.Task? && c.pid == pid && CanRun(c) && c.priority == c.counter == t.priority
            && c.signal == 0 && c.alarm == 0 && c.blocked == t.blocked
  {}

  /** nice lowers the priority by the increment, if it stays positive, and changes nothing else. */
  lemma NiceLowers(s: Sys, increment: int, n: Sys)
    requires Inv(s) && Next(s, Nice(increment), n)
    ensures var t := s.tasks[s.current];
            && t.Task? && n.current == s.current
            && n.tasks == s.tasks[s.current := t.(priority := if t.priority > increment then t.priority - increment else t.priority)]
  {}
}
