/** Pipes, fs/pipe.c: a ring in one page between readers and writers that sleep when it is empty or full. */
module Pipe {
  import Ring

  const PAGE_SIZE: nat := 4096
  const ROOM: nat := PAGE_SIZE - 1

  // ---- the tasks using a pipe -------------------------------------------------

  datatype State = Awake | Asleep | Returned

  /** A call of read_pipe, still to read left bytes, or of write_pipe, still to write data[written..]. */
  datatype Task =
    | Reader(left: nat, got: seq<int>, state: State)
    | Writer(data: seq<int>, written: nat, state: State)

  /** A byte moved, and the task that moved it. */
  datatype Move = Move(who: nat, byte: int)

  /** ends is i_count: 2 while both ends are open. put and taken are the bytes moved into and out of the ring. */
  datatype System = System(ring: seq<int>, ends: nat, tasks: seq<Task>, put: seq<Move>, taken: seq<Move>)

  function Min(a: int, b: int): int { if a < b then a else b }

  /** How a call goes on after it moved what it could. */
  function After(done: bool, ends: nat): State { if done || ends != 2 then Returned else Asleep }

  function Wake(t: Task): Task { if t.state == Asleep then t.(state := Awake) else t }

  function WakeAll(tasks: seq<Task>): (r: seq<Task>)
    ensures |r| == |tasks| && forall k | 0 <= k < |tasks| :: r[k] == Wake(tasks[k])
  {
    seq(|tasks|, k requires 0 <= k < |tasks| => Wake(tasks[k]))
  }

  function Moves(who: nat, bytes: seq<int>): (r: seq<Move>)
    ensures |r| == |bytes| && forall i | 0 <= i < |bytes| :: r[i] == Move(who, bytes[i])
  {
    seq(|bytes|, i requires 0 <= i < |bytes| => Move(who, bytes[i]))
  }

  function Bytes(moves: seq<Move>): (r: seq<int>)
    ensures |r| == |moves| && forall i | 0 <= i < |moves| :: r[i] == moves[i].byte
  {
    seq(|moves|, i requires 0 <= i < |moves| => moves[i].byte)
  }

  /** The bytes one task moved. */
  function By(moves: seq<Move>, who: nat): seq<int> {
    if moves == [] then [] else By(moves[..|moves| - 1], who) + (var m := moves[|moves| - 1]; if m.who == who then [m.byte] else [])
  }

  datatype Event = Start(t: Task) | Run(k: nat) | CloseEnd

  predicate Possible(s: System, e: Event) {
    match e
    case Start(t) => t.state == Awake && if t.Reader? then t.got == [] else t.written == 0
    case Run(k) => k < |s.tasks| && s.tasks[k].state == Awake
    case CloseEnd => s.ends > 0
  }

  /** A reader or a writer from where it wakes to where it sleeps or returns: the task afterwards, and the bytes. */
  function Segment(t: Task, ring: seq<int>, ends: nat): (Task, seq<int>)
    requires |ring| <= ROOM && TaskOk(t)
  {
    match t
    case Reader(left, got, _) =>
      var n := Min(left, |ring|);
      (Reader(left - n, got + ring[..n], After(n == left, ends)), ring[..n])
    case Writer(data, written, _) =>
      var n := Min(|data| - written, ROOM - |ring|);
      (Writer(data, written + n, After(written + n == |data|, ends)), data[written..written + n])
  }

  function Next(s: System, e: Event): System
    requires Possible(s, e) && Inv(s)
  {
    match e
    case Start(t) => s.(tasks := s.tasks + [t])
    case CloseEnd => s.(ends := s.ends - 1, tasks := WakeAll(s.tasks))
    case Run(k) => assert TaskKept(s, k); AfterRun(s, k)
  }

  /** Task k runs its segment, waking everyone as it does. */
  function AfterRun(s: System, k: nat): System
    requires k < |s.tasks| && |s.ring| <= ROOM && TaskOk(s.tasks[k])
  {
    var (t, bytes) := Segment(s.tasks[k], s.ring, s.ends);
    var tasks := WakeAll(s.tasks)[k := t];
    if t.Reader? then System(s.ring[|bytes|..], s.ends, tasks, s.put, s.taken + Moves(k, bytes))
    else System(s.ring + bytes, s.ends, tasks, s.put + Moves(k, bytes), s.taken)
  }

  // ---- what every step keeps --------------------------------------------------

  predicate TaskOk(t: Task) { t.Writer? ==> t.written <= |t.data| }

  /** The task's account is right, and if it sleeps it has reason to: the ring is empty, or full, and both ends are
      open. */
  predicate TaskKept(s: System, k: nat)
    requires k < |s.tasks|
  {
    var t := s.tasks[k];
    && TaskOk(t)
    && (if t.Reader? then By(s.taken, k) == t.got && By(s.put, k) == []
        else By(s.put, k) == t.data[..t.written] && By(s.taken, k) == [])
    && (t.state == Asleep ==> s.ends == 2 && if t.Reader? then s.ring == [] else |s.ring| == ROOM)
  }

  /** First in, first out: what was taken, followed by what is in the ring, is what was put in. */
  ghost predicate Inv(s: System) {
    && |s.ring| <= ROOM
    && Bytes(s.put) == Bytes(s.taken) + s.ring
    && (forall k | 0 <= k < |s.tasks| :: TaskKept(s, k))
    && (forall i | 0 <= i < |s.put| :: s.put[i].who < |s.tasks|)
    && (forall i | 0 <= i < |s.taken| :: s.taken[i].who < |s.tasks|)
  }

  lemma {:induction false} ByMoves(moves: seq<Move>, who: nat, bytes: seq<int>, k: nat)
    ensures By(moves + Moves(who, bytes), k) == By(moves, k) + if k == who then bytes else []
  {
    if bytes == [] { assert moves + Moves(who, bytes) == moves; } else {
      var n := |bytes| - 1;
      ByMoves(moves, who, bytes[..n], k);
      assert (moves + Moves(who, bytes))[..|moves| + n] == moves + Moves(who, bytes[..n]);
      assert bytes == bytes[..n] + [bytes[n]];
    }
  }

  lemma {:induction false} NotBy(moves: seq<Move>, who: nat)
    requires forall i | 0 <= i < |moves| :: moves[i].who != who
    ensures By(moves, who) == []
  {
    if moves != [] { NotBy(moves[..|moves| - 1], who); }
  }

  lemma RunKeepsOther(s: System, k: nat, l: nat)
    requires k < |s.tasks| && |s.ring| <= ROOM && l < |s.tasks| && l != k && TaskKept(s, k) && TaskKept(s, l)
    ensures TaskKept(AfterRun(s, k), l)
  {
    hide By;
    var bytes := Segment(s.tasks[k], s.ring, s.ends).1;
    ByMoves(s.put, k, bytes, l);
    ByMoves(s.taken, k, bytes, l);
  }

  lemma RunKeepsSelf(s: System, k: nat)
    requires k < |s.tasks| && |s.ring| <= ROOM && TaskKept(s, k)
    ensures TaskKept(AfterRun(s, k), k)
  {
    hide By, WakeAll;
    var n, bytes := AfterRun(s, k), Segment(s.tasks[k], s.ring, s.ends).1;
    ByMoves(s.put, k, bytes, k);
    ByMoves(s.taken, k, bytes, k);
    match s.tasks[k]
    case Reader(left, got, _) =>
      assert n.tasks[k].got == got + bytes;
      assert By(n.taken, k) == got + bytes && By(n.put, k) == [];
    case Writer(data, written, _) =>
      SliceOn(data, written, |bytes|);
      assert By(n.put, k) == data[..written + |bytes|] && By(n.taken, k) == [];
  }

  lemma SliceOn(data: seq<int>, k: nat, n: nat)
    requires k + n <= |data|
    ensures data[..k + n] == data[..k] + data[k..k + n]
  {}

  lemma RunKeeps(s: System, k: nat)
    requires Inv(s) && Possible(s, Run(k))
    ensures Inv(Next(s, Run(k)))
  {
    assert TaskKept(s, k);
    var n := AfterRun(s, k);
    var (t, bytes) := Segment(s.tasks[k], s.ring, s.ends);
    forall l | 0 <= l < |n.tasks| ensures TaskKept(n, l) {
      assert TaskKept(s, l);
      if l == k { RunKeepsSelf(s, k); } else { RunKeepsOther(s, k, l); }
    }
    assert |n.ring| <= ROOM && |n.tasks| == |s.tasks|;
    assert Bytes(n.put) == Bytes(n.taken) + n.ring by { RunIsFifo(s, k); }
    hide TaskKept, Segment;
  }

  lemma RunIsFifo(s: System, k: nat)
    requires k < |s.tasks| && |s.ring| <= ROOM && TaskOk(s.tasks[k]) && Bytes(s.put) == Bytes(s.taken) + s.ring
    ensures Bytes(AfterRun(s, k).put) == Bytes(AfterRun(s, k).taken) + AfterRun(s, k).ring
  {
    var n := AfterRun(s, k);
    var (t, bytes) := Segment(s.tasks[k], s.ring, s.ends);
    if t.Reader? {
      assert s.ring == bytes + s.ring[|bytes|..];
      assert Bytes(n.taken) == Bytes(s.taken) + bytes;
      assert Bytes(s.put) == (Bytes(s.taken) + bytes) + s.ring[|bytes|..];
    } else {
      assert Bytes(n.put) == Bytes(s.put) + bytes;
    }
  }

  lemma NextKeeps(s: System, e: Event)
    requires Inv(s) && Possible(s, e)
    ensures Inv(Next(s, e))
  {
    match e
    case Run(k) => RunKeeps(s, k);
    case Start(t) =>
      var n := Next(s, e);
      NotBy(s.put, |s.tasks|);
      NotBy(s.taken, |s.tasks|);
      forall k | 0 <= k < |n.tasks| ensures TaskKept(n, k) { if k < |s.tasks| { assert TaskKept(s, k); } }
    case CloseEnd =>
      var n := Next(s, e);
      forall k | 0 <= k < |n.tasks| ensures TaskKept(n, k) { assert TaskKept(s, k); }
  }

  ghost predicate IsRun(run: seq<System>, es: seq<Event>) {
    && |run| == |es| + 1 && run[0] == System([], 2, [], [], [])
    && forall k | 0 <= k < |es| :: Inv(run[k]) ==> Possible(run[k], es[k]) && run[k + 1] == Next(run[k], es[k])
  }

  /** For every interleaving of readers and writers. */
  lemma {:induction false} Fifo(run: seq<System>, es: seq<Event>)
    requires IsRun(run, es)
    ensures Inv(run[|es|])
  {
    if es != [] {
      var k := |es| - 1;
      Fifo(run[..k + 1], es[..k]);
      assert run[..k + 1][k] == run[k];
      NextKeeps(run[k], es[k]);
    }
  }

  /** A read that returns short finds no more to read, ever: the other end is closed and all that was written has
      been taken. */
  lemma ShortRead(s: System, k: nat)
    requires Inv(s) && Possible(s, Run(k)) && s.tasks[k].Reader?
    ensures var n := Next(s, Run(k));
            n.tasks[k].state == Returned && n.tasks[k].left > 0 ==> s.ends != 2 && n.ring == [] && Bytes(n.taken) == Bytes(n.put)
  {
    RunKeeps(s, k);
    assert TaskKept(s, k);
  }

  /** A write that returns short finds no room, ever: the other end is closed and the ring is full. */
  lemma ShortWrite(s: System, k: nat)
    requires Inv(s) && Possible(s, Run(k)) && s.tasks[k].Writer?
    ensures var n := Next(s, Run(k));
            n.tasks[k].state == Returned && n.tasks[k].written < |n.tasks[k].data| ==> s.ends != 2 && |n.ring| == ROOM
  {
    RunKeeps(s, k);
    assert TaskKept(s, k);
  }

  /** A turn of a task ends in one way: it returns with all it wanted; or a reader has emptied the ring, a writer filled
      it, and with both ends open it sleeps, otherwise it returns short.  Everybody asleep is woken. */
  lemma RunEnds(s: System, k: nat)
    requires Inv(s) && Possible(s, Run(k))
    ensures var n := Next(s, Run(k));
            && k < |n.tasks| && n.tasks[k].Reader? == s.tasks[k].Reader? && n.ends == s.ends
            && (n.tasks[k].Reader? ==>
                  && n.tasks[k].left + |n.tasks[k].got| == s.tasks[k].left + |s.tasks[k].got|
                  && (n.tasks[k].state == Returned <==> n.tasks[k].left == 0 || s.ends != 2)
                  && (n.tasks[k].left > 0 ==> n.ring == []))
            && (n.tasks[k].Writer? ==>
                  && n.tasks[k].data == s.tasks[k].data && n.tasks[k].written <= |n.tasks[k].data|
                  && (n.tasks[k].state == Returned <==> n.tasks[k].written == |n.tasks[k].data| || s.ends != 2)
                  && (n.tasks[k].written < |n.tasks[k].data| ==> |n.ring| == ROOM))
            && n.tasks[k].state != Awake
            && forall j | 0 <= j < |s.tasks| && j != k :: n.tasks[j] == if s.tasks[j].state == Asleep then s.tasks[j].(state := Awake) else s.tasks[j]
  {
    assert TaskKept(s, k);
  }

  /** As long as a reader and a writer both have something to do, one of them can do it. */
  lemma SomeoneRuns(s: System, r: nat, w: nat)
    requires Inv(s) && r < |s.tasks| && w < |s.tasks| && s.tasks[r].Reader? && s.tasks[w].Writer?
    requires s.tasks[r].state != Returned && s.tasks[w].state != Returned
    ensures Possible(s, Run(r)) || Possible(s, Run(w))
  {
    NotBothAsleep(s, r, w);
  }

  /** A reader and a writer never both sleep. */
  lemma NotBothAsleep(s: System, r: nat, w: nat)
    requires Inv(s) && r < |s.tasks| && w < |s.tasks| && s.tasks[r].Reader? && s.tasks[w].Writer?
    ensures s.tasks[r].state == Asleep ==> s.tasks[w].state != Asleep
  {
    assert TaskKept(s, r) && TaskKept(s, w);
  }

  /** With one reader and one writer, the reader gets the writer's bytes in order. */
  lemma OneToOne(s: System, r: nat, w: nat)
    requires Inv(s) && r < |s.tasks| && w < |s.tasks| && s.tasks[r].Reader? && s.tasks[w].Writer?
    requires forall i | 0 <= i < |s.put| :: s.put[i].who == w
    requires forall i | 0 <= i < |s.taken| :: s.taken[i].who == r
    ensures TaskOk(s.tasks[w]) && s.tasks[w].data[..s.tasks[w].written] == s.tasks[r].got + s.ring
  {
    assert TaskKept(s, r) && TaskKept(s, w);
    AllBy(s.put, w);
    AllBy(s.taken, r);
  }

  lemma {:induction false} AllBy(moves: seq<Move>, who: nat)
    requires forall i | 0 <= i < |moves| :: moves[i].who == who
    ensures By(moves, who) == Bytes(moves)
  {
    if moves != [] { AllBy(moves[..|moves| - 1], who); }
  }

  // ---- the ring in place ------------------------------------------------------

  lemma HeadMoves(head: nat, tail: nat, chars: nat)
    requires head < PAGE_SIZE && tail < PAGE_SIZE && head + chars <= PAGE_SIZE
    requires Ring.Wrap(head - tail, PAGE_SIZE) + chars <= ROOM
    ensures Ring.Wrap(Ring.Wrap(head + chars, PAGE_SIZE) - tail, PAGE_SIZE) == Ring.Wrap(head - tail, PAGE_SIZE) + chars
    ensures head == Ring.Wrap(tail + Ring.Wrap(head - tail, PAGE_SIZE), PAGE_SIZE)
  {}

  lemma WrapStep(tail: nat, used: nat, from: nat, n: nat)
    requires tail < PAGE_SIZE && used + n < PAGE_SIZE && from == Ring.Wrap(tail + used, PAGE_SIZE) && from + n < PAGE_SIZE
    ensures from + n == Ring.Wrap(tail + (used + n), PAGE_SIZE)
  {}

  lemma Joined(a: seq<int>, b: seq<int>, c: seq<int>)
    ensures a + (b + c) == (a + b) + c
  {}

  /** Having read until enough was read or nothing was left. */
  lemma ReadDone(was: seq<int>, got: seq<int>, rest: seq<int>, left: nat, ends: nat, state: State)
    requires |was| <= ROOM && got + rest == was && |got| <= left
    requires if |got| == left then state == Returned else rest == [] && state == if ends != 2 then Returned else Asleep
    ensures Segment(Reader(left, [], Awake), was, ends) == (Reader(left - |got|, got, state), got)
    ensures rest == was[|got|..]
  {
    assert got == was[..|got|] == [] + got;
  }

  class PipeInode {
    const page: array<int>
    var head: nat       // i_zone[0]
    var tail: nat       // i_zone[1]
    var count: nat      // i_count

    ghost predicate Valid()
      reads this, page
    {
      page.Length == PAGE_SIZE && head < PAGE_SIZE && tail < PAGE_SIZE
    }

    ghost function Contents(): (r: seq<int>)
      requires Valid()
      reads this, page
      ensures |r| == Size() <= ROOM
    {
      Ring.Window(page[..], tail, Size())
    }

    /** PIPE_SIZE */
    function Size(): (r: nat)
      requires Valid()
      reads this, page
    {
      Ring.Wrap(head - tail, PAGE_SIZE)
    }

    /** The pipe's part of get_pipe_inode. */
    constructor ()
      ensures Valid() && Contents() == [] && count == 2 && fresh(page)
    {
      page := new int[PAGE_SIZE];
      head, tail, count := 0, 0, 2;
    }

    /** One turn of read_pipe's loop once there is something to read: up to the end of the page. */
    method ReadChunk(left: nat) returns (got: seq<int>)
      requires Valid() && left > 0 && Size() > 0
      modifies this`tail
      ensures Valid() && 0 < |got| <= left && got + Contents() == old(Contents())
      ensures |got| == old(Min(Min(PAGE_SIZE - tail, left), Size()))
    {
      hide Ring.Window;
      var size := Size();
      var chars := PAGE_SIZE - tail;
      if chars > left { chars := left; }
      if chars > size { chars := size; }
      if chars < PAGE_SIZE { Ring.Take(page[..], tail, size, chars); }
      size := tail;
      tail := Ring.Wrap(tail + chars, PAGE_SIZE);
      got := CopyOut(size, chars);
      assert got == old(Contents())[..chars];
    }

    method CopyOut(from: nat, chars: nat) returns (got: seq<int>)
      requires from + chars <= page.Length
      ensures got == page[from..from + chars]
    {
      got := [];
      var size, n := from, chars;
      while n > 0
        invariant 0 <= n <= chars && size == from + (chars - n) && got == page[from..size]
      {
        got := got + [page[size]];
        size := size + 1;
        n := n - 1;
      }
    }

    /** read_pipe, from its start or from where it wakes up to where it sleeps or returns. */
    method ReadPipe(left: nat) returns (got: seq<int>, state: State)
      requires Valid()
      modifies this`tail
      ensures Valid() && |got| <= left
      ensures Segment(Reader(left, [], Awake), old(Contents()), count) == (Reader(left - |got|, got, state), got)
      ensures Contents() == old(Contents())[|got|..]
    {
      got := [];
      state := Returned;
      ghost var was := Contents();
      while |got| < left
        invariant Valid() && |got| <= left && got + Contents() == was
        decreases left - |got|
      {
        if Size() == 0 {
          state := if count != 2 then Returned else Asleep;
          break;
        }
        var more := ReadChunk(left - |got|);
        Joined(got, more, Contents());
        got := got + more;
      }
      ReadDone(was, got, Contents(), left, count, state);
    }

    /** One turn of write_pipe's loop once there is room. */
    method WriteChunk(data: seq<int>) returns (n: nat)
      requires Valid() && data != [] && Size() < ROOM
      modifies this`head, page
      ensures Valid() && 0 < n <= |data| && Contents() == old(Contents()) + data[..n]
    {
      var size := ROOM - Size();
      var chars := PAGE_SIZE - head;
      if chars > |data| { chars := |data|; }
      if chars > size { chars := size; }
      size := head;
      var used := Size();
      HeadMoves(head, tail, chars);
      CopyIn(size, used, data[..chars]);
      head := Ring.Wrap(head + chars, PAGE_SIZE);
      n := chars;
    }

    /** write_pipe's inner loop, to the page from size on. */
    method CopyIn(from: nat, ghost used: nat, data: seq<int>)
      requires Valid() && used + |data| <= ROOM && from + |data| <= PAGE_SIZE
      requires from == Ring.Wrap(tail + used, PAGE_SIZE)
      modifies page
      ensures Ring.Window(page[..], tail, used + |data|) == Ring.Window(old(page[..]), tail, used) + data
    {
      hide Ring.Window;
      ghost var was := Ring.Window(page[..], tail, used);
      var n := 0;
      assert was + data[..0] == was;
      while n < |data|
        invariant 0 <= n <= |data| && Ring.Window(page[..], tail, used + n) == was + data[..n]
      {
        WrapStep(tail, used, from, n);
        Ring.Put(page[..], tail, used + n, data[n]);
        page[from + n] := data[n];
        assert was + data[..n] + [data[n]] == was + data[..n + 1];
        n := n + 1;
      }
      assert data[..|data|] == data;
    }

    /** write_pipe, in the same way, having written before bytes earlier in the call: when it returns short it sends
        SIGPIPE, and returns -1 if it has written nothing. */
    method WritePipe(data: seq<int>, before: nat) returns (n: nat, state: State, result: int, sigpipe: bool)
      requires Valid()
      modifies this`head, page
      ensures sigpipe <==> state == Returned && n < |data|
      ensures result == if sigpipe && before + n == 0 then -1 else before + n
      ensures Valid() && n <= |data|
      ensures Segment(Writer(data, 0, Awake), old(Contents()), count) == (Writer(data, n, state), data[..n])
      ensures Contents() == old(Contents()) + data[..n]
    {
      n := 0;
      ghost var was := Contents();
      while n < |data|
        invariant Valid() && n <= |data| && Contents() == was + data[..n]
      {
        if Size() == ROOM {
          result, sigpipe := before + n, false;
          state := Asleep;
          if count != 2 {
            state, sigpipe := Returned, true;
            result := if before + n > 0 then before + n else -1;
          }
          return;
        }
        var more := WriteChunk(data[n..]);
        assert data[..n + more] == data[..n] + data[n..][..more];
        n := n + more;
      }
      state, result, sigpipe := Returned, before + n, false;
    }
  }
}
