/** Who refers to which file table entry: open, close, dup, pipe, fork and exit, and a pipe's two ends. */
module FileTable {
  import opened Counting

  const NR_OPEN: nat := 20
  const NULL: int := -1

  /** inode: the number of a pipe's inode, NULL for any other inode. */
  datatype File = File(count: int, inode: int, mode: int)

  /** An entry taken by a call that may still fail, and the descriptor it is for. */
  datatype Taken = Taken(fd: nat, f: nat)

  /** filp: each task's descriptors; ready: the entry is not being opened; pipes: i_count of each pipe inode, 0 if it
      is none; pending: what each task's open or pipe call under way has taken. */
  datatype Sys = Sys(files: seq<File>, ready: seq<bool>, filp: seq<seq<int>>, pipes: seq<int>, pending: seq<seq<Taken>>)

  // ---- what is counted --------------------------------------------------------

  predicate Cell(s: Sys, t: int, fd: int) { 0 <= t < |s.filp| && 0 <= fd < |s.filp[t]| }

  function At(s: Sys, t: int, fd: int): int { if Cell(s, t, fd) then s.filp[t][fd] else NULL }

  /** The descriptors that point at entry f. */
  ghost function Refs(s: Sys, f: int): set<(int, int)> {
    set t, fd | 0 <= t < |s.filp| && 0 <= fd < |s.filp[t]| && s.filp[t][fd] == f :: (t, fd)
  }

  predicate Live(s: Sys, f: int, p: int) {
    0 <= f < |s.files| && f < |s.ready| && s.ready[f] && s.files[f].count > 0 && s.files[f].inode == p
  }

  /** The entries of pipe p that are in use. */
  ghost function Ends(s: Sys, p: int): set<int> { set f | 0 <= f < |s.files| && Live(s, f, p) }

  ghost predicate FileOk(s: Sys, f: int)
    requires 0 <= f < |s.files| == |s.ready|
  {
    && s.files[f].count == |Refs(s, f)|
    && (s.ready[f] && s.files[f].count > 0 && s.files[f].inode != NULL
        ==> 0 <= s.files[f].inode < |s.pipes| && (s.files[f].mode == 1 || s.files[f].mode == 2))
  }

  predicate CellOk(s: Sys, t: int, fd: int)
    requires |s.files| == |s.ready| && |s.pending| == |s.filp| && Cell(s, t, fd)
  {
    && NULL <= s.filp[t][fd] < |s.files|
    && (s.filp[t][fd] != NULL ==> s.files[s.filp[t][fd]].count > 0)
    && (s.filp[t][fd] != NULL && !s.ready[s.filp[t][fd]] ==> Taken(fd, s.filp[t][fd]) in s.pending[t])
  }

  predicate TakenOk(s: Sys, t: int, k: int)
    requires |s.files| == |s.ready| && |s.pending| == |s.filp| && 0 <= t < |s.pending| && 0 <= k < |s.pending[t]|
  {
    var x := s.pending[t][k];
    x.f < |s.files| && At(s, t, x.fd) == x.f && !s.ready[x.f] && s.files[x.f].count == 1
  }

  ghost predicate PipeOk(s: Sys, p: int)
    requires 0 <= p < |s.pipes|
  {
    && s.pipes[p] == |Ends(s, p)|
    && forall f, g | Live(s, f, p) && Live(s, g, p) && f != g :: s.files[f].mode != s.files[g].mode
  }

  predicate Shape(s: Sys) {
    && |s.files| == |s.ready| && |s.pending| == |s.filp|
    && (forall t | 0 <= t < |s.filp| :: |s.filp[t]| == NR_OPEN)
    && (forall t, k, l | 0 <= t < |s.pending| && 0 <= k < l < |s.pending[t]| ::
          s.pending[t][k].fd != s.pending[t][l].fd && s.pending[t][k].f != s.pending[t][l].f)
  }

  /** Every count is exact, and a pipe has at most one reading and one writing entry. */
  ghost predicate Inv(s: Sys) {
    && Shape(s)
    && (forall f | 0 <= f < |s.files| :: FileOk(s, f))
    && (forall t, fd | Cell(s, t, fd) :: CellOk(s, t, fd))
    && (forall t, k | 0 <= t < |s.pending| && 0 <= k < |s.pending[t]| :: TakenOk(s, t, k))
    && (forall p | 0 <= p < |s.pipes| :: PipeOk(s, p))
  }

  // ---- steps ------------------------------------------------------------------

  function SetFd(s: Sys, t: int, fd: int, v: int): seq<seq<int>>
    requires Cell(s, t, fd)
  {
    s.filp[t := s.filp[t][fd := v]]
  }

  function Bump(files: seq<File>, f: int, d: int): seq<File>
    requires 0 <= f < |files|
  {
    files[f := files[f].(count := files[f].count + d)]
  }

  /** A descriptor comes to share an entry. */
  function Share(s: Sys, t: int, fd: int, f: int): Sys
    requires Cell(s, t, fd) && 0 <= f < |s.files|
  {
    s.(files := Bump(s.files, f, 1), filp := SetFd(s, t, fd, f))
  }

  /** iput of the entry's inode, if it was the last descriptor. */
  function Iput(pipes: seq<int>, f: File): seq<int> {
    if f.count == 0 && 0 <= f.inode < |pipes| then pipes[f.inode := pipes[f.inode] - 1] else pipes
  }

  /** sys_close of an open descriptor. */
  function Close(s: Sys, t: int, fd: int): Sys
    requires Cell(s, t, fd) && 0 <= s.filp[t][fd] < |s.files|
  {
    var f := s.filp[t][fd];
    var files := Bump(s.files, f, -1);
    s.(files := files, filp := SetFd(s, t, fd, NULL), pipes := Iput(s.pipes, files[f]))
  }

  /** open and pipe take a free entry for a free descriptor. */
  function Take(s: Sys, t: int, fd: int, f: int): Sys
    requires Cell(s, t, fd) && 0 <= f < |s.files| == |s.ready| && t < |s.pending| && fd >= 0
  {
    s.(files := Bump(s.files, f, 1), ready := s.ready[f := false], filp := SetFd(s, t, fd, f),
       pending := s.pending[t := s.pending[t] + [Taken(fd, f)]])
  }

  lemma RefsMove(s: Sys, n: Sys, t: int, fd: int, v: int, f: int)
    requires Cell(s, t, fd) && n.filp == SetFd(s, t, fd, v)
    ensures |Refs(n, f)| == |Refs(s, f)| - One(s.filp[t][fd] == f) + One(v == f)
  {
    CardMove(Refs(s, f), Refs(n, f), (t, fd));
  }

  lemma EndsMove(s: Sys, n: Sys, f: int, p: int)
    requires |n.files| == |s.files| == |s.ready| == |n.ready| && 0 <= f < |s.files|
    requires forall g | 0 <= g < |s.files| && g != f :: n.files[g] == s.files[g] && n.ready[g] == s.ready[g]
    ensures |Ends(n, p)| == |Ends(s, p)| - One(Live(s, f, p)) + One(Live(n, f, p))
  {
    CardMove(Ends(s, p), Ends(n, p), f);
  }

  lemma ShareKeeps(s: Sys, t: int, fd: int, f: int)
    requires Inv(s) && Cell(s, t, fd) && s.filp[t][fd] == NULL
    requires 0 <= f < |s.files| && s.ready[f] && s.files[f].count > 0
    ensures Inv(Share(s, t, fd, f))
  {
    var n := Share(s, t, fd, f);
    forall g | 0 <= g < |n.files| ensures FileOk(n, g) {
      assert FileOk(s, g);
      RefsMove(s, n, t, fd, f, g);
    }
    forall u, gd | Cell(n, u, gd) ensures CellOk(n, u, gd) { assert Cell(s, u, gd) && CellOk(s, u, gd); }
    forall u, k | 0 <= u < |n.pending| && 0 <= k < |n.pending[u]| ensures TakenOk(n, u, k) { assert TakenOk(s, u, k); }
    forall p | 0 <= p < |n.pipes| ensures PipeOk(n, p) {
      assert PipeOk(s, p);
      EndsMove(s, n, f, p);
      assert forall g :: Live(n, g, p) <==> Live(s, g, p);
    }
  }

  lemma CloseKeeps(s: Sys, t: int, fd: int)
    requires Inv(s) && Cell(s, t, fd) && s.filp[t][fd] != NULL && s.pending[t] == []
    ensures CellOk(s, t, fd) && Inv(Close(s, t, fd))
  {
    assert CellOk(s, t, fd);
    var f, n := s.filp[t][fd], Close(s, t, fd);
    assert FileOk(s, f);
    forall g | 0 <= g < |n.files| ensures FileOk(n, g) {
      assert FileOk(s, g);
      RefsMove(s, n, t, fd, NULL, g);
    }
    forall u, gd | Cell(n, u, gd) ensures CellOk(n, u, gd) {
      assert Cell(s, u, gd) && CellOk(s, u, gd);
      if At(n, u, gd) == f { RefsMove(s, n, t, fd, NULL, f); assert (u, gd) in Refs(n, f); assert FileOk(n, f); }
    }
    forall u, k | 0 <= u < |n.pending| && 0 <= k < |n.pending[u]| ensures TakenOk(n, u, k) { assert TakenOk(s, u, k); }
    forall p | 0 <= p < |n.pipes| ensures PipeOk(n, p) {
      assert PipeOk(s, p);
      EndsMove(s, n, f, p);
      assert forall g :: Live(n, g, p) ==> Live(s, g, p);
    }
  }

  lemma TakeKeeps(s: Sys, t: int, fd: int, f: int)
    requires Inv(s) && Cell(s, t, fd) && s.filp[t][fd] == NULL && 0 <= f < |s.files| && s.files[f].count == 0
    ensures Inv(Take(s, t, fd, f))
  {
    var n := Take(s, t, fd, f);
    assert FileOk(s, f);
    forall g | 0 <= g < |n.files| ensures FileOk(n, g) {
      assert FileOk(s, g);
      RefsMove(s, n, t, fd, f, g);
    }
    forall u, gd | Cell(n, u, gd) ensures CellOk(n, u, gd) {
      assert Cell(s, u, gd) && CellOk(s, u, gd);
      if u == t && gd == fd { assert n.pending[t][|s.pending[t]|] == Taken(fd, f); }
    }
    forall u, k | 0 <= u < |n.pending| && 0 <= k < |n.pending[u]| ensures TakenOk(n, u, k) {
      if k < |s.pending[u]| { assert TakenOk(s, u, k); }
    }
    forall k | 0 <= k < |s.pending[t]| ensures s.pending[t][k].fd != fd && s.pending[t][k].f != f { assert TakenOk(s, t, k); }
    forall p | 0 <= p < |n.pipes| ensures PipeOk(n, p) {
      assert PipeOk(s, p);
      EndsMove(s, n, f, p);
      assert forall g :: Live(n, g, p) <==> Live(s, g, p);
    }
  }

  /** open and pipe give the last entry they took back. */
  function Undo(s: Sys, t: int): Sys
    requires 0 <= t < |s.pending| && s.pending[t] != []
  {
    var k := |s.pending[t]| - 1;
    var x := s.pending[t][k];
    if x.f < |s.files| && Cell(s, t, x.fd) then
      s.(files := s.files[x.f := s.files[x.f].(count := 0)], filp := SetFd(s, t, x.fd, NULL),
         pending := s.pending[t := s.pending[t][..k]])
    else s
  }

  /** open has found the inode: the entry is in use. */
  function Opened(s: Sys, t: int, mode: int): Sys
    requires 0 <= t < |s.pending| && |s.pending[t]| == 1 && s.pending[t][0].f < |s.files| == |s.ready|
  {
    var f := s.pending[t][0].f;
    s.(files := s.files[f := File(1, NULL, mode)], ready := s.ready[f := true], pending := s.pending[t := []])
  }

  /** pipe has got inode p, with i_count 2: one entry reads, the other writes. */
  function Piped(s: Sys, t: int, p: int): Sys
    requires 0 <= t < |s.pending| && |s.pending[t]| == 2 && 0 <= p < |s.pipes|
    requires s.pending[t][0].f < |s.files| == |s.ready| && s.pending[t][1].f < |s.files|
  {
    var f, g := s.pending[t][0].f, s.pending[t][1].f;
    s.(files := s.files[f := File(1, p, 1)][g := File(1, p, 2)], ready := s.ready[f := true][g := true],
       pending := s.pending[t := []], pipes := s.pipes[p := 2])
  }

  lemma UndoKeeps(s: Sys, t: int)
    requires Inv(s) && 0 <= t < |s.pending| && s.pending[t] != []
    ensures Inv(Undo(s, t)) && Undo(s, t).pending[t] == s.pending[t][..|s.pending[t]| - 1]
  {
    var k, n := |s.pending[t]| - 1, Undo(s, t);
    var x := s.pending[t][k];
    assert TakenOk(s, t, k) && FileOk(s, x.f);
    forall g | 0 <= g < |n.files| ensures FileOk(n, g) {
      assert FileOk(s, g);
      RefsMove(s, n, t, x.fd, NULL, g);
    }
    forall u, gd | Cell(n, u, gd) ensures CellOk(n, u, gd) {
      assert Cell(s, u, gd) && CellOk(s, u, gd);
      assert FileOk(n, x.f);
      assert At(n, u, gd) == x.f ==> (u, gd) in Refs(n, x.f);
      if u == t && At(n, u, gd) != NULL && !n.ready[At(n, u, gd)] {
        var l :| 0 <= l < |s.pending[t]| && s.pending[t][l] == Taken(gd, At(n, u, gd));
        assert l != k;
        assert n.pending[t][l] == Taken(gd, At(n, u, gd));
      }
    }
    forall u, l | 0 <= u < |n.pending| && 0 <= l < |n.pending[u]| ensures TakenOk(n, u, l) {
      assert TakenOk(s, u, l);
      if s.pending[u][l].f == x.f {
        assert (u, s.pending[u][l].fd) in Refs(s, x.f) && (t, x.fd) in Refs(s, x.f);
        TwoIn(Refs(s, x.f), (u, s.pending[u][l].fd as int), (t, x.fd as int));
      }
    }
    forall p | 0 <= p < |n.pipes| ensures PipeOk(n, p) {
      assert PipeOk(s, p);
      EndsMove(s, n, x.f, p);
      assert forall g :: Live(n, g, p) <==> Live(s, g, p);
    }
  }

  lemma TwoIn<T>(a: set<T>, x: T, y: T)
    requires x in a && y in a && x != y
    ensures |a| >= 2
  {
    assert {x, y} <= a;
    SubCard({x, y}, a);
  }

  lemma SubCard<T>(a: set<T>, b: set<T>)
    requires a <= b
    ensures |a| <= |b|
  {
    assert b == a + (b - a);
  }

  lemma OpenedKeeps(s: Sys, t: int, mode: int)
    requires Inv(s) && 0 <= t < |s.pending| && |s.pending[t]| == 1
    ensures TakenOk(s, t, 0) && Inv(Opened(s, t, mode))
  {
    assert TakenOk(s, t, 0);
    var f, n := s.pending[t][0].f, Opened(s, t, mode);
    forall g | 0 <= g < |n.files| ensures FileOk(n, g) {
      assert FileOk(s, g);
      assert Refs(n, g) == Refs(s, g);
    }
    forall u, gd | Cell(n, u, gd) ensures CellOk(n, u, gd) { assert Cell(s, u, gd) && CellOk(s, u, gd); }
    forall u, l | 0 <= u < |n.pending| && 0 <= l < |n.pending[u]| ensures TakenOk(n, u, l) {
      assert TakenOk(s, u, l);
      OnlyTaker(s, t, 0, u, l);
    }
    forall p | 0 <= p < |n.pipes| ensures PipeOk(n, p) {
      assert PipeOk(s, p);
      EndsMove(s, n, f, p);
      assert forall g :: Live(n, g, p) <==> Live(s, g, p);
    }
  }

  /** An entry under way belongs to one call. */
  lemma OnlyTaker(s: Sys, t: int, k: int, u: int, l: int)
    requires Inv(s) && 0 <= t < |s.pending| && 0 <= k < |s.pending[t]| && 0 <= u < |s.pending| && 0 <= l < |s.pending[u]|
    requires t != u || k != l
    ensures s.pending[t][k].f != s.pending[u][l].f
  {
    assert TakenOk(s, t, k) && TakenOk(s, u, l);
    var x, y := s.pending[t][k], s.pending[u][l];
    if x.f == y.f && t != u {
      assert FileOk(s, x.f);
      assert (t, x.fd as int) in Refs(s, x.f) && (u, y.fd as int) in Refs(s, x.f);
      TwoIn(Refs(s, x.f), (t, x.fd as int), (u, y.fd as int));
    }
  }

  lemma PipedKeeps(s: Sys, t: int, p: int)
    requires Inv(s) && 0 <= t < |s.pending| && |s.pending[t]| == 2 && 0 <= p < |s.pipes| && s.pipes[p] == 0
    ensures TakenOk(s, t, 0) && TakenOk(s, t, 1) && Inv(Piped(s, t, p))
  {
    assert TakenOk(s, t, 0) && TakenOk(s, t, 1);
    var f, h, n := s.pending[t][0].f, s.pending[t][1].f, Piped(s, t, p);
    forall g | 0 <= g < |n.files| ensures FileOk(n, g) {
      assert FileOk(s, g);
      assert Refs(n, g) == Refs(s, g);
    }
    forall u, gd | Cell(n, u, gd) ensures CellOk(n, u, gd) { assert Cell(s, u, gd) && CellOk(s, u, gd); }
    forall u, l | 0 <= u < |n.pending| && 0 <= l < |n.pending[u]| ensures TakenOk(n, u, l) {
      assert TakenOk(s, u, l);
      OnlyTaker(s, t, 0, u, l);
      OnlyTaker(s, t, 1, u, l);
    }
    forall q | 0 <= q < |n.pipes| ensures PipeOk(n, q) {
      assert PipeOk(s, q);
      forall g ensures Live(n, g, q) <==> if g == f || g == h then q == p else Live(s, g, q) {}
      if q == p {
        assert forall g | 0 <= g < |s.files| :: Live(s, g, p) ==> g in Ends(s, p);
        assert Ends(n, p) == {f as int, h as int};
      } else {
        assert Ends(n, q) == Ends(s, q);
      }
    }
  }

  // ---- what a reader concludes ------------------------------------------------

  /** Some descriptor points at a writing end of pipe p. */
  ghost predicate Writable(s: Sys, p: int) {
    exists t, fd :: Cell(s, t, fd) && 0 <= s.filp[t][fd] < |s.files| && Live(s, s.filp[t][fd], p) && s.files[s.filp[t][fd]].mode == 2
  }

  /** read_pipe's test: for a task that holds the reading end, i_count is not 2 exactly when no task holds the
      writing end. */
  lemma EndOfFile(s: Sys, t: int, fd: int)
    requires Inv(s) && Cell(s, t, fd) && s.filp[t][fd] != NULL && CellOk(s, t, fd)
    requires s.ready[s.filp[t][fd]] && s.files[s.filp[t][fd]].inode != NULL && s.files[s.filp[t][fd]].mode == 1
    ensures FileOk(s, s.filp[t][fd])
    ensures var p := s.files[s.filp[t][fd]].inode; s.pipes[p] != 2 <==> !Writable(s, p)
  {
    var f := s.filp[t][fd];
    var p := s.files[f].inode;
    assert FileOk(s, f) && PipeOk(s, p) && Live(s, f, p) && f in Ends(s, p);
    if Writable(s, p) {
      var u, gd :| Cell(s, u, gd) && 0 <= s.filp[u][gd] < |s.files| && Live(s, s.filp[u][gd], p) && s.files[s.filp[u][gd]].mode == 2;
      var g := s.filp[u][gd];
      assert g in Ends(s, p);
      TwoIn(Ends(s, p), f, g);
      forall h | h in Ends(s, p) ensures h == f || h == g { assert Live(s, h, p) && FileOk(s, h); }
      assert Ends(s, p) <= {f, g};
      SubCard(Ends(s, p), {f, g});
    } else {
      forall g | g in Ends(s, p) ensures g == f { if g != f { OtherEnd(s, f, g, p); } }
      assert Ends(s, p) == {f};
    }
  }

  lemma OtherEnd(s: Sys, f: int, g: int, p: int)
    requires Inv(s) && 0 <= p < |s.pipes| && Live(s, f, p) && Live(s, g, p) && f != g && s.files[f].mode == 1
    ensures Writable(s, p)
  {
    assert PipeOk(s, p) && FileOk(s, g);
    var cell :| cell in Refs(s, g);
    assert Cell(s, cell.0, cell.1) && s.filp[cell.0][cell.1] == g;
  }

  // ---- system calls -----------------------------------------------------------

  /** The first free descriptor from a on, NR_OPEN if there is none. */
  function FreeFd(row: seq<int>, a: nat): (r: nat)
    requires a <= |row|
    ensures a <= r <= |row| && (r < |row| ==> row[r] == NULL) && forall i | a <= i < r :: row[i] != NULL
    decreases |row| - a
  {
    if a == |row| || row[a] == NULL then a else FreeFd(row, a + 1)
  }

  /** The first free entry from a on. */
  function FreeFile(files: seq<File>, a: nat): (r: nat)
    requires a <= |files|
    ensures a <= r <= |files| && (r < |files| ==> files[r].count == 0) && forall i | a <= i < r :: files[i].count != 0
    decreases |files| - a
  {
    if a == |files| || files[a].count == 0 then a else FreeFile(files, a + 1)
  }

  datatype Call =
    | OpenStart
    | OpenEnd(found: bool, mode: int)
    | CloseFd(fd: nat)
    | Dup(fd: nat, arg: nat)
    | Dup2(oldFd: nat, newFd: nat)
    | PipeStart
    | PipeEnd(p: int)
    | Fork(child: int)
    | Exit

  /** A call that sleeps is two: up to its sleep and from there on. */
  predicate Callable(s: Sys, t: int, c: Call) {
    && Shape(s) && 0 <= t < |s.filp|
    && match c
       case OpenEnd(_, _) => |s.pending[t]| == 1
       case PipeEnd(p) => |s.pending[t]| == 2 && (p == NULL || (0 <= p < |s.pipes| && s.pipes[p] == 0))
       case Fork(u) => s.pending[t] == [] && 0 <= u < |s.filp| && u != t && s.pending[u] == []
                       && (forall fd | 0 <= fd < NR_OPEN :: s.filp[u][fd] == NULL)
       case _ => s.pending[t] == []
  }

  function CloseOne(s: Sys, t: int, fd: int): Sys { if Cell(s, t, fd) && 0 <= s.filp[t][fd] < |s.files| then Close(s, t, fd) else s }

  function DupOne(s: Sys, t: int, fd: nat, arg: nat): Sys
    requires Shape(s) && 0 <= t < |s.filp|
  {
    if fd >= NR_OPEN || !(0 <= s.filp[t][fd] < |s.files|) || arg >= NR_OPEN then s else
      var a := FreeFd(s.filp[t], arg);
      if a == NR_OPEN then s else Share(s, t, a, s.filp[t][fd])
  }

  function OpenOne(s: Sys, t: int): Sys
    requires Shape(s) && 0 <= t < |s.filp|
  {
    var fd, f := FreeFd(s.filp[t], 0), FreeFile(s.files, 0);
    if fd == NR_OPEN || f == |s.files| then s else Take(s, t, fd, f)
  }

  function PipeTwo(s: Sys, t: int): Sys
    requires Shape(s) && 0 <= t < |s.filp|
  {
    var f, fd := FreeFile(s.files, 0), FreeFd(s.filp[t], 0);
    if f == |s.files| || fd == NR_OPEN then s else
      var g, gd := FreeFile(s.files, f + 1), FreeFd(s.filp[t], fd + 1);
      if g == |s.files| || gd == NR_OPEN then s else Take(Take(s, t, fd, f), t, gd, g)
  }

  /** fork, up to descriptor k: the child u shares what the parent t has. */
  function Forked(s: Sys, t: int, u: int, k: nat): Sys
    requires Shape(s) && 0 <= t < |s.filp| && 0 <= u < |s.filp| && k <= NR_OPEN
    ensures Shape(Forked(s, t, u, k)) && |Forked(s, t, u, k).filp| == |s.filp| && |Forked(s, t, u, k).files| == |s.files|
  {
    if k == 0 then s else
      var r := Forked(s, t, u, k - 1);
      var f := s.filp[t][k - 1];
      if 0 <= f < |r.files| then Share(r, u, k - 1, f) else r
  }

  /** exit, up to descriptor k. */
  function Exited(s: Sys, t: int, k: nat): Sys {
    if k == 0 then s else CloseOne(Exited(s, t, k - 1), t, k - 1)
  }

  ghost function After(s: Sys, t: int, c: Call): Sys
    requires Inv(s) && Callable(s, t, c)
  {
    match c
    case OpenStart => OpenOne(s, t)
    case OpenEnd(found, mode) => assert TakenOk(s, t, 0); if found then Opened(s, t, mode) else Undo(s, t)
    case CloseFd(fd) => CloseOne(s, t, fd)
    case Dup(fd, arg) => DupOne(s, t, fd, arg)
    case Dup2(oldFd, newFd) => assert Shape(CloseOne(s, t, newFd)); DupOne(CloseOne(s, t, newFd), t, oldFd, newFd)
    case PipeStart => PipeTwo(s, t)
    case PipeEnd(p) =>
      assert TakenOk(s, t, 0) && TakenOk(s, t, 1);
      if p == NULL then UndoKeeps(s, t); Undo(Undo(s, t), t) else Piped(s, t, p)
    case Fork(u) => Forked(s, t, u, NR_OPEN)
    case Exit => Exited(s, t, NR_OPEN)
  }

  lemma CloseOneKeeps(s: Sys, t: int, fd: int)
    requires Inv(s) && 0 <= t < |s.filp| && s.pending[t] == []
    ensures var n := CloseOne(s, t, fd); Inv(n) && |n.filp| == |s.filp| && n.pending == s.pending
  {
    if Cell(s, t, fd) && 0 <= s.filp[t][fd] < |s.files| { CloseKeeps(s, t, fd); }
  }

  lemma DupOneKeeps(s: Sys, t: int, fd: nat, arg: nat)
    requires Inv(s) && 0 <= t < |s.filp| && s.pending[t] == []
    ensures Inv(DupOne(s, t, fd, arg))
  {
    if fd < NR_OPEN && arg < NR_OPEN {
      assert Cell(s, t, fd) && CellOk(s, t, fd);
      var a := FreeFd(s.filp[t], arg);
      if a < NR_OPEN && s.filp[t][fd] != NULL { ShareKeeps(s, t, a, s.filp[t][fd]); }
    }
  }

  lemma PipeTwoKeeps(s: Sys, t: int)
    requires Inv(s) && 0 <= t < |s.filp|
    ensures Inv(PipeTwo(s, t))
  {
    var f, fd := FreeFile(s.files, 0), FreeFd(s.filp[t], 0);
    if f < |s.files| && fd < NR_OPEN {
      var g, gd := FreeFile(s.files, f + 1), FreeFd(s.filp[t], fd + 1);
      if g < |s.files| && gd < NR_OPEN {
        TakeKeeps(s, t, fd, f);
        TakeKeeps(Take(s, t, fd, f), t, gd, g);
      }
    }
  }

  lemma {:induction false} ForkedKeeps(s: Sys, t: int, u: int, k: nat)
    requires Inv(s) && Callable(s, t, Fork(u)) && k <= NR_OPEN
    ensures var n := Forked(s, t, u, k);
            && Inv(n) && n.pending == s.pending && n.ready == s.ready && n.pipes == s.pipes && |n.files| == |s.files|
            && (forall v | 0 <= v < |s.filp| && v != u :: n.filp[v] == s.filp[v])
            && (forall fd | 0 <= fd < NR_OPEN :: n.filp[u][fd] == if fd < k then s.filp[t][fd] else NULL)
            && (forall f | 0 <= f < |s.files| :: n.files[f].count >= s.files[f].count)
  {
    hide PipeOk;
    if k > 0 {
      ForkedKeeps(s, t, u, k - 1);
      assert Cell(s, t, k - 1) && CellOk(s, t, k - 1);
      if s.filp[t][k - 1] != NULL { ShareKeeps(Forked(s, t, u, k - 1), u, k - 1, s.filp[t][k - 1]); }
    }
  }

  lemma {:induction false} ExitedKeeps(s: Sys, t: int, k: nat)
    requires Inv(s) && 0 <= t < |s.filp| && s.pending[t] == [] && k <= NR_OPEN
    ensures var n := Exited(s, t, k);
            && Inv(n) && n.pending == s.pending && |n.filp| == |s.filp|
            && (forall v | 0 <= v < |s.filp| && v != t :: n.filp[v] == s.filp[v])
            && (forall fd | 0 <= fd < NR_OPEN :: n.filp[t][fd] == if fd < k then NULL else s.filp[t][fd])
  {
    if k > 0 {
      ExitedKeeps(s, t, k - 1);
      var n := Exited(s, t, k - 1);
      assert Cell(n, t, k - 1) && CellOk(n, t, k - 1);
      CloseOneKeeps(n, t, k - 1);
    }
  }

  /** Whatever calls tasks make, in whatever order, every count stays exact. */
  lemma CallKeeps(s: Sys, t: int, c: Call)
    requires Inv(s) && Callable(s, t, c)
    ensures Inv(After(s, t, c)) && |After(s, t, c).filp| == |s.filp|
  {
    match c
    case OpenStart =>
      var fd, f := FreeFd(s.filp[t], 0), FreeFile(s.files, 0);
      if fd < NR_OPEN && f < |s.files| { TakeKeeps(s, t, fd, f); }
    case OpenEnd(found, mode) =>
      if found { OpenedKeeps(s, t, mode); } else { UndoKeeps(s, t); }
    case CloseFd(fd) => CloseOneKeeps(s, t, fd);
    case Dup(fd, arg) => DupOneKeeps(s, t, fd, arg);
    case Dup2(oldFd, newFd) =>
      CloseOneKeeps(s, t, newFd);
      DupOneKeeps(CloseOne(s, t, newFd), t, oldFd, newFd);
    case PipeStart => PipeTwoKeeps(s, t);
    case PipeEnd(p) =>
      if p == NULL {
        UndoKeeps(s, t);
        UndoKeeps(Undo(s, t), t);
      } else {
        PipedKeeps(s, t, p);
      }
    case Fork(u) => ForkedKeeps(s, t, u, NR_OPEN);
    case Exit => ExitedKeeps(s, t, NR_OPEN);
  }

  lemma InitKeeps(files: nat, tasks: nat, pipes: nat)
    ensures Inv(Sys(seq(files, _ => File(0, NULL, 0)), seq(files, _ => true), seq(tasks, _ => seq(NR_OPEN, _ => NULL)),
                    seq(pipes, _ => 0), seq(tasks, _ => [])))
  {
    var s := Sys(seq(files, _ => File(0, NULL, 0)), seq(files, _ => true), seq(tasks, _ => seq(NR_OPEN, _ => NULL)),
                 seq(pipes, _ => 0), seq(tasks, _ => []));
    forall f | 0 <= f < files ensures FileOk(s, f) { assert Refs(s, f) == {}; }
    forall p | 0 <= p < pipes ensures PipeOk(s, p) { assert Ends(s, p) == {}; }
  }

  lemma RowClosed(s: Sys, t: int, fd: nat)
    requires Inv(s) && 0 <= t < |s.filp| && s.pending[t] == []
    ensures CloseOne(s, t, fd).filp[t] == if fd < NR_OPEN then s.filp[t][fd := NULL] else s.filp[t]
  {
    if fd < NR_OPEN { assert Cell(s, t, fd) && CellOk(s, t, fd); }
  }

  /** dup2 makes the new descriptor share the old one's entry if and only if they are not the same. */
  lemma Dup2Shares(s: Sys, t: int, o: nat, n: nat)
    requires Inv(s) && Callable(s, t, Dup2(o, n)) && o < NR_OPEN && n < NR_OPEN && s.filp[t][o] != NULL
    ensures At(After(s, t, Dup2(o, n)), t, n) == s.filp[t][o] <==> o != n
  {
    assert Cell(s, t, o) && CellOk(s, t, o) && Cell(s, t, n) && CellOk(s, t, n);
    CloseOneKeeps(s, t, n);
    assert FreeFd(CloseOne(s, t, n).filp[t], n) == n;
  }

  /** dup2 of a descriptor onto itself closes it. */
  lemma Dup2Self(s: Sys, t: int, fd: nat)
    requires Inv(s) && Callable(s, t, Dup2(fd, fd)) && fd < NR_OPEN && s.filp[t][fd] != NULL
    ensures After(s, t, Dup2(fd, fd)) == Close(s, t, fd) && Cell(s, t, fd) && CellOk(s, t, fd)
  {
    assert Cell(s, t, fd) && CellOk(s, t, fd);
  }

  // ---- the tables in place ----------------------------------------------------

  class Kernel {
    const file: array<File>
    const filp: array<seq<int>>
    const pipe: array<int>
    ghost var ready: seq<bool>
    ghost var pending: seq<seq<Taken>>

    ghost function Snap(): Sys
      reads this, file, filp, pipe
    {
      Sys(file[..], ready, filp[..], pipe[..], pending)
    }

    constructor (files: nat, tasks: nat, pipes: nat)
      ensures Inv(Snap()) && fresh(file) && fresh(filp) && fresh(pipe)
      ensures filp.Length == tasks && file.Length == files && forall t | 0 <= t < tasks :: pending[t] == []
    {
      InitKeeps(files, tasks, pipes);
      file := new File[files](_ => File(0, NULL, 0));
      filp := new seq<int>[tasks](_ => seq(NR_OPEN, _ => NULL));
      pipe := new int[pipes](_ => 0);
      ready := seq(files, _ => true);
      pending := seq(tasks, _ => []);
      new;
      assert file[..] == seq(files, _ => File(0, NULL, 0));
      assert filp[..] == seq(tasks, _ => seq(NR_OPEN, _ => NULL));
      assert pipe[..] == seq(pipes, _ => 0);
    }

    method FindFd(t: nat, from: nat) returns (fd: nat)
      requires t < filp.Length && from <= |filp[t]| == NR_OPEN
      ensures fd == FreeFd(filp[t], from)
    {
      fd := from;
      while fd < NR_OPEN && filp[t][fd] != NULL
        invariant from <= fd <= NR_OPEN && FreeFd(filp[t], from) == FreeFd(filp[t], fd)
      {
        fd := fd + 1;
      }
    }

    method FindFile(from: nat) returns (f: nat)
      requires from <= file.Length
      ensures f == FreeFile(file[..], from)
    {
      f := from;
      while f < file.Length && file[f].count != 0
        invariant from <= f <= file.Length && FreeFile(file[..], from) == FreeFile(file[..], f)
      {
        f := f + 1;
      }
    }

    /** sys_open up to open_namei, where it may sleep; fd is NULL when a table is full. */
    method OpenStart(t: nat) returns (fd: int, f: int)
      requires Inv(Snap()) && Callable(Snap(), t, Call.OpenStart)
      modifies this, file, filp
      ensures Snap() == After(old(Snap()), t, Call.OpenStart) && Inv(Snap())
      ensures if fd == NULL then Snap() == old(Snap()) else fd >= 0 && f >= 0 && pending[t] == [Taken(fd, f)]
    {
      CallKeeps(Snap(), t, Call.OpenStart);
      fd := FindFd(t, 0);
      if fd == NR_OPEN { return NULL, NULL; }
      f := FindFile(0);
      if f == file.Length { return NULL, NULL; }
      Install(t, fd, f);
    }

    method Install(t: nat, fd: nat, f: nat)
      requires Cell(Snap(), t, fd) && f < file.Length == |ready| && t < |pending|
      modifies this, file, filp
      ensures Snap() == Take(old(Snap()), t, fd, f)
    {
      filp[t] := filp[t][fd := f];
      file[f] := file[f].(count := file[f].count + 1);
      ready, pending := ready[f := false], pending[t := pending[t] + [Taken(fd, f)]];
    }

    /** The rest of sys_open, with what open_namei found. */
    method OpenEnd(t: nat, fd: nat, f: nat, found: bool, mode: int)
      requires Inv(Snap()) && Callable(Snap(), t, Call.OpenEnd(found, mode)) && pending[t] == [Taken(fd, f)]
      modifies this, file, filp
      ensures Snap() == After(old(Snap()), t, Call.OpenEnd(found, mode)) && Inv(Snap())
    {
      CallKeeps(Snap(), t, Call.OpenEnd(found, mode));
      assert TakenOk(Snap(), t, 0);
      if !found {
        filp[t] := filp[t][fd := NULL];
        file[f] := file[f].(count := 0);
      } else {
        file[f] := File(1, NULL, mode);
        ready := ready[f := true];
      }
      pending := pending[t := []];
    }

    /** sys_close; ok is false for -EINVAL. */
    method SysClose(t: nat, fd: nat) returns (ok: bool)
      requires Inv(Snap()) && Callable(Snap(), t, CloseFd(fd))
      modifies file, filp, pipe
      ensures Snap() == After(old(Snap()), t, CloseFd(fd)) && Inv(Snap())
      ensures ok <==> fd < NR_OPEN && old(filp[t])[fd] != NULL
    {
      CallKeeps(Snap(), t, CloseFd(fd));
      if fd >= NR_OPEN { return false; }
      assert Cell(Snap(), t, fd) && CellOk(Snap(), t, fd);
      var f := filp[t][fd];
      if f == NULL { return false; }
      assert FileOk(Snap(), f);
      filp[t] := filp[t][fd := NULL];
      file[f] := file[f].(count := file[f].count - 1);
      if file[f].count == 0 && file[f].inode != NULL {
        pipe[file[f].inode] := pipe[file[f].inode] - 1;
      }
      ok := true;
    }

    /** dupfd; NULL for its errors. */
    method DupFd(t: nat, fd: nat, arg0: nat) returns (arg: int)
      requires Inv(Snap()) && Callable(Snap(), t, Dup(fd, arg0))
      modifies file, filp
      ensures Snap() == After(old(Snap()), t, Dup(fd, arg0)) && Inv(Snap())
      ensures arg == NULL <==> fd >= NR_OPEN || old(filp[t])[fd] == NULL || arg0 >= NR_OPEN || FreeFd(old(filp[t]), arg0) == NR_OPEN
      ensures arg != NULL ==> arg == FreeFd(old(filp[t]), arg0) && filp[t][arg] == old(filp[t])[fd]
    {
      CallKeeps(Snap(), t, Dup(fd, arg0));
      if fd >= NR_OPEN { return NULL; }
      assert Cell(Snap(), t, fd) && CellOk(Snap(), t, fd);
      if filp[t][fd] == NULL || arg0 >= NR_OPEN { return NULL; }
      arg := FindFd(t, arg0);
      if arg >= NR_OPEN { return NULL; }
      var f := filp[t][fd];
      filp[t] := filp[t][arg := f];
      file[f] := file[f].(count := file[f].count + 1);
    }

    method SysDup2(t: nat, oldFd: nat, newFd: nat) returns (fd: int)
      requires Inv(Snap()) && Callable(Snap(), t, Dup2(oldFd, newFd))
      modifies file, filp, pipe
      ensures Snap() == After(old(Snap()), t, Dup2(oldFd, newFd)) && Inv(Snap())
      ensures fd == if oldFd < NR_OPEN && newFd < NR_OPEN && oldFd != newFd && old(filp[t])[oldFd] != NULL then newFd else NULL
    {
      ghost var row := filp[t];
      RowClosed(Snap(), t, newFd);
      var ok := SysClose(t, newFd);
      assert filp[t] == Snap().filp[t] == if newFd < NR_OPEN then row[newFd := NULL] else row;
      fd := DupFd(t, oldFd, newFd);
    }

    /** The first loop of sys_pipe: two free entries, or none. */
    method TakeFiles() returns (f: int, g: int)
      modifies file
      ensures var was := old(file[..]);
              if f == NULL then file[..] == was && (FreeFile(was, 0) == |was| || FreeFile(was, FreeFile(was, 0) + 1) == |was|)
              else f == FreeFile(was, 0) && f < |was| && g == FreeFile(was, f + 1) && g < |was|
                   && file[..] == Bump(Bump(was, f, 1), g, 1)
    {
      f := FindFile(0);
      if f == file.Length { return NULL, NULL; }
      ghost var was := file[..];
      file[f] := file[f].(count := file[f].count + 1);
      g := FindFile(f + 1);
      FreeFileSame(was, file[..], f + 1);
      if g == file.Length {
        file[f] := file[f].(count := 0);
        return NULL, NULL;
      }
      file[g] := file[g].(count := file[g].count + 1);
    }

    /** The second loop: two free descriptors for them, or none. */
    method TakeFds(t: nat, f: nat, g: nat) returns (fd: int, gd: int)
      requires t < filp.Length && |filp[t]| == NR_OPEN
      modifies filp
      ensures var row := old(filp[t]);
              if fd == NULL then filp[..] == old(filp[..]) && (FreeFd(row, 0) == NR_OPEN || FreeFd(row, FreeFd(row, 0) + 1) == NR_OPEN)
              else fd == FreeFd(row, 0) && fd < NR_OPEN && gd == FreeFd(row, fd + 1) && gd < NR_OPEN
                   && filp[..] == old(filp[..])[t := row[fd := f][gd := g]]
    {
      fd := FindFd(t, 0);
      if fd == NR_OPEN { return NULL, NULL; }
      ghost var row := filp[t];
      filp[t] := filp[t][fd := f];
      gd := FindFd(t, fd + 1);
      FreeFdSame(row, filp[t], fd + 1);
      if gd == NR_OPEN {
        filp[t] := filp[t][fd := NULL];
        assert filp[t] == row;
        return NULL, NULL;
      }
      filp[t] := filp[t][gd := g];
    }

    /** sys_pipe up to get_pipe_inode, where it may sleep; fd is NULL when a table is too full. */
    method PipeStart(t: nat) returns (fd: int, gd: int, f: int, g: int)
      requires Inv(Snap()) && Callable(Snap(), t, Call.PipeStart)
      modifies this`ready, this`pending, file, filp
      ensures Snap() == After(old(Snap()), t, Call.PipeStart) && Inv(Snap())
      ensures if fd == NULL then Snap() == old(Snap())
              else fd >= 0 && gd >= 0 && f >= 0 && g >= 0 && pending[t] == [Taken(fd, f), Taken(gd, g)]
    {
      hide FileOk, CellOk, PipeOk, TakenOk, Inv;
      ghost var was := Snap();
      CallKeeps(was, t, Call.PipeStart);
      fd, gd := NULL, NULL;
      f, g := TakeFiles();
      if f == NULL { return; }
      fd, gd := TakeFds(t, f, g);
      if fd == NULL {
        file[f], file[g] := file[f].(count := 0), file[g].(count := 0);
        assert file[..] == was.files;
        return;
      }
      ready := ready[f := false][g := false];
      pending := pending[t := [Taken(fd, f), Taken(gd, g)]];
      TakeTwo(was, t, fd, f, gd, g);
      assert Snap() == Take(Take(was, t, fd, f), t, gd, g);
    }

    /** The rest of sys_pipe, with what get_pipe_inode found, NULL for nothing. */
    method PipeEnd(t: nat, fd: nat, gd: nat, f: nat, g: nat, p: int)
      requires Inv(Snap()) && Callable(Snap(), t, Call.PipeEnd(p)) && pending[t] == [Taken(fd, f), Taken(gd, g)]
      modifies this`ready, this`pending, file, filp, pipe
      ensures Snap() == After(old(Snap()), t, Call.PipeEnd(p)) && Inv(Snap())
    {
      ghost var was := Snap();
      CallKeeps(was, t, Call.PipeEnd(p));
      assert TakenOk(was, t, 0) && TakenOk(was, t, 1) && f != g && fd != gd;
      if p == NULL {
        filp[t] := filp[t][fd := NULL][gd := NULL];
        file[f], file[g] := file[f].(count := 0), file[g].(count := 0);
        pending := pending[t := []];
        UndoTwo(was, t);
        return;
      }
      pipe[p] := 2;
      file[f] := File(file[f].count, p, 1);
      file[g] := File(file[g].count, p, 2);
      ready := ready[f := true][g := true];
      pending := pending[t := []];
    }

    /** copy_process: the child gets a copy of its parent's descriptors, then each entry is counted. */
    method ForkFiles(t: nat, u: nat)
      requires Inv(Snap()) && Callable(Snap(), t, Fork(u))
      modifies file, filp
      ensures Snap() == After(old(Snap()), t, Fork(u)) && Inv(Snap())
    {
      hide FileOk, PipeOk;
      ghost var was := Snap();
      CallKeeps(was, t, Fork(u));
      filp[u] := filp[t];
      var i := 0;
      while i < NR_OPEN
        invariant 0 <= i <= NR_OPEN && filp[..] == was.filp[u := was.filp[t]] && file[..] == Forked(was, t, u, i).files
      {
        var f := filp[u][i];
        assert Cell(was, t, i) && CellOk(was, t, i);
        if f != NULL { file[f] := file[f].(count := file[f].count + 1); }
        i := i + 1;
      }
      ForkedKeeps(was, t, u, NR_OPEN);
      var n := NR_OPEN;
      assert Forked(was, t, u, n).filp[u] == was.filp[t];
      assert filp[..] == Forked(was, t, u, n).filp;
    }

    /** do_exit closes every descriptor. */
    method ExitFiles(t: nat)
      requires Inv(Snap()) && Callable(Snap(), t, Call.Exit)
      modifies file, filp, pipe
      ensures Snap() == After(old(Snap()), t, Call.Exit) && Inv(Snap())
      ensures forall fd | 0 <= fd < NR_OPEN :: |filp[t]| == NR_OPEN && filp[t][fd] == NULL
    {
      ghost var was := Snap();
      var i := 0;
      while i < NR_OPEN
        invariant 0 <= i <= NR_OPEN && Snap() == Exited(was, t, i) && Inv(Snap()) && Snap().pending == was.pending && |Snap().filp| == |was.filp|
      {
        ExitedKeeps(was, t, i);
        assert Cell(Snap(), t, i) && CellOk(Snap(), t, i);
        if filp[t][i] != NULL { var ok := SysClose(t, i); }
        i := i + 1;
      }
      ExitedKeeps(was, t, NR_OPEN);
    }
  }

  lemma TakeTwo(s: Sys, t: int, fd: nat, f: nat, gd: nat, g: nat)
    requires Shape(s) && 0 <= t < |s.filp| && s.pending[t] == [] && fd < gd < NR_OPEN && f < g < |s.files|
    ensures var n := Take(Take(s, t, fd, f), t, gd, g);
            && n.files == Bump(Bump(s.files, f, 1), g, 1) && n.filp == s.filp[t := s.filp[t][fd := f][gd := g]]
            && n.pending == s.pending[t := [Taken(fd, f), Taken(gd, g)]] && n.ready == s.ready[f := false][g := false]
            && n.pipes == s.pipes
  {
    assert [] + [Taken(fd, f)] + [Taken(gd, g)] == [Taken(fd, f), Taken(gd, g)];
  }

  lemma UndoTwo(s: Sys, t: int)
    requires Inv(s) && 0 <= t < |s.pending| && |s.pending[t]| == 2
    ensures TakenOk(s, t, 0) && TakenOk(s, t, 1) && Undo(s, t).pending[t] != []
    ensures var x, y, n := s.pending[t][0], s.pending[t][1], Undo(Undo(s, t), t);
            && n.files == s.files[x.f := s.files[x.f].(count := 0)][y.f := s.files[y.f].(count := 0)]
            && n.filp == s.filp[t := s.filp[t][x.fd := NULL][y.fd := NULL]] && n.pending == s.pending[t := []]
            && n.ready == s.ready && n.pipes == s.pipes
  {
    assert TakenOk(s, t, 0) && TakenOk(s, t, 1);
    UndoKeeps(s, t);
    var x, y, n := s.pending[t][0], s.pending[t][1], Undo(Undo(s, t), t);
    assert n.filp[t] == s.filp[t][x.fd := NULL][y.fd := NULL];
  }

  lemma {:induction false} FreeFdSame(a: seq<int>, b: seq<int>, k: nat)
    requires k <= |a| == |b| && forall i | k <= i < |a| :: a[i] == b[i]
    ensures FreeFd(a, k) == FreeFd(b, k)
    decreases |a| - k
  {
    if k < |a| { FreeFdSame(a, b, k + 1); }
  }

  lemma {:induction false} FreeFileSame(a: seq<File>, b: seq<File>, k: nat)
    requires k <= |a| == |b| && forall i | k <= i < |a| :: a[i] == b[i]
    ensures FreeFile(a, k) == FreeFile(b, k)
    decreases |a| - k
  {
    if k < |a| { FreeFileSame(a, b, k + 1); }
  }
}
