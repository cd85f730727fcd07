/** What open and pipe mean to the task that calls them: which descriptors it gets, and what they are. */
module FileTableLaws {
  import opened FileTable

  /** d is the lowest free descriptor, f the lowest entry nobody uses. */
  predicate FirstFree(row: seq<int>, d: nat) { d < |row| && row[d] == NULL && forall i | 0 <= i < d :: row[i] != NULL }

  predicate FirstUnused(files: seq<File>, f: nat) {
    f < |files| && files[f].count == 0 && forall i | 0 <= i < f :: files[i].count != 0
  }

  predicate NoneFree(row: seq<int>) { forall i | 0 <= i < |row| :: row[i] != NULL }
  predicate NoneUnused(files: seq<File>) { forall i | 0 <= i < |files| :: files[i].count != 0 }

  /** open, up to where it looks for the inode, holds the lowest free descriptor and the lowest unused entry, and with
      none of one or the other changes nothing. */
  lemma OpenTakes(s: Sys, t: int, d: nat, f: nat)
    requires Inv(s) && Callable(s, t, OpenStart)
    ensures FirstFree(s.filp[t], d) && FirstUnused(s.files, f) ==>
              After(s, t, OpenStart)
              == s.(files := s.files[f := s.files[f].(count := 1)], ready := s.ready[f := false],
                    filp := s.filp[t := s.filp[t][d := f]], pending := s.pending[t := [Taken(d, f)]])
    ensures NoneFree(s.filp[t]) || NoneUnused(s.files) ==> After(s, t, OpenStart) == s
  {
    assert [] + [Taken(d, f)] == [Taken(d, f)];
    hide Inv;
  }

  /** With the inode found, the descriptor is open, alone, with the mode asked for; without it, all is as it was. */
  lemma OpenGives(s: Sys, t: int, d: nat, f: nat, mode: int)
    requires Inv(s) && Callable(s, t, OpenStart) && FirstFree(s.filp[t], d) && FirstUnused(s.files, f)
    ensures var n := After(s, t, OpenStart);
            && Inv(n) && Callable(n, t, OpenEnd(true, mode)) && Callable(n, t, OpenEnd(false, mode))
            && After(n, t, OpenEnd(true, mode))
               == s.(files := s.files[f := File(1, NULL, mode)], ready := s.ready[f := true], filp := s.filp[t := s.filp[t][d := f]])
            && After(n, t, OpenEnd(false, mode)) == s.(ready := s.ready[f := false])
  {
    OpenTakes(s, t, d, f);
    CallKeeps(s, t, OpenStart);
    var n := After(s, t, OpenStart);
    assert TakenOk(n, t, 0);
    hide Inv, FileOk, PipeOk, CellOk;
    assert s.pending[t] == [] && n.pending[t][..0] == [] && s.pending[t := []] == s.pending;
    assert s.filp[t][d := f][d := NULL] == s.filp[t];
    assert s.filp[t := s.filp[t][d := f]][t := s.filp[t]] == s.filp;
    assert s.files[f := s.files[f].(count := 1)][f := s.files[f]] == s.files;
  }

  /** pipe gives the two lowest free descriptors: the lower one reads, the other writes, each alone. */
  lemma PipeGives(s: Sys, t: int, d: nat, e: nat, f: nat, g: nat, p: int)
    requires Inv(s) && Callable(s, t, PipeStart) && 0 <= p < |s.pipes| && s.pipes[p] == 0
    requires FirstFree(s.filp[t], d) && FirstUnused(s.files, f)
    requires FirstFree(s.filp[t][d := f], e) && FirstUnused(s.files[f := s.files[f].(count := 1)], g)
    ensures var n := After(s, t, PipeStart);
            && d < e && Inv(n) && Callable(n, t, PipeEnd(p)) && n.pending[t] == [Taken(d, f), Taken(e, g)]
            && After(n, t, PipeEnd(p))
               == s.(files := s.files[f := File(1, p, 1)][g := File(1, p, 2)], ready := s.ready[f := true][g := true],
                     filp := s.filp[t := s.filp[t][d := f][e := g]], pipes := s.pipes[p := 2])
  {
    CallKeeps(s, t, PipeStart);
    PipeTakes(s, t, d, e, f, g);
    var n := After(s, t, PipeStart);
    assert TakenOk(n, t, 0) && TakenOk(n, t, 1);
    hide Inv, FileOk, PipeOk, CellOk;
    assert s.pending[t := []] == s.pending;
  }

  lemma PipeTakes(s: Sys, t: int, d: nat, e: nat, f: nat, g: nat)
    requires Inv(s) && Callable(s, t, PipeStart) && FirstFree(s.filp[t], d) && FirstUnused(s.files, f)
    requires FirstFree(s.filp[t][d := f], e) && FirstUnused(s.files[f := s.files[f].(count := 1)], g)
    ensures d < e
    ensures After(s, t, PipeStart)
            == s.(files := s.files[f := s.files[f].(count := 1)][g := s.files[g].(count := 1)],
                  ready := s.ready[f := false][g := false],
                  filp := s.filp[t := s.filp[t][d := f][e := g]], pending := s.pending[t := [Taken(d, f), Taken(e, g)]])
  {
    TwoFree(s.filp[t], d, f, e);
    TwoUnused(s.files, f, g);
    TakenTwice(s, t, d, f, e, g);
    hide Inv, FirstFree, FirstUnused;
  }

  lemma TwoFree(row: seq<int>, d: nat, f: nat, e: nat)
    requires FirstFree(row, d) && FirstFree(row[d := f], e)
    ensures d < e < |row| && FreeFd(row, 0) == d && FreeFd(row, d + 1) == e
  {
    assert row[d := f][d] != NULL;
    assert forall i | 0 <= i < |row| && i != d :: row[d := f][i] == row[i];
  }

  lemma TwoUnused(files: seq<File>, f: nat, g: nat)
    requires FirstUnused(files, f) && FirstUnused(files[f := files[f].(count := 1)], g)
    ensures f < g < |files| && FreeFile(files, 0) == f && FreeFile(files, f + 1) == g
  {
    var used := files[f := files[f].(count := 1)];
    assert used[f].count != 0;
    assert forall i | 0 <= i < |files| && i != f :: used[i] == files[i];
  }

  lemma TakenTwice(s: Sys, t: int, d: nat, f: nat, e: nat, g: nat)
    requires Shape(s) && 0 <= t < |s.filp| && d < e < NR_OPEN && f < g < |s.files| && s.files[f].count == s.files[g].count == 0
    requires s.pending[t] == []
    ensures Take(Take(s, t, d, f), t, e, g)
            == s.(files := s.files[f := s.files[f].(count := 1)][g := s.files[g].(count := 1)],
                  ready := s.ready[f := false][g := false],
                  filp := s.filp[t := s.filp[t][d := f][e := g]], pending := s.pending[t := [Taken(d, f), Taken(e, g)]])
  {
    assert [] + [Taken(d, f)] == [Taken(d, f)] && [Taken(d, f)] + [Taken(e, g)] == [Taken(d, f), Taken(e, g)];
  }

  /** dup gives the lowest free descriptor from arg on, for the same entry; without one, or for a closed descriptor, it
      changes nothing. */
  lemma DupGives(s: Sys, t: int, fd: nat, arg: nat, a: nat)
    requires Inv(s) && Callable(s, t, Dup(fd, arg))
    ensures fd < NR_OPEN && s.filp[t][fd] != NULL && arg <= a < NR_OPEN && s.filp[t][a] == NULL
            && (forall i | arg <= i < a :: s.filp[t][i] != NULL) ==>
              var f := s.filp[t][fd];
              0 <= f < |s.files| && After(s, t, Dup(fd, arg))
              == s.(files := s.files[f := s.files[f].(count := s.files[f].count + 1)], filp := s.filp[t := s.filp[t][a := f]])
    ensures fd >= NR_OPEN || s.filp[t][fd] == NULL || (forall i | arg <= i < NR_OPEN :: s.filp[t][i] != NULL) ==>
              After(s, t, Dup(fd, arg)) == s
  {
    if fd < NR_OPEN { assert Cell(s, t, fd) && CellOk(s, t, fd); }
    hide Inv, CellOk;
  }

  /** close gives up a descriptor; with the last one for a pipe's end that end is gone. */
  lemma CloseGives(s: Sys, t: int, fd: nat)
    requires Inv(s) && Callable(s, t, CloseFd(fd))
    ensures fd < NR_OPEN && s.filp[t][fd] != NULL ==>
              var f, n := s.filp[t][fd], After(s, t, CloseFd(fd));
              && 0 <= f < |s.files| && n == s.(files := n.files, filp := s.filp[t := s.filp[t][fd := NULL]], pipes := n.pipes)
              && n.files == s.files[f := s.files[f].(count := s.files[f].count - 1)] && |n.pipes| == |s.pipes|
              && forall p | 0 <= p < |s.pipes| ::
                   n.pipes[p] == s.pipes[p] - if s.files[f].count == 1 && s.files[f].inode == p then 1 else 0
    ensures fd >= NR_OPEN || s.filp[t][fd] == NULL ==> After(s, t, CloseFd(fd)) == s
  {
    if fd < NR_OPEN { assert Cell(s, t, fd) && CellOk(s, t, fd); }
    hide Inv, CellOk;
  }
}
