/** Line editing, kernel/chr_drv/tty_io.c: copy_to_cooked moves what was typed from read_q to secondary, tty_read takes
    it from there. */
module Tty {
  import Ring

  /** The settings; characters are signed, from -128 to 127, the special ones unsigned. */
  datatype Termios = Termios(
    icrnl: bool, igncr: bool, inlcr: bool, iuclc: bool, icanon: bool, isig: bool,
    kill: int, erase: int, stop: int, start: int, intr: int, quit: int, eof: int, vtime: nat, vmin: nat)

  predicate Ends(t: Termios, c: int) { c == 10 || c == t.eof }

  // ---- one character ----------------------------------------------------------

  /** secondary's characters, its count of line ends, whether output is stopped, and the signals sent. */
  datatype Line = Line(text: seq<int>, data: int, stopped: bool, sent: seq<int>)

  const SIGINT := 2
  const SIGQUIT := 3
  const CAPACITY: nat := 1023

  datatype Mapped = Skip | Char(c: int)

  /** The input flags. */
  function MapIn(t: Termios, c: int): Mapped {
    if c == 13 && !t.icrnl && t.igncr then Skip
    else
      var c := if c == 13 && t.icrnl then 10 else if c == 10 && t.inlcr then 13 else c;
      Char(if t.iuclc && 65 <= c <= 90 then c + 32 else c)
  }

  function LastEnds(t: Termios, text: seq<int>): bool { text == [] || Ends(t, text[|text| - 1]) }

  function Killed(t: Termios, text: seq<int>): seq<int> {
    if LastEnds(t, text) then text else Killed(t, text[..|text| - 1])
  }

  /** What copy_to_cooked does to secondary for one character. */
  function Cook(t: Termios, l: Line, typed: int): Line {
    match MapIn(t, typed)
    case Skip => l
    case Char(c) => CookOne(t, l, c)
  }

  function CookOne(t: Termios, l: Line, c: int): Line {
    if t.icanon && c == t.kill then l.(text := Killed(t, l.text))
    else if t.icanon && c == t.erase then l.(text := if LastEnds(t, l.text) then l.text else l.text[..|l.text| - 1])
    else if t.icanon && c == t.stop then l.(stopped := true)
    else if t.icanon && c == t.start then l.(stopped := false)
    else if t.isig && c == t.intr then l.(sent := l.sent + [SIGINT])
    else if t.isig && c == t.quit then l.(sent := l.sent + [SIGQUIT])
    else Line(l.text + [c], l.data + if Ends(t, c) then 1 else 0, l.stopped, l.sent)
  }

  /** copy_to_cooked: how many characters it takes, until there are no more or secondary is full. */
  function Cooked(t: Termios, l: Line, input: seq<int>): (Line, seq<int>)
    decreases |input|
  {
    if input == [] || |l.text| >= CAPACITY then (l, input) else Cooked(t, Cook(t, l, input[0]), input[1..])
  }

  // ---- the line editor --------------------------------------------------------

  /** done: the lines entered; line: the one being edited; taken: how many characters readers have had. */
  datatype Editor = Editor(done: seq<int>, line: seq<int>, taken: nat)

  function All(e: Editor): seq<int> { e.done + e.line }

  /** What has been read cannot be taken back. */
  function Floor(e: Editor): nat { if e.taken > |e.done| then e.taken - |e.done| else 0 }

  function Edit(t: Termios, e: Editor, typed: int): Editor {
    match MapIn(t, typed)
    case Skip => e
    case Char(c) =>
      if t.icanon && c == t.kill then e.(line := if Floor(e) <= |e.line| then e.line[..Floor(e)] else e.line)
      else if t.icanon && c == t.erase then e.(line := if |e.line| > Floor(e) then e.line[..|e.line| - 1] else e.line)
      else if t.icanon && (c == t.stop || c == t.start) then e
      else if t.isig && (c == t.intr || c == t.quit) then e
      else Put(t, e, c)
  }

  function Ended(t: Termios, text: seq<int>): nat {
    if text == [] then 0 else Ended(t, text[..|text| - 1]) + if Ends(t, text[|text| - 1]) then 1 else 0
  }

  /** The unread part of the lines entered, and of the line being edited. */
  function Kept(e: Editor): seq<int> { if e.taken <= |e.done| then e.done[e.taken..] else [] }
  function Open(e: Editor): seq<int> { if Floor(e) <= |e.line| then e.line[Floor(e)..] else [] }

  lemma KeptAndOpen(e: Editor)
    requires e.taken <= |All(e)|
    ensures All(e)[e.taken..] == Kept(e) + Open(e)
  {}

  /** secondary is what the editor has and readers have not had; data counts the line ends in it. */
  ghost predicate Shows(t: Termios, l: Line, e: Editor) {
    && e.taken <= |All(e)| && l.text == Kept(e) + Open(e)
    && LastEnds(t, e.done) && (forall i | 0 <= i < |e.line| :: !Ends(t, e.line[i]))
    && l.data == Ended(t, l.text)
  }

  lemma {:induction false} KilledIs(t: Termios, text: seq<int>, line: seq<int>)
    requires LastEnds(t, text) && forall i | 0 <= i < |line| :: !Ends(t, line[i])
    ensures Killed(t, text + line) == text && Ended(t, text + line) == Ended(t, text)
  {
    if line == [] { assert text + line == text; } else {
      assert (text + line)[..|text + line| - 1] == text + line[..|line| - 1];
      KilledIs(t, text, line[..|line| - 1]);
    }
  }

  lemma {:induction false} EndedCut(t: Termios, text: seq<int>, k: nat)
    requires k <= |text|
    ensures Ended(t, text) == Ended(t, text[..k]) + Ended(t, text[k..])
  {
    if k == |text| { assert text[..k] == text; } else {
      EndedCut(t, text[..|text| - 1], k);
      assert text[..|text| - 1][..k] == text[..k] && text[..|text| - 1][k..] == text[k..][..|text[k..]| - 1];
    }
  }

  lemma KillShows(t: Termios, l: Line, e: Editor)
    requires Shows(t, l, e)
    ensures Floor(e) <= |e.line| && Shows(t, l.(text := Killed(t, l.text)), e.(line := e.line[..Floor(e)]))
  {
    KilledIs(t, Kept(e), Open(e));
    var e' := e.(line := e.line[..Floor(e)]);
    assert Kept(e') == Kept(e) && Open(e') == [];
    assert Kept(e) + [] == Kept(e);
  }

  lemma EraseShows(t: Termios, l: Line, e: Editor)
    requires Shows(t, l, e)
    ensures LastEnds(t, l.text) <==> |e.line| <= Floor(e)
    ensures |e.line| > Floor(e) ==> Shows(t, l.(text := l.text[..|l.text| - 1]), e.(line := e.line[..|e.line| - 1]))
  {
    if |e.line| > Floor(e) {
      DropOpens(e);
      DropLast(t, l.text, Kept(e), Open(e.(line := e.line[..|e.line| - 1])), e.line[|e.line| - 1]);
      hide Ended, Kept, Open;
    } else {
      assert l.text == Kept(e);
    }
  }

  lemma DropLast(t: Termios, text: seq<int>, kept: seq<int>, open: seq<int>, last: int)
    requires text == kept + (open + [last]) && !Ends(t, last)
    ensures text[..|text| - 1] == kept + open && text[|text| - 1] == last
    ensures Ended(t, text[..|text| - 1]) == Ended(t, text)
  {
    hide Ends;
    assert text[..|text| - 1] == kept + open && text == (kept + open) + [last];
    EndedPut(t, kept + open, last);
  }

  lemma DropOpens(e: Editor)
    requires Floor(e) < |e.line|
    ensures var e' := e.(line := e.line[..|e.line| - 1]);
            Kept(e) == Kept(e') && Open(e) == Open(e') + [e.line[|e.line| - 1]]
  {}

  lemma EndedPut(t: Termios, text: seq<int>, c: int)
    ensures Ended(t, text + [c]) == Ended(t, text) + if Ends(t, c) then 1 else 0
  {
    assert (text + [c])[..|text|] == text;
  }

  function Put(t: Termios, e: Editor, c: int): Editor {
    if Ends(t, c) then Editor(All(e) + [c], [], e.taken) else e.(line := e.line + [c])
  }

  lemma PutOpens(t: Termios, e: Editor, c: int)
    requires e.taken <= |All(e)|
    ensures Kept(Put(t, e, c)) + Open(Put(t, e, c)) == Kept(e) + Open(e) + [c]
  {
    KeptAndOpen(e);
    KeptAndOpen(Put(t, e, c));
    assert All(Put(t, e, c)) == All(e) + [c];
    assert (All(e) + [c])[e.taken..] == All(e)[e.taken..] + [c];
  }

  lemma PutShows(t: Termios, l: Line, e: Editor, c: int)
    requires Shows(t, l, e)
    ensures Shows(t, l.(text := l.text + [c], data := l.data + if Ends(t, c) then 1 else 0), Put(t, e, c))
  {
    hide Ended, Kept, Open;
    EndedPut(t, l.text, c);
    PutOpens(t, e, c);
  }

  /** Every character typed is to secondary what it is to the editor. */
  lemma CookShows(t: Termios, l: Line, e: Editor, typed: int)
    requires Shows(t, l, e)
    ensures Shows(t, Cook(t, l, typed), Edit(t, e, typed))
  {
    hide Ended, Kept, Open, All;
    if MapIn(t, typed).Char? {
      var c := MapIn(t, typed).c;
      if t.icanon && c == t.kill { KillShows(t, l, e); }
      else if t.icanon && c == t.erase { EraseShows(t, l, e); }
      else {
        PutShows(t, l, e, c);
        SignalShows(t, l, Cook(t, l, typed), e);
        hide Shows;
      }
    }
  }

  /** Stopping output and sending signals leave the text alone. */
  lemma SignalShows(t: Termios, l: Line, l': Line, e: Editor)
    requires Shows(t, l, e)
    ensures l'.text == l.text && l'.data == l.data ==> Shows(t, l', e)
  {}

  /** What has been read stays as it was. */
  lemma EditKeepsRead(t: Termios, e: Editor, typed: int)
    requires e.taken <= |All(e)|
    ensures Edit(t, e, typed).taken == e.taken && e.taken <= |All(Edit(t, e, typed))|
    ensures All(Edit(t, e, typed))[..e.taken] == All(e)[..e.taken]
  {}

  // ---- reading ----------------------------------------------------------------

  /** tty_read's inner loop: how many characters it takes, and those it gives; in canonical mode EOF ends it and is not
      given. */
  function Drained(t: Termios, text: seq<int>, nr: nat): (r: (nat, seq<int>))
    requires nr > 0
    ensures r.0 <= |text| && |r.1| <= nr
    decreases |text|
  {
    if text == [] then (0, [])
    else if t.icanon && text[0] == t.eof then (1, [])
    else if nr == 1 then (1, [text[0]])
    else var (n, got) := Drained(t, text[1..], nr - 1); (1 + n, [text[0]] + got)
  }

  function Sans(text: seq<int>, eof: int): seq<int> {
    if text == [] then [] else (if text[0] == eof then [] else [text[0]]) + Sans(text[1..], eof)
  }

  /** What a reader gets of the characters taken. */
  function Given(t: Termios, text: seq<int>): seq<int> { if t.icanon then Sans(text, t.eof) else text }

  /** The n characters taken end with EOF. */
  predicate AtEof(t: Termios, text: seq<int>, n: nat) { t.icanon && 0 < n <= |text| && text[n - 1] == t.eof }

  lemma GivenApp(t: Termios, a: seq<int>, b: seq<int>)
    ensures Given(t, a + b) == Given(t, a) + Given(t, b)
  {
    SansApp(a, b, t.eof);
  }

  lemma {:induction false} SansApp(a: seq<int>, b: seq<int>, eof: int)
    ensures Sans(a + b, eof) == Sans(a, eof) + Sans(b, eof)
  {
    if a == [] { assert a + b == b; } else {
      SansApp(a[1..], b, eof);
      assert (a + b)[1..] == a[1..] + b;
      Assoc(if a[0] == eof then [] else [a[0]], Sans(a[1..], eof), Sans(b, eof));
    }
  }

  lemma Assoc(a: seq<int>, b: seq<int>, c: seq<int>)
    ensures a + (b + c) == (a + b) + c
  {}

  /** It stops at EOF, when it has given nr, or when nothing is left; it gives what it takes, but for that EOF. */
  lemma {:induction false} DrainedIs(t: Termios, text: seq<int>, nr: nat)
    requires nr > 0
    ensures var (n, got) := Drained(t, text, nr);
            && got == Given(t, text[..n])
            && (t.icanon ==> forall i | 0 <= i < n - 1 :: text[i] != t.eof)
            && (n == |text| || |got| == nr || AtEof(t, text, n))
            && (text != [] ==> n > 0)
  {
    if text != [] {
      var n := Drained(t, text, nr).0;
      GivenOne(t, text[..n]);
      if !(t.icanon && text[0] == t.eof) && nr > 1 {
        DrainedIs(t, text[1..], nr - 1);
        assert text[..n][1..] == text[1..][..n - 1];
        assert forall i | 1 <= i < n :: text[i] == text[1..][i - 1];
      } else {
        assert text[..n][1..] == [];
      }
    }
  }

  lemma GivenOne(t: Termios, text: seq<int>)
    requires text != []
    ensures Given(t, text) == (if t.icanon && text[0] == t.eof then [] else [text[0]]) + Given(t, text[1..])
  {}

  // ---- runs -------------------------------------------------------------------

  datatype Event = Typed(c: int) | Read(nr: nat)

  /** secondary, and everything readers have been given. */
  datatype Session = Session(line: Line, given: seq<int>)

  predicate Possible(s: Session, e: Event) {
    match e
    case Typed(c) => |s.line.text| < CAPACITY
    case Read(nr) => nr > 0
  }

  /** secondary after the inner loop, what it gave, and whether EOF ended it. */
  function AfterRead(t: Termios, l: Line, nr: nat): (r: (Line, seq<int>, bool))
    requires nr > 0
    ensures |r.1| <= nr
  {
    var (n, got) := Drained(t, l.text, nr);
    (LessN(t, l, n), got, AtEof(t, l.text, n))
  }

  function Next(t: Termios, s: Session, e: Event): Session
    requires Possible(s, e)
  {
    match e
    case Typed(c) => Session(Cook(t, s.line, c), s.given)
    case Read(nr) => var (l, got, _) := AfterRead(t, s.line, nr); Session(l, s.given + got)
  }

  ghost predicate IsRun(t: Termios, run: seq<Session>, es: seq<Event>) {
    && |run| == |es| + 1 && run[0] == Session(Line([], 0, run[0].line.stopped, run[0].line.sent), [])
    && forall k | 0 <= k < |es| :: Possible(run[k], es[k]) && run[k + 1] == Next(t, run[k], es[k])
  }

  function EditorNext(t: Termios, s: Session, e: Editor, ev: Event): Editor {
    match ev
    case Typed(c) => Edit(t, e, c)
    case Read(nr) => e.(taken := e.taken + if nr > 0 then Drained(t, s.line.text, nr).0 else 0)
  }

  /** The editor's side of a run: the characters typed, and how many have been read. */
  function Edited(t: Termios, run: seq<Session>, es: seq<Event>): Editor
    requires |run| == |es| + 1
  {
    if es == [] then Editor([], [], 0) else
      var k := |es| - 1;
      EditorNext(t, run[k], Edited(t, run[..k + 1], es[..k]), es[k])
  }

  /** secondary holds the edited text that has not been read; data counts the line ends in it; readers were given
      exactly the text before it, in canonical mode without the EOF characters; and secondary never holds more than its ring can. */
  ghost predicate Refines(t: Termios, s: Session, e: Editor) {
    Shows(t, s.line, e) && e.taken <= |All(e)| && s.given == Given(t, All(e)[..e.taken]) && |s.line.text| <= CAPACITY
  }

  lemma EventRefines(t: Termios, s: Session, e: Editor, ev: Event)
    requires Refines(t, s, e) && Possible(s, ev)
    ensures Refines(t, Next(t, s, ev), EditorNext(t, s, e, ev))
  {
    match ev
    case Typed(c) =>
      TypedRefines(t, s, e, c);
      hide Refines, Cook, Edit;
    case Read(nr) =>
      ReadRefines(t, s, e, nr);
      hide Refines, AfterRead, Drained;
  }

  lemma ReadRefines(t: Termios, s: Session, e: Editor, nr: nat)
    requires Refines(t, s, e) && nr > 0
    ensures Refines(t, Next(t, s, Read(nr)), EditorNext(t, s, e, Read(nr)))
  {
    hide Shows, Given, Drained, Ended, All;
    var text, n := s.line.text, Drained(t, s.line.text, nr).0;
    DrainedIs(t, text, nr);
    TakeShows(t, s.line, e, n);
    var e' := e.(taken := e.taken + n);
    assert All(e') == All(e) by { SameAll(e, n); }
    GivenApp(t, All(e)[..e.taken], text[..n]);
    assert Given(t, All(e')[..e'.taken]) == s.given + Given(t, text[..n]);
  }

  lemma SameAll(e: Editor, n: nat)
    ensures All(e.(taken := e.taken + n)) == All(e)
  {}

  lemma TypedRefines(t: Termios, s: Session, e: Editor, c: int)
    requires Refines(t, s, e) && |s.line.text| < CAPACITY
    ensures Refines(t, Session(Cook(t, s.line, c), s.given), Edit(t, e, c))
  {
    CookShows(t, s.line, e, c);
    EditKeepsRead(t, e, c);
    CookGrows(t, s.line, c);
    hide Shows, Given, All, Killed, Edit, Cook;
  }

  /** Every run of typing and reading refines the line editor. */
  lemma {:induction false} EditorIsShown(t: Termios, run: seq<Session>, es: seq<Event>)
    requires IsRun(t, run, es)
    ensures Refines(t, run[|es|], Edited(t, run, es))
  {
    if es != [] {
      var k := |es| - 1;
      EditorIsShown(t, run[..k + 1], es[..k]);
      assert Possible(run[k], es[k]) && run[k + 1] == Next(t, run[k], es[k]);
      EventRefines(t, run[k], Edited(t, run[..k + 1], es[..k]), es[k]);
    }
  }

  lemma {:induction false} KilledShrinks(t: Termios, text: seq<int>)
    ensures |Killed(t, text)| <= |text|
  {
    if !LastEnds(t, text) { KilledShrinks(t, text[..|text| - 1]); }
  }

  lemma CookGrows(t: Termios, l: Line, c: int)
    ensures |Cook(t, l, c).text| <= |l.text| + 1
  {
    KilledShrinks(t, l.text);
  }

  lemma TakeShows(t: Termios, l: Line, e: Editor, n: nat)
    requires Shows(t, l, e) && n <= |l.text|
    ensures Shows(t, l.(text := l.text[n..], data := l.data - Ended(t, l.text[..n])), e.(taken := e.taken + n))
    ensures e.taken + n <= |All(e)| && All(e)[..e.taken + n] == All(e)[..e.taken] + l.text[..n]
  {
    hide Ended, Kept, Open;
    EndedCut(t, l.text, n);
    KeptAndOpen(e);
    assert |All(e)[e.taken..]| == |l.text|;
    KeptAndOpen(e.(taken := e.taken + n));
    SliceSlice(All(e), e.taken, n);
  }

  lemma SliceSlice(all: seq<int>, k: nat, n: nat)
    requires k + n <= |all|
    ensures all[k + n..] == all[k..][n..] && all[..k + n] == all[..k] + all[k..][..n]
  {}

  // ---- one call of tty_read ---------------------------------------------------

  const EINTR := 4

  /** What the reader's task has: the time of its alarm, 0 for none, whether SIGALRM is pending, and another signal. */
  datatype Task = Task(alarm: int, alarmed: bool, other: bool)

  /** What a call still wants, what it has, how much will do, whether its own alarm is set, and the alarm before. */
  datatype Call = Call(left: nat, got: seq<int>, minimum: nat, flag: bool, oldAlarm: int)

  datatype Outcome = Sleeps | GoesOn | Returns(r: int)

  predicate Arms(t: Termios, oldAlarm: int, now: int) { oldAlarm == 0 || 10 * t.vtime + now < oldAlarm }

  /** How many characters will do for a call for nr. */
  function Minimum(t: Termios, nr: nat): nat {
    var minimum := if t.vtime != 0 && t.vmin == 0 then 1 else t.vmin;
    if minimum > nr then nr else minimum
  }

  /** The beginning of tty_read. */
  function Begin(t: Termios, nr: nat, task: Task, now: int): (Call, Task) {
    var flag := t.vtime != 0 && t.vmin == 0 && Arms(t, task.alarm, now);
    (Call(nr, [], Minimum(t, nr), flag, task.alarm), if flag then task.(alarm := 10 * t.vtime + now) else task)
  }

  /** Its end. */
  function Stop(l: Line, call: Call, task: Task): (Line, Call, Task, Outcome) {
    (l, call, task.(alarm := call.oldAlarm), Returns(if (task.alarmed || task.other) && call.got == [] then -EINTR else |call.got|))
  }

  /** Nothing to read: in canonical mode it waits for a line end until secondary is nearly full.  It sleeps only if
      secondary is empty, and otherwise looks again at once. */
  predicate Waits(t: Termios, l: Line) { l.text == [] || (t.icanon && l.data == 0 && CAPACITY - |l.text| > 20) }

  /** One round of its loop, for what it finds at that time. */
  function Round(t: Termios, l: Line, call: Call, task: Task, now: int): (Line, Call, Task, Outcome) {
    if call.left == 0 then Stop(l, call, task)
    else if call.flag && task.alarmed then Stop(l, call, task.(alarmed := false))
    else if task.alarmed || task.other then Stop(l, call, task)
    else if Waits(t, l) then (l, call, task, Sleeps)
    else
      var (l', g, eof) := AfterRead(t, l, call.left);
      var call' := call.(left := call.left - |g|, got := call.got + g);
      if eof then (l', call', task, Returns(|call'.got|))
      else if t.icanon then Stop(l', call', task)
      else Again(t, l', call', task, now)
  }

  /** The end of a round in non-canonical mode: the alarm is set once more, and the call ends if it has enough. */
  function Again(t: Termios, l: Line, call: Call, task: Task, now: int): (Line, Call, Task, Outcome) {
    var flag := if t.vtime != 0 then Arms(t, call.oldAlarm, now) else call.flag;
    var call' := call.(flag := flag);
    var task' := if t.vtime == 0 then task else task.(alarm := if flag then 10 * t.vtime + now else call.oldAlarm);
    if |call.got| >= call.minimum then Stop(l, call', task') else (l, call', task', GoesOn)
  }

  /** What holds before every round of a call for nr characters. */
  predicate Reading(t: Termios, nr: nat, oldAlarm: int, call: Call) {
    && call.left + |call.got| == nr && call.minimum == Minimum(t, nr) && call.oldAlarm == oldAlarm
    && (call.got != [] ==> !t.icanon && |call.got| < call.minimum)
  }

  /** What holds when it has ended: why, with what, and whether the alarm is what it was before the call.  found is the
      task as the last round found it. */
  predicate Finished(t: Termios, nr: nat, oldAlarm: int, call: Call, found: Task, task: Task, r: int, eof: bool) {
    && |call.got| <= nr && task.other == found.other
    && r == (if call.got == [] && (task.alarmed || task.other) then -EINTR else |call.got|)
    && (nr == 0 || found.alarmed || found.other || eof || (call.got != [] && (t.icanon || |call.got| >= Minimum(t, nr))))
    && (eof ==> t.icanon && !found.alarmed && !found.other)
    && task.alarm == (if eof then found.alarm else oldAlarm)
  }

  /** A round takes characters as a read does, or none; and the call has not ended, or has as it should. */
  lemma RoundIs(t: Termios, nr: nat, oldAlarm: int, l: Line, call: Call, task: Task, now: int)
    requires Reading(t, nr, oldAlarm, call)
    ensures var (l', call', task', o) := Round(t, l, call, task, now);
            && ((l', call'.got) == (l, call.got)
                || (call.left > 0 && l' == AfterRead(t, l, call.left).0 && call'.got == call.got + AfterRead(t, l, call.left).1))
            && (o.Sleeps? ==> (l', call', task') == (l, call, task))
            && match o
               case Returns(r) => Finished(t, nr, oldAlarm, call', task, task', r,
                                      TakesEof(t, l, call, task))
               case _ => Reading(t, nr, oldAlarm, call')
  {
    if call.left > 0 && l.text != [] { DrainedIs(t, l.text, call.left); }
  }

  /** A round takes an EOF. */
  predicate TakesEof(t: Termios, l: Line, call: Call, task: Task) {
    call.left > 0 && !task.alarmed && !task.other && !Waits(t, l) && AfterRead(t, l, call.left).2
  }

  /** What a round of a call finds: anything may have been typed, and any signal may have come. */
  datatype Visit = Visit(line: Line, task: Task, now: int)

  function Visited(t: Termios, call: Call, v: Visit): (Line, Call, Task, Outcome) { Round(t, v.line, call, v.task, v.now) }

  /** A call for nr characters: its rounds, only the last of which may return. */
  ghost predicate IsCall(t: Termios, nr: nat, task: Task, now: int, calls: seq<Call>, visits: seq<Visit>) {
    && |calls| == |visits| + 1 && calls[0] == Begin(t, nr, task, now).0
    && forall k | 0 <= k < |visits| ::
         Visited(t, calls[k], visits[k]).1 == calls[k + 1] && (k < |visits| - 1 ==> !Visited(t, calls[k], visits[k]).3.Returns?)
  }

  /** Every call, whatever happens between its rounds: while it goes on it has less than it needs, and when it returns
      it is for one of the reasons there are, with what it has been given, and the reader's alarm is as it was before
      the call unless an EOF ended it; then it is left as the last round found it. */
  lemma {:induction false} CallIs(t: Termios, nr: nat, task: Task, now: int, calls: seq<Call>, visits: seq<Visit>)
    requires IsCall(t, nr, task, now, calls, visits) && visits != []
    ensures var (v, call) := (visits[|visits| - 1], calls[|visits| - 1]);
            && Reading(t, nr, task.alarm, call)
            && match Visited(t, call, v)
               case (_, call', task', Returns(r)) =>
                 Finished(t, nr, task.alarm, call', v.task, task', r, TakesEof(t, v.line, call, v.task))
               case (_, call', _, _) => Reading(t, nr, task.alarm, call')
  {
    var k := |visits| - 1;
    if k > 0 {
      CallIs(t, nr, task, now, calls[..k + 1], visits[..k]);
      assert Visited(t, calls[k - 1], visits[k - 1]).1 == calls[k];
    }
    RoundIs(t, nr, task.alarm, visits[k].line, calls[k], visits[k].task, visits[k].now);
  }

  /** For example: with VTIME 1 and VMIN 0 a line that is only EOF leaves the reader an alarm it did not have. */
  lemma AlarmExample(t: Termios)
    requires t.icanon && t.eof == 4 && t.vtime == 1 && t.vmin == 0
    ensures var (call, task) := Begin(t, 1, Task(0, false, false), 0);
            var (l, _, task', o) := Round(t, Line([4], 1, false, []), call, task, 0);
            o == Returns(0) && l.text == [] && task'.alarm == 10
  {}

  // ---- the queues in place ----------------------------------------------------

  const SIZE: nat := 1024

  class Queue {
    const buf: array<int>
    var data: int
    var head: nat
    var tail: nat

    ghost predicate Valid()
      reads this, buf
    {
      buf.Length == SIZE && head < SIZE && tail < SIZE
    }

    ghost function Text(): (r: seq<int>)
      requires Valid()
      reads this, buf
      ensures |r| == Ring.Wrap(head - tail, SIZE)
    {
      Ring.Window(buf[..], tail, Ring.Wrap(head - tail, SIZE))
    }

    constructor ()
      ensures Valid() && Text() == [] && data == 0 && fresh(buf)
    {
      buf := new int[SIZE];
      data, head, tail := 0, 0, 0;
    }

    predicate Empty()
      requires Valid()
      reads this, buf
      ensures Empty() <==> Text() == []
    {
      head == tail
    }

    /** LEFT: the room left. */
    function Left(): (r: int)
      requires Valid()
      reads this, buf
      ensures r == CAPACITY - |Text()|
    {
      Ring.Wrap(Ring.Wrap(tail - head - 1, SIZE), SIZE)
    }

    function Last(): (c: int)
      requires Valid() && Text() != []
      reads this, buf
      ensures c == Text()[|Text()| - 1]
    {
      Ring.HeadIsWrapped(head, tail, SIZE);
      buf[Ring.Wrap(head - 1, SIZE)]
    }

    method GetCh() returns (c: int)
      requires Valid() && Text() != []
      modifies this`tail
      ensures Valid() && c == old(Text())[0] && Text() == old(Text())[1..]
    {
      Ring.Take(buf[..], tail, |Text()|, 1);
      c := buf[tail];
      tail := Ring.Wrap(tail + 1, SIZE);
    }

    method PutCh(c: int)
      requires Valid() && Left() > 0
      modifies this`head, buf
      ensures Valid() && Text() == old(Text()) + [c]
    {
      Ring.HeadIsWrapped(head, tail, SIZE);
      Ring.Put(buf[..], tail, |Text()|, c);
      buf[head] := c;
      head := Ring.Wrap(head + 1, SIZE);
    }

    /** DEC(head) */
    method Drop()
      requires Valid() && Text() != []
      modifies this`head
      ensures Valid() && Text() == old(Text())[..|old(Text())| - 1]
    {
      Ring.Take(buf[..], tail, |Text()|, |Text()| - 1);
      head := Ring.Wrap(head - 1, SIZE);
    }
  }

  class Terminal {
    const termios: Termios
    const readQ: Queue
    const secondary: Queue
    var stopped: bool
    var sent: seq<int>

    ghost predicate Valid()
      reads this, readQ, readQ.buf, secondary, secondary.buf
    {
      readQ != secondary && readQ.buf != secondary.buf && readQ.Valid() && secondary.Valid()
    }

    ghost function Snap(): Line
      requires Valid()
      reads this, readQ, readQ.buf, secondary, secondary.buf
    {
      Line(secondary.Text(), secondary.data, stopped, sent)
    }

    constructor (t: Termios)
      ensures Valid() && Snap() == Line([], 0, false, []) && readQ.Text() == [] && termios == t
    {
      termios := t;
      readQ := new Queue();
      secondary := new Queue();
      stopped, sent := false, [];
    }

    /** The KILL_CHAR loop: back to the last line end. */
    method KillLine()
      requires Valid()
      modifies secondary`head
      ensures Valid() && secondary.Text() == Killed(termios, old(secondary.Text()))
    {
      while !(secondary.Empty() || secondary.Last() == 10 || secondary.Last() == termios.eof)
        invariant Valid() && Killed(termios, secondary.Text()) == Killed(termios, old(secondary.Text()))
        decreases |secondary.Text()|
      {
        secondary.Drop();
      }
    }

    /** The body of copy_to_cooked's loop, for the character c taken from read_q. */
    method CookChar(typed: int)
      requires Valid() && secondary.Left() > 0
      modifies this`stopped, this`sent, secondary, secondary.buf
      ensures Valid() && Snap() == Cook(termios, old(Snap()), typed)
    {
      var c := typed;
      if c == 13 {
        if termios.icrnl { c := 10; } else if termios.igncr { return; }
      } else if c == 10 && termios.inlcr {
        c := 13;
      }
      if termios.iuclc { c := ToLower(c); }
      assert MapIn(termios, typed) == Char(c);
      CookMapped(c);
    }

    /** ERASE_CHAR: the last character, unless it ends a line. */
    method EraseLast()
      requires Valid()
      modifies secondary`head
      ensures Valid() && var text := old(secondary.Text());
              secondary.Text() == if LastEnds(termios, text) then text else text[..|text| - 1]
    {
      if secondary.Empty() || secondary.Last() == 10 || secondary.Last() == termios.eof { return; }
      secondary.Drop();
    }

    method CookMapped(c: int)
      requires Valid() && secondary.Left() > 0
      modifies this`stopped, this`sent, secondary, secondary.buf
      ensures Valid() && Snap() == CookOne(termios, old(Snap()), c)
    {
      hide Killed, LastEnds;
      if termios.icanon {
        if c == termios.kill {
          KillLine();
          return;
        }
        if c == termios.erase {
          EraseLast();
          return;
        }
        if c == termios.stop {
          stopped := true;
          return;
        }
        if c == termios.start {
          stopped := false;
          return;
        }
      }
      if termios.isig {
        if c == termios.intr {
          sent := sent + [SIGINT];
          return;
        }
        if c == termios.quit {
          sent := sent + [SIGQUIT];
          return;
        }
      }
      if c == 10 || c == termios.eof { secondary.data := secondary.data + 1; }
      secondary.PutCh(c);
    }

    method CopyToCooked()
      requires Valid()
      modifies this`stopped, this`sent, readQ`tail, secondary, secondary.buf
      ensures Valid() && (Snap(), readQ.Text()) == Cooked(termios, old(Snap()), old(readQ.Text()))
    {
      while !readQ.Empty() && secondary.Left() != 0
        invariant Valid()
        invariant Cooked(termios, Snap(), readQ.Text()) == Cooked(termios, old(Snap()), old(readQ.Text()))
        decreases |readQ.Text()|
      {
        var c := readQ.GetCh();
        CookChar(c);
      }
    }

    method TakeOne() returns (c: int)
      requires Valid() && secondary.Text() != []
      modifies secondary`tail, secondary`data
      ensures Valid() && c == old(secondary.Text())[0] && Snap() == LessOne(termios, old(Snap()))
    {
      c := secondary.GetCh();
      if c == termios.eof || c == 10 { secondary.data := secondary.data - 1; }
    }

    /** tty_read's inner loop. */
    method Drain(nr: nat) returns (got: seq<int>, eof: bool)
      requires Valid() && nr > 0 && secondary.Text() != []
      modifies secondary`tail, secondary`data
      ensures Valid() && (Snap(), got, eof) == AfterRead(termios, old(Snap()), nr)
    {
      ghost var was := Snap();
      var left := nr;
      got, eof := [], false;
      DrainStart(termios, was, nr);
      hide Draining, AfterRead, Queue.Text, LessOne, LessN, Ended, Ends;
      while true
        invariant Valid() && !eof
        invariant left > 0 && secondary.Text() != [] && Draining(termios, was, nr, Snap(), got, left)
        decreases left
      {
        ghost var l := Snap();
        DrainOn(termios, was, nr, l, got, left);
        var c := TakeOne();
        if c == termios.eof && termios.icanon {
          eof := true;
          break;
        }
        got := got + [c];
        left := left - 1;
        if left == 0 || secondary.Empty() { break; }
      }
    }

    /** tty_read from the call to its loop; -1 for a bad count. */
    method ReadBegins(nr: int, task: Task, now: int) returns (ok: bool, call: Call, task': Task)
      ensures ok <==> nr >= 0
      ensures ok ==> (call, task') == Begin(termios, nr, task, now) && Reading(termios, nr, task.alarm, call)
    {
      ok, call, task' := nr >= 0, Call(0, [], 0, false, task.alarm), task;
      if nr < 0 { return; }
      var minimum := termios.vmin;
      var flag := false;
      if termios.vtime != 0 && minimum == 0 {
        minimum := 1;
        flag := task.alarm == 0 || 10 * termios.vtime + now < task.alarm;
        if flag { task' := task.(alarm := 10 * termios.vtime + now); }
      }
      if minimum > nr { minimum := nr; }
      call := Call(nr, [], minimum, flag, task.alarm);
    }

    /** One round of tty_read's loop, from one sleep to the next or to the end. */
    method TtyRead(call: Call, task: Task, now: int) returns (call': Call, task': Task, o: Outcome)
      requires Valid()
      modifies secondary`tail, secondary`data
      ensures Valid() && (Snap(), call', task', o) == Round(termios, old(Snap()), call, task, now)
    {
      hide AfterRead;
      call', task' := call, task;
      if call.left > 0 && !task.alarmed && !task.other {
        if secondary.Empty() || (termios.icanon && secondary.data == 0 && secondary.Left() > 20) { return call', task', Sleeps; }
        var got, eof := Drain(call.left);
        call' := call'.(left := call.left - |got|, got := call.got + got);
        if eof { return call', task', Returns(|call'.got|); }
        if termios.vtime != 0 && !termios.icanon {
          var flag := call.oldAlarm == 0 || 10 * termios.vtime + now < call.oldAlarm;
          call' := call'.(flag := flag);
          task' := task'.(alarm := if flag then 10 * termios.vtime + now else call.oldAlarm);
        }
        if !termios.icanon && |call'.got| < call.minimum { return call', task', GoesOn; }
      } else if call.left > 0 && call.flag && task.alarmed {
        task' := task'.(alarmed := false);
      }
      task' := task'.(alarm := call.oldAlarm);
      o := Returns(if (task'.alarmed || task'.other) && call'.got == [] then -EINTR else |call'.got|);
    }
  }

  /** From was, got has been given so far, l is left, and left more characters are wanted. */
  predicate Draining(t: Termios, was: Line, nr: nat, l: Line, got: seq<int>, left: nat) {
    nr > 0 && left > 0 && var (m, g, eof) := AfterRead(t, l, left); AfterRead(t, was, nr) == (m, got + g, eof)
  }

  lemma DrainStart(t: Termios, was: Line, nr: nat)
    requires nr > 0
    ensures Draining(t, was, nr, was, [], nr)
  {
    assert [] + AfterRead(t, was, nr).1 == AfterRead(t, was, nr).1;
  }

  function LessOne(t: Termios, l: Line): Line
    requires l.text != []
  {
    l.(text := l.text[1..], data := l.data - if Ends(t, l.text[0]) then 1 else 0)
  }

  lemma DrainOn(t: Termios, was: Line, nr: nat, l: Line, got: seq<int>, left: nat)
    requires Draining(t, was, nr, l, got, left) && l.text != []
    ensures var c := l.text[0];
            if t.icanon && c == t.eof then AfterRead(t, was, nr) == (LessOne(t, l), got, true)
            else if left == 1 || |l.text| == 1 then AfterRead(t, was, nr) == (LessOne(t, l), got + [c], false)
            else Draining(t, was, nr, LessOne(t, l), got + [c], left - 1)
  {
    ReadOne(t, l, left);
    assert got + [] == got;
    if left > 1 {
      var g := AfterRead(t, LessOne(t, l), left - 1).1;
      assert got + ([l.text[0]] + g) == (got + [l.text[0]]) + g;
    }
  }

  /** Reading is taking one character, then reading on. */
  lemma ReadOne(t: Termios, l: Line, nr: nat)
    requires nr > 0 && l.text != []
    ensures var c, m := l.text[0], LessOne(t, l);
            AfterRead(t, l, nr) == if t.icanon && c == t.eof then (m, [], true)
                                   else if nr == 1 || |l.text| == 1 then (m, [c], false)
                                   else var (m', got, eof) := AfterRead(t, m, nr - 1); (m', [c] + got, eof)
  {
    hide Ended, Drained;
    DrainedOne(t, l.text, nr);
    var c, m, n := l.text[0], LessOne(t, l), Drained(t, l.text, nr).0;
    AfterIs(t, l, n);
    if (t.icanon && c == t.eof) || nr == 1 || |l.text| == 1 {
      EndedNone(t);
      assert m.text[..0] == [];
      assert n == 1;
    } else {
      assert n == 1 + Drained(t, m.text, nr - 1).0;
    }
  }

  /** secondary less its first n characters. */
  function LessN(t: Termios, l: Line, n: nat): Line
    requires n <= |l.text|
  {
    l.(text := l.text[n..], data := l.data - Ended(t, l.text[..n]))
  }

  lemma AfterIs(t: Termios, l: Line, n: nat)
    requires 0 < n <= |l.text|
    ensures LessN(t, l, n) == LessN(t, LessOne(t, l), n - 1)
    ensures n == 1 ==> LessN(t, l, n) == LessOne(t, l)
  {
    hide Ended;
    EndedOne(t, l.text, n);
    if n == 1 {
      EndedNone(t);
      assert l.text[1..][..0] == [];
    }
  }

  lemma DrainedOne(t: Termios, text: seq<int>, nr: nat)
    requires nr > 0 && text != []
    ensures Drained(t, text, nr)
            == if t.icanon && text[0] == t.eof then (1, []) else if nr == 1 || |text| == 1 then (1, [text[0]])
               else (1 + Drained(t, text[1..], nr - 1).0, [text[0]] + Drained(t, text[1..], nr - 1).1)
  {
    if nr > 1 && |text| == 1 {
      assert text[1..] == [];
      assert [text[0]] + [] == [text[0]];
    }
  }

  lemma EndedOne(t: Termios, text: seq<int>, n: nat)
    requires 0 < n <= |text|
    ensures Ended(t, text[..n]) == (if Ends(t, text[0]) then 1 else 0) + Ended(t, text[1..][..n - 1])
    ensures text[n..] == text[1..][n - 1..]
  {
    EndedCut(t, text[..n], 1);
    assert text[..n][..1] == [] + [text[0]] && text[..n][1..] == text[1..][..n - 1];
    EndedNone(t);
    EndedPut(t, [], text[0]);
  }

  lemma EndedNone(t: Termios)
    ensures Ended(t, []) == 0
  {}

  /** tolower */
  function ToLower(c: int): int { if 65 <= c <= 90 then c + 32 else c }
}
