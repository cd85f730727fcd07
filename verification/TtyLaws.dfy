/** What the terminal's settings and special characters mean to whoever types, and to whoever reads the line. */
module TtyLaws {
  import opened Tty

  /** A character that the line discipline passes on as it is. */
  predicate Ordinary(t: Termios, c: int) {
    && c != 10 && c != 13 && !(t.iuclc && 65 <= c <= 90) && c != t.eof
    && (t.icanon ==> c != t.kill && c != t.erase && c != t.stop && c != t.start)
    && (t.isig ==> c != t.intr && c != t.quit)
  }

  /** No special character is another, or a line end. */
  predicate Apart(t: Termios) {
    var cs := [t.kill, t.erase, t.stop, t.start, t.intr, t.quit, t.eof, 10, 13];
    forall i, j | 0 <= i < j < |cs| :: cs[i] != cs[j]
  }

  predicate Small(t: Termios, c: int) { !(t.iuclc && 65 <= c <= 90) }

  lemma ApartIs(t: Termios)
    requires Apart(t)
    ensures t.kill !in [t.erase, t.stop, t.start, t.intr, t.quit, t.eof, 10, 13]
    ensures t.erase !in [t.stop, t.start, t.intr, t.quit, t.eof, 10, 13]
    ensures t.stop !in [t.start, t.intr, t.quit, t.eof, 10, 13] && t.start !in [t.intr, t.quit, t.eof, 10, 13]
    ensures t.intr !in [t.quit, t.eof, 10, 13] && t.quit !in [t.eof, 10, 13] && t.eof !in [10, 13]
  {
    var cs := [t.kill, t.erase, t.stop, t.start, t.intr, t.quit, t.eof, 10, 13];
    assert cs[0] == t.kill && cs[1] == t.erase && cs[2] == t.stop && cs[3] == t.start && cs[4] == t.intr && cs[5] == t.quit
           && cs[6] == t.eof && cs[7] == 10 && cs[8] == 13;
  }

  /** No capital's small letter is special. */
  predicate NoLetters(t: Termios) {
    t.iuclc ==> !Letter(t.kill) && !Letter(t.erase) && !Letter(t.stop) && !Letter(t.start) && !Letter(t.intr) && !Letter(t.quit)
  }

  predicate Letter(c: int) { 97 <= c <= 122 }

  /** Enter ends the line with ICRNL; IGNCR drops a carriage return that ICRNL does not turn; INLCR turns a line feed into
      one; IUCLC makes capitals small; anything else that is not special is added as it is. */
  lemma TypedIs(t: Termios, l: Line, c: int)
    requires Apart(t)
    ensures Ordinary(t, c) ==> Cook(t, l, c) == l.(text := l.text + [c])
    ensures Cook(t, l, 13) == if t.icrnl then l.(text := l.text + [10], data := l.data + 1)
                              else if t.igncr then l else l.(text := l.text + [13])
    ensures Cook(t, l, 10) == if t.inlcr then l.(text := l.text + [13]) else l.(text := l.text + [10], data := l.data + 1)
    ensures NoLetters(t) && t.iuclc && 65 <= c <= 90 && c + 32 != t.eof ==> Cook(t, l, c) == l.(text := l.text + [c + 32])
  {
    ApartIs(t);
    hide Apart;
  }

  /** INTR and QUIT send their signals, STOP and START hold output and let it go on; none of them is read. */
  lemma SpecialsDo(t: Termios, l: Line)
    requires Apart(t) && Small(t, t.intr) && Small(t, t.quit) && Small(t, t.stop) && Small(t, t.start)
    ensures t.isig ==> Cook(t, l, t.intr) == l.(sent := l.sent + [2]) && Cook(t, l, t.quit) == l.(sent := l.sent + [3])
    ensures t.icanon ==> Cook(t, l, t.stop) == l.(stopped := true) && Cook(t, l, t.start) == l.(stopped := false)
  {
    ApartIs(t);
  }

  /** The characters of a line. */
  function Typing(t: Termios, l: Line, cs: seq<int>): Line {
    if cs == [] then l else Cook(t, Typing(t, l, cs[..|cs| - 1]), cs[|cs| - 1])
  }

  predicate AllOrdinary(t: Termios, cs: seq<int>) { forall c | c in cs :: Ordinary(t, c) }

  lemma OrdinaryIs(t: Termios, l: Line, c: int)
    requires Ordinary(t, c)
    ensures Cook(t, l, c) == l.(text := l.text + [c])
  {}

  lemma {:induction false} TypingAdds(t: Termios, l: Line, cs: seq<int>)
    requires AllOrdinary(t, cs)
    ensures Typing(t, l, cs) == l.(text := l.text + cs)
  {
    if cs == [] { assert l.text + [] == l.text; } else {
      var n := |cs| - 1;
      assert forall c | c in cs[..n] :: c in cs;
      TypingAdds(t, l, cs[..n]);
      assert cs[n] in cs;
      OrdinaryIs(t, Typing(t, l, cs[..n]), cs[n]);
      assert l.text + cs[..n] + [cs[n]] == l.text + cs;
    }
  }

  /** ERASE takes back the last character, */
  lemma EraseTakesBack(t: Termios, l: Line, cs: seq<int>)
    requires t.icanon && t.erase != 13 && t.erase != 10 && t.erase != t.kill && Small(t, t.erase)
    requires AllOrdinary(t, cs) && LastEnds(t, l.text)
    ensures Cook(t, Typing(t, l, cs), t.erase) == if cs == [] then l else Typing(t, l, cs[..|cs| - 1])
  {
    TypingAdds(t, l, cs);
    EraseIs(t, l.(text := l.text + cs));
    if cs == [] {
      assert l.text + [] == l.text;
      hide *;
    } else {
      var n := |cs| - 1;
      assert forall c | c in cs[..n] :: c in cs;
      TypingAdds(t, l, cs[..n]);
      assert cs[n] in cs && Ordinary(t, cs[n]) && !Ends(t, cs[n]);
      hide *;
      EndsNot(t, l.text, cs);
    }
  }

  lemma EraseIs(t: Termios, l: Line)
    requires t.icanon && t.erase != 13 && t.erase != 10 && t.erase != t.kill && Small(t, t.erase)
    ensures Cook(t, l, t.erase) == l.(text := if LastEnds(t, l.text) then l.text else l.text[..|l.text| - 1])
  {}

  lemma EndsNot(t: Termios, text: seq<int>, cs: seq<int>)
    requires cs != [] && !Ends(t, cs[|cs| - 1])
    ensures !LastEnds(t, text + cs) && (text + cs)[..|text + cs| - 1] == text + cs[..|cs| - 1]
  {}

  /** KILL all of the line so far. */
  lemma KillTakesBack(t: Termios, l: Line, cs: seq<int>)
    requires t.icanon && t.kill != 13 && t.kill != 10 && Small(t, t.kill) && AllOrdinary(t, cs) && LastEnds(t, l.text)
    ensures Cook(t, Typing(t, l, cs), t.kill) == l
  {
    TypingAdds(t, l, cs);
    forall i | 0 <= i < |cs| ensures !Ends(t, cs[i]) { assert cs[i] in cs && Ordinary(t, cs[i]); }
    KilledIs(t, l.text, cs);
  }

  /** A line typed to an empty terminal and ended by a line feed is read, in one call and with its line feed, by whoever
      asks for enough; with EOF instead it is read without it. */
  lemma LineIsRead(t: Termios, cs: seq<int>, end: int, nr: nat, task: Task, now: int)
    requires Apart(t) && t.icanon && !t.inlcr && AllOrdinary(t, cs) && (end == 10 || (end == t.eof && Small(t, end)))
    requires nr > |cs| && !task.alarmed && !task.other
    ensures var l := Typing(t, Line([], 0, false, []), cs + [end]);
            var line := if end == 10 then cs + [10] else cs;
            var (l', call, _, o) := Round(t, l, Begin(t, nr, task, now).0, Begin(t, nr, task, now).1, now);
            o == Returns(|line|) && call.got == line && l' == Line([], 0, false, [])
  {
    LineTyped(t, cs, end);
    ApartIs(t);
    LineTaken(t, cs, end, nr);
    var (call, task1) := Begin(t, nr, task, now);
    RoundReads(t, Line(cs + [end], 1, false, []), call, task1, now);
    hide *;
  }

  /** A round of a call that has nothing yet, with a line there. */
  lemma RoundReads(t: Termios, l: Line, call: Call, task: Task, now: int)
    requires t.icanon && l.text != [] && l.data > 0 && call.left > 0 && call.got == [] && !task.alarmed && !task.other
    ensures var (l', g, _) := AfterRead(t, l, call.left);
            var r := Round(t, l, call, task, now);
            r.0 == l' && r.1.got == g && r.3 == Returns(|g|)
  {
    hide AfterRead;
    assert [] + AfterRead(t, l, call.left).1 == AfterRead(t, l, call.left).1;
  }

  lemma LineTaken(t: Termios, cs: seq<int>, end: int, nr: nat)
    requires t.icanon && t.eof != 10 && AllOrdinary(t, cs) && (end == 10 || end == t.eof) && nr > |cs|
    ensures AfterRead(t, Line(cs + [end], 1, false, []), nr)
            == (Line([], 0, false, []), if end == 10 then cs + [10] else cs, end == t.eof)
  {
    LineDrained(t, cs, end, nr);
    EndedLine(t, cs, end);
    hide Drained, Ended, AllOrdinary;
    assert (cs + [end])[..|cs| + 1] == cs + [end] && (cs + [end])[|cs| + 1..] == [] && (cs + [end])[|cs|] == end;
  }

  lemma LineTyped(t: Termios, cs: seq<int>, end: int)
    requires Apart(t) && !t.inlcr && AllOrdinary(t, cs) && (end == 10 || (end == t.eof && Small(t, end)))
    ensures Typing(t, Line([], 0, false, []), cs + [end]) == Line(cs + [end], 1, false, [])
  {
    ApartIs(t);
    hide Apart;
    var l0 := Line([], 0, false, []);
    TypingAdds(t, l0, cs);
    assert (cs + [end])[..|cs|] == cs && [] + cs == cs;
    assert Cook(t, Line(cs, 0, false, []), end) == Line(cs + [end], 1, false, []);
  }

  lemma {:induction false} LineDrained(t: Termios, cs: seq<int>, end: int, nr: nat)
    requires t.icanon && t.eof != 10 && AllOrdinary(t, cs) && (end == 10 || end == t.eof) && nr > |cs|
    ensures Drained(t, cs + [end], nr) == (|cs| + 1, if end == 10 then cs + [10] else cs)
  {
    DrainedOne(t, cs + [end], nr);
    if cs != [] {
      assert (cs + [end])[1..] == cs[1..] + [end] && cs[0] in cs && cs == [cs[0]] + cs[1..];
      assert forall c | c in cs[1..] :: c in cs;
      LineDrained(t, cs[1..], end, nr - 1);
      assert [cs[0]] + (cs[1..] + [10]) == cs + [10];
    } else {
      assert cs + [end] == [end];
      assert [10] + [] == [10];
    }
  }

  lemma {:induction false} EndedLine(t: Termios, cs: seq<int>, end: int)
    requires AllOrdinary(t, cs) && Ends(t, end)
    ensures Ended(t, cs + [end]) == 1
  {
    EndedPut(t, cs, end);
    NoneEnded(t, cs);
  }

  lemma {:induction false} NoneEnded(t: Termios, cs: seq<int>)
    requires AllOrdinary(t, cs)
    ensures Ended(t, cs) == 0
  {
    if cs != [] {
      assert cs[|cs| - 1] in cs;
      assert forall c | c in cs[..|cs| - 1] :: c in cs;
      NoneEnded(t, cs[..|cs| - 1]);
    }
  }

  /** In the other mode whatever there is is read at once, and is all once there are VMIN characters, or one with VTIME. */
  lemma RawIsRead(t: Termios, l: Line, nr: nat, task: Task, now: int)
    requires !t.icanon && l.text != [] && nr > 0 && !task.alarmed && !task.other
    ensures var (call, task1) := Begin(t, nr, task, now);
            var n := if nr < |l.text| then nr else |l.text|;
            var (l', call', _, o) := Round(t, l, call, task1, now);
            && call'.got == l.text[..n] && l'.text == l.text[n..]
            && o == if n >= nr || n >= t.vmin then Returns(n) else GoesOn
  {
    RawDrained(t, l.text, nr);
    var n := if nr < |l.text| then nr else |l.text|;
    assert [] + l.text[..n] == l.text[..n];
  }

  lemma {:induction false} RawDrained(t: Termios, text: seq<int>, nr: nat)
    requires !t.icanon && nr > 0
    ensures var n := if nr < |text| then nr else |text|; Drained(t, text, nr) == (n, text[..n])
  {
    if text != [] {
      DrainedOne(t, text, nr);
      assert text[..1] == [text[0]];
    } else {
      assert text[..0] == [];
    }
    if |text| > 1 && nr > 1 {
      RawDrained(t, text[1..], nr - 1);
      var n := if nr < |text| then nr else |text|;
      assert text[..n] == [text[0]] + text[1..][..n - 1];
    }
  }

  /** While no line is complete, and there is room for more than 20 characters, a reader waits, and so it does for the
      first character in the other mode. */
  lemma NoLineWaits(t: Termios, l: Line, nr: nat, task: Task, now: int)
    requires nr > 0 && !task.alarmed && !task.other
    requires l.text == [] || (t.icanon && l.data == 0 && |l.text| < CAPACITY - 20)
    ensures var (call, task1) := Begin(t, nr, task, now); Round(t, l, call, task1, now) == (l, call, task1, Sleeps)
  {}

  /** With VTIME and without VMIN a reader with no nearer alarm is given one, in tenths of a second, and when it goes off
      with nothing typed gets nothing, is sent no signal and has its old alarm back. */
  lemma TimedReadEnds(t: Termios, l: Line, nr: nat, alarm: int, now: int, later: int)
    requires t.vtime > 0 && t.vmin == 0 && nr > 0 && (alarm == 0 || now + 10 * t.vtime < alarm)
    ensures var (call, task) := Begin(t, nr, Task(alarm, false, false), now);
            && task == Task(now + 10 * t.vtime, false, false)
            && Round(t, l, call, Task(0, true, false), later) == (l, call, Task(alarm, false, false), Returns(0))
  {}
}
