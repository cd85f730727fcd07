/** What the console's bytes mean to whoever writes them: text as on paper, parameters as decimal numbers, moves as
    arithmetic on the cursor, and erasing, inserting and deleting cell by cell. */
module ConsoleLaws {
  import opened ConsoleSpec

  const WIDTH: nat := 0x1_0000_0000

  lemma {:induction false} BytesApp(d: Dims, s: Screen, erase: int, a: seq<int>, b: seq<int>)
    ensures Bytes(d, s, erase, a + b) == Bytes(d, Bytes(d, s, erase, a), erase, b)
  {
    if b == [] { assert a + b == a; } else {
      assert (a + b)[..|a + b| - 1] == a + b[..|b| - 1];
      BytesApp(d, s, erase, a, b[..|b| - 1]);
    }
  }

  lemma OneByte(d: Dims, s: Screen, erase: int, c: int)
    ensures Bytes(d, s, erase, [c]) == Byte(d, s, erase, c)
  {
    assert [c][..0] == [];
    assert Bytes(d, s, erase, []) == s;
  }

  lemma BytesMore(d: Dims, s: Screen, erase: int, cs: seq<int>, c: int)
    ensures Bytes(d, s, erase, cs + [c]) == Byte(d, Bytes(d, s, erase, cs), erase, c)
  {
    assert (cs + [c])[..|cs|] == cs;
  }

  // ---- text -------------------------------------------------------------------

  predicate Printable(line: seq<int>) { forall c | c in line :: 31 < c < 127 }

  function Cells(attr: int, line: seq<int>): (r: seq<int>)
    ensures |r| == |line|
  {
    seq(|line|, i requires 0 <= i < |line| => 0x100 * attr + line[i])
  }

  /** A line typed over a row. */
  function Over(row: seq<int>, cells: seq<int>): (r: seq<int>)
    ensures |cells| <= |row| ==> |r| == |row|
  {
    if |cells| <= |row| then cells + row[|cells|..] else row
  }

  /** Row r of the paper that the lines are typed on, from row y of the screen on. */
  function PaperRow(d: Dims, s: Screen, lines: seq<seq<int>>, r: nat): seq<int> {
    var row := if r < |s.rows| then s.rows[r] else BlankRow(d);
    if s.y <= r < s.y + |lines| then Over(row, Cells(s.attr, lines[r - s.y])) else row
  }

  /** How many rows have left the screen at the top. */
  function Gone(d: Dims, s: Screen, n: nat): nat { if s.y + n < d.lines then 0 else s.y + n + 1 - d.lines }

  /** The screen after n lines: a window on the paper, with the cursor below them. */
  predicate Typed(d: Dims, s: Screen, lines: seq<seq<int>>, t: Screen) {
    var gone := Gone(d, s, |lines|);
    && |t.rows| == d.lines && (forall r | 0 <= r < d.lines :: t.rows[r] == PaperRow(d, s, lines, gone + r))
    && t.x == 0 && t.y == s.y + |lines| - gone && t == s.(rows := t.rows, x := t.x, y := t.y)
  }

  /** The lines, each ended by a carriage return and a line feed. */
  function Stream(lines: seq<seq<int>>): seq<int> {
    if lines == [] then [] else Stream(lines[..|lines| - 1]) + lines[|lines| - 1] + [13, 10]
  }

  predicate AtMargin(d: Dims, s: Screen) {
    DimsOk(d) && RowsOk(d, s.rows) && s.x == 0 && s.y < d.lines && s.top == 0 && s.bottom == d.lines && s.parser == Text
  }

  lemma PutShows(d: Dims, s: Screen, erase: int, c: int)
    requires s.parser == Text && s.y < |s.rows| && s.x < d.cols == |s.rows[s.y]| && 31 < c < 127
    ensures Byte(d, s, erase, c) == s.(rows := s.rows[s.y := s.rows[s.y][s.x := 0x100 * s.attr + c]], x := s.x + 1)
  {
  }

  lemma OverMore(row: seq<int>, attr: int, line: seq<int>)
    requires 0 < |line| <= |row|
    ensures var n := |line| - 1;
            Over(row, Cells(attr, line[..n]))[n := 0x100 * attr + line[n]] == Over(row, Cells(attr, line))
  {
  }

  /** Printable characters go where the cursor is, one after the other. */
  lemma {:induction false} LineShows(d: Dims, s: Screen, erase: int, line: seq<int>)
    requires AtMargin(d, s) && Printable(line) && |line| <= d.cols
    ensures Bytes(d, s, erase, line) == s.(rows := s.rows[s.y := Over(s.rows[s.y], Cells(s.attr, line))], x := |line|)
  {
    hide PutChar, DimsOk;
    if line == [] {
      assert Over(s.rows[s.y], []) == s.rows[s.y];
      assert s.rows[s.y := s.rows[s.y]] == s.rows;
    } else {
      var n := |line| - 1;
      var less := line[..n];
      assert forall c | c in less :: c in line;
      LineShows(d, s, erase, less);
      assert line[n] in line;
      var t := Bytes(d, s, erase, less);
      PutShows(d, t, erase, line[n]);
      OverMore(s.rows[s.y], s.attr, line);
      hide Over, Cells, Byte;
      assert t.rows[s.y := Over(s.rows[s.y], Cells(s.attr, line))] == s.rows[s.y := Over(s.rows[s.y], Cells(s.attr, line))];
    }
  }

  /** One line typed. */
  lemma LineTyped(d: Dims, s: Screen, erase: int, line: seq<int>)
    requires AtMargin(d, s) && Printable(line) && |line| <= d.cols
    ensures var t := s.(rows := s.rows[s.y := Over(s.rows[s.y], Cells(s.attr, line))]);
            Bytes(d, s, erase, line + [13, 10]) == Lf(d, t)
  {
    LineShows(d, s, erase, line);
    BytesMore(d, s, erase, line, 13);
    BytesMore(d, s, erase, line + [13], 10);
    assert line + [13, 10] == line + [13] + [10];
  }

  /** Text shows as on paper that moves up when it is full: whatever the screen showed, followed by the lines typed, each
      over what was in its row. */
  lemma {:induction false} TextShows(d: Dims, s: Screen, erase: int, lines: seq<seq<int>>)
    requires AtMargin(d, s) && forall l | l in lines :: Printable(l) && |l| <= d.cols
    ensures Typed(d, s, lines, Bytes(d, s, erase, Stream(lines)))
  {
    if lines != [] {
      var n := |lines| - 1;
      TextShows(d, s, erase, lines[..n]);
      var t := Bytes(d, s, erase, Stream(lines[..n]));
      assert lines[n] in lines;
      BytesApp(d, s, erase, Stream(lines[..n]), lines[n] + [13, 10]);
      assert Stream(lines[..n]) + (lines[n] + [13, 10]) == Stream(lines);
      LineTyped(d, t, erase, lines[n]);
      NextLine(d, s, lines, t);
    }
  }

  lemma NextLine(d: Dims, s: Screen, lines: seq<seq<int>>, t: Screen)
    requires AtMargin(d, s) && lines != [] && Typed(d, s, lines[..|lines| - 1], t) && |lines[|lines| - 1]| <= d.cols
    requires t.y < |t.rows|
    ensures Typed(d, s, lines, Lf(d, t.(rows := t.rows[t.y := Over(t.rows[t.y], Cells(t.attr, lines[|lines| - 1]))])))
  {
    var n := |lines| - 1;
    var u := t.(rows := t.rows[t.y := Over(t.rows[t.y], Cells(t.attr, lines[n]))]);
    var gone := Gone(d, s, n);
    forall r | 0 <= r < d.lines ensures u.rows[r] == PaperRow(d, s, lines, gone + r) {
      assert t.rows[r] == PaperRow(d, s, lines[..n], gone + r);
      PaperMore(d, s, lines, gone + r);
    }
    assert |u.rows| == d.lines && u.y == s.y + n - gone;
    PaperEnds(d, s, lines);
    hide PaperRow;
    GoesDown(d, s, lines, u);
  }

  lemma PaperMore(d: Dims, s: Screen, lines: seq<seq<int>>, r: nat)
    requires lines != []
    ensures var n := |lines| - 1;
            PaperRow(d, s, lines, r) == if r == s.y + n then Over(PaperRow(d, s, lines[..n], r), Cells(s.attr, lines[n]))
                                        else PaperRow(d, s, lines[..n], r)
  {
    hide Over, BlankRow;
  }

  /** Beyond the last line the paper below the old screen is blank. */
  lemma PaperEnds(d: Dims, s: Screen, lines: seq<seq<int>>)
    ensures forall r {:trigger PaperRow(d, s, lines, r)} | r >= s.y + |lines| && r >= |s.rows| :: PaperRow(d, s, lines, r) == BlankRow(d)
  {
  }

  /** The line feed after a line: down, or the paper goes up. */
  lemma GoesDown(d: Dims, s: Screen, lines: seq<seq<int>>, u: Screen)
    requires AtMargin(d, s) && lines != [] && |u.rows| == d.lines && u == s.(rows := u.rows, x := 0, y := u.y)
    requires var gone := Gone(d, s, |lines| - 1);
             u.y == s.y + |lines| - 1 - gone && forall r | 0 <= r < d.lines :: u.rows[r] == PaperRow(d, s, lines, gone + r)
    requires forall r {:trigger PaperRow(d, s, lines, r)} | r >= s.y + |lines| && r >= d.lines :: PaperRow(d, s, lines, r) == BlankRow(d)
    ensures Typed(d, s, lines, Lf(d, u))
  {
    hide PaperRow;
    var gone, v := Gone(d, s, |lines| - 1), Lf(d, u);
    if u.y + 1 < d.lines {
      assert v == u.(y := u.y + 1) && Gone(d, s, |lines|) == gone;
    } else {
      assert Gone(d, s, |lines|) == gone + 1;
      forall r | 0 <= r < d.lines ensures v.rows[r] == PaperRow(d, s, lines, gone + 1 + r) {
        assert v.rows[r] == if r + 1 < d.lines then u.rows[r + 1] else BlankRow(d);
      }
    }
  }

  /** Beyond the right margin a character goes where it would after a carriage return and a line feed. */
  lemma WrapIsNewLine(d: Dims, s: Screen, erase: int, c: int)
    requires s.parser == Text && s.x == d.cols > 0 && 31 < c < 127
    ensures Bytes(d, s, erase, [c]) == Bytes(d, s, erase, [13, 10, c])
  {
    OneByte(d, s, erase, c);
    BytesMore(d, s, erase, [13, 10], c);
    BytesMore(d, s, erase, [13], 10);
    OneByte(d, s, erase, 13);
    assert [13, 10] + [c] == [13, 10, c] && [13] + [10] == [13, 10];
  }

  // ---- other control bytes ----------------------------------------------------

  /** Tab goes to the next column of eight, backspace one to the left, the erase character blanks what was there. */
  lemma TabStops(d: Dims, s: Screen, erase: int)
    requires DimsOk(d) && ScreenOk(d, s) && s.parser == Text && erase != 9 && s.x + 8 <= d.cols
    ensures var t := Byte(d, s, erase, 9);
            t == s.(x := t.x) && t.x % 8 == 0 && s.x < t.x <= s.x + 8
  {
  }

  lemma BackspaceErases(d: Dims, s: Screen, erase: int)
    requires ScreenOk(d, s) && s.parser == Text && s.x > 0
    ensures erase != 8 ==> Byte(d, s, erase, 8) == s.(x := s.x - 1)
    ensures !(31 < erase < 127) && erase !in [27, 10, 11, 12, 13] ==>
              var t := Byte(d, s, erase, erase);
              && t == s.(rows := t.rows, x := s.x - 1) && |t.rows| == d.lines
              && forall r, c | 0 <= r < d.lines && 0 <= c < d.cols ::
                   |t.rows[r]| == d.cols && t.rows[r][c] == if r == s.y && c == s.x - 1 then BLANK else s.rows[r][c]
  {
  }

  /** The rows of a region go up or down by one: cell by cell. */
  predicate Scrolled(d: Dims, s: Screen, t: Screen, up: bool)
    requires ScreenOk(d, s)
  {
    && t == s.(rows := t.rows) && |t.rows| == d.lines
    && forall r | 0 <= r < d.lines ::
         t.rows[r] == if r < s.top || r >= s.bottom then s.rows[r]
                      else if up then (if r + 1 < s.bottom then s.rows[r + 1] else BlankRow(d))
                      else if r > s.top then s.rows[r - 1] else BlankRow(d)
  }

  lemma ScrollIs(d: Dims, s: Screen)
    requires ScreenOk(d, s)
    ensures Scrolled(d, s, ScrollUp(d, s, s.top, s.bottom), true) && Scrolled(d, s, ScrollDown(d, s, s.top, s.bottom), false)
  {
  }

  /** A line feed, also as ESC D, goes down a row, and at the end of the region scrolls it; ESC M is the opposite. */
  lemma LineFeeds(d: Dims, s: Screen, erase: int)
    requires ScreenOk(d, s)
    ensures var s1, t := s.(parser := Text), Byte(d, s.(parser := Text), erase, 10);
            && Byte(d, s.(parser := Escape), erase, 'D' as int) == t
            && if s.y + 1 < s.bottom then t == s1.(y := s.y + 1) else Scrolled(d, s1, t, true)
    ensures var s1, t := s.(parser := Text), Byte(d, s.(parser := Escape), erase, 'M' as int);
            if s.y > s.top then t == s1.(y := s.y - 1) else Scrolled(d, s1, t, false)
  {
    var s1 := s.(parser := Text);
    ScrollIs(d, s1);
    assert s.(parser := Escape).(parser := Text) == s1;
    hide Scrolled, ScrollUp, ScrollDown, RowsOk;
  }

  /** ESC E is the start of the next row, if there is one; ESC Z asks for an answer. */
  lemma EscapesDo(d: Dims, s: Screen, erase: int)
    requires ScreenOk(d, s) && s.parser == Escape
    ensures Byte(d, s, erase, 'E' as int)
            == if s.y + 1 < d.lines then s.(x := 0, y := s.y + 1, parser := Text) else s.(parser := Text)
    ensures Byte(d, s, erase, 'Z' as int) == s.(answers := s.answers + 1, parser := Text)
  {
  }

  // ---- parameters -------------------------------------------------------------

  function Decimal(n: nat): seq<int> {
    if n < 10 then [n + 48] else Decimal(n / 10) + [n % 10 + 48]
  }

  function List(ps: seq<nat>): seq<int>
    requires ps != []
  {
    var last := Decimal(ps[|ps| - 1]);
    if |ps| == 1 then last else List(ps[..|ps| - 1]) + [';' as int] + last
  }

  /** ESC [, the parameters in decimal, and the letter. */
  function Sequence(ps: seq<nat>, c: int): seq<int>
    requires ps != []
  {
    [27, '[' as int] + List(ps) + [c]
  }

  /** The digits of a number are read as the number. */
  lemma {:induction false} DigitsRead(d: Dims, s: Screen, erase: int, ps: seq<nat>, n: nat)
    requires s.parser == Params(ps + [0]) && |ps| < NPAR && n < WIDTH
    ensures Bytes(d, s, erase, Decimal(n)) == s.(parser := Params(ps + [n]))
  {
    if n < 10 {
      OneByte(d, s, erase, n + 48);
      assert (ps + [0])[|ps| := n] == ps + [n];
    } else {
      DigitsRead(d, s, erase, ps, n / 10);
      BytesMore(d, s, erase, Decimal(n / 10), n % 10 + 48);
      assert (ps + [n / 10])[|ps| := n] == ps + [n];
      DigitIs(n);
    }
  }

  lemma DigitIs(n: nat)
    requires n < WIDTH
    ensures U32(10 * (n / 10) + (n % 10 + 48) - '0' as int) == n
  {}

  lemma {:induction false} ListRead(d: Dims, s: Screen, erase: int, ps: seq<nat>)
    requires s.parser == Params([0]) && 0 < |ps| <= NPAR && forall p | p in ps :: p < WIDTH
    ensures Bytes(d, s, erase, List(ps)) == s.(parser := Params(ps))
  {
    var n := |ps| - 1;
    var last := ps[n];
    assert last in ps && ps == ps[..n] + [last];
    if n == 0 {
      assert [0] == [] + [0] && ps == [] + [last];
      DigitsRead(d, s, erase, [], last);
    } else {
      assert forall p | p in ps[..n] :: p in ps;
      ListRead(d, s, erase, ps[..n]);
      var t := s.(parser := Params(ps[..n] + [0]));
      BytesMore(d, s, erase, List(ps[..n]), ';' as int);
      BytesApp(d, s, erase, List(ps[..n]) + [';' as int], Decimal(last));
      DigitsRead(d, t, erase, ps[..n], last);
    }
  }

  lemma {:induction false} ListStarts(ps: seq<nat>)
    requires ps != []
    ensures List(ps) != [] && List(ps)[0] != '?' as int
  {
    if |ps| > 1 { ListStarts(ps[..|ps| - 1]); } else { DecimalStarts(ps[0]); }
  }

  lemma {:induction false} DecimalStarts(n: nat)
    ensures Decimal(n) != [] && 48 <= Decimal(n)[0] <= 57
  {
    if n >= 10 { DecimalStarts(n / 10); }
  }

  /** The first parameter is there from the start. */
  lemma {:induction false} BracketRead(d: Dims, s: Screen, erase: int, cs: seq<int>)
    requires cs != [] && cs[0] != '?' as int
    ensures Bytes(d, s.(parser := Bracket), erase, cs) == Bytes(d, s.(parser := Params([0])), erase, cs)
  {
    var n := |cs| - 1;
    if n == 0 {
      assert cs == [cs[0]];
      OneByte(d, s.(parser := Bracket), erase, cs[0]);
      OneByte(d, s.(parser := Params([0])), erase, cs[0]);
      assert s.(parser := Bracket).(parser := Text) == s.(parser := Params([0])).(parser := Text);
    } else {
      BracketRead(d, s, erase, cs[..n]);
    }
  }

  /** An escape sequence does what its letter does with its parameters. */
  lemma SequenceDoes(d: Dims, s: Screen, erase: int, ps: seq<nat>, c: int)
    requires s.parser == Text && 0 < |ps| <= NPAR && (forall p | p in ps :: p < WIDTH)
    requires c != ';' as int && !('0' as int <= c <= '9' as int)
    ensures Bytes(d, s, erase, Sequence(ps, c)) == Final(d, s, ps, c)
  {
    OneByte(d, s, erase, 27);
    BytesMore(d, s, erase, [27], '[' as int);
    assert [27] + ['[' as int] == [27, '[' as int];
    BytesApp(d, s, erase, [27, '[' as int], List(ps));
    ListStarts(ps);
    BracketRead(d, s, erase, List(ps));
    ListRead(d, s.(parser := Params([0])), erase, ps);
    BytesMore(d, s, erase, [27, '[' as int] + List(ps), c);
    assert s.(parser := Text) == s;
  }

  // ---- moves ------------------------------------------------------------------

  /** The cursor goes to (x, y) if that is on the screen, and stays otherwise. */
  predicate Moved(d: Dims, s: Screen, t: Screen, x: int, y: int) {
    if 0 <= x <= d.cols && 0 <= y < d.lines then t == s.(x := x, y := y) else t == s
  }

  function Count(n: nat): nat { if n == 0 then 1 else n }

  /** A move of n to the left or up is right unless it wraps around the width of a number onto the screen, */
  predicate WrapsBack(room: nat, at: nat, n: nat) { n > at && WIDTH + at - n < room }

  /** and to the right or down likewise. */
  predicate WrapsOn(at: nat, n: nat) { at + n >= WIDTH }

  lemma RowMoves(d: Dims, s: Screen, n: nat)
    requires ScreenOk(d, s) && n < WIDTH && d.lines < WIDTH
    ensures Moved(d, s, Final(d, s, [n], 'A' as int), s.x, s.y - Count(n)) <==> !WrapsBack(d.lines, s.y, Count(n))
    ensures Moved(d, s, Final(d, s, [n], 'B' as int), s.x, s.y + Count(n)) <==> !WrapsOn(s.y, Count(n))
    ensures Final(d, s, [n], 'e' as int) == Final(d, s, [n], 'B' as int)
    ensures Moved(d, s, Final(d, s, [n], 'E' as int), 0, s.y + Count(n)) <==> !WrapsOn(s.y, Count(n))
    ensures Moved(d, s, Final(d, s, [n], 'F' as int), 0, s.y - Count(n)) <==> !WrapsBack(d.lines, s.y, Count(n))
  {
    WrapIs(s.y, Count(n));
  }

  lemma ColumnMoves(d: Dims, s: Screen, n: nat)
    requires ScreenOk(d, s) && n < WIDTH && d.cols + 1 < WIDTH
    ensures Moved(d, s, Final(d, s, [n], 'C' as int), s.x + Count(n), s.y) <==> !WrapsOn(s.x, Count(n))
    ensures Final(d, s, [n], 'a' as int) == Final(d, s, [n], 'C' as int)
    ensures Moved(d, s, Final(d, s, [n], 'D' as int), s.x - Count(n), s.y) <==> !WrapsBack(d.cols + 1, s.x, Count(n))
  {
    WrapIs(s.x, Count(n));
  }

  lemma WrapIs(at: nat, n: nat)
    requires at < WIDTH && 0 < n < WIDTH
    ensures U32(at - n) == if n <= at then at - n else WIDTH + at - n
    ensures U32(at + n) == if at + n < WIDTH then at + n else at + n - WIDTH
  {}

  /** For example: one row down by 4294967295 is a row up. */
  lemma WrapExample(d: Dims, s: Screen)
    requires ScreenOk(d, s) && 0 < s.y && d.lines < WIDTH
    ensures Final(d, s, [WIDTH - 1], 'B' as int) == s.(y := s.y - 1)
  {
    WrapIs(s.y, WIDTH - 1);
  }

  /** Rows and columns are counted from 1; 0 is 1 as well. */
  lemma Addresses(d: Dims, s: Screen, r: nat, c: nat)
    requires ScreenOk(d, s) && r > 0 && c > 0
    ensures Moved(d, s, Final(d, s, [r, c], 'H' as int), c - 1, r - 1)
    ensures Final(d, s, [r, c], 'f' as int) == Final(d, s, [r, c], 'H' as int)
    ensures Moved(d, s, Final(d, s, [c], 'G' as int), c - 1, s.y)
    ensures Moved(d, s, Final(d, s, [r], 'd' as int), s.x, r - 1)
    ensures Final(d, s, [0, 0], 'H' as int) == Final(d, s, [1, 1], 'H' as int) == Final(d, s, [0], 'H' as int)
    ensures Final(d, s, [0], 'G' as int) == Final(d, s, [1], 'G' as int)
    ensures Final(d, s, [0], 'd' as int) == Final(d, s, [1], 'd' as int)
    ensures Final(d, s, [c], '`' as int) == Final(d, s, [c], 'G' as int)
  {
  }

  /** ESC [ s, any moves, ESC [ u: the cursor is back. */
  lemma SavedIsRestored(d: Dims, s: Screen, x: nat, y: nat, p: nat)
    requires ScreenOk(d, s) && x <= d.cols && y < d.lines
    ensures Final(d, Final(d, s, [p], 's' as int).(x := x, y := y), [p], 'u' as int) == s.(savedX := s.x, savedY := s.y)
  {
  }

  /** Rows top + 1 .. bottom become the region if there are any. */
  lemma RegionIs(d: Dims, s: Screen, top: nat, bottom: nat)
    requires ScreenOk(d, s) && top > 0
    ensures Final(d, s, [top, bottom + 1], 'r' as int)
            == if top <= bottom + 1 <= d.lines then s.(top := top - 1, bottom := bottom + 1) else s
    ensures Final(d, s, [0], 'r' as int) == s.(top := 0, bottom := d.lines)
  {
  }

  // ---- erasing ----------------------------------------------------------------

  /** Only rows change, and of each cell only these are blank now. */
  predicate Cleared(d: Dims, s: Screen, t: Screen, from: int, to: int)
    requires ScreenOk(d, s)
  {
    && t == s.(rows := t.rows) && |t.rows| == d.lines && (forall r | 0 <= r < d.lines :: |t.rows[r]| == d.cols)
    && forall r, c | 0 <= r < d.lines && 0 <= c < d.cols ::
         t.rows[r][c] == if from <= At(d, r, c) < to then BLANK else s.rows[r][c]
  }

  /** The number of a cell, counted in reading order. */
  function At(d: Dims, r: int, c: int): int { r * d.cols + c }

  lemma AtOrder(d: Dims, r: nat, c: nat, y: nat, x: nat)
    requires c < d.cols && x <= d.cols
    ensures At(d, r, c) < At(d, y, x) <==> Before(r, c, y, x)
  {
    if r < y {
      assert (r + 1) * d.cols <= y * d.cols;
    } else if r > y {
      assert (y + 1) * d.cols <= r * d.cols;
    }
  }

  /** The display from the cursor on, up to it, or all of it. */
  lemma DisplayErased(d: Dims, s: Screen)
    requires ScreenOk(d, s)
    ensures Cleared(d, s, Final(d, s, [0], 'J' as int), At(d, s.y, s.x), At(d, d.lines, 0))
    ensures Cleared(d, s, Final(d, s, [1], 'J' as int), 0, At(d, s.y, s.x))
    ensures Cleared(d, s, Final(d, s, [2], 'J' as int), 0, At(d, d.lines, 0))
  {
    ErasedIs(d, s, s.y, s.x, d.lines, 0);
    ErasedIs(d, s, 0, 0, s.y, s.x);
    ErasedIs(d, s, 0, 0, d.lines, 0);
  }

  /** The row from the cursor on, up to it, or all of it. */
  lemma RowErased(d: Dims, s: Screen)
    requires ScreenOk(d, s)
    ensures Cleared(d, s, Final(d, s, [0], 'K' as int), At(d, s.y, s.x), At(d, s.y, d.cols))
    ensures Cleared(d, s, Final(d, s, [1], 'K' as int), At(d, s.y, 0), At(d, s.y, s.x))
    ensures Cleared(d, s, Final(d, s, [2], 'K' as int), At(d, s.y, 0), At(d, s.y, d.cols))
  {
    ErasedIs(d, s, s.y, s.x, s.y, d.cols);
    ErasedIs(d, s, s.y, 0, s.y, s.x);
    ErasedIs(d, s, s.y, 0, s.y, d.cols);
  }

  lemma ErasedIs(d: Dims, s: Screen, y: nat, x: nat, y': nat, x': nat)
    requires ScreenOk(d, s) && x <= d.cols && x' <= d.cols
    ensures Cleared(d, s, s.(rows := Erased(s.rows, y, x, y', x')), At(d, y, x), At(d, y', x'))
  {
    hide At;
    forall r, c | 0 <= r < d.lines && 0 <= c < d.cols
      ensures At(d, y, x) <= At(d, r, c) < At(d, y', x') <==> !Before(r, c, y, x) && Before(r, c, y', x') {
      AtOrder(d, r, c, y, x);
      AtOrder(d, r, c, y', x');
    }
  }

  // ---- inserting and deleting -------------------------------------------------

  function AtMost(n: nat, max: nat): nat { if n > max then max else n }

  /** n rows come in at the cursor, and as many go at the end of the screen; or the other way round. */
  lemma LinesMove(d: Dims, s: Screen, n: nat)
    requires ScreenOk(d, s)
    ensures var t, k := Final(d, s, [n], 'L' as int), AtMost(Count(n), d.lines);
            && t == s.(rows := t.rows) && |t.rows| == d.lines
            && forall r {:trigger t.rows[r]} | 0 <= r < d.lines ::
                 t.rows[r] == if r < s.y then s.rows[r] else if r < s.y + k then BlankRow(d) else s.rows[r - k]
    ensures var t, k := Final(d, s, [n], 'M' as int), AtMost(Count(n), d.lines);
            && t == s.(rows := t.rows) && |t.rows| == d.lines
            && forall r {:trigger t.rows[r]} | 0 <= r < d.lines ::
                 t.rows[r] == if r < s.y then s.rows[r] else if r + k < d.lines then s.rows[r + k] else BlankRow(d)
  {
    InsertedLines(d, s, AtMost(Count(n), d.lines));
    DeletedLines(d, s, AtMost(Count(n), d.lines));
  }

  lemma {:induction false} InsertedLines(d: Dims, s: Screen, k: nat)
    requires ScreenOk(d, s)
    ensures var t := InsertLines(d, s, k);
            && t == s.(rows := t.rows) && |t.rows| == d.lines
            && forall r {:trigger t.rows[r]} | 0 <= r < d.lines ::
                 t.rows[r] == if r < s.y then s.rows[r] else if r < s.y + k then BlankRow(d) else s.rows[r - k]
    decreases k
  {
    if k > 0 {
      var s1 := ScrollDown(d, s, s.y, d.lines);
      ScrollKeeps(d, s, s.y, d.lines);
      InsertedLines(d, s1, k - 1);
      assert forall r {:trigger s1.rows[r]} | 0 <= r < d.lines ::
          s1.rows[r] == if r < s.y then s.rows[r] else if r == s.y then BlankRow(d) else s.rows[r - 1];
    }
  }

  lemma {:induction false} DeletedLines(d: Dims, s: Screen, k: nat)
    requires ScreenOk(d, s)
    ensures var t := DeleteLines(d, s, k);
            && t == s.(rows := t.rows) && |t.rows| == d.lines
            && forall r {:trigger t.rows[r]} | 0 <= r < d.lines ::
                 t.rows[r] == if r < s.y then s.rows[r] else if r + k < d.lines then s.rows[r + k] else BlankRow(d)
    decreases k
  {
    if k > 0 {
      var s1 := ScrollUp(d, s, s.y, d.lines);
      ScrollKeeps(d, s, s.y, d.lines);
      DeletedLines(d, s1, k - 1);
      assert forall r {:trigger s1.rows[r]} | 0 <= r < d.lines ::
          s1.rows[r] == if r < s.y then s.rows[r] else if r + 1 < d.lines then s.rows[r + 1] else BlankRow(d);
    }
  }

  /** n blanks come in at the cursor, and as many cells go at the end of the row; or the other way round. */
  lemma CharsMove(d: Dims, s: Screen, n: nat)
    requires ScreenOk(d, s)
    ensures var t, k, row := Final(d, s, [n], '@' as int), AtMost(Count(n), d.cols), s.rows[s.y];
            && |t.rows| == d.lines && t == s.(rows := s.rows[s.y := t.rows[s.y]]) && |t.rows[s.y]| == d.cols
            && forall c {:trigger t.rows[s.y][c]} | 0 <= c < d.cols ::
                 t.rows[s.y][c] == if c < s.x then row[c] else if c < s.x + k then BLANK else row[c - k]
    ensures var t, k, row := Final(d, s, [n], 'P' as int), AtMost(Count(n), d.cols), s.rows[s.y];
            && |t.rows| == d.lines && t == s.(rows := s.rows[s.y := t.rows[s.y]]) && |t.rows[s.y]| == d.cols
            && forall c {:trigger t.rows[s.y][c]} | 0 <= c < d.cols ::
                 t.rows[s.y][c] == if c < s.x then row[c] else if c + k < d.cols then row[c + k] else BLANK
  {
    InsertedChars(d, s, AtMost(Count(n), d.cols));
    DeletedChars(d, s, AtMost(Count(n), d.cols));
  }

  lemma {:induction false} InsertedChars(d: Dims, s: Screen, k: nat)
    requires ScreenOk(d, s)
    ensures var t, row := InsertChars(s, k), s.rows[s.y];
            && |t.rows| == d.lines && t == s.(rows := s.rows[s.y := t.rows[s.y]]) && |t.rows[s.y]| == d.cols
            && forall c {:trigger t.rows[s.y][c]} | 0 <= c < d.cols ::
                 t.rows[s.y][c] == if c < s.x then row[c] else if c < s.x + k then BLANK else row[c - k]
    decreases k
  {
    if k > 0 {
      var row1 := RowIn(Here(s), s.x);
      RowKeeps(d, s, row1);
      InsertedChars(d, SetRow(s, row1), k - 1);
      assert forall c {:trigger row1[c]} | 0 <= c < d.cols ::
          row1[c] == if c < s.x then s.rows[s.y][c] else if c == s.x then BLANK else s.rows[s.y][c - 1];
      hide RowIn;
    } else {
      assert s.rows[s.y := s.rows[s.y]] == s.rows;
    }
  }

  lemma {:induction false} DeletedChars(d: Dims, s: Screen, k: nat)
    requires ScreenOk(d, s)
    ensures var t, row := DeleteChars(s, k), s.rows[s.y];
            && |t.rows| == d.lines && t == s.(rows := s.rows[s.y := t.rows[s.y]]) && |t.rows[s.y]| == d.cols
            && forall c {:trigger t.rows[s.y][c]} | 0 <= c < d.cols ::
                 t.rows[s.y][c] == if c < s.x then row[c] else if c + k < d.cols then row[c + k] else BLANK
    decreases k
  {
    if k > 0 {
      var row1 := RowOut(Here(s), s.x);
      RowKeeps(d, s, row1);
      DeletedChars(d, SetRow(s, row1), k - 1);
      assert forall c {:trigger row1[c]} | 0 <= c < d.cols ::
          row1[c] == if c < s.x then s.rows[s.y][c] else if c + 1 < d.cols then s.rows[s.y][c + 1] else BLANK;
      hide RowOut;
    } else {
      assert s.rows[s.y := s.rows[s.y]] == s.rows;
    }
  }

  // ---- attributes -------------------------------------------------------------

  /** The last of the parameters 0, 1, 4, 7 and 27 counts, the others do nothing: normal, bright, bright, reverse, normal. */
  lemma {:induction false} AttributesAre(d: Dims, s: Screen, ps: seq<nat>, k: int)
    requires ps != [] && -1 <= k < |ps| && (k >= 0 ==> ps[k] in {0, 1, 4, 7, 27})
    requires forall i | k < i < |ps| :: ps[i] !in {0, 1, 4, 7, 27}
    ensures var t := Final(d, s, ps, 'm' as int);
            && t == s.(attr := t.attr)
            && t.attr == if k < 0 then s.attr else if ps[k] == 7 then 0x70 else if ps[k] in {1, 4} then 0x0F else 0x07
  {
    if k < |ps| - 1 && |ps| > 1 { AttributesAre(d, s, ps[..|ps| - 1], k); }
    assert Attr([], s.attr) == s.attr;
  }
}
