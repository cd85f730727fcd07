/** What the console shows: rows of cells, a cursor, a scroll region and an escape-sequence parser, and what each
    byte written does to them. It knows nothing of video memory. */
module ConsoleSpec {
  const NPAR: nat := 16
  const BLANK: int := 0x0720        // video_erase_char

  /** cols is at least 8, for the tab, and even, for the copies by double words. */
  datatype Dims = Dims(cols: nat, lines: nat)

  predicate DimsOk(d: Dims) { d.cols >= 8 && d.cols % 2 == 0 && d.lines >= 1 }

  datatype Parser = Text | Escape | Bracket | Params(ps: seq<nat>)

  datatype Screen = Screen(
    rows: seq<seq<int>>, x: nat, y: nat, top: nat, bottom: nat, parser: Parser, attr: int,
    savedX: nat, savedY: nat, answers: nat)

  predicate RowsOk(d: Dims, rows: seq<seq<int>>) { |rows| == d.lines && forall r | 0 <= r < d.lines :: |rows[r]| == d.cols }

  predicate ScreenOk(d: Dims, s: Screen) {
    && RowsOk(d, s.rows) && s.x <= d.cols && s.y < d.lines && s.top < s.bottom <= d.lines
    && (s.parser.Params? ==> 1 <= |s.parser.ps| <= NPAR)
  }

  function U32(n: int): nat { n % 0x1_0000_0000 }

  // ---- rows -------------------------------------------------------------------

  function BlankRow(d: Dims): (r: seq<int>)
    ensures |r| == d.cols && forall c | 0 <= c < d.cols :: r[c] == BLANK
  {
    seq(d.cols, _ => BLANK)
  }

  /** The rows of the region move up, or down, by one. */
  function Up(d: Dims, rows: seq<seq<int>>, top: nat, bottom: nat): (r: seq<seq<int>>)
    requires top < bottom <= |rows|
    ensures |r| == |rows|
  {
    rows[..top] + rows[top + 1..bottom] + [BlankRow(d)] + rows[bottom..]
  }

  function Down(d: Dims, rows: seq<seq<int>>, top: nat, bottom: nat): (r: seq<seq<int>>)
    requires top < bottom <= |rows|
    ensures |r| == |rows|
  {
    rows[..top] + [BlankRow(d)] + rows[top..bottom - 1] + rows[bottom..]
  }

  /** (r, c) comes before (y, x) on the screen. */
  predicate Before(r: nat, c: nat, y: nat, x: nat) { r < y || (r == y && c < x) }

  function ErasedRow(row: seq<int>, r: nat, y: nat, x: nat, y': nat, x': nat): (e: seq<int>)
    ensures |e| == |row|
    ensures forall c | 0 <= c < |row| :: e[c] == if !Before(r, c, y, x) && Before(r, c, y', x') then BLANK else row[c]
  {
    seq(|row|, c requires 0 <= c < |row| => if !Before(r, c, y, x) && Before(r, c, y', x') then BLANK else row[c])
  }

  /** The cells from (y, x) up to (y', x') are erased. */
  function Erased(rows: seq<seq<int>>, y: nat, x: nat, y': nat, x': nat): (e: seq<seq<int>>)
    ensures |e| == |rows| && forall r | 0 <= r < |rows| :: e[r] == ErasedRow(rows[r], r, y, x, y', x')
  {
    seq(|rows|, r requires 0 <= r < |rows| => ErasedRow(rows[r], r, y, x, y', x'))
  }

  /** A blank cell comes in at x, the last one goes; or the one at x goes. */
  function RowIn(row: seq<int>, x: nat): (r: seq<int>)
    ensures |r| == |row|
  {
    if x >= |row| then row else row[..x] + [BLANK] + row[x..|row| - 1]
  }

  function RowOut(row: seq<int>, x: nat): (r: seq<int>)
    ensures |r| == |row|
  {
    if x >= |row| then row else row[..x] + row[x + 1..] + [BLANK]
  }

  function SetRow(s: Screen, row: seq<int>): Screen { if s.y < |s.rows| then s.(rows := s.rows[s.y := row]) else s }
  function Here(s: Screen): seq<int> { if s.y < |s.rows| then s.rows[s.y] else [] }

  // ---- the cursor -------------------------------------------------------------

  function Goto(d: Dims, s: Screen, x: nat, y: nat): Screen {
    if x > d.cols || y >= d.lines then s else s.(x := x, y := y)
  }

  function ScrollUp(d: Dims, s: Screen, top: nat, bottom: nat): Screen {
    if top < bottom <= |s.rows| then s.(rows := Up(d, s.rows, top, bottom)) else s
  }

  function ScrollDown(d: Dims, s: Screen, top: nat, bottom: nat): Screen {
    if top < bottom <= |s.rows| then s.(rows := Down(d, s.rows, top, bottom)) else s
  }

  function Lf(d: Dims, s: Screen): Screen {
    if s.y + 1 < s.bottom then s.(y := s.y + 1) else ScrollUp(d, s, s.top, s.bottom)
  }

  function Ri(d: Dims, s: Screen): Screen {
    if s.y > s.top then s.(y := s.y - 1) else ScrollDown(d, s, s.top, s.bottom)
  }

  function Wrapped(d: Dims, s: Screen): Screen
    requires s.x >= d.cols
  {
    Lf(d, s.(x := s.x - d.cols))
  }

  function PutChar(d: Dims, s: Screen, c: int): Screen {
    var s := if s.x >= d.cols then Wrapped(d, s) else s;
    if s.x < |Here(s)| then SetRow(s, Here(s)[s.x := 0x100 * s.attr + c]).(x := s.x + 1) else s
  }

  function Del(s: Screen): Screen {
    if 0 < s.x <= |Here(s)| then SetRow(s, Here(s)[s.x - 1 := BLANK]).(x := s.x - 1) else s
  }

  function Tab(d: Dims, s: Screen): Screen {
    var s := s.(x := s.x + (8 - s.x % 8));
    if s.x > d.cols then Wrapped(d, s) else s
  }

  // ---- escape sequences -------------------------------------------------------

  function EraseDisplay(d: Dims, s: Screen, p: nat): Screen {
    if p == 0 then s.(rows := Erased(s.rows, s.y, s.x, d.lines, 0))
    else if p == 1 then s.(rows := Erased(s.rows, 0, 0, s.y, s.x))
    else if p == 2 then s.(rows := Erased(s.rows, 0, 0, d.lines, 0))
    else s
  }

  function EraseLine(d: Dims, s: Screen, p: nat): Screen {
    if p == 0 then s.(rows := Erased(s.rows, s.y, s.x, s.y, d.cols))
    else if p == 1 then s.(rows := Erased(s.rows, s.y, 0, s.y, s.x))
    else if p == 2 then s.(rows := Erased(s.rows, s.y, 0, s.y, d.cols))
    else s
  }

  function Times(n: nat, max: nat): nat { if n > max then max else if n == 0 then 1 else n }

  function InsertChars(s: Screen, n: nat): Screen
    decreases n
  {
    if n == 0 then s else InsertChars(SetRow(s, RowIn(Here(s), s.x)), n - 1)
  }

  function DeleteChars(s: Screen, n: nat): Screen
    decreases n
  {
    if n == 0 then s else DeleteChars(SetRow(s, RowOut(Here(s), s.x)), n - 1)
  }

  function InsertLines(d: Dims, s: Screen, n: nat): Screen
    decreases n
  {
    if n == 0 then s else InsertLines(d, ScrollDown(d, s, s.y, d.lines), n - 1)
  }

  function DeleteLines(d: Dims, s: Screen, n: nat): Screen
    decreases n
  {
    if n == 0 then s else DeleteLines(d, ScrollUp(d, s, s.y, d.lines), n - 1)
  }

  function Attr(ps: seq<nat>, attr: int): int {
    if ps == [] then attr else
      var p := ps[|ps| - 1];
      if p == 0 then 0x07 else if p == 1 then 0x0F else if p == 4 then 0x0F else if p == 7 then 0x70 else if p == 27 then 0x07
      else Attr(ps[..|ps| - 1], attr)
  }

  function Par(ps: seq<nat>, i: nat): nat { if i < |ps| then ps[i] else 0 }
  function Less1(n: nat): nat { if n > 0 then n - 1 else 0 }
  function AtLeast1(n: nat): nat { if n == 0 then 1 else n }

  function Region(d: Dims, s: Screen, top: nat, bottom: nat): Screen {
    if top < bottom <= d.lines then s.(top := top, bottom := bottom) else s
  }

  function Final(d: Dims, s: Screen, ps: seq<nat>, c: int): Screen {
    var p, q := Par(ps, 0), Par(ps, 1);
    var n := AtLeast1(p);
    if c == 'G' as int || c == '`' as int then Goto(d, s, Less1(p), s.y)
    else if c == 'A' as int then Goto(d, s, s.x, U32(s.y - n))
    else if c == 'B' as int || c == 'e' as int then Goto(d, s, s.x, U32(s.y + n))
    else if c == 'C' as int || c == 'a' as int then Goto(d, s, U32(s.x + n), s.y)
    else if c == 'D' as int then Goto(d, s, U32(s.x - n), s.y)
    else if c == 'E' as int then Goto(d, s, 0, U32(s.y + n))
    else if c == 'F' as int then Goto(d, s, 0, U32(s.y - n))
    else if c == 'd' as int then Goto(d, s, s.x, Less1(p))
    else if c == 'H' as int || c == 'f' as int then Goto(d, s, Less1(q), Less1(p))
    else if c == 'J' as int then EraseDisplay(d, s, p)
    else if c == 'K' as int then EraseLine(d, s, p)
    else if c == 'L' as int then InsertLines(d, s, Times(p, d.lines))
    else if c == 'M' as int then DeleteLines(d, s, Times(p, d.lines))
    else if c == 'P' as int then DeleteChars(s, Times(p, d.cols))
    else if c == '@' as int then InsertChars(s, Times(p, d.cols))
    else if c == 'm' as int then s.(attr := Attr(ps, s.attr))
    else if c == 'r' as int then Region(d, s, Less1(p), if q == 0 then d.lines else q)
    else if c == 's' as int then s.(savedX := s.x, savedY := s.y)
    else if c == 'u' as int then Goto(d, s, s.savedX, s.savedY)
    else s
  }

  /** A byte of a parameter list, or the one that ends it. */
  function Param(d: Dims, s: Screen, ps: seq<nat>, c: int): Screen {
    if c == ';' as int && |ps| < NPAR then s.(parser := Params(ps + [0]))
    else if '0' as int <= c <= '9' as int && |ps| > 0 then
      s.(parser := Params(ps[|ps| - 1 := U32(10 * ps[|ps| - 1] + c - '0' as int)]))
    else Final(d, s.(parser := Text), ps, c)
  }

  /** ESC 7 and ESC 8 are recognised by the cursor being in column 55 or 56. */
  function AfterEscape(d: Dims, s: Screen, c: int): Screen {
    var s := s.(parser := Text);
    if c == '[' as int then s.(parser := Bracket)
    else if c == 'E' as int then Goto(d, s, 0, s.y + 1)
    else if c == 'M' as int then Ri(d, s)
    else if c == 'D' as int then Lf(d, s)
    else if c == 'Z' as int then s.(answers := s.answers + 1)
    else if s.x == 55 then s.(savedX := s.x, savedY := s.y)
    else if s.x == 56 then Goto(d, s, s.savedX, s.savedY)
    else s
  }

  /** ESC 7 saves the cursor only in column 55, or when it happens to be saved already. */
  lemma SavesCursor(d: Dims, s: Screen)
    ensures var t := AfterEscape(d, s, '7' as int);
            t.savedX == s.x && t.savedY == s.y <==> s.x == 55 || (s.savedX == s.x && s.savedY == s.y)
  {}

  /** ESC 8 puts the cursor back only from column 56, or when it happens to be there already. */
  lemma RestoresCursor(d: Dims, s: Screen)
    ensures var t, want := AfterEscape(d, s, '8' as int), Goto(d, s, s.savedX, s.savedY);
            t.x == want.x && t.y == want.y <==> s.x == 56 || (s.x == want.x && s.y == want.y)
  {}

  /** For example: at the start of the second row ESC 7 leaves the saved position at the top, and ESC 8 after it does
      not move the cursor there. */
  lemma CursorExample()
    ensures var d := Dims(80, 25);
            var s := Screen(seq(25, _ => BlankRow(d)), 0, 1, 0, 25, Escape, 7, 0, 0, 0);
            var t := AfterEscape(d, s, '7' as int);
            ScreenOk(d, s) && (t.savedX, t.savedY) == (0, 0) && AfterEscape(d, t, '8' as int).y == 1
  {}

  function Plain(d: Dims, s: Screen, erase: int, c: int): Screen {
    if 31 < c < 127 then PutChar(d, s, c)
    else if c == 27 then s.(parser := Escape)
    else if c == 10 || c == 11 || c == 12 then Lf(d, s)
    else if c == 13 then s.(x := 0)
    else if c == erase then Del(s)
    else if c == 8 then (if s.x > 0 then s.(x := s.x - 1) else s)
    else if c == 9 then Tab(d, s)
    else s
  }

  /** con_write, for one byte. */
  function Byte(d: Dims, s: Screen, erase: int, c: int): Screen {
    match s.parser
    case Text => Plain(d, s, erase, c)
    case Escape => AfterEscape(d, s, c)
    case Bracket => if c == '?' as int then s.(parser := Params([0])) else Param(d, s, [0], c)
    case Params(ps) => Param(d, s, ps, c)
  }

  function Bytes(d: Dims, s: Screen, erase: int, cs: seq<int>): Screen {
    if cs == [] then s else Byte(d, Bytes(d, s, erase, cs[..|cs| - 1]), erase, cs[|cs| - 1])
  }

  // ---- what every byte keeps --------------------------------------------------

  lemma ScrollKeeps(d: Dims, s: Screen, top: nat, bottom: nat)
    requires ScreenOk(d, s) && top < bottom <= d.lines
    ensures ScreenOk(d, ScrollUp(d, s, top, bottom)) && ScreenOk(d, ScrollDown(d, s, top, bottom))
  {}

  lemma LfKeeps(d: Dims, s: Screen)
    requires ScreenOk(d, s)
    ensures ScreenOk(d, Lf(d, s)) && ScreenOk(d, Ri(d, s)) && Lf(d, s).x == s.x
  {
    ScrollKeeps(d, s, s.top, s.bottom);
  }

  lemma PutCharKeeps(d: Dims, s: Screen, c: int)
    requires DimsOk(d) && ScreenOk(d, s)
    ensures ScreenOk(d, PutChar(d, s, c))
  {
    if s.x >= d.cols { LfKeeps(d, s.(x := s.x - d.cols)); }
    hide Lf, Ri;
  }

  lemma TabKeeps(d: Dims, s: Screen)
    requires DimsOk(d) && ScreenOk(d, s)
    ensures ScreenOk(d, Tab(d, s))
  {
    var tab := s.x + (8 - s.x % 8);
    if tab > d.cols { LfKeeps(d, s.(x := tab - d.cols)); }
    hide Lf, Ri, RowsOk;
  }

  lemma PlainKeeps(d: Dims, s: Screen, erase: int, c: int)
    requires DimsOk(d) && ScreenOk(d, s)
    ensures ScreenOk(d, Plain(d, s, erase, c))
  {
    LfKeeps(d, s);
    TabKeeps(d, s);
    PutCharKeeps(d, s, c);
    hide Lf, Ri, Tab, PutChar;
  }

  lemma {:induction false} CharsKeep(d: Dims, s: Screen, n: nat)
    requires ScreenOk(d, s)
    ensures ScreenOk(d, InsertChars(s, n)) && ScreenOk(d, DeleteChars(s, n))
    decreases n
  {
    hide RowIn, RowOut;
    if n > 0 {
      RowKeeps(d, s, RowIn(Here(s), s.x));
      RowKeeps(d, s, RowOut(Here(s), s.x));
      hide ScreenOk, RowIn, RowOut, SetRow;
      CharsKeep(d, SetRow(s, RowIn(Here(s), s.x)), n - 1);
      CharsKeep(d, SetRow(s, RowOut(Here(s), s.x)), n - 1);
    }
  }

  lemma RowKeeps(d: Dims, s: Screen, row: seq<int>)
    requires ScreenOk(d, s)
    ensures |row| == |Here(s)| ==> ScreenOk(d, SetRow(s, row))
  {}

  lemma {:induction false} LinesKeep(d: Dims, s: Screen, n: nat)
    requires ScreenOk(d, s)
    ensures ScreenOk(d, InsertLines(d, s, n)) && ScreenOk(d, DeleteLines(d, s, n))
    decreases n
  {
    if n > 0 {
      ScrollKeeps(d, s, s.y, d.lines);
      LinesKeep(d, ScrollDown(d, s, s.y, d.lines), n - 1);
      LinesKeep(d, ScrollUp(d, s, s.y, d.lines), n - 1);
    }
  }

  lemma FinalKeeps(d: Dims, s: Screen, ps: seq<nat>, c: int)
    requires ScreenOk(d, s)
    ensures ScreenOk(d, Final(d, s, ps, c))
  {
    GotoKeeps(d, s);
    FieldsKeep(d, s);
    hide InsertChars, DeleteChars, InsertLines, DeleteLines, Attr, Goto, EraseDisplay, EraseLine, Region, ScreenOk;
    if c == 'J' as int || c == 'K' as int {
      EraseKeeps(d, s, Par(ps, 0));
    } else if c == 'L' as int || c == 'M' as int {
      LinesKeep(d, s, Times(Par(ps, 0), d.lines));
    } else if c == 'P' as int || c == '@' as int {
      CharsKeep(d, s, Times(Par(ps, 0), d.cols));
    }
  }

  lemma GotoKeeps(d: Dims, s: Screen)
    requires ScreenOk(d, s)
    ensures forall x, y {:trigger Goto(d, s, x, y)} :: ScreenOk(d, Goto(d, s, x, y))
  {}

  lemma EraseKeeps(d: Dims, s: Screen, p: nat)
    requires ScreenOk(d, s)
    ensures ScreenOk(d, EraseDisplay(d, s, p)) && ScreenOk(d, EraseLine(d, s, p))
  {}

  lemma FieldsKeep(d: Dims, s: Screen)
    requires ScreenOk(d, s)
    ensures forall attr {:trigger s.(attr := attr)} :: ScreenOk(d, s.(attr := attr))
    ensures forall top, bottom {:trigger Region(d, s, top, bottom)} :: ScreenOk(d, Region(d, s, top, bottom))
    ensures ScreenOk(d, s.(savedX := s.x, savedY := s.y))
  {}

  lemma ByteKeeps(d: Dims, s: Screen, erase: int, c: int)
    requires DimsOk(d) && ScreenOk(d, s)
    ensures ScreenOk(d, Byte(d, s, erase, c))
  {
    var t := s.(parser := Text);
    PlainKeeps(d, s, erase, c);
    LfKeeps(d, t);
    FinalKeeps(d, t, [0], c);
    if s.parser.Params? { FinalKeeps(d, t, s.parser.ps, c); }
    hide Plain, Final, Lf, Ri;
  }

  /** After any bytes the cursor is on the screen, or just past the right margin; the region is not empty and on it. */
  lemma {:induction false} BytesKeep(d: Dims, s: Screen, erase: int, cs: seq<int>)
    requires DimsOk(d) && ScreenOk(d, s)
    ensures ScreenOk(d, Bytes(d, s, erase, cs))
  {
    if cs != [] {
      BytesKeep(d, s, erase, cs[..|cs| - 1]);
      ByteKeeps(d, Bytes(d, s, erase, cs[..|cs| - 1]), erase, cs[|cs| - 1]);
    }
  }
}
