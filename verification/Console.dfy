/** The console of kernel/chr_drv/console.c in video memory: the screen is the window that starts at origin.
    Addresses count 16-bit cells from the start of video memory. */
module Console {
  import opened ConsoleSpec

  // ---- the window -------------------------------------------------------------

  /** Where row y of a window starts: y * cols. */
  function Row(d: Dims, y: nat): nat { if y == 0 then 0 else Row(d, y - 1) + d.cols }

  lemma {:induction false} RowIs(d: Dims, y: nat)
    ensures Row(d, y) == y * d.cols
  {
    if y > 0 { RowIs(d, y - 1); }
  }

  lemma {:induction false} RowMono(d: Dims, a: nat, b: nat)
    requires a <= b
    ensures Row(d, a) <= Row(d, b) && (a < b ==> Row(d, a) + d.cols <= Row(d, b)) && Row(d, b - a) == Row(d, b) - Row(d, a)
    decreases b
  {
    if a < b {
      RowMono(d, a, b - 1);
      assert Row(d, b - a) == Row(d, b - 1 - a) + d.cols;
    }
  }

  lemma {:induction false} RowEven(d: Dims, y: nat)
    requires d.cols % 2 == 0
    ensures Row(d, y) % 2 == 0
  {
    if y > 0 { RowEven(d, y - 1); }
  }

  predicate Fits(d: Dims, m: seq<int>, o: nat) { o + Row(d, d.lines) <= |m| }

  function WindowRow(d: Dims, m: seq<int>, o: nat, r: nat): (w: seq<int>)
    requires Fits(d, m, o) && r < d.lines
    ensures |w| == d.cols
  {
    RowMono(d, r, d.lines);
    m[o + Row(d, r)..o + Row(d, r) + d.cols]
  }

  function Window(d: Dims, m: seq<int>, o: nat): (w: seq<seq<int>>)
    requires Fits(d, m, o)
    ensures RowsOk(d, w) && forall r | 0 <= r < d.lines :: w[r] == WindowRow(d, m, o, r)
  {
    seq(d.lines, r requires 0 <= r < d.lines => WindowRow(d, m, o, r))
  }

  /** m is n, but from a to b it holds ch. */
  predicate Filled(m: seq<int>, n: seq<int>, a: nat, b: nat, ch: int) {
    |m| == |n| && forall i {:trigger m[i]} | 0 <= i < |n| :: m[i] == if a <= i < b then ch else n[i]
  }

  /** m is n, but the count cells from src have been copied to dst. */
  predicate Copied(m: seq<int>, n: seq<int>, dst: nat, src: nat, count: nat) {
    && |m| == |n| && src + count <= |n|
    && forall i {:trigger m[i]} | 0 <= i < |n| :: m[i] == if dst <= i < dst + count then n[i - dst + src] else n[i]
  }

  lemma BeforeIs(d: Dims, r: nat, c: nat, y: nat, x: nat)
    requires c < d.cols && x <= d.cols
    ensures Row(d, r) + c < Row(d, y) + x <==> Before(r, c, y, x)
  {
    if r < y { RowMono(d, r, y); }
    if y < r { RowMono(d, y, r); }
  }

  /** Filling memory from one cell to another erases exactly the cells between them on the screen. */
  lemma FillErases(d: Dims, n: seq<int>, m: seq<int>, o: nat, y: nat, x: nat, y': nat, x': nat)
    requires Fits(d, n, o) && x <= d.cols && x' <= d.cols
    requires Filled(m, n, o + Row(d, y) + x, o + Row(d, y') + x', BLANK)
    ensures Window(d, m, o) == Erased(Window(d, n, o), y, x, y', x')
  {
    forall r | 0 <= r < d.lines ensures WindowRow(d, m, o, r) == Erased(Window(d, n, o), y, x, y', x')[r] {
      FillErasesRow(d, n, m, o, y, x, y', x', r);
    }
  }

  lemma FillErasesRow(d: Dims, n: seq<int>, m: seq<int>, o: nat, y: nat, x: nat, y': nat, x': nat, r: nat)
    requires Fits(d, n, o) && x <= d.cols && x' <= d.cols && r < d.lines
    requires Filled(m, n, o + Row(d, y) + x, o + Row(d, y') + x', BLANK)
    ensures WindowRow(d, m, o, r) == ErasedRow(WindowRow(d, n, o, r), r, y, x, y', x')
  {
    RowMono(d, r, d.lines);
    forall c | 0 <= c < d.cols
      ensures WindowRow(d, m, o, r)[c] == ErasedRow(WindowRow(d, n, o, r), r, y, x, y', x')[c] {
      BeforeIs(d, r, c, y, x);
      BeforeIs(d, r, c, y', x');
      assert WindowRow(d, n, o, r)[c] == n[o + Row(d, r) + c];
      assert WindowRow(d, m, o, r)[c] == m[o + Row(d, r) + c];
    }
  }

  /** The same cells at another place show the same row. */
  lemma SameRow(d: Dims, n: seq<int>, o: nat, r: nat, m: seq<int>, o': nat, r': nat)
    requires Fits(d, n, o) && Fits(d, m, o') && r < d.lines && r' < d.lines
    requires o + Row(d, r) + d.cols <= |n| && o' + Row(d, r') + d.cols <= |m|
    requires forall i {:trigger m[i]} | o' + Row(d, r') <= i < o' + Row(d, r') + d.cols :: m[i] == n[i - (o' + Row(d, r')) + (o + Row(d, r))]
    ensures WindowRow(d, m, o', r') == WindowRow(d, n, o, r)
  {
    forall c | 0 <= c < d.cols ensures WindowRow(d, m, o', r')[c] == WindowRow(d, n, o, r)[c] {
      assert m[o' + Row(d, r') + c] == n[o + Row(d, r) + c];
    }
  }

  lemma RowKept(d: Dims, n: seq<int>, m: seq<int>, o: nat, r: nat)
    requires Fits(d, n, o) && Fits(d, m, o) && r < d.lines && |m| == |n|
    requires forall i {:trigger m[i]} | o + Row(d, r) <= i < o + Row(d, r) + d.cols && i < |m| :: m[i] == n[i]
    ensures WindowRow(d, m, o, r) == WindowRow(d, n, o, r)
  {
    RowMono(d, r, d.lines);
    forall c | 0 <= c < d.cols ensures WindowRow(d, m, o, r)[c] == WindowRow(d, n, o, r)[c] {
      assert m[o + Row(d, r) + c] == n[o + Row(d, r) + c];
    }
  }

  lemma BlankShown(d: Dims, m: seq<int>, o: nat, r: nat)
    requires Fits(d, m, o) && r < d.lines
    requires forall i | o + Row(d, r) <= i < o + Row(d, r) + d.cols && i < |m| :: m[i] == BLANK
    ensures WindowRow(d, m, o, r) == BlankRow(d)
  {
    RowMono(d, r, d.lines);
  }

  lemma OutsideKept(d: Dims, n: seq<int>, m: seq<int>, o: nat, top: nat, bottom: nat, r: nat)
    requires Fits(d, n, o) && Fits(d, m, o) && r < d.lines && |m| == |n| && (r < top || r >= bottom)
    requires forall i {:trigger m[i]} | 0 <= i < |m| && !(o + Row(d, top) <= i < o + Row(d, bottom)) :: m[i] == n[i]
    ensures WindowRow(d, m, o, r) == WindowRow(d, n, o, r)
  {
    if r < top { RowMono(d, r, top); } else { RowMono(d, bottom, r); }
    RowKept(d, n, m, o, r);
  }

  /** Copying the rows below up by one, and blanking the last, scrolls the region. */
  lemma CopyScrollsUp(d: Dims, n: seq<int>, k: seq<int>, m: seq<int>, o: nat, top: nat, bottom: nat)
    requires Fits(d, n, o) && top < bottom <= d.lines && |m| == |n|
    requires Copied(k, n, o + Row(d, top), o + Row(d, top + 1), Row(d, bottom - top - 1))
    requires Filled(m, k, o + Row(d, bottom - 1), o + Row(d, bottom), BLANK)
    ensures Window(d, m, o) == Up(d, Window(d, n, o), top, bottom)
  {
    hide Up, Row, Copied, Filled;
    forall r | 0 <= r < d.lines ensures WindowRow(d, m, o, r) == Up(d, Window(d, n, o), top, bottom)[r] {
      UpRow(d, n, k, m, o, top, bottom, r);
      UpAt(d, Window(d, n, o), top, bottom, r);
    }
  }

  lemma UpAt(d: Dims, rows: seq<seq<int>>, top: nat, bottom: nat, r: nat)
    requires top < bottom <= |rows| && r < |rows|
    ensures Up(d, rows, top, bottom)[r] == if r < top || r >= bottom then rows[r] else if r == bottom - 1 then BlankRow(d) else rows[r + 1]
  {}

  lemma UpRow(d: Dims, n: seq<int>, k: seq<int>, m: seq<int>, o: nat, top: nat, bottom: nat, r: nat)
    requires Fits(d, n, o) && top < bottom <= d.lines && r < d.lines
    requires Copied(k, n, o + Row(d, top), o + Row(d, top + 1), Row(d, bottom - top - 1))
    requires Filled(m, k, o + Row(d, bottom - 1), o + Row(d, bottom), BLANK)
    ensures WindowRow(d, m, o, r) == if r < top || r >= bottom then WindowRow(d, n, o, r)
                                     else if r == bottom - 1 then BlankRow(d) else WindowRow(d, n, o, r + 1)
  {
    RowMono(d, top, bottom - 1);
    RowNext(d, bottom - 1);
    if r < top || r >= bottom {
      OutsideKept(d, n, m, o, top, bottom, r);
    } else if r == bottom - 1 {
      BlankShown(d, m, o, r);
    } else {
      UpInside(d, n, k, m, o, top, bottom, r);
    }
  }

  lemma UpInside(d: Dims, n: seq<int>, k: seq<int>, m: seq<int>, o: nat, top: nat, bottom: nat, r: nat)
    requires Fits(d, n, o) && Fits(d, m, o) && top <= r < bottom - 1 < d.lines
    requires Copied(k, n, o + Row(d, top), o + Row(d, top + 1), Row(d, bottom - top - 1))
    requires Filled(m, k, o + Row(d, bottom - 1), o + Row(d, bottom), BLANK)
    ensures WindowRow(d, m, o, r) == WindowRow(d, n, o, r + 1)
  {
    RowMono(d, top, bottom - 1);
    RowMono(d, top, r);
    RowMono(d, r, bottom - 1);
    RowMono(d, r + 1, d.lines);
    RowNext(d, r);
    RowNext(d, top);
    hide Row;
    SameRow(d, n, o, r + 1, m, o, r);
  }

  lemma RowNext(d: Dims, y: nat)
    ensures Row(d, y + 1) == Row(d, y) + d.cols
  {}

  /** Copying the rows above down by one, and blanking the first, scrolls the region down. */
  lemma CopyScrollsDown(d: Dims, n: seq<int>, k: seq<int>, m: seq<int>, o: nat, top: nat, bottom: nat)
    requires Fits(d, n, o) && top < bottom <= d.lines && |m| == |n|
    requires Copied(k, n, o + Row(d, top + 1), o + Row(d, top), Row(d, bottom - top - 1))
    requires Filled(m, k, o + Row(d, top), o + Row(d, top + 1), BLANK)
    ensures Window(d, m, o) == Down(d, Window(d, n, o), top, bottom)
  {
    hide Down, Row, Copied, Filled;
    forall r | 0 <= r < d.lines ensures WindowRow(d, m, o, r) == Down(d, Window(d, n, o), top, bottom)[r] {
      DownRow(d, n, k, m, o, top, bottom, r);
      DownAt(d, Window(d, n, o), top, bottom, r);
    }
  }

  lemma DownAt(d: Dims, rows: seq<seq<int>>, top: nat, bottom: nat, r: nat)
    requires top < bottom <= |rows| && r < |rows|
    ensures Down(d, rows, top, bottom)[r] == if r < top || r >= bottom then rows[r] else if r == top then BlankRow(d) else rows[r - 1]
  {}

  lemma DownRow(d: Dims, n: seq<int>, k: seq<int>, m: seq<int>, o: nat, top: nat, bottom: nat, r: nat)
    requires Fits(d, n, o) && top < bottom <= d.lines && r < d.lines
    requires Copied(k, n, o + Row(d, top + 1), o + Row(d, top), Row(d, bottom - top - 1))
    requires Filled(m, k, o + Row(d, top), o + Row(d, top + 1), BLANK)
    ensures WindowRow(d, m, o, r) == if r < top || r >= bottom then WindowRow(d, n, o, r)
                                     else if r == top then BlankRow(d) else WindowRow(d, n, o, r - 1)
  {
    RowMono(d, top + 1, bottom);
    RowNext(d, top);
    if r < top || r >= bottom {
      OutsideKept(d, n, m, o, top, bottom, r);
    } else if r == top {
      BlankShown(d, m, o, r);
    } else {
      DownInside(d, n, k, m, o, top, bottom, r);
    }
  }

  lemma DownInside(d: Dims, n: seq<int>, k: seq<int>, m: seq<int>, o: nat, top: nat, bottom: nat, r: nat)
    requires Fits(d, n, o) && Fits(d, m, o) && top < r < bottom <= d.lines
    requires Copied(k, n, o + Row(d, top + 1), o + Row(d, top), Row(d, bottom - top - 1))
    requires Filled(m, k, o + Row(d, top), o + Row(d, top + 1), BLANK)
    ensures WindowRow(d, m, o, r) == WindowRow(d, n, o, r - 1)
  {
    InsideRows(d, top, bottom, r);
    hide Row, Fits;
    SameRow(d, n, o, r - 1, m, o, r);
  }

  lemma InsideRows(d: Dims, top: nat, bottom: nat, r: nat)
    requires top < r < bottom <= d.lines
    ensures Row(d, top + 1) == Row(d, top) + d.cols <= Row(d, r) == Row(d, r - 1) + d.cols
    ensures Row(d, r) + d.cols <= Row(d, bottom) == Row(d, top + 1) + Row(d, bottom - top - 1)
    ensures Row(d, bottom) <= Row(d, d.lines)
  {
    RowMono(d, top + 1, bottom);
    RowMono(d, top + 1, r);
    RowMono(d, r, bottom);
    RowMono(d, bottom, d.lines);
  }

  /** Moving the window down by one row, over a row just blanked, scrolls the whole screen. */
  lemma MoveScrollsUp(d: Dims, n: seq<int>, m: seq<int>, o: nat)
    requires Fits(d, n, o) && Fits(d, n, o + d.cols) && d.lines > 0
    requires Filled(m, n, o + Row(d, d.lines), o + d.cols + Row(d, d.lines), BLANK)
    ensures Window(d, m, o + d.cols) == Up(d, Window(d, n, o), 0, d.lines)
  {
    hide Up, Row;
    forall r | 0 <= r < d.lines ensures WindowRow(d, m, o + d.cols, r) == Up(d, Window(d, n, o), 0, d.lines)[r] {
      UpAt(d, Window(d, n, o), 0, d.lines, r);
      MoveRow(d, n, m, o, r);
    }
  }

  lemma MoveRow(d: Dims, n: seq<int>, m: seq<int>, o: nat, r: nat)
    requires Fits(d, n, o) && Fits(d, n, o + d.cols) && r < d.lines
    requires Filled(m, n, o + Row(d, d.lines), o + d.cols + Row(d, d.lines), BLANK)
    ensures WindowRow(d, m, o + d.cols, r) == if r == d.lines - 1 then BlankRow(d) else WindowRow(d, n, o, r + 1)
  {
    RowMono(d, r, d.lines);
    assert Row(d, r + 1) == Row(d, r) + d.cols;
    hide Row;
    if r == d.lines - 1 {
      BlankShown(d, m, o + d.cols, r);
    } else {
      RowMono(d, r + 1, d.lines);
      SameRow(d, n, o, r + 1, m, o + d.cols, r);
    }
  }

  /** So does moving the window back to the start of video memory, with all its rows but the first. */
  lemma WrapScrollsUp(d: Dims, n: seq<int>, k: seq<int>, m: seq<int>, o: nat)
    requires Fits(d, n, o) && d.lines > 0
    requires Copied(k, n, 0, o + d.cols, Row(d, d.lines - 1)) && Filled(m, k, Row(d, d.lines - 1), Row(d, d.lines), BLANK)
    ensures Window(d, m, 0) == Up(d, Window(d, n, o), 0, d.lines)
  {
    hide Up, Row;
    forall r | 0 <= r < d.lines ensures WindowRow(d, m, 0, r) == Up(d, Window(d, n, o), 0, d.lines)[r] {
      UpAt(d, Window(d, n, o), 0, d.lines, r);
      WrapRow(d, n, k, m, o, r);
    }
  }

  lemma WrapRow(d: Dims, n: seq<int>, k: seq<int>, m: seq<int>, o: nat, r: nat)
    requires Fits(d, n, o) && r < d.lines
    requires Copied(k, n, 0, o + d.cols, Row(d, d.lines - 1)) && Filled(m, k, Row(d, d.lines - 1), Row(d, d.lines), BLANK)
    ensures WindowRow(d, m, 0, r) == if r == d.lines - 1 then BlankRow(d) else WindowRow(d, n, o, r + 1)
  {
    hide WindowRow;
    assert Row(d, d.lines) == Row(d, d.lines - 1) + d.cols && Row(d, r + 1) == Row(d, r) + d.cols;
    hide Row;
    if r == d.lines - 1 {
      BlankShown(d, m, 0, r);
    } else {
      RowMono(d, r + 1, d.lines - 1);
      SameRow(d, n, o, r + 1, m, 0, r);
    }
  }

  /** n with the cells from s on replaced. */
  function Spliced(n: seq<int>, s: nat, row: seq<int>): (m: seq<int>)
    requires s + |row| <= |n|
    ensures |m| == |n|
  {
    n[..s] + row + n[s + |row|..]
  }

  lemma SplicedIs(n: seq<int>, s: nat, row: seq<int>)
    requires s + |row| <= |n|
    ensures var m := Spliced(n, s, row);
            forall i {:trigger m[i]} | 0 <= i < |m| :: m[i] == if s <= i < s + |row| then row[i - s] else n[i]
  {}

  /** A change within one row changes that row of the window only. */
  lemma OneRow(d: Dims, n: seq<int>, o: nat, y: nat, row: seq<int>)
    requires Fits(d, n, o) && y < d.lines && |row| == d.cols
    ensures o + Row(d, y) + d.cols <= |n|
    ensures Window(d, Spliced(n, o + Row(d, y), row), o) == Window(d, n, o)[y := row]
  {
    RowNext(d, y);
    RowMono(d, y, d.lines);
    var m := Spliced(n, o + Row(d, y), row);
    SplicedIs(n, o + Row(d, y), row);
    forall r | 0 <= r < d.lines ensures WindowRow(d, m, o, r) == Window(d, n, o)[y := row][r] {
      if r != y { OutsideKept(d, n, m, o, y, y + 1, r); }
    }
  }

  lemma PokeIs(d: Dims, n: seq<int>, o: nat, y: nat, at: nat, v: int)
    requires Fits(d, n, o) && y < d.lines && at < d.cols
    ensures o + Row(d, y) + at < |n|
    ensures Window(d, n[o + Row(d, y) + at := v], o) == Window(d, n, o)[y := WindowRow(d, n, o, y)[at := v]]
  {
    RowMono(d, y, d.lines);
    OneRow(d, n, o, y, WindowRow(d, n, o, y)[at := v]);
    assert n[o + Row(d, y) + at := v] == Spliced(n, o + Row(d, y), WindowRow(d, n, o, y)[at := v]);
  }

  lemma RowOutAt(row: seq<int>, x: nat, c: nat)
    requires x < |row| && c < |row|
    ensures RowOut(row, x)[c] == if c < x then row[c] else if c == |row| - 1 then BLANK else row[c + 1]
  {}

  lemma RowInAt(row: seq<int>, x: nat, c: nat)
    requires c < |row|
    ensures RowIn(row, x)[c] == if c < x then row[c] else if c == x then BLANK else row[c - 1]
  {}

  /** delete_char takes the cell at x out of the row at s. */
  lemma OutIsSpliced(m: seq<int>, n: seq<int>, s: nat, w: nat, x: nat)
    requires x < w && s + w <= |n| == |m|
    requires forall k {:trigger m[k]} | 0 <= k < |m| ::
               m[k] == if s + x <= k < s + w - 1 then n[k + 1] else if k == s + w - 1 then BLANK else n[k]
    ensures m == Spliced(n, s, RowOut(n[s..s + w], x))
  {
    var row := n[s..s + w];
    var r := Spliced(n, s, RowOut(row, x));
    SplicedIs(n, s, RowOut(row, x));
    hide RowOut, Spliced;
    forall k | 0 <= k < |n| ensures m[k] == r[k] { if s <= k < s + w { RowOutAt(row, x, k - s); } }
  }

  /** insert_char puts a blank cell in at x. */
  lemma InIsSpliced(m: seq<int>, n: seq<int>, s: nat, w: nat, x: nat)
    requires x <= w && s + w <= |n| == |m|
    requires forall k {:trigger m[k]} | 0 <= k < |m| ::
               m[k] == if k == s + x && x < w then BLANK else if s + x < k < s + w then n[k - 1] else n[k]
    ensures m == Spliced(n, s, RowIn(n[s..s + w], x))
  {
    var row := n[s..s + w];
    var r := Spliced(n, s, RowIn(row, x));
    SplicedIs(n, s, RowIn(row, x));
    hide RowIn, Spliced;
    forall k | 0 <= k < |n| ensures m[k] == r[k] { if s <= k < s + w { RowInAt(row, x, k - s); } }
  }

  lemma RowInChanges(d: Dims, n: seq<int>, o: nat, y: nat, x: nat)
    requires Fits(d, n, o) && y < d.lines
    ensures o + Row(d, y) + d.cols <= |n|
    ensures var s := o + Row(d, y);
            Window(d, Spliced(n, s, RowIn(n[s..s + d.cols], x)), o) == Window(d, n, o)[y := RowIn(Window(d, n, o)[y], x)]
  {
    hide Window;
    RowMono(d, y, d.lines);
    hide Row, RowIn, Spliced;
    assert WindowRow(d, n, o, y) == n[o + Row(d, y)..o + Row(d, y) + d.cols];
    OneRow(d, n, o, y, RowIn(WindowRow(d, n, o, y), x));
  }

  lemma RowOutChanges(d: Dims, n: seq<int>, o: nat, y: nat, x: nat)
    requires Fits(d, n, o) && y < d.lines
    ensures o + Row(d, y) + d.cols <= |n|
    ensures var s := o + Row(d, y);
            Window(d, Spliced(n, s, RowOut(n[s..s + d.cols], x)), o) == Window(d, n, o)[y := RowOut(Window(d, n, o)[y], x)]
  {
    hide Window;
    RowMono(d, y, d.lines);
    hide Row, RowOut, Spliced;
    assert WindowRow(d, n, o, y) == n[o + Row(d, y)..o + Row(d, y) + d.cols];
    OneRow(d, n, o, y, RowOut(WindowRow(d, n, o, y), x));
  }

  lemma NothingOut(d: Dims, n: seq<int>, o: nat, y: nat, x: nat)
    requires Fits(d, n, o) && y < d.lines
    ensures x >= d.cols ==> Window(d, n, o)[y := RowOut(WindowRow(d, n, o, y), x)] == Window(d, n, o)
  {}

  // ---- the console ------------------------------------------------------------

  /** y * video_num_columns: where row y starts. */
  function Line(d: Dims, y: nat): (a: nat)
    ensures a == Row(d, y)
  {
    RowIs(d, y);
    y * d.cols
  }

  /** n * video_num_columns >> 1: how many double words n rows are. */
  function Longs(d: Dims, n: nat): (c: nat)
    requires DimsOk(d)
    ensures 2 * c == Row(d, n)
  {
    RowIs(d, n);
    RowEven(d, n);
    n * d.cols / 2
  }

  lemma FitsIs(d: Dims, m: seq<int>, o: nat)
    ensures Fits(d, m, o) <==> o + Row(d, d.lines) <= |m|
  {}

  lemma RegionRows(d: Dims, top: nat, bottom: nat)
    requires top < bottom <= d.lines
    ensures Row(d, top + 1) == Row(d, top) + d.cols && Row(d, bottom) == Row(d, bottom - 1) + d.cols <= Row(d, d.lines)
    ensures Row(d, top) + Row(d, bottom - top - 1) == Row(d, bottom - 1)
  {
    RowMono(d, top, bottom - 1);
    RowMono(d, bottom, d.lines);
  }

  class Console {
    const d: Dims
    const ega: bool             // the video type is EGAC or EGAM
    const erase: int            // ERASE_CHAR
    const mem: array<int>       // video memory
    var origin: nat
    var scrEnd: nat
    var pos: int
    var x: nat
    var y: nat
    var top: nat
    var bottom: nat
    var state: nat
    var npar: nat
    var par: seq<nat>
    var ques: bool
    var attr: int
    var savedX: nat
    var savedY: nat
    var answers: nat            // calls of respond

    /** The cursor address is that of (x, y); the window lies in video memory; the region lies in the window. */
    ghost predicate Valid()
      reads this
    {
      && DimsOk(d) && scrEnd == origin + Row(d, d.lines) <= mem.Length && pos == origin + Row(d, y) + x
      && x <= d.cols && y < d.lines && top < bottom <= d.lines
      && state < 4 && |par| == NPAR && (state == 3 ==> npar < NPAR && forall i | npar < i < NPAR :: par[i] == 0)
    }

    ghost function ParserState(): Parser
      reads this
    {
      if state == 0 then Text else if state == 1 then Escape else if state == 2 then Bracket
      else if npar < |par| then Params(par[..npar + 1]) else Text
    }

    ghost function Rows(): seq<seq<int>>
      requires Valid()
      reads this, mem
    {
      Window(d, mem[..], origin)
    }

    ghost function Snap(): Screen
      requires Valid()
      reads this, mem
    {
      Screen(Rows(), x, y, top, bottom, ParserState(), attr, savedX, savedY, answers)
    }

    /** con_init: the window starts at the start of video memory, which is memStart cells from address 0; the cursor
        is where the loader left it, and its address is right if and only if that is on the screen. Otherwise
        gotoxy leaves x, y and pos at 0. */
    constructor (dims: Dims, moves: bool, eraseChar: int, memStart: nat, size: nat, origX: nat, origY: nat)
      requires DimsOk(dims) && Row(dims, dims.lines) <= size && memStart > 0
      ensures Valid() <==> origX <= dims.cols && origY < dims.lines
      ensures fresh(mem) && d == dims && ega == moves && erase == eraseChar && mem.Length == size
      ensures origin == 0 && top == 0 && bottom == dims.lines && state == 0
      ensures Valid() ==> x == origX && y == origY
    {
      d, ega, erase := dims, moves, eraseChar;
      mem := new int[size];
      origin, scrEnd := 0, Line(dims, dims.lines);
      if origX > dims.cols || origY >= dims.lines {
        x, y := 0, 0;
        pos := -(memStart as int);
      } else {
        x, y, pos := origX, origY, Line(dims, origY) + origX;
      }
      top, bottom := 0, dims.lines;
      state, npar, par, ques, attr := 0, 0, seq(NPAR, _ => 0), false, 0x07;
      savedX, savedY, answers := 0, 0, 0;
    }

    /** rep stosw */
    method Fill(start: nat, count: nat)
      requires start + count <= mem.Length
      modifies mem
      ensures Filled(mem[..], old(mem[..]), start, start + count, BLANK)
    {
      var i := 0;
      while i < count
        invariant 0 <= i <= count && Filled(mem[..], old(mem[..]), start, start + i, BLANK)
      {
        mem[start + i] := BLANK;
        i := i + 1;
      }
    }

    /** cld; rep movsl: count double words, lowest first. */
    method CopyUp(dst: nat, src: nat, count: nat)
      requires dst <= src && src + 2 * count <= mem.Length
      modifies mem
      ensures Copied(mem[..], old(mem[..]), dst, src, 2 * count)
    {
      var i := 0;
      while i < count
        invariant 0 <= i <= count
        invariant forall k {:trigger mem[k]} | 0 <= k < mem.Length ::
                    mem[k] == if dst <= k < dst + 2 * i then old(mem[..])[k - dst + src] else old(mem[..])[k]
      {
        var lo, hi := mem[src + 2 * i], mem[src + 2 * i + 1];
        mem[dst + 2 * i] := lo;
        mem[dst + 2 * i + 1] := hi;
        i := i + 1;
      }
    }

    /** std; rep movsl: count double words, highest first. */
    method CopyDown(dst: nat, src: nat, count: nat)
      requires src <= dst && dst + 2 * count <= mem.Length
      modifies mem
      ensures Copied(mem[..], old(mem[..]), dst, src, 2 * count)
    {
      var i := count;
      while i > 0
        invariant 0 <= i <= count
        invariant forall k {:trigger mem[k]} | 0 <= k < mem.Length ::
                    mem[k] == if dst + 2 * i <= k < dst + 2 * count then old(mem[..])[k - dst + src] else old(mem[..])[k]
      {
        i := i - 1;
        var lo, hi := mem[src + 2 * i], mem[src + 2 * i + 1];
        mem[dst + 2 * i + 1] := hi;
        mem[dst + 2 * i] := lo;
      }
    }

    /** rep movsl of whole rows: rows * video_num_columns >> 1 double words, lowest first. */
    method CopyRows(dst: nat, src: nat, rows: nat)
      requires DimsOk(d) && dst <= src && src + Row(d, rows) <= mem.Length
      modifies mem
      ensures Copied(mem[..], old(mem[..]), dst, src, Row(d, rows))
    {
      hide Line, Longs, Row;
      CopyUp(dst, src, Longs(d, rows));
    }

    /** The same, highest first. */
    method CopyRowsBack(dst: nat, src: nat, rows: nat)
      requires DimsOk(d) && src <= dst && dst + Row(d, rows) <= mem.Length
      modifies mem
      ensures Copied(mem[..], old(mem[..]), dst, src, Row(d, rows))
    {
      hide Line, Longs, Row;
      CopyDown(dst, src, Longs(d, rows));
    }

    method GotoXY(newX: nat, newY: nat)
      requires Valid()
      modifies this`x, this`y, this`pos
      ensures Valid() && Snap() == Goto(d, old(Snap()), newX, newY)
    {
      if newX > d.cols || newY >= d.lines { return; }
      x, y := newX, newY;
      pos := origin + Line(d, y) + x;
    }

    /** scrup by copying. */
    method CopyScrup()
      requires Valid()
      modifies mem
      ensures Valid() && Snap() == ScrollUp(d, old(Snap()), top, bottom)
    {
      hide Up, Row, Window;
      CopyRowsUp(origin, top, bottom);
      assert Valid();
    }

    method CopyRowsUp(o: nat, t: nat, b: nat)
      requires DimsOk(d) && Fits(d, mem[..], o) && t < b <= d.lines
      modifies mem
      ensures Window(d, mem[..], o) == Up(d, Window(d, old(mem[..]), o), t, b)
    {
      RegionRows(d, t, b);
      hide Line, Up, Row, RowsOk, Window, Copied, Filled, Fits;
      ghost var n := mem[..];
      var edi, esi := o + Line(d, t), o + Line(d, t + 1);
      FitsIs(d, n, o);
      assert esi + Row(d, b - t - 1) == o + Row(d, b) <= mem.Length;
      CopyRows(edi, esi, b - t - 1);
      ghost var k := mem[..];
      edi := o + Line(d, b - 1);
      assert edi + d.cols == o + Row(d, b);
      Fill(edi, d.cols);
      assert |mem[..]| == |k| == |n|;
      CopyScrollsUp(d, n, k, mem[..], o, t, b);
    }

    method Scrup()
      requires Valid()
      modifies this`origin, this`pos, this`scrEnd, mem
      ensures Valid() && Snap() == ScrollUp(d, old(Snap()), top, bottom)
    {
      if ega && top == 0 && bottom == d.lines {
        FastScrup();
      } else {
        CopyScrup();
      }
    }

    /** scrup of the whole screen by moving origin. */
    method FastScrup()
      requires Valid() && top == 0 && bottom == d.lines
      modifies this`origin, this`pos, this`scrEnd, mem
      ensures Valid() && Snap() == ScrollUp(d, old(Snap()), top, bottom)
    {
      hide Up, Row, RowsOk;
      ghost var n, o := mem[..], origin;
      RowNext(d, d.lines - 1);
      origin := origin + d.cols;
      pos := pos + d.cols;
      scrEnd := scrEnd + d.cols;
      if scrEnd > mem.Length {
        BackToStart(origin, o);
        scrEnd := scrEnd - origin;
        pos := pos - origin;
        origin := 0;
        assert Fits(d, n, o);
      } else {
        Fill(scrEnd - d.cols, d.cols);
        MoveScrollsUp(d, n, mem[..], o);
      }
    }

    /** The copy of the window to the start of video memory. */
    method BackToStart(from: nat, ghost o: nat)
      requires DimsOk(d) && from == o + d.cols && Fits(d, mem[..], o)
      modifies mem
      ensures Fits(d, mem[..], 0) && Window(d, mem[..], 0) == Up(d, Window(d, old(mem[..]), o), 0, d.lines)
    {
      RowNext(d, d.lines - 1);
      ghost var n := mem[..];
      ghost var k := MoveRows(from);
      WrapScrollsUp(d, n, k, mem[..], o);
    }

    method MoveRows(from: nat) returns (ghost k: seq<int>)
      requires DimsOk(d) && from + Row(d, d.lines - 1) <= mem.Length && Row(d, d.lines) <= mem.Length
      modifies mem
      ensures Copied(k, old(mem[..]), 0, from, Row(d, d.lines - 1))
      ensures Filled(mem[..], k, Row(d, d.lines - 1), Row(d, d.lines), BLANK)
    {
      RowNext(d, d.lines - 1);
      hide Line, Row, Copied, Filled;
      CopyRows(0, from, d.lines - 1);
      k := mem[..];
      Fill(Line(d, d.lines - 1), d.cols);
    }

    method Scrdown()
      requires Valid()
      modifies mem
      ensures Valid() && Snap() == ScrollDown(d, old(Snap()), top, bottom)
    {
      hide Down, Row, Window;
      CopyRowsDown(origin, top, bottom);
      assert Valid();
    }

    method CopyRowsDown(o: nat, t: nat, b: nat)
      requires DimsOk(d) && Fits(d, mem[..], o) && t < b <= d.lines
      modifies mem
      ensures Window(d, mem[..], o) == Down(d, Window(d, old(mem[..]), o), t, b)
    {
      RegionRows(d, t, b);
      hide Line, Down, Row, RowsOk, Window, Copied, Filled, Fits;
      ghost var n := mem[..];
      var esi, edi := o + Line(d, t), o + Line(d, t + 1);
      FitsIs(d, n, o);
      assert edi + Row(d, b - t - 1) == o + Row(d, b) <= mem.Length;
      CopyRowsBack(edi, esi, b - t - 1);
      ghost var k := mem[..];
      Fill(esi, d.cols);
      assert |mem[..]| == |k| == |n|;
      CopyScrollsDown(d, n, k, mem[..], o, t, b);
    }

    method Lf()
      requires Valid()
      modifies this`origin, this`pos, this`scrEnd, this`y, mem
      ensures Valid() && Snap() == ConsoleSpec.Lf(d, old(Snap()))
    {
      if y + 1 < bottom {
        RowNext(d, y);
        y := y + 1;
        pos := pos + d.cols;
        return;
      }
      Scrup();
    }

    method Ri()
      requires Valid()
      modifies this`pos, this`y, mem
      ensures Valid() && Snap() == ConsoleSpec.Ri(d, old(Snap()))
    {
      if y > top {
        RowNext(d, y - 1);
        y := y - 1;
        pos := pos - d.cols;
        return;
      }
      Scrdown();
    }

    method Cr()
      requires Valid()
      modifies this`pos, this`x
      ensures Valid() && Snap() == old(Snap()).(x := 0)
    {
      pos := pos - x;
      x := 0;
    }

    /** One cell of the cursor's row is written. */
    method Poke(at: nat, v: int)
      requires Valid() && at < d.cols
      modifies mem
      ensures Valid() && Snap() == SetRow(old(Snap()), Here(old(Snap()))[at := v])
    {
      ghost var n := mem[..];
      PokeIs(d, n, origin, y, at, v);
      mem[pos - x + at] := v;
      assert mem[..] == n[origin + Row(d, y) + at := v];
      hide Row, Window, WindowRow, Fits, RowsOk;
      assert Valid();
    }

    method Del()
      requires Valid()
      modifies this`pos, this`x, mem
      ensures Valid() && Snap() == ConsoleSpec.Del(old(Snap()))
    {
      if x > 0 {
        pos := pos - 1;
        x := x - 1;
        Poke(x, BLANK);
      }
    }

    /** A cursor past the right margin goes to the next line. */
    method WrapLine(ghost s: Screen)
      requires DimsOk(d) && d.cols <= x <= 2 * d.cols && scrEnd == origin + Row(d, d.lines) <= mem.Length
      requires pos == origin + Row(d, y) + x && y < d.lines && top < bottom <= d.lines
      requires state < 4 && |par| == NPAR && (state == 3 ==> npar < NPAR && forall i | npar < i < NPAR :: par[i] == 0)
      requires s == Screen(Window(d, mem[..], origin), x, y, top, bottom, ParserState(), attr, savedX, savedY, answers)
      modifies this`origin, this`pos, this`scrEnd, this`x, this`y, mem
      ensures Valid() && Snap() == Wrapped(d, s)
    {
      x := x - d.cols;
      pos := pos - d.cols;
      Lf();
    }

    method PutHere(c: int)
      requires Valid() && x < d.cols
      modifies this`pos, this`x, mem
      ensures Valid() && Snap() == SetRow(old(Snap()), Here(old(Snap()))[old(x) := 0x100 * attr + c]).(x := old(x) + 1)
    {
      Poke(x, 0x100 * attr + c);
      hide Row, Window, RowsOk;
      pos := pos + 1;
      x := x + 1;
    }

    method PutChar(c: int)
      requires Valid()
      modifies this`origin, this`pos, this`scrEnd, this`x, this`y, mem
      ensures Valid() && Snap() == ConsoleSpec.PutChar(d, old(Snap()), c)
    {
      hide SetRow;
      if x >= d.cols { WrapLine(Snap()); }
      PutHere(c);
    }

    method Tab()
      requires Valid()
      modifies this`origin, this`pos, this`scrEnd, this`x, this`y, mem
      ensures Valid() && Snap() == ConsoleSpec.Tab(d, old(Snap()))
    {
      hide RowsOk;
      var c := 8 - x % 8;
      ghost var s := Snap().(x := x + c);
      x := x + c;
      pos := pos + c;
      if x > d.cols { WrapLine(s); }
    }

    method CsiJ(p: nat)
      requires Valid()
      modifies mem
      ensures Valid() && Snap() == EraseDisplay(d, old(Snap()), p)
    {
      RowMono(d, y, d.lines);
      var count, start: nat := 0, origin;
      if p == 0 {
        count, start := scrEnd - pos, pos;
      } else if p == 1 {
        count := pos - origin;
      } else if p == 2 {
        count := Line(d, d.lines);
      } else {
        return;
      }
      ghost var n := mem[..];
      Fill(start, count);
      if p == 0 { FillErases(d, n, mem[..], origin, y, x, d.lines, 0); }
      else if p == 1 { FillErases(d, n, mem[..], origin, 0, 0, y, x); }
      else { FillErases(d, n, mem[..], origin, 0, 0, d.lines, 0); }
    }

    method CsiK(p: nat)
      requires Valid()
      modifies mem
      ensures Valid() && Snap() == EraseLine(d, old(Snap()), p)
    {
      RowMono(d, y, d.lines);
      ghost var n := mem[..];
      if p == 0 {
        if x >= d.cols {
          FillErases(d, n, n, origin, y, x, y, d.cols);
          return;
        }
        Fill(pos, d.cols - x);
        FillErases(d, n, mem[..], origin, y, x, y, d.cols);
      } else if p == 1 {
        Fill(pos - x, if x < d.cols then x else d.cols);
        FillErases(d, n, mem[..], origin, y, 0, y, x);
      } else if p == 2 {
        Fill(pos - x, d.cols);
        FillErases(d, n, mem[..], origin, y, 0, y, d.cols);
      }
    }

    method InsertChar()
      requires Valid()
      modifies mem
      ensures Valid() && Snap() == SetRow(old(Snap()), RowIn(Here(old(Snap())), x))
    {
      hide RowIn, Window, Row;
      ChangeRowIn();
    }

    method ChangeRowIn()
      requires Valid()
      modifies mem
      ensures Valid()
      ensures Rows() == old(Rows())[y := RowIn(old(Rows())[y], x)]
    {
      hide RowsOk;
      ghost var n, s := mem[..], origin + Row(d, y);
      RowInChanges(d, n, origin, y, x);
      assert s == pos - x && s + d.cols <= mem.Length;
      hide Row, Window, RowIn, RowOut, Spliced, WindowRow, RowsOk;
      ShiftIn(s);
      assert mem[..] == Spliced(n, s, RowIn(n[s..s + d.cols], x));
      assert Valid();
    }

    /** insert_char's loop. */
    method ShiftIn(ghost s: nat)
      requires x <= d.cols && s == pos - x && s + d.cols <= mem.Length
      modifies mem
      ensures mem[..] == Spliced(old(mem[..]), s, RowIn(old(mem[..])[s..s + d.cols], x))
    {
      hide RowIn, Spliced;
      ghost var n := mem[..];
      var i, p, last := x, pos, BLANK;
      while i < d.cols
        invariant x <= i <= d.cols && p == pos + (i - x)
        invariant last == if i == x then BLANK else n[p - 1]
        invariant forall k {:trigger mem[k]} | 0 <= k < mem.Length ::
                    mem[k] == if k == pos && k < p then BLANK else if pos < k < p then n[k - 1] else n[k]
      {
        var tmp := mem[p];
        mem[p] := last;
        last := tmp;
        p := p + 1;
        i := i + 1;
      }
      InIsSpliced(mem[..], n, s, d.cols, x);
    }

    method DeleteChar()
      requires Valid()
      modifies mem
      ensures Valid() && Snap() == SetRow(old(Snap()), RowOut(Here(old(Snap())), x))
    {
      if x >= d.cols {
        NothingOut(d, mem[..], origin, y, x);
        return;
      }
      DropChar();
    }

    method DropChar()
      requires Valid() && x < d.cols
      modifies mem
      ensures Valid() && Snap() == SetRow(old(Snap()), RowOut(Here(old(Snap())), x))
    {
      hide RowOut, Window, Row;
      ChangeRowOut();
    }

    method ChangeRowOut()
      requires Valid() && x < d.cols
      modifies mem
      ensures Valid()
      ensures Rows() == old(Rows())[y := RowOut(old(Rows())[y], x)]
    {
      ghost var n, s := mem[..], origin + Row(d, y);
      RowOutChanges(d, n, origin, y, x);
      assert s == pos - x && s + d.cols <= mem.Length;
      hide Row, Window, RowIn, RowOut, Spliced, WindowRow, RowsOk;
      ShiftOut(s);
      assert mem[..] == Spliced(n, s, RowOut(n[s..s + d.cols], x));
      assert Valid();
    }

    /** delete_char's loop, and the blank at the end. */
    method ShiftOut(ghost s: nat)
      requires x < d.cols && s == pos - x && s + d.cols <= mem.Length
      modifies mem
      ensures mem[..] == Spliced(old(mem[..]), s, RowOut(old(mem[..])[s..s + d.cols], x))
    {
      hide RowOut, Spliced;
      ghost var n := mem[..];
      var i, p := x + 1, pos;
      while i < d.cols
        invariant x < i <= d.cols && p == pos + (i - x - 1)
        invariant forall k {:trigger mem[k]} | 0 <= k < mem.Length :: mem[k] == if pos <= k < p then n[k + 1] else n[k]
      {
        mem[p] := mem[p + 1];
        p := p + 1;
        i := i + 1;
      }
      mem[p] := BLANK;
      OutIsSpliced(mem[..], n, s, d.cols, x);
    }

    method InsertLine()
      requires Valid()
      modifies this`top, this`bottom, mem
      ensures Valid() && Snap() == ScrollDown(d, old(Snap()), y, d.lines)
    {
      var oldtop, oldbottom := top, bottom;
      top, bottom := y, d.lines;
      Scrdown();
      top, bottom := oldtop, oldbottom;
    }

    method DeleteLine()
      requires Valid()
      modifies this`top, this`bottom, this`origin, this`pos, this`scrEnd, mem
      ensures Valid() && Snap() == ScrollUp(d, old(Snap()), y, d.lines)
    {
      var oldtop, oldbottom := top, bottom;
      top, bottom := y, d.lines;
      Scrup();
      top, bottom := oldtop, oldbottom;
    }
  
    method CsiAt(n: nat)
      requires Valid()
      modifies mem
      ensures Valid() && Snap() == InsertChars(old(Snap()), Times(n, d.cols))
    {
      var nr := Times(n, d.cols);
      hide Times, Row, RowIn, RowOut, SetRow, Here, Window, RowsOk, InsertChars;
      ghost var s := Snap();
      ghost var goal := InsertChars(s, nr);
      while nr > 0
        invariant Valid()
        invariant Snap() == s && InsertChars(s, nr) == goal
      {
        InsertCharsStep(s, nr);
        nr := nr - 1;
        InsertChar();
        assert Valid();
        s := SetRow(s, RowIn(Here(s), s.x));
      }
      InsertCharsStep(s, 0);
    }

    method CsiP(n: nat)
      requires Valid()
      modifies mem
      ensures Valid() && Snap() == DeleteChars(old(Snap()), Times(n, d.cols))
    {
      var nr := Times(n, d.cols);
      hide Times, Row, RowIn, RowOut, SetRow, Here, Window, RowsOk, DeleteChars;
      ghost var s := Snap();
      ghost var goal := DeleteChars(s, nr);
      while nr > 0
        invariant Valid()
        invariant Snap() == s && DeleteChars(s, nr) == goal
      {
        DeleteCharsStep(s, nr);
        nr := nr - 1;
        DeleteChar();
        assert Valid();
        s := SetRow(s, RowOut(Here(s), s.x));
      }
      DeleteCharsStep(s, 0);
    }

    method CsiL(n: nat)
      requires Valid()
      modifies this`top, this`bottom, mem
      ensures Valid() && Snap() == InsertLines(d, old(Snap()), Times(n, d.lines))
    {
      var nr: nat := if n > d.lines then d.lines else if n == 0 then 1 else n;
      ghost var goal := InsertLines(d, Snap(), nr);
      while nr > 0
        invariant Valid() && InsertLines(d, Snap(), nr) == goal
      {
        nr := nr - 1;
        InsertLine();
        assert Valid();
      }
    }

    method CsiM(n: nat)
      requires Valid()
      modifies this`top, this`bottom, this`origin, this`pos, this`scrEnd, mem
      ensures Valid() && Snap() == DeleteLines(d, old(Snap()), Times(n, d.lines))
    {
      var nr: nat := if n > d.lines then d.lines else if n == 0 then 1 else n;
      ghost var goal := DeleteLines(d, Snap(), nr);
      while nr > 0
        invariant Valid() && DeleteLines(d, Snap(), nr) == goal
      {
        nr := nr - 1;
        DeleteLine();
        assert Valid();
      }
    }

    /** csi_m */
    method SetAttr(ps: seq<nat>)
      requires Valid()
      modifies this`attr
      ensures Valid() && Snap() == old(Snap()).(attr := Attr(ps, old(attr)))
    {
      var i := 0;
      while i < |ps|
        invariant 0 <= i <= |ps| && attr == Attr(ps[..i], old(attr))
      {
        if ps[i] == 0 || ps[i] == 27 { attr := 0x07; }
        else if ps[i] == 1 || ps[i] == 4 { attr := 0x0F; }
        else if ps[i] == 7 { attr := 0x70; }
        assert ps[..i + 1][..i] == ps[..i];
        i := i + 1;
      }
      assert ps[..|ps|] == ps;
    }

    /** The switch of state 4, whose parameters are par[0..npar]. */
    method DoFinal(c: int, ps: seq<nat>)
      requires Valid() && state == 0
      modifies this`origin, this`pos, this`scrEnd, this`x, this`y, this`top, this`bottom, this`attr, this`savedX, this`savedY, mem
      ensures Valid() && Snap() == Final(d, old(Snap()), ps, c)
    {
      hide Goto;
      hide Row, Window, EraseDisplay, EraseLine, InsertLines, DeleteLines, InsertChars, DeleteChars, Attr;
      var p, q := Par(ps, 0), Par(ps, 1);
      if c == 'G' as int || c == '`' as int {
        if p > 0 { p := p - 1; }
        GotoXY(p, y);
      } else if c == 'A' as int {
        if p == 0 { p := 1; }
        GotoXY(x, U32(y - p));
      } else if c == 'B' as int || c == 'e' as int {
        if p == 0 { p := 1; }
        GotoXY(x, U32(y + p));
      } else if c == 'C' as int || c == 'a' as int {
        if p == 0 { p := 1; }
        GotoXY(U32(x + p), y);
      } else if c == 'D' as int {
        if p == 0 { p := 1; }
        GotoXY(U32(x - p), y);
      } else if c == 'E' as int {
        if p == 0 { p := 1; }
        GotoXY(0, U32(y + p));
      } else if c == 'F' as int {
        if p == 0 { p := 1; }
        GotoXY(0, U32(y - p));
      } else if c == 'd' as int {
        if p > 0 { p := p - 1; }
        GotoXY(x, p);
      } else if c == 'H' as int || c == 'f' as int {
        if p > 0 { p := p - 1; }
        if q > 0 { q := q - 1; }
        GotoXY(q, p);
      } else {
        DoEdit(c, ps);
      }
    }

    /** The rest of it. */
    method DoEdit(c: int, ps: seq<nat>)
      requires Valid() && state == 0 && !IsMove(c)
      modifies this`origin, this`pos, this`scrEnd, this`x, this`y, this`top, this`bottom, this`attr, this`savedX, this`savedY, mem
      ensures Valid() && Snap() == Final(d, old(Snap()), ps, c)
    {
      hide RowsOk;
      var p, q := Par(ps, 0), Par(ps, 1);
      if c == 'J' as int { CsiJ(p); }
      else if c == 'K' as int { CsiK(p); }
      else if c == 'L' as int { CsiL(p); }
      else if c == 'M' as int { CsiM(p); }
      else if c == 'P' as int { CsiP(p); }
      else if c == '@' as int { CsiAt(p); }
      else if c == 'm' as int { SetAttr(ps); }
      else if c == 'r' as int {
        if p > 0 { p := p - 1; }
        if q == 0 { q := d.lines; }
        if p < q && q <= d.lines { top, bottom := p, q; }
      } else if c == 's' as int { savedX, savedY := x, y; }
      else if c == 'u' as int { GotoXY(savedX, savedY); }
    }

    /** State 0. */
    method DoPlain(c: int)
      requires Valid() && state == 0
      modifies this`origin, this`pos, this`scrEnd, this`x, this`y, this`state, mem
      ensures Valid() && Snap() == Plain(d, old(Snap()), erase, c)
    {
      if 31 < c < 127 { PutChar(c); }
      else if c == 27 { state := 1; }
      else if c == 10 || c == 11 || c == 12 { Lf(); }
      else if c == 13 { Cr(); }
      else if c == erase { Del(); }
      else if c == 8 {
        if x > 0 { x, pos := x - 1, pos - 1; }
      } else if c == 9 { Tab(); }
    }

    /** State 1. */
    method DoEscape(c: int)
      requires Valid() && state == 1
      modifies this`origin, this`pos, this`scrEnd, this`x, this`y, this`state, this`savedX, this`savedY, this`answers, mem
      ensures Valid() && Snap() == AfterEscape(d, old(Snap()), c)
    {
      hide RowsOk;
      state := 0;
      if c == '[' as int { state := 2; }
      else if c == 'E' as int { GotoXY(0, y + 1); }
      else if c == 'M' as int { Ri(); }
      else if c == 'D' as int { Lf(); }
      else if c == 'Z' as int { answers := answers + 1; }
      else if x == '7' as int { savedX, savedY := x, y; }
      else if x == '8' as int { GotoXY(savedX, savedY); }
    }

    /** State 3, and on into state 4. */
    method DoParam(c: int)
      requires Valid() && state == 3
      modifies this
      modifies mem
      ensures Valid() && Snap() == Param(d, old(Snap()), old(par[..npar + 1]), c)
    {
      hide Final;
      if c == ';' as int && npar < NPAR - 1 {
        assert par[..npar + 2] == par[..npar + 1] + [0];
        npar := npar + 1;
      } else if '0' as int <= c <= '9' as int {
        ghost var ps := par[..npar + 1];
        par := par[npar := U32(10 * par[npar] + c - '0' as int)];
        assert par[..npar + 1] == ps[npar := par[npar]];
      } else {
        state := 0;
        DoFinal(c, par[..npar + 1]);
      }
    }

    /** con_write, for one byte taken from write_q. */
    method Write(c: int)
      requires Valid()
      modifies this, mem
      ensures Valid() && Snap() == Byte(d, old(Snap()), erase, c)
    {
      if state == 0 { DoPlain(c); }
      else if state == 1 { DoEscape(c); }
      else if state == 2 {
        DoBracket(c);
      } else { DoParam(c); }
    }

    /** State 2, and on into state 3. */
    method DoBracket(c: int)
      requires Valid() && state == 2
      modifies this, mem
      ensures Valid() && Snap() == Byte(d, old(Snap()), erase, c)
    {
      hide Row, Window, Final;
      npar := 0;
      while npar < NPAR
        modifies this`par, this`npar
        invariant 0 <= npar <= NPAR == |par| && forall i | 0 <= i < npar :: par[i] == 0
      {
        par := par[npar := 0];
        npar := npar + 1;
      }
      npar := 0;
      state := 3;
      ques := c == '?' as int;
      assert par[..1] == [0];
      assert mem[..] == old(mem[..]);
      assert Snap() == old(Snap()).(parser := Params([0]));
      ParamForgets(d, old(Snap()), Params([0]), [0], c);
      if !ques { DoParam(c); }
    }

    /** con_write: everything in write_q. */
    method ConWrite(cs: seq<int>)
      requires Valid()
      modifies this, mem
      ensures Valid() && Snap() == Bytes(d, old(Snap()), erase, cs)
    {
      var n := 0;
      while n < |cs|
        invariant n <= |cs| && Valid() && Snap() == Bytes(d, old(Snap()), erase, cs[..n])
      {
        Write(cs[n]);
        assert cs[..n + 1][..n] == cs[..n];
        n := n + 1;
      }
      assert cs[..|cs|] == cs;
    }
  }

  /** Param sets the parser whatever it was. */
  lemma ParamForgets(d: Dims, s: Screen, p: Parser, ps: seq<nat>, c: int)
    ensures Param(d, s.(parser := p), ps, c) == Param(d, s, ps, c)
  {
    assert s.(parser := p).(parser := Text) == s.(parser := Text);
  }

  lemma InsertCharsStep(s: Screen, n: nat)
    ensures InsertChars(s, n) == if n == 0 then s else InsertChars(SetRow(s, RowIn(Here(s), s.x)), n - 1)
  {}

  lemma DeleteCharsStep(s: Screen, n: nat)
    ensures DeleteChars(s, n) == if n == 0 then s else DeleteChars(SetRow(s, RowOut(Here(s), s.x)), n - 1)
  {}

  predicate IsMove(c: int) {
    || c == 'G' as int || c == '`' as int || c == 'A' as int || c == 'B' as int || c == 'e' as int || c == 'C' as int
    || c == 'a' as int || c == 'D' as int || c == 'E' as int || c == 'F' as int || c == 'd' as int || c == 'H' as int || c == 'f' as int
  }

  /** Whatever is written, a console that scrolls by moving the window shows what one that copies shows. */
  method FastShowsThePlain(fast: Console, plain: Console, cs: seq<int>)
    requires fast.Valid() && plain.Valid() && fast != plain && fast.mem != plain.mem && fast.d == plain.d && fast.erase == plain.erase
    requires fast.ega && !plain.ega && fast.Snap() == plain.Snap()
    modifies fast, fast.mem, plain, plain.mem
    ensures fast.Valid() && plain.Valid() && fast.Snap() == plain.Snap() && fast.Rows() == plain.Rows()
  {
    fast.ConWrite(cs);
    plain.ConWrite(cs);
  }
}
