module Console {
  // The console (kernel/chr_drv/console.c): video memory, the sliding window of the
  // EGA/VGA adapters, and the escape sequences, against a plain grid of cells.
  //
  // Addresses count cells (two bytes) from video_mem_start, so video_size_row is
  // `columns`. A cell is attribute * 256 + character.

  const ERASE := 0x0720           // video_erase_char
  const NPAR := 16
  const U32 := 0x1_0000_0000

  // ---------- The grid ----------

  // Cells [from, to) move k places towards the front; blanks follow.
  function ShiftLeft(g: seq<int>, from: int, to: int, k: int): (r: seq<int>)
    requires k >= 0
    decreases if to > from then to - from else 0
    ensures |r| == |g|
  {
    if from >= to || !(0 <= from && to <= |g|) then g
    else ShiftLeft(g, from + 1, to, k)[from := if from + k < to then g[from + k] else ERASE]
  }

  // The same towards the end.
  function ShiftRight(g: seq<int>, from: int, to: int, k: int): (r: seq<int>)
    requires k >= 0
    ensures |r| == |g|
  {
    ShiftedRight(g, from, to, k, to)
  }

  // The cells before `end` are done.
  function ShiftedRight(g: seq<int>, from: int, to: int, k: int, end: int): (r: seq<int>)
    requires k >= 0
    ensures |r| == |g|
    decreases end - from
  {
    if from >= end || !(0 <= from && end <= to <= |g|) then g
    else ShiftedRight(g, from, to, k, end - 1)[end - 1 := if end - 1 - k >= from then g[end - 1 - k] else ERASE]
  }

  lemma {:induction false} ShiftLeftAt(g: seq<int>, from: int, to: int, k: int)
    requires 0 <= from && to <= |g| && k >= 0
    decreases if to > from then to - from else 0
    ensures forall i {:trigger ShiftLeft(g, from, to, k)[i]} :: 0 <= i < |g| ==>
              ShiftLeft(g, from, to, k)[i] ==
                (if !(from <= i < to) then g[i] else if i + k < to then g[i + k] else ERASE)
  {
    if from < to { ShiftLeftAt(g, from + 1, to, k); }
  }

  lemma {:induction false} ShiftRightAt(g: seq<int>, from: int, to: int, k: int, end: int)
    requires 0 <= from && end <= to <= |g| && k >= 0
    ensures forall i {:trigger ShiftedRight(g, from, to, k, end)[i]} :: 0 <= i < |g| ==>
              ShiftedRight(g, from, to, k, end)[i] ==
                (if !(from <= i < end) then g[i] else if i - k >= from then g[i - k] else ERASE)
    decreases end - from
  {
    if from < end { ShiftRightAt(g, from, to, k, end - 1); }
  }

  function Fill(g: seq<int>, from: int, to: int): (r: seq<int>)
    ensures |r| == |g|
  {
    seq(|g|, i requires 0 <= i < |g| => if from <= i < to then ERASE else g[i])
  }

  lemma ShiftLeftTwice(g: seq<int>, from: int, to: int, a: int, b: int)
    requires 0 <= from && to <= |g| && a >= 0 && b >= 0
    ensures ShiftLeft(ShiftLeft(g, from, to, a), from, to, b) == ShiftLeft(g, from, to, a + b)
  {
    ShiftLeftAt(g, from, to, a);
    ShiftLeftAt(ShiftLeft(g, from, to, a), from, to, b);
    ShiftLeftAt(g, from, to, a + b);
  }

  lemma ShiftRightTwice(g: seq<int>, from: int, to: int, a: int, b: int)
    requires 0 <= from && to <= |g| && a >= 0 && b >= 0
    ensures ShiftRight(ShiftRight(g, from, to, a), from, to, b) == ShiftRight(g, from, to, a + b)
  {
    ShiftRightAt(g, from, to, a, to);
    ShiftRightAt(ShiftRight(g, from, to, a), from, to, b, to);
    ShiftRightAt(g, from, to, a + b, to);
  }

  lemma ShiftByNothing(g: seq<int>, from: int, to: int)
    requires 0 <= from && to <= |g|
    ensures ShiftLeft(g, from, to, 0) == g == ShiftRight(g, from, to, 0)
  {
    ShiftLeftAt(g, from, to, 0);
    ShiftRightAt(g, from, to, 0, to);
  }

  // One round of the loop of insert_char: the cell carried along is dropped here.
  lemma InsertStep(g: seq<int>, from: int, to: int)
    requires 0 <= from <= to < |g|
    ensures ShiftRight(g, from, to, 1)[to := if to == from then ERASE else g[to - 1]] == ShiftRight(g, from, to + 1, 1)
  {
    ShiftRightAt(g, from, to, 1, to);
    ShiftRightAt(g, from, to + 1, 1, to + 1);
  }

  // The loop of delete_char and the blank after it.
  lemma DeleteStep(g: seq<int>, from: int, to: int)
    requires 0 <= from < to <= |g|
    ensures Copied(g, from, to - from - 1, 1)[to - 1 := ERASE] == ShiftLeft(g, from, to, 1)
  {
    CopiedAt(g, from, to - from - 1, 1);
    ShiftLeftAt(g, from, to, 1);
  }

  // Moving by at least the whole range leaves blanks.
  lemma ShiftAllIsFill(g: seq<int>, from: int, to: int, k: int)
    requires 0 <= from && to <= |g| && k >= to - from && k >= 0
    ensures ShiftLeft(g, from, to, k) == Fill(g, from, to) == ShiftRight(g, from, to, k)
  {
    ShiftLeftAt(g, from, to, k);
    ShiftRightAt(g, from, to, k, to);
  }

  // Making room and closing it again loses only what fell off the end.
  lemma DeleteUndoesInsert(g: seq<int>, from: int, to: int, k: int)
    requires 0 <= from <= to <= |g| && 0 <= k <= to - from
    ensures ShiftLeft(ShiftRight(g, from, to, k), from, to, k) == Fill(g, to - k, to)
  {
    ShiftRightAt(g, from, to, k, to);
    ShiftLeftAt(ShiftRight(g, from, to, k), from, to, k);
  }

  // n cells from `from` on are overwritten, in this order, by the cells k places on.
  function Copied(g: seq<int>, from: int, n: int, k: int): (r: seq<int>)
    requires 0 <= from && 0 <= n && 0 < k && from + n + k <= |g|
    ensures |r| == |g|
  {
    if n == 0 then g else
      var c := Copied(g, from, n - 1, k);
      c[from + n - 1 := c[from + n - 1 + k]]
  }

  lemma {:induction false} CopiedAt(g: seq<int>, from: int, n: int, k: int)
    requires 0 <= from && 0 <= n && 0 < k && from + n + k <= |g|
    ensures forall i {:trigger Copied(g, from, n, k)[i]} :: 0 <= i < |g| ==>
              Copied(g, from, n, k)[i] == if from <= i < from + n then g[i + k] else g[i]
  {
    if n > 0 { CopiedAt(g, from, n - 1, k); }
  }

  // rep movsl over n cells and rep stosw over one row, as in the scrolling code: n / 2
  // pairs are moved, and the row behind them is erased.
  function Scrolled(g: seq<int>, from: int, n: int, k: int, columns: int): (r: seq<int>)
    requires 0 <= from && 0 <= n && 0 < k && from + n + k <= |g|
    ensures |r| == |g|
  {
    Fill(Copied(g, from, n / 2 * 2, k), from + n / 2 * 2, from + n / 2 * 2 + columns)
  }

  // The copying scroll is exact unless an odd number of cells has to be moved and the last
  // cell of the region is not blank. With an even number of columns that never happens.
  lemma ScrollIsExact(g: seq<int>, from: int, n: int, columns: int)
    requires 0 <= from && 0 <= n && 0 < columns && from + n + columns <= |g|
    ensures Scrolled(g, from, n, columns, columns) == ShiftLeft(g, from, from + n + columns, columns) <==>
              n % 2 == 0 || g[from + n + columns - 1] == ERASE
  {
    var to := from + n + columns;
    var a, b := Scrolled(g, from, n, columns, columns), ShiftLeft(g, from, to, columns);
    CopiedAt(g, from, n / 2 * 2, columns);
    ShiftLeftAt(g, from, to, columns);
    if n % 2 == 1 {
      assert a[to - 1] == g[to - 1] && b[to - 1] == ERASE;
      if g[to - 1] == ERASE {
        assert a[from + n - 1] == ERASE == g[to - 1] == b[from + n - 1];
        assert forall i :: 0 <= i < |g| ==> a[i] == b[i];
      }
    } else {
      assert forall i :: 0 <= i < |g| ==> a[i] == b[i];
    }
  }

  // Three columns and one row to move: the pair of movsl leaves the last 'X' in place.
  lemma ScrollFailsExample()
    ensures var g := [ERASE, ERASE, ERASE, ERASE, ERASE, 0x0758];
            Scrolled(g, 0, 3, 3, 3)[5] == 0x0758 && ShiftLeft(g, 0, 6, 3)[5] == ERASE
  {
    var g := [ERASE, ERASE, ERASE, ERASE, ERASE, 0x0758];
    CopiedAt(g, 0, 2, 3);
    ShiftLeftAt(g, 0, 6, 3);
  }

  // The n cells in front of `to`, the last one first, by the cells k places before.
  function CopiedDown(g: seq<int>, to: int, n: int, k: int): (r: seq<int>)
    requires to <= |g| && 0 <= n && 0 < k && 0 <= to - n - k
    ensures |r| == |g|
  {
    if n == 0 then g else
      var c := CopiedDown(g, to, n - 1, k);
      c[to - n := c[to - n - k]]
  }

  lemma {:induction false} CopiedDownAt(g: seq<int>, to: int, n: int, k: int)
    requires to <= |g| && 0 <= n && 0 < k && 0 <= to - n - k
    ensures forall i {:trigger CopiedDown(g, to, n, k)[i]} :: 0 <= i < |g| ==>
              CopiedDown(g, to, n, k)[i] == if to - n <= i < to then g[i - k] else g[i]
  {
    if n > 0 { CopiedDownAt(g, to, n - 1, k); }
  }

  // The same from the end of the region, with the direction flag set.
  function ScrolledDown(g: seq<int>, to: int, n: int, columns: int): (r: seq<int>)
    requires to <= |g| && 0 <= n && 0 < columns && 0 <= to - n - columns
    ensures |r| == |g|
  {
    Fill(CopiedDown(g, to, n / 2 * 2, columns), to - n / 2 * 2 - columns, to - n / 2 * 2)
  }

  lemma ScrollDownIsExact(g: seq<int>, from: int, n: int, columns: int)
    requires 0 <= from && 0 <= n && 0 < columns && from + n + columns <= |g|
    ensures ScrolledDown(g, from + n + columns, n, columns) == ShiftRight(g, from, from + n + columns, columns) <==>
              n % 2 == 0 || g[from] == ERASE
  {
    var to := from + n + columns;
    var a, b := ScrolledDown(g, to, n, columns), ShiftRight(g, from, to, columns);
    CopiedDownAt(g, to, n / 2 * 2, columns);
    ShiftRightAt(g, from, to, columns, to);
    if n % 2 == 1 {
      assert a[from] == g[from] && b[from] == ERASE;
      if g[from] == ERASE {
        assert a[from + columns] == ERASE == g[from] == b[from + columns];
        assert forall i :: 0 <= i < |g| ==> a[i] == b[i];
      }
    } else {
      assert forall i :: 0 <= i < |g| ==> a[i] == b[i];
    }
  }

  lemma ScrollDownFailsExample()
    ensures var g := [0x0758, ERASE, ERASE, ERASE, ERASE, ERASE];
            ScrolledDown(g, 6, 3, 3)[0] == 0x0758 && ShiftRight(g, 0, 6, 3)[0] == ERASE
  {
    var g := [0x0758, ERASE, ERASE, ERASE, ERASE, ERASE];
    CopiedDownAt(g, 6, 2, 3);
    ShiftRightAt(g, 0, 6, 3, 6);
  }

  // ---------- The window in video memory ----------

  lemma WindowShiftLeft(m: seq<int>, o: int, e: int, from: int, to: int, k: int)
    requires 0 <= o <= e <= |m| && 0 <= from && to <= e - o && 0 <= k
    ensures ShiftLeft(m, o + from, o + to, k)[o..e] == ShiftLeft(m[o..e], from, to, k)
  {
    var w, a := m[o..e], ShiftLeft(m, o + from, o + to, k);
    ShiftLeftAt(m, o + from, o + to, k);
    ShiftLeftAt(w, from, to, k);
    forall i | 0 <= i < e - o ensures a[o..e][i] == ShiftLeft(w, from, to, k)[i] {
      assert a[o..e][i] == a[o + i] && w[i] == m[o + i];
      if from <= i < to && i + k < to { assert w[i + k] == m[o + i + k]; }
    }
  }

  lemma WindowShiftRight(m: seq<int>, o: int, e: int, from: int, to: int, k: int)
    requires 0 <= o <= e <= |m| && 0 <= from && to <= e - o && 0 <= k
    ensures ShiftRight(m, o + from, o + to, k)[o..e] == ShiftRight(m[o..e], from, to, k)
  {
    var w, b := m[o..e], ShiftRight(m, o + from, o + to, k);
    ShiftRightAt(m, o + from, o + to, k, o + to);
    ShiftRightAt(w, from, to, k, to);
    forall i | 0 <= i < e - o ensures b[o..e][i] == ShiftRight(w, from, to, k)[i] {
      assert b[o..e][i] == b[o + i] && w[i] == m[o + i];
      if from <= i < to && i - k >= from { assert w[i - k] == m[o + i - k]; }
    }
  }

  lemma WindowScrolledUp(m: seq<int>, o: int, e: int, from: int, n: int, columns: int)
    requires 0 <= o <= e <= |m| && 0 <= from && 0 <= n && 0 < columns && from + n + columns <= e - o && n % 2 == 0
    ensures Scrolled(m, o + from, n, columns, columns)[o..e] == ShiftLeft(m[o..e], from, from + n + columns, columns)
  {
    ScrollIsExact(m, o + from, n, columns);
    WindowShiftLeft(m, o, e, from, from + n + columns, columns);
  }

  lemma WindowScrolledDown(m: seq<int>, o: int, e: int, from: int, n: int, columns: int)
    requires 0 <= o <= e <= |m| && 0 <= from && 0 <= n && 0 < columns && from + n + columns <= e - o && n % 2 == 0
    ensures ScrolledDown(m, o + from + n + columns, n, columns)[o..e] ==
            ShiftRight(m[o..e], from, from + n + columns, columns)
  {
    ScrollDownIsExact(m, o + from, n, columns);
    WindowShiftRight(m, o, e, from, from + n + columns, columns);
  }

  // Moving the window instead of the cells.
  lemma WindowSlides(m: seq<int>, o: int, e: int, columns: int)
    requires 0 <= o <= e && 0 < columns <= e - o && e + columns <= |m|
    ensures Fill(m, e, e + columns)[o + columns..e + columns] == ShiftLeft(m[o..e], 0, e - o, columns)
  {
    ShiftLeftAt(m[o..e], 0, e - o, columns);
  }

  // Cell i of the window after starting again, and of the scrolled grid.
  lemma WrapAt(m: seq<int>, o: int, e: int, columns: int, i: int)
    requires 0 <= o <= e <= |m| && 0 < columns <= e - o && 0 <= i < e - o
    ensures var moved := (e - o - columns) / 2 * 2;
            Scrolled(m, 0, e - o - columns, o + columns, columns)[i] ==
              if i < moved then m[o + columns + i] else if i < moved + columns then ERASE else m[i]
    ensures ShiftLeft(m[o..e], 0, e - o, columns)[i] == if i + columns < e - o then m[o + columns + i] else ERASE
  {
    CopiedAt(m, 0, (e - o - columns) / 2 * 2, o + columns);
    ShiftLeftAt(m[o..e], 0, e - o, columns);
  }

  // Starting again at the beginning of the memory shows the scrolled grid, unless an odd
  // number of cells has to be moved, and either the last of them is not blank or the cell
  // behind the erased row holds something old.
  lemma WindowWraps(m: seq<int>, o: int, e: int, columns: int)
    requires 0 <= o <= e <= |m| && 0 < columns <= e - o
    ensures Scrolled(m, 0, e - o - columns, o + columns, columns)[0..e - o] ==
            ShiftLeft(m[o..e], 0, e - o, columns) <==>
              (e - o - columns) % 2 == 0 || (m[e - 1] == ERASE && m[e - o - 1] == ERASE)
  {
    var n := e - o - columns;
    var a, b := Scrolled(m, 0, n, o + columns, columns)[0..e - o], ShiftLeft(m[o..e], 0, e - o, columns);
    if n % 2 == 0 || (m[e - 1] == ERASE && m[e - o - 1] == ERASE) {
      forall i | 0 <= i < e - o ensures a[i] == b[i] { WrapAt(m, o, e, columns, i); }
    } else {
      WrapAt(m, o, e, columns, n - 1);
      WrapAt(m, o, e, columns, e - o - 1);
      assert a[n - 1] != b[n - 1] || a[e - o - 1] != b[e - o - 1];
    }
  }

  // Two rows of three columns behind another row: the copied pair leaves the '^' of the old
  // first row in the window.
  lemma WrapFailsExample()
    ensures var m := [ERASE, ERASE, ERASE, ERASE, ERASE, 0x075e, ERASE, ERASE, ERASE];
            Scrolled(m, 0, 3, 6, 3)[0..6] != ShiftLeft(m[3..9], 0, 6, 3)
  {
    var m := [ERASE, ERASE, ERASE, ERASE, ERASE, 0x075e, ERASE, ERASE, ERASE];
    WindowWraps(m, 3, 9, 3);
  }

  // ---------- The screen ----------

  // n times c, added up: the size of n rows.
  function Mul(n: int, c: int): int { if n <= 0 then 0 else Mul(n - 1, c) + c }

  lemma {:induction false} MulIsProduct(n: nat, c: int)
    ensures Mul(n, c) == n * c
  {
    if n > 0 { MulIsProduct(n - 1, c); }
  }

  lemma MulStep(n: nat, c: int)
    ensures Mul(n + 1, c) == Mul(n, c) + c && Mul(0, c) == 0
  {
  }

  lemma {:induction false} MulAdd(a: nat, b: nat, c: int)
    ensures Mul(a + b, c) == Mul(a, c) + Mul(b, c)
    decreases b
  {
    if b > 0 { MulAdd(a, b - 1, c); }
  }

  lemma {:induction false} MulSize(n: nat, c: int)
    requires c >= 0
    ensures Mul(n, c) >= 0 && (c % 2 == 0 ==> Mul(n, c) % 2 == 0)
  {
    if n > 0 { MulSize(n - 1, c); }
  }

  // The state of con_write's parser.
  datatype Parser = Parser(state: int, npar: int, par: seq<int>, ques: bool)

  datatype Screen = Screen(
    columns: int, lines: int, cells: seq<int>, x: int, y: int, top: int, bottom: int,
    attr: int, savedX: int, savedY: int, esc: Parser)
  {
    // Index of the first cell of a line.
    function Row(l: int): int { Mul(l, columns) }

    function At(): int { Row(y) + x }
  }

  ghost predicate Ok(s: Screen) {
    s.columns >= 8 && s.columns % 2 == 0 && s.lines >= 1 && |s.cells| == Mul(s.lines, s.columns) &&
    0 <= s.x <= s.columns && 0 <= s.y < s.lines && 0 <= s.top < s.bottom <= s.lines &&
    s.columns + s.lines < U32 / 2 &&
    0 <= s.esc.state <= 3 && 0 <= s.esc.npar < NPAR && |s.esc.par| == NPAR &&
    forall i :: 0 <= i < NPAR ==> 0 <= s.esc.par[i] < U32
  }

  lemma Rows(s: Screen, a: int, b: int)
    requires s.columns >= 1 && 0 <= a < b <= s.lines
    ensures 0 <= s.Row(a) && s.Row(a) + s.columns == s.Row(a + 1) <= s.Row(b) <= s.Row(s.lines)
  {
    MulAdd(a + 1, b - a - 1, s.columns);
    MulAdd(b, s.lines - b, s.columns);
    MulSize(a, s.columns);
    MulSize(b - a - 1, s.columns);
    MulSize(s.lines - b, s.columns);
  }

  // gotoxy on unsigned ints
  function Goto(s: Screen, x: int, y: int): Screen {
    if x % U32 > s.columns || y % U32 >= s.lines then s else s.(x := x % U32, y := y % U32)
  }

  function ScrollUp(s: Screen): Screen {
    if s.columns < 0 then s else s.(cells := ShiftLeft(s.cells, s.Row(s.top), s.Row(s.bottom), s.columns))
  }

  function ScrollDown(s: Screen): Screen {
    if s.columns < 0 then s else s.(cells := ShiftRight(s.cells, s.Row(s.top), s.Row(s.bottom), s.columns))
  }

  function Lf(s: Screen): Screen { if s.y + 1 < s.bottom then s.(y := s.y + 1) else ScrollUp(s) }

  function Ri(s: Screen): Screen { if s.y > s.top then s.(y := s.y - 1) else ScrollDown(s) }

  // Past the last column the cursor goes to the next line.
  function Wrapped(s: Screen): Screen { Lf(s.(x := s.x - s.columns)) }

  function Put(s: Screen, c: int): Screen {
    var s1 := if s.x >= s.columns then Wrapped(s) else s;
    if 0 <= s1.At() < |s1.cells| then s1.(cells := s1.cells[s1.At() := s1.attr * 256 + c], x := s1.x + 1) else s1
  }

  function Tab(s: Screen): Screen {
    var s1 := s.(x := s.x + 8 - s.x % 8);
    if s1.x > s.columns then Wrapped(s1) else s1
  }

  function Del(s: Screen): Screen {
    if s.x == 0 then s
    else var s1 := s.(x := s.x - 1); s1.(cells := Fill(s.cells, s1.At(), s1.At() + 1))
  }

  // How many characters or lines a control sequence asks for: 0 means 1.
  function Times(n: int): (r: int)
    ensures n >= 0 ==> r >= 1
  {
    if n == 0 then 1 else n
  }

  // Erase in display and in line; the cursor's own cell is kept by parameter 1.
  function EraseDisplay(s: Screen, p: int): Screen {
    if p == 0 then s.(cells := Fill(s.cells, s.At(), |s.cells|))
    else if p == 1 then s.(cells := Fill(s.cells, 0, s.At()))
    else if p == 2 then s.(cells := Fill(s.cells, 0, |s.cells|)) else s
  }

  function EraseLine(s: Screen, p: int): Screen {
    if p == 0 then s.(cells := Fill(s.cells, s.At(), s.Row(s.y + 1)))
    else if p == 1 then s.(cells := Fill(s.cells, s.Row(s.y), s.At()))
    else if p == 2 then s.(cells := Fill(s.cells, s.Row(s.y), s.Row(s.y + 1))) else s
  }

  // ICH, DCH, IL and DL: n blanks at the cursor, n cells or lines gone.
  function InsertChars(s: Screen, n: nat): Screen { s.(cells := ShiftRight(s.cells, s.At(), s.Row(s.y + 1), n)) }

  function DeleteChars(s: Screen, n: nat): Screen { s.(cells := ShiftLeft(s.cells, s.At(), s.Row(s.y + 1), n)) }

  function InsertLines(s: Screen, n: nat): Screen
    requires s.columns >= 0
  {
    MulSize(n, s.columns);
    s.(cells := ShiftRight(s.cells, s.Row(s.y), |s.cells|, Mul(n, s.columns)))
  }

  function DeleteLines(s: Screen, n: nat): Screen
    requires s.columns >= 0
  {
    MulSize(n, s.columns);
    s.(cells := ShiftLeft(s.cells, s.Row(s.y), |s.cells|, Mul(n, s.columns)))
  }

  // ---------- Bytes ----------

  function Save(s: Screen): Screen { s.(savedX := s.x, savedY := s.y) }

  function SetState(s: Screen, state: int): Screen { s.(esc := s.esc.(state := state)) }

  // c is a signed char.
  function Plain(s: Screen, c: int, eraseChar: int): Screen {
    if 31 < c < 127 then Put(s, c)
    else if c == 27 then SetState(s, 1)
    else if c == 10 || c == 11 || c == 12 then Lf(s)
    else if c == 13 then s.(x := 0)
    else if c == eraseChar then Del(s)
    else if c == 8 then if s.x > 0 then s.(x := s.x - 1) else s
    else if c == 9 then Tab(s)
    else s
  }

  // ESC c; the answer to ESC Z goes to the terminal's read queue, not to the screen.
  function Escape(s: Screen, c: int): Screen {
    var s1 := SetState(s, 0);
    if c == '[' as int then SetState(s, 2)
    else if c == 'E' as int then Goto(s1, 0, s.y + 1)
    else if c == 'M' as int then Ri(s1)
    else if c == 'D' as int then Lf(s1)
    else if c == '7' as int then Save(s1)
    else if c == '8' as int then Goto(s1, s.savedX, s.savedY)
    else s1
  }

  function Down(n: int): int { if n > 0 then n - 1 else n }

  function Attr(n: int, attr: int): int {
    if n == 0 || n == 27 then 0x07 else if n == 1 || n == 4 then 0x0f else if n == 7 then 0x70 else attr
  }

  function Attrs(par: seq<int>, n: nat, attr: int): int
    requires n <= |par|
  {
    if n == 0 then attr else Attr(par[n - 1], Attrs(par, n - 1, attr))
  }

  function Margins(s: Screen, top: int, bottom: int): Screen {
    var b := if bottom == 0 then s.lines else bottom;
    if top < b <= s.lines then s.(top := top, bottom := b) else s
  }

  predicate WfParser(s: Screen) {
    s.columns >= 0 && |s.esc.par| == NPAR && 0 <= s.esc.npar < NPAR && s.esc.par[0] >= 0
  }

  // ESC [ p0 ; p1 c: the sequences that move the cursor ...
  predicate Moves(c: char) { c in "G`ABeCaDEFdHfu" }

  function Target(s: Screen, c: char): (int, int)
    requires WfParser(s)
  {
    var p0, p1 := s.esc.par[0], s.esc.par[1];
    var n := Times(p0);
    match c
    case 'G' => (Down(p0), s.y)
    case '`' => (Down(p0), s.y)
    case 'A' => (s.x, s.y - n)
    case 'B' => (s.x, s.y + n)
    case 'e' => (s.x, s.y + n)
    case 'C' => (s.x + n, s.y)
    case 'a' => (s.x + n, s.y)
    case 'D' => (s.x - n, s.y)
    case 'E' => (0, s.y + n)
    case 'F' => (0, s.y - n)
    case 'd' => (s.x, Down(p0))
    case 'H' => (Down(p1), Down(p0))
    case 'f' => (Down(p1), Down(p0))
    case _ => (s.savedX, s.savedY)
  }

  function Move(s: Screen, c: char): Screen
    requires WfParser(s)
  {
    var (x, y) := Target(s, c);
    Goto(s, x, y)
  }

  // ... and the others.
  function Edit(s: Screen, c: char): Screen
    requires WfParser(s)
  {
    var p0, p1 := s.esc.par[0], s.esc.par[1];
    var n := Times(p0);
    match c
    case 'J' => EraseDisplay(s, p0)
    case 'K' => EraseLine(s, p0)
    case 'L' => InsertLines(s, n)
    case 'M' => DeleteLines(s, n)
    case 'P' => DeleteChars(s, n)
    case '@' => InsertChars(s, n)
    case 'm' => s.(attr := Attrs(s.esc.par, s.esc.npar + 1, s.attr))
    case 'r' => Margins(s, Down(p0), p1)
    case 's' => Save(s)
    case _ => s
  }

  function Command(s: Screen, c: char): Screen
    requires WfParser(s)
  {
    if Moves(c) then Move(s, c) else Edit(s, c)
  }

  function Param(s: Screen, c: int): Screen
    requires WfParser(s)
  {
    if c == ';' as int && s.esc.npar < NPAR - 1 then s.(esc := s.esc.(npar := s.esc.npar + 1))
    else if '0' as int <= c <= '9' as int then
      s.(esc := s.esc.(par := s.esc.par[s.esc.npar := (10 * s.esc.par[s.esc.npar] + c - '0' as int) % U32]))
    else if 0 <= c < 128 then Command(SetState(s, 0), c as char)
    else SetState(s, 0)
  }

  function NoParams(ques: bool): Parser { Parser(3, 0, seq(NPAR, i => 0), ques) }

  // One byte of output on the screen.
  function Byte(s: Screen, c: int, eraseChar: int): Screen
    requires WfParser(s)
  {
    match s.esc.state
    case 0 => Plain(s, c, eraseChar)
    case 1 => Escape(s, c)
    case 2 =>
      var s1 := s.(esc := NoParams(c == '?' as int));
      if c == '?' as int then s1 else Param(s1, c)
    case _ => Param(s, c)
  }

  // ---------- The invariant, on the grid ----------

  lemma CursorInside(s: Screen)
    requires s.columns >= 1 && 0 <= s.y < s.lines && 0 <= s.x <= s.columns
    ensures 0 <= s.Row(s.y) <= s.At() <= s.Row(s.y + 1) == s.Row(s.y) + s.columns <= s.Row(s.lines)
  {
    Rows(s, s.y, s.y + 1);
  }

  lemma PlainKeepsOk(s: Screen, c: int, eraseChar: int)
    requires Ok(s)
    ensures Ok(Plain(s, c, eraseChar)) && SameShape(s, Plain(s, c, eraseChar))
  {
  }

  lemma EscapeKeepsOk(s: Screen, c: int)
    requires Ok(s)
    ensures Ok(Escape(s, c)) && SameShape(s, Escape(s, c))
  {
  }

  lemma ParamKeepsOk(s: Screen, c: int)
    requires Ok(s) && c < 128
    ensures Ok(Param(s, c)) && SameShape(s, Param(s, c))
  {
  }

  predicate SameShape(s: Screen, s': Screen) {
    s'.columns == s.columns && s'.lines == s.lines && |s'.cells| == |s.cells|
  }

  // Over every byte stream the cursor and the scroll region stay on the screen.
  lemma ByteKeepsOk(s: Screen, c: int, eraseChar: int)
    requires Ok(s) && -128 <= c < 128
    ensures Ok(Byte(s, c, eraseChar)) && SameShape(s, Byte(s, c, eraseChar))
  {
    match s.esc.state
    case 0 => PlainKeepsOk(s, c, eraseChar);
    case 1 => EscapeKeepsOk(s, c);
    case 2 => ParamKeepsOk(s.(esc := NoParams(c == '?' as int)), c);
    case _ => ParamKeepsOk(s, c);
  }

  // The first n bytes.
  function Run(s: Screen, bytes: seq<int>, n: nat, eraseChar: int): (r: Screen)
    requires Ok(s) && n <= |bytes| && forall i :: 0 <= i < |bytes| ==> -128 <= bytes[i] < 128
    ensures Ok(r) && SameShape(s, r)
  {
    if n == 0 then s else
      var before := Run(s, bytes, n - 1, eraseChar);
      ByteKeepsOk(before, bytes[n - 1], eraseChar);
      Byte(before, bytes[n - 1], eraseChar)
  }

  // DCH takes back ICH, but for the cells pushed over the end of the line.
  lemma DeleteTakesBackInsert(s: Screen, n: nat)
    requires Ok(s) && n <= s.columns - s.x
    ensures DeleteChars(InsertChars(s, n), n) == s.(cells := Fill(s.cells, s.Row(s.y + 1) - n, s.Row(s.y + 1)))
  {
    CursorInside(s);
    DeleteUndoesInsert(s.cells, s.At(), s.Row(s.y + 1), n);
  }

  // ---------- The string instructions ----------

  // rep stosw
  method Stosw(g: seq<int>, start: int, n: int) returns (mem: seq<int>)
    requires 0 <= start && 0 <= n && start + n <= |g|
    ensures mem == Fill(g, start, start + n)
  {
    mem := g;
    for i := 0 to n
      invariant mem == Fill(g, start, start + i)
    {
      mem := mem[start + i := ERASE];
    }
  }

  // rep movsl with the direction flag clear; each movsl moves two cells
  method RepMovsl(g: seq<int>, dst: int, src: int, count: int) returns (mem: seq<int>)
    requires 0 <= dst < src && 0 <= count && src + 2 * count <= |g|
    ensures mem == Copied(g, dst, 2 * count, src - dst)
  {
    mem := g;
    for i := 0 to count
      invariant mem == Copied(g, dst, 2 * i, src - dst)
    {
      var d, s := dst + 2 * i, src + 2 * i;
      var lo, hi := mem[s], mem[s + 1];
      assert Copied(g, dst, 2 * i + 1, src - dst) == mem[d := lo];
      mem := mem[d := lo][d + 1 := hi];
    }
  }

  // rep movsl with the direction flag set, from just before dst and src
  method RepMovslDown(g: seq<int>, dst: int, src: int, count: int) returns (mem: seq<int>)
    requires src < dst <= |g| && 0 <= count && 0 <= src - 2 * count
    ensures mem == CopiedDown(g, dst, 2 * count, dst - src)
  {
    mem := g;
    for i := 0 to count
      invariant mem == CopiedDown(g, dst, 2 * i, dst - src)
    {
      var d, s := dst - 2 * i - 2, src - 2 * i - 2;
      var lo, hi := mem[s], mem[s + 1];
      assert CopiedDown(g, dst, 2 * i + 1, dst - src) == mem[d + 1 := hi];
      mem := mem[d + 1 := hi][d := lo];
    }
  }

  // The loop of insert_char over n cells.
  method InsertLoop(g: seq<int>, pos: int, n: int) returns (mem: seq<int>)
    requires 0 <= pos && 0 <= n && pos + n <= |g|
    ensures mem == ShiftRight(g, pos, pos + n, 1)
  {
    var carried := ERASE;
    mem := g;
    ShiftByNothing(g, pos, pos);
    for i := 0 to n
      invariant mem == ShiftRight(g, pos, pos + i, 1)
      invariant carried == if i == 0 then ERASE else g[pos + i - 1]
    {
      InsertStep(g, pos, pos + i);
      ShiftRightAt(g, pos, pos + i, 1, pos + i);
      var tmp := mem[pos + i];
      mem := mem[pos + i := carried];
      carried := tmp;
    }
  }

  // The loop of delete_char, and the blank at the end of the line.
  method DeleteLoop(g: seq<int>, pos: int, n: int) returns (mem: seq<int>)
    requires 0 <= pos && 1 <= n && pos + n <= |g|
    ensures mem == ShiftLeft(g, pos, pos + n, 1)
  {
    mem := g;
    for i := 0 to n - 1
      invariant mem == Copied(g, pos, i, 1)
    {
      mem := mem[pos + i := mem[pos + i + 1]];
    }
    DeleteStep(g, pos, pos + n);
    mem := mem[pos + n - 1 := ERASE];
  }

  // ---------- The code ----------

  class Console {
    const columns: int
    const lines: int
    const ega: bool                 // VIDEO_TYPE_EGAC or VIDEO_TYPE_EGAM
    var mem: seq<int>               // video_mem_start .. video_mem_end
    var origin: int
    var scrEnd: int
    var pos: int
    var x: int
    var y: int
    var top: int
    var bottom: int
    var attr: int
    var savedX: int
    var savedY: int
    var esc: Parser

    // The window that the adapter shows.
    ghost predicate Window()
      reads this
    {
      columns >= 1 && lines >= 1 && 0 <= origin <= scrEnd && scrEnd == origin + Mul(lines, columns) <= |mem|
    }

    ghost function S(): Screen
      requires Window()
      reads this
    {
      Screen(columns, lines, mem[origin..scrEnd], x, y, top, bottom, attr, savedX, savedY, esc)
    }

    ghost predicate Valid()
      reads this
    {
      Window() && Ok(S()) && pos == origin + S().At()
    }

    // con_init: the window starts where the memory does.
    constructor (columns: int, lines: int, ega: bool, size: nat, x: int, y: int)
      requires columns >= 8 && columns % 2 == 0 && lines >= 1 && columns + lines < U32 / 2 &&
               Mul(lines, columns) <= size
      requires 0 <= x <= columns && 0 <= y < lines
      ensures Valid() && |mem| == size && S().x == x && S().y == y && top == 0 && bottom == lines
    {
      this.columns, this.lines, this.ega := columns, lines, ega;
      mem := seq(size, i => ERASE);
      origin, scrEnd := 0, Mul(lines, columns);
      this.x, this.y := x, y;
      pos := Mul(y, columns) + x;
      top, bottom, attr, savedX, savedY := 0, lines, 0x07, 0, 0;
      esc := Parser(0, 0, seq(NPAR, i => 0), false);
      MulSize(lines, columns);
      new;
      CursorInside(S());
    }

    // The moves of the scrolling code: n >> 1 pairs upwards, then a row of blanks ...
    method MoveUp(dst: int, src: int, n: int)
      requires 0 <= dst < src && 0 <= n && src + n <= |mem| && dst + n + columns <= |mem| && 0 <= columns
      modifies `mem
      ensures mem == Scrolled(old(mem), dst, n, src - dst, columns)
    {
      mem := RepMovsl(mem, dst, src, n / 2);
      mem := Stosw(mem, dst + n / 2 * 2, columns);
    }

    // ... and downwards, from just before dst and src.
    method MoveDown(dst: int, src: int, n: int)
      requires 0 <= src - n && 0 <= n && dst <= |mem| && src + columns == dst && 0 < columns
      modifies `mem
      ensures mem == ScrolledDown(old(mem), dst, n, columns)
    {
      mem := RepMovslDown(mem, dst, src, n / 2);
      mem := Stosw(mem, dst - n / 2 * 2 - columns, columns);
    }

    // The copying scroll of rows top .. bottom-1.
    method CopyUp()
      requires Valid()
      modifies `mem
      ensures Window() && S() == ScrollUp(old(S()))
      ensures Valid()
    {
      ghost var was := S();
      RegionFits(was);
      RegionScrolledUp(mem, origin, scrEnd, was);
      var n := Mul(bottom - top - 1, columns);
      MoveUp(origin + Mul(top, columns), origin + Mul(top + 1, columns), n);
      assert mem[origin..scrEnd] == ScrollUp(was).cells;
    }

    method Scrup()
      requires Valid()
      modifies this
      ensures Window() && S() == ScrollUp(old(S()))
      ensures Valid()
    {
      if ega && top == 0 && bottom == lines {
        SlideUp();
      } else {
        CopyUp();
      }
    }

    // The whole screen scrolls by moving the window ...
    method SlideUp()
      requires Valid() && top == 0 && bottom == lines
      modifies this
      ensures Window() && S() == ScrollUp(old(S()))
      ensures Valid()
    {
      ghost var was := S();
      RegionFits(was);
      origin := origin + columns;
      pos := pos + columns;
      scrEnd := scrEnd + columns;
      if scrEnd > |mem| {
        StartAgain(was.cells);
      } else {
        EraseNewRow(was.cells);
      }
      assert mem[origin..scrEnd] == ScrollUp(was).cells;
    }

    // ... over a row that is erased,
    method EraseNewRow(ghost cells: seq<int>)
      requires columns >= 1 && lines >= 1 && |cells| == Mul(lines, columns) && columns <= |cells|
      requires 0 <= origin - columns && scrEnd <= |mem| && scrEnd == origin + |cells|
      requires mem[origin - columns..scrEnd - columns] == cells
      modifies `mem
      ensures Window() && mem[origin..scrEnd] == ShiftLeft(cells, 0, |cells|, columns)
    {
      WindowSlides(mem, origin - columns, scrEnd - columns, columns);
      mem := Stosw(mem, scrEnd - columns, columns);
    }

    // ... and when it reaches the end of the memory, the rows that stay are copied to the
    // beginning.
    method StartAgain(ghost cells: seq<int>)
      requires columns >= 1 && lines >= 1 && columns % 2 == 0 && |cells| == Mul(lines, columns)
      requires 0 <= origin - columns && scrEnd - columns <= |mem| && scrEnd == origin + |cells|
      requires mem[origin - columns..scrEnd - columns] == cells
      modifies `mem, `origin, `scrEnd, `pos
      ensures Window() && origin == 0 && pos == old(pos) - old(origin)
      ensures mem[origin..scrEnd] == ShiftLeft(cells, 0, |cells|, columns)
    {
      MulSize(lines - 1, columns);
      assert |cells| == Mul(lines - 1, columns) + columns;
      WindowWraps(mem, origin - columns, scrEnd - columns, columns);
      MoveUp(0, origin, Mul(lines - 1, columns));
      scrEnd := scrEnd - origin;
      pos := pos - origin;
      origin := 0;
    }

    method Scrdown()
      requires Valid()
      modifies `mem
      ensures Window() && S() == ScrollDown(old(S()))
      ensures Valid()
    {
      ghost var was := S();
      RegionFits(was);
      RegionScrolledDown(mem, origin, scrEnd, was);
      var n := Mul(bottom - top - 1, columns);
      MoveDown(origin + Mul(bottom, columns), origin + Mul(bottom - 1, columns), n);
      assert mem[origin..scrEnd] == ScrollDown(was).cells;
    }

    // gotoxy
    method Gotoxy(newX: int, newY: int)
      requires Valid()
      modifies this
      ensures Window() && S() == Goto(old(S()), newX, newY)
      ensures Valid()
    {
      var ux, uy := newX % U32, newY % U32;
      if ux > columns || uy >= lines {
        return;
      }
      x, y := ux, uy;
      pos := origin + Mul(y, columns) + x;
    }

    method LineFeed()
      requires Valid()
      modifies this
      ensures Window() && S() == Lf(old(S()))
      ensures Valid()
    {
      if y + 1 < bottom {
        CursorInside(S());
        y := y + 1;
        pos := pos + columns;
        return;
      }
      Scrup();
    }

    method ReverseIndex()
      requires Valid()
      modifies this
      ensures Window() && S() == Ri(old(S()))
      ensures Valid()
    {
      if y > top {
        CursorInside(S());
        y := y - 1;
        pos := pos - columns;
        return;
      }
      Scrdown();
    }

    // Past the last column: back by a line's width, and on to the next line.
    method WrapLine()
      requires Window() && Ok(S().(x := columns)) && columns <= x <= 2 * columns && pos == origin + S().At()
      modifies this
      ensures Window() && S() == Wrapped(old(S()))
      ensures Valid()
    {
      x := x - columns;
      pos := pos - columns;
      assert Ok(S());
      LineFeed();
    }

    // An ordinary character.
    method PutChar(c: int)
      requires Valid()
      modifies this
      ensures Window() && S() == Put(old(S()), c)
      ensures Valid()
    {
      if x >= columns {
        WrapLine();
      }
      CursorInside(S());
      ghost var s1 := S();
      assert s1.At() < |s1.cells|;
      SetCell(pos, attr * 256 + c);
      pos := pos + 1;
      x := x + 1;
    }

    method SetCell(p: int, v: int)
      requires Window() && origin <= p < scrEnd
      modifies `mem
      ensures |mem| == |old(mem)| && mem[origin..scrEnd] == old(mem)[origin..scrEnd][p - origin := v]
    {
      mem := mem[p := v];
    }

    method TabStop()
      requires Valid()
      modifies this
      ensures Window() && S() == Tab(old(S()))
      ensures Valid()
    {
      var c := 8 - x % 8;
      x := x + c;
      pos := pos + c;
      if x > columns {
        WrapLine();
      }
    }

    method Delete()
      requires Valid()
      modifies this
      ensures Window() && S() == Del(old(S()))
      ensures Valid()
    {
      if x != 0 {
        ghost var was := S();
        CursorInside(was);
        pos := pos - 1;
        x := x - 1;
        assert Fill(was.cells, pos - origin, pos - origin + 1) == was.cells[pos - origin := ERASE];
        SetCell(pos, ERASE);
      }
    }

    // stosw inside the window
    method Blank(start: int, count: int)
      requires Window() && origin <= start && 0 <= count && start + count <= scrEnd
      modifies `mem
      ensures |mem| == |old(mem)| &&
              mem[origin..scrEnd] == Fill(old(mem)[origin..scrEnd], start - origin, start - origin + count)
    {
      mem := Stosw(mem, start, count);
    }

    method CsiJ(par: int)
      requires Valid()
      modifies `mem
      ensures Window() && S() == EraseDisplay(old(S()), par)
      ensures Valid()
    {
      CursorInside(S());
      if par == 0 {
        Blank(pos, scrEnd - pos);
      } else if par == 1 {
        Blank(origin, pos - origin);
      } else if par == 2 {
        Blank(origin, Mul(lines, columns));
      }
    }

    method CsiK(par: int)
      requires Valid()
      modifies `mem
      ensures Window() && S() == EraseLine(old(S()), par)
      ensures Valid()
    {
      ghost var was := S();
      CursorInside(was);
      if par == 0 {
        if x >= columns {
          assert Fill(was.cells, was.At(), was.Row(y + 1)) == was.cells;
          return;
        }
        Blank(pos, columns - x);
      } else if par == 1 {
        Blank(pos - x, if x < columns then x else columns);
      } else if par == 2 {
        Blank(pos - x, columns);
      }
    }

    method InsertChar()
      requires Valid()
      modifies `mem
      ensures Window() && S() == InsertChars(old(S()), 1)
      ensures Valid()
    {
      CursorInside(S());
      WindowShiftRight(mem, origin, scrEnd, pos - origin, pos - origin + columns - x, 1);
      mem := InsertLoop(mem, pos, columns - x);
    }

    method DeleteChar()
      requires Valid()
      modifies `mem
      ensures Window() && S() == DeleteChars(old(S()), 1)
      ensures Valid()
    {
      CursorInside(S());
      WindowShiftLeft(mem, origin, scrEnd, pos - origin, pos - origin + columns - x, 1);
      if x >= columns {
        return;
      }
      mem := DeleteLoop(mem, pos, columns - x);
    }

    method InsertLine()
      requires Valid()
      modifies this
      ensures Window() && S() == InsertLines(old(S()), 1)
      ensures Valid()
    {
      assert Mul(1, columns) == columns;
      var oldtop, oldbottom := top, bottom;
      top, bottom := y, lines;
      assert Ok(S());
      Scrdown();
      top, bottom := oldtop, oldbottom;
    }

    method DeleteLine()
      requires Valid()
      modifies this
      ensures Window() && S() == DeleteLines(old(S()), 1)
      ensures Valid()
    {
      assert Mul(1, columns) == columns;
      var oldtop, oldbottom := top, bottom;
      top, bottom := y, lines;
      assert Ok(S());
      Scrup();
      top, bottom := oldtop, oldbottom;
    }

    // ICH: at most a line's width of single insertions
    method CsiAt(par: nat)
      requires Valid()
      modifies `mem
      ensures Window() && S() == InsertChars(old(S()), Times(par))
      ensures Valid()
    {
      ghost var was := S();
      var nr := if par > columns then columns else if par == 0 then 1 else par;
      CharsByNothing(was);
      for i := 0 to nr
        invariant Window() && S() == InsertChars(was, i) && Valid()
      {
        OneMoreChar(was, i);
        InsertChar();
      }
      EnoughChars(was, nr, Times(par));
    }

    // DCH
    method CsiP(par: nat)
      requires Valid()
      modifies `mem
      ensures Window() && S() == DeleteChars(old(S()), Times(par))
      ensures Valid()
    {
      ghost var was := S();
      var nr := if par > columns then columns else if par == 0 then 1 else par;
      CharsByNothing(was);
      for i := 0 to nr
        invariant Window() && S() == DeleteChars(was, i) && Valid()
      {
        OneMoreChar(was, i);
        DeleteChar();
      }
      EnoughChars(was, nr, Times(par));
    }

    // IL
    method CsiL(par: nat)
      requires Valid()
      modifies this
      ensures Window() && S() == InsertLines(old(S()), Times(par))
      ensures Valid()
    {
      ghost var was := S();
      var nr := if par > lines then lines else if par == 0 then 1 else par;
      LinesByNothing(was);
      for i := 0 to nr
        invariant Window() && S() == InsertLines(was, i) && Valid()
      {
        OneMoreLine(was, i);
        InsertLine();
      }
      EnoughLines(was, nr, Times(par));
    }

    // DL
    method CsiM(par: nat)
      requires Valid()
      modifies this
      ensures Window() && S() == DeleteLines(old(S()), Times(par))
      ensures Valid()
    {
      ghost var was := S();
      var nr := if par > lines then lines else if par == 0 then 1 else par;
      LinesByNothing(was);
      for i := 0 to nr
        invariant Window() && S() == DeleteLines(was, i) && Valid()
      {
        OneMoreLine(was, i);
        DeleteLine();
      }
      EnoughLines(was, nr, Times(par));
    }

    method SaveCur()
      requires Valid()
      modifies `savedX, `savedY
      ensures Window() && S() == Save(old(S()))
      ensures Valid()
    {
      savedX, savedY := x, y;
    }

    // csi_m
    method SetAttributes()
      requires Valid()
      modifies `attr
      ensures Window() && S() == old(S()).(attr := Attrs(old(esc).par, old(esc).npar + 1, old(attr)))
      ensures Valid()
    {
      for i := 0 to esc.npar + 1
        invariant Window() && S() == old(S()).(attr := Attrs(esc.par, i, old(attr))) && Valid()
      {
        match esc.par[i] {
          case 0 => attr := 0x07;
          case 1 => attr := 0x0f;
          case 4 => attr := 0x0f;
          case 7 => attr := 0x70;
          case 27 => attr := 0x07;
          case _ =>
        }
      }
    }

    method SetMargins(p0: int, p1: int)
      requires Valid() && 0 <= p0 && 0 <= p1
      modifies `top, `bottom
      ensures Window() && S() == Margins(old(S()), p0, p1)
      ensures Valid()
    {
      var last := if p1 == 0 then lines else p1;
      if p0 < last && last <= lines {
        top, bottom := p0, last;
      }
    }

    // The final byte of a control sequence that moves the cursor.
    method MoveCursor(c: char)
      requires Valid() && Moves(c)
      modifies this
      ensures Window() && S() == Move(old(S()), c)
      ensures Valid()
    {
      var tx, ty := FindTarget(c);
      Gotoxy(tx, ty);
    }

    // Where a sequence moves the cursor to.
    method FindTarget(c: char) returns (tx: int, ty: int)
      requires Valid() && Moves(c)
      ensures (tx, ty) == Target(S(), c)
    {
      var p0, p1 := esc.par[0], esc.par[1];
      var n, down0, down1 := if p0 == 0 then 1 else p0, if p0 != 0 then p0 - 1 else p0, if p1 != 0 then p1 - 1 else p1;
      match c {
        case 'G' => tx, ty := down0, y;
        case '`' => tx, ty := down0, y;
        case 'A' => tx, ty := x, y - n;
        case 'B' => tx, ty := x, y + n;
        case 'e' => tx, ty := x, y + n;
        case 'C' => tx, ty := x + n, y;
        case 'a' => tx, ty := x + n, y;
        case 'D' => tx, ty := x - n, y;
        case 'E' => tx, ty := 0, y + n;
        case 'F' => tx, ty := 0, y - n;
        case 'd' => tx, ty := x, down0;
        case 'H' => tx, ty := down1, down0;
        case 'f' => tx, ty := down1, down0;
        case _ => tx, ty := savedX, savedY;
      }
    }

    // The final byte of any other control sequence.
    method EditScreen(c: char)
      requires Valid()
      modifies this
      ensures Window() && S() == Edit(old(S()), c)
      ensures Valid()
    {
      var p0, p1 := esc.par[0], esc.par[1];
      match c {
        case 'J' => CsiJ(p0);
        case 'K' => CsiK(p0);
        case 'L' => CsiL(p0);
        case 'M' => CsiM(p0);
        case 'P' => CsiP(p0);
        case '@' => CsiAt(p0);
        case 'm' => SetAttributes();
        case 'r' => SetMargins(if p0 != 0 then p0 - 1 else p0, p1);
        case 's' => SaveCur();
        case _ =>
      }
    }

    // State 3, and 4 if c is neither a digit nor a separator.
    method ParamByte(c: int)
      requires Valid() && -128 <= c < 128
      modifies this
      ensures Window() && S() == Param(old(S()), c)
      ensures Valid()
    {
      if c == ';' as int && esc.npar < NPAR - 1 {
        esc := esc.(npar := esc.npar + 1);
        return;
      }
      if '0' as int <= c <= '9' as int {
        esc := esc.(par := esc.par[esc.npar := (10 * esc.par[esc.npar] + c - '0' as int) % U32]);
        return;
      }
      esc := esc.(state := 0);
      if c < 0 {
        return;
      }
      if Moves(c as char) {
        MoveCursor(c as char);
      } else {
        EditScreen(c as char);
      }
    }

    method EscapeByte(c: int)
      requires Valid()
      modifies this
      ensures Window() && S() == Escape(old(S()), c)
      ensures Valid()
    {
      esc := esc.(state := 0);
      if c == '[' as int {
        esc := esc.(state := 2);
      } else if c == 'E' as int {
        Gotoxy(0, y + 1);
      } else if c == 'M' as int {
        ReverseIndex();
      } else if c == 'D' as int {
        LineFeed();
      } else if c == '7' as int {
        SaveCur();
      } else if c == '8' as int {
        Gotoxy(savedX, savedY);
      }
    }

    method PlainByte(c: int, eraseChar: int)
      requires Valid()
      modifies this
      ensures Window() && S() == Plain(old(S()), c, eraseChar)
      ensures Valid()
    {
      if 31 < c < 127 {
        PutChar(c);
      } else if c == 27 {
        esc := esc.(state := 1);
      } else if c == 10 || c == 11 || c == 12 {
        LineFeed();
      } else if c == 13 {
        pos := pos - x;
        x := 0;
      } else if c == eraseChar {
        Delete();
      } else if c == 8 {
        if x != 0 {
          x := x - 1;
          pos := pos - 1;
        }
      } else if c == 9 {
        TabStop();
      }
    }

    method WriteByte(c: int, eraseChar: int)
      requires Valid() && -128 <= c < 128
      modifies this
      ensures Window() && S() == Byte(old(S()), c, eraseChar)
      ensures Valid()
    {
      if esc.state == 0 {
        PlainByte(c, eraseChar);
      } else if esc.state == 1 {
        EscapeByte(c);
      } else {
        if esc.state == 2 {
          esc := NoParams(c == '?' as int);
          if c == '?' as int {
            return;
          }
        }
        ParamByte(c);
      }
    }

    // con_write on the bytes it finds in the write queue. Whatever the adapter, and
    // wherever the window has slid to, the screen shows what the grid shows.
    method ConWrite(bytes: seq<int>, eraseChar: int)
      requires Valid() && forall i :: 0 <= i < |bytes| ==> -128 <= bytes[i] < 128
      modifies this
      ensures Window() && S() == Run(old(S()), bytes, |bytes|, eraseChar)
      ensures Valid()
    {
      ghost var was := S();
      for i := 0 to |bytes|
        invariant Window() && S() == Run(was, bytes, i, eraseChar) && Valid()
      {
        WriteByte(bytes[i], eraseChar);
      }
    }
  }

  // Limiting the number of repetitions changes nothing.
  lemma EnoughIsAll(g: seq<int>, from: int, to: int, nr: nat, n: nat)
    requires 0 <= from && to <= |g| && (nr == n || (nr < n && nr >= to - from))
    ensures ShiftLeft(g, from, to, nr) == ShiftLeft(g, from, to, n)
    ensures ShiftRight(g, from, to, nr) == ShiftRight(g, from, to, n)
  {
    if nr != n {
      ShiftAllIsFill(g, from, to, nr);
      ShiftAllIsFill(g, from, to, n);
    }
  }

  lemma EnoughChars(s: Screen, nr: nat, n: nat)
    requires Ok(s) && (nr == n || (nr < n && nr == s.columns))
    ensures InsertChars(s, nr) == InsertChars(s, n) && DeleteChars(s, nr) == DeleteChars(s, n)
  {
    CursorInside(s);
    EnoughIsAll(s.cells, s.At(), s.Row(s.y + 1), nr, n);
  }

  lemma CharsByNothing(s: Screen)
    requires Ok(s)
    ensures InsertChars(s, 0) == s == DeleteChars(s, 0)
  {
    CursorInside(s);
    ShiftByNothing(s.cells, s.At(), s.Row(s.y + 1));
  }

  lemma OneMoreChar(s: Screen, n: nat)
    requires Ok(s)
    ensures InsertChars(InsertChars(s, n), 1) == InsertChars(s, n + 1)
    ensures DeleteChars(DeleteChars(s, n), 1) == DeleteChars(s, n + 1)
  {
    CursorInside(s);
    ShiftRightTwice(s.cells, s.At(), s.Row(s.y + 1), n, 1);
    ShiftLeftTwice(s.cells, s.At(), s.Row(s.y + 1), n, 1);
  }

  lemma LinesByNothing(s: Screen)
    requires Ok(s)
    ensures InsertLines(s, 0) == s == DeleteLines(s, 0)
  {
    CursorInside(s);
    ShiftByNothing(s.cells, s.Row(s.y), |s.cells|);
  }

  lemma OneMoreLine(s: Screen, n: nat)
    requires Ok(s)
    ensures InsertLines(InsertLines(s, n), 1) == InsertLines(s, n + 1)
    ensures DeleteLines(DeleteLines(s, n), 1) == DeleteLines(s, n + 1)
  {
    CursorInside(s);
    MulSize(n, s.columns);
    MulStep(0, s.columns);
    MulStep(n, s.columns);
    ShiftRightTwice(s.cells, s.Row(s.y), |s.cells|, Mul(n, s.columns), s.columns);
    ShiftLeftTwice(s.cells, s.Row(s.y), |s.cells|, Mul(n, s.columns), s.columns);
  }

  lemma EnoughLines(s: Screen, nr: nat, n: nat)
    requires Ok(s) && (nr == n || (nr < n && nr == s.lines))
    ensures InsertLines(s, nr) == InsertLines(s, n) && DeleteLines(s, nr) == DeleteLines(s, n)
  {
    CursorInside(s);
    MulSize(nr, s.columns);
    MulSize(n, s.columns);
    if nr != n {
      MulAdd(nr, n - nr, s.columns);
      MulSize(n - nr, s.columns);
    }
    EnoughIsAll(s.cells, s.Row(s.y), |s.cells|, Mul(nr, s.columns), Mul(n, s.columns));
  }

  // Sizes of the scroll region, in cells.
  lemma RegionFits(s: Screen)
    requires Ok(s)
    ensures 0 <= s.Row(s.top) && s.Row(s.bottom) <= |s.cells| && s.columns <= s.Row(s.bottom) - s.Row(s.top)
    ensures Mul(s.bottom - s.top - 1, s.columns) == s.Row(s.bottom) - s.Row(s.top) - s.columns
    ensures Mul(s.bottom - s.top - 1, s.columns) % 2 == 0 && s.Row(s.top + 1) == s.Row(s.top) + s.columns
    ensures s.Row(s.bottom - 1) == s.Row(s.bottom) - s.columns && s.Row(s.lines) == |s.cells|
  {
    Rows(s, s.top, s.bottom);
    MulAdd(s.top + 1, s.bottom - s.top - 1, s.columns);
    MulSize(s.bottom - s.top - 1, s.columns);
  }

  lemma RegionScrolledUp(m: seq<int>, o: int, e: int, s: Screen)
    requires Ok(s) && 0 <= o <= e <= |m| && m[o..e] == s.cells
    ensures var n := Mul(s.bottom - s.top - 1, s.columns);
            0 <= n && 0 <= o + s.Row(s.top) && o + s.Row(s.top) + n + s.columns <= |m| &&
            Scrolled(m, o + s.Row(s.top), n, s.columns, s.columns)[o..e] == ScrollUp(s).cells
  {
    RegionFits(s);
    WindowScrolledUp(m, o, e, s.Row(s.top), Mul(s.bottom - s.top - 1, s.columns), s.columns);
  }

  lemma RegionScrolledDown(m: seq<int>, o: int, e: int, s: Screen)
    requires Ok(s) && 0 <= o <= e <= |m| && m[o..e] == s.cells
    ensures var n := Mul(s.bottom - s.top - 1, s.columns);
            0 <= n && o + s.Row(s.bottom) <= |m| && 0 <= o + s.Row(s.bottom) - n - s.columns &&
            ScrolledDown(m, o + s.Row(s.bottom), n, s.columns)[o..e] == ScrollDown(s).cells
  {
    RegionFits(s);
    WindowScrolledDown(m, o, e, s.Row(s.top), Mul(s.bottom - s.top - 1, s.columns), s.columns);
  }
}
