module Echoes {
  // Echo and rub-out of copy_to_cooked (kernel/chr_drv/tty_io.c) as con_write
  // (kernel/chr_drv/console.c) shows them: when does rubbing out a character restore
  // the screen?

  import Console
  import opened LineEditor

  const CARET := '^' as int

  // ---------- Bytes on the screen ----------

  predicate IsByte(c: int) { -128 <= c < 128 }

  predicate Bytes(s: seq<int>) { forall i :: 0 <= i < |s| ==> -128 <= s[i] < 128 }

  // con_write of these bytes; the console knows the terminal's erase character.
  ghost function Shown(s: Console.Screen, erase: int, bytes: seq<int>): Console.Screen
    requires Console.Ok(s) && Bytes(bytes)
  {
    Console.Run(s, bytes, |bytes|, erase)
  }

  lemma {:induction false} RunOfPrefix(s: Console.Screen, a: seq<int>, b: seq<int>, n: nat, erase: int)
    requires Console.Ok(s) && n <= |a| <= |b| && a == b[..|a|] && Bytes(b)
    ensures Bytes(a)
    ensures Console.Run(s, a, n, erase) == Console.Run(s, b, n, erase)
  {
    assert forall i :: 0 <= i < |a| ==> a[i] == b[..|a|][i] == b[i];
    if n > 0 { RunOfPrefix(s, a, b, n - 1, erase); }
  }

  lemma ShownSnoc(s: Console.Screen, erase: int, bytes: seq<int>, c: int)
    requires Console.Ok(s) && IsByte(c) && Bytes(bytes)
    ensures Bytes(bytes + [c])
    ensures Console.Ok(Shown(s, erase, bytes))
    ensures Shown(s, erase, bytes + [c]) == Console.Byte(Shown(s, erase, bytes), c, erase)
  {
    RunOfPrefix(s, bytes, bytes + [c], |bytes|, erase);
  }

  lemma ShownTwo(s: Console.Screen, erase: int, a: int, b: int)
    requires Console.Ok(s) && IsByte(a) && IsByte(b)
    ensures Console.Ok(Console.Byte(s, a, erase))
    ensures Shown(s, erase, [a, b]) == Console.Byte(Console.Byte(s, a, erase), b, erase)
  {
    ShownSnoc(s, erase, [], a);
    assert [] + [a] == [a];
    ShownSnoc(s, erase, [a], b);
    assert [a] + [b] == [a, b];
  }

  lemma ShownFour(s: Console.Screen, erase: int, a: int, b: int, c: int, d: int)
    requires Console.Ok(s) && IsByte(a) && IsByte(b) && IsByte(c) && IsByte(d)
    ensures Console.Ok(Shown(s, erase, [a, b])) && Console.Ok(Console.Byte(Shown(s, erase, [a, b]), c, erase))
    ensures Shown(s, erase, [a, b, c, d]) == Console.Byte(Console.Byte(Shown(s, erase, [a, b]), c, erase), d, erase)
  {
    ShownSnoc(s, erase, [a, b], c);
    assert [a, b] + [c] == [a, b, c];
    ShownSnoc(s, erase, [a, b, c], d);
    assert [a, b, c] + [d] == [a, b, c, d];
  }

  // ---------- The condition ----------

  // Not inside an escape sequence.
  ghost predicate Ready(s: Console.Screen) { Console.Ok(s) && s.esc.state == 0 }

  function Cell(s: Console.Screen, row: int, x: int): int {
    if 0 <= s.Row(row) + x < |s.cells| then s.cells[s.Row(row) + x] else 0
  }

  // The ^ that an echo leaves.
  function CaretCell(s: Console.Screen): int { s.attr * 256 + CARET }

  // Are the cursor's cell and the n - 1 behind it in the line, and blank?
  predicate Free(s: Console.Screen, n: nat) {
    s.x + n <= s.columns && forall x :: s.x <= x < s.x + n ==> Cell(s, s.y, x) == Console.ERASE
  }

  // A line that is blank but for its first cell.
  predicate LineIs(s: Console.Screen, row: int, first: int) {
    forall x :: 0 <= x < s.columns ==> Cell(s, row, x) == if x == 0 then first else Console.ERASE
  }

  predicate LinesAre(s: Console.Screen, from: int, to: int, first: int) {
    forall row :: from <= row < to ==> LineIs(s, row, first)
  }

  // The echo of c is undone by its rub-out. Bytes above 127 are negative, so they are
  // echoed like control characters.
  predicate Undone(s: Console.Screen, t: Termios, c: int) {
    if 32 <= c < DEL then t.erase == DEL && Free(s, 1)
    else if c == DEL || !t.echoctl then t.erase != DEL || s.x == 0
    else PairUndone(s, t.erase, c + 64)
  }

  // The same for ^ and d. If d is not a visible character, it takes luck: two DELs have to
  // make up for ^ and for whatever d does.
  predicate PairUndone(s: Console.Screen, erase: int, d: int) {
    if d >= 32 then erase == DEL && Free(s, 2)
    else if 10 <= d <= 12 then erase == DEL && s.x == 0 && LineFeedUndone(s)
    else if d == 13 then s.x == 0 && Cell(s, s.y, 0) == CaretCell(s)
    else if d == erase && d != 27 then Free(s, 1)
    else if d == 8 then s.x < s.columns && Cell(s, s.y, s.x) == CaretCell(s) && (erase != DEL || s.x == 0)
    else if d == 9 then
      if s.x < s.columns then erase == DEL && s.x % 8 == 6 && Free(s, 2) else erase != DEL && TabUndone(s)
    else erase == DEL && Free(s, 1) && (d == 27 || s.x == 0)
  }

  // A line feed that scrolls: the scrolled screen must look as before.
  predicate LineFeedUndone(s: Console.Screen) {
    s.y + 1 >= s.bottom &&
    if s.y < s.bottom then LineIs(s, s.y, Console.ERASE) && LinesAre(s, s.top, s.y, CaretCell(s))
    else Cell(s, s.y, 0) == Console.ERASE && LinesAre(s, s.top, s.bottom, Console.ERASE)
  }

  // ^ behind the last of eight columns scrolls, and the tab leads back to where it was.
  predicate TabUndone(s: Console.Screen) {
    s.columns == 8 && s.y + 1 >= s.bottom &&
    if s.y < s.bottom then LinesAre(s, s.top, s.y + 1, CaretCell(s))
    else Cell(s, s.y, 0) == CaretCell(s) && LinesAre(s, s.top, s.bottom, Console.ERASE)
  }

  // ---------- Single bytes ----------

  lemma CellsOfLine(s: Console.Screen, row: int, x: int)
    requires Console.Ok(s) && 0 <= row < s.lines && 0 <= x < s.columns
    ensures 0 <= s.Row(row) && s.Row(row) + s.columns <= |s.cells|
    ensures Cell(s, row, x) == s.cells[s.Row(row) + x]
  {
    Console.Rows(s, row, row + 1);
  }

  // The screen after a visible character that fits in the line.
  ghost function Put(s: Console.Screen, c: int): Console.Screen
    requires 0 <= s.At() < |s.cells|
  {
    s.(cells := s.cells[s.At() := s.attr * 256 + c], x := s.x + 1)
  }

  lemma PutIsShown(s: Console.Screen, erase: int, c: int)
    requires Ready(s) && 32 <= c < DEL && s.x < s.columns
    ensures 0 <= s.At() < |s.cells| && Console.Byte(s, c, erase) == Put(s, c) && Ready(Put(s, c))
  {
    CellsOfLine(s, s.y, s.x);
    Console.ByteKeepsOk(s, c, erase);
  }

  // The screen after DEL.
  ghost function Deleted(s: Console.Screen, erase: int): Console.Screen
    requires Ready(s)
  {
    if erase == DEL && s.x > 0 then
      CellsOfLine(s, s.y, s.x - 1);
      s.(cells := s.cells[s.At() - 1 := Console.ERASE], x := s.x - 1)
    else s
  }

  lemma DeletedIsShown(s: Console.Screen, erase: int)
    requires Ready(s)
    ensures Console.Byte(s, DEL, erase) == Deleted(s, erase) && Ready(Deleted(s, erase))
  {
    Console.ByteKeepsOk(s, DEL, erase);
    if erase == DEL && s.x > 0 {
      CellsOfLine(s, s.y, s.x - 1);
      assert Console.Fill(s.cells, s.At() - 1, s.At()) == s.cells[s.At() - 1 := Console.ERASE];
    }
  }

  ghost function DeletedTwice(s: Console.Screen, erase: int): Console.Screen
    requires Ready(s)
  {
    DeletedIsShown(s, erase);
    Deleted(Deleted(s, erase), erase)
  }

  lemma DeletedTwiceIsShown(s: Console.Screen, erase: int)
    requires Ready(s)
    ensures Console.Ok(Console.Byte(s, DEL, erase))
    ensures Console.Byte(Console.Byte(s, DEL, erase), DEL, erase) == DeletedTwice(s, erase)
  {
    DeletedIsShown(s, erase);
    DeletedIsShown(Deleted(s, erase), erase);
  }

  // ---------- One character, or none ----------

  // Restoring a cell by blanking it.
  lemma BlankedTwice(s: Console.Screen, v: int)
    requires Ready(s) && s.x < s.columns
    ensures 0 <= s.At() < |s.cells|
    ensures s.cells[s.At() := v][s.At() := Console.ERASE] == s.cells[s.At() := Console.ERASE]
    ensures s.cells[s.At() := Console.ERASE] == s.cells <==> Free(s, 1)
  {
    CellsOfLine(s, s.y, s.x);
    var g := s.cells[s.At() := Console.ERASE];
    assert g[s.At()] == Console.ERASE;
    if Free(s, 1) { assert g == s.cells; }
  }

  lemma RuboutOfOne(s: Console.Screen, erase: int, c: int)
    requires Ready(s) && 32 <= c < DEL
    ensures Shown(s, erase, [c, DEL]) == s <==> erase == DEL && Free(s, 1)
  {
    ShownTwo(s, erase, c, DEL);
    if s.x < s.columns {
      PutIsShown(s, erase, c);
      BlankedTwice(s, s.attr * 256 + c);
      DeletedIsShown(Put(s, c), erase);
    } else {
      WrapIsShown(s, erase, c);
      DeletedIsShown(Console.Byte(s, c, erase), erase);
    }
  }

  // Past the last column a character goes to the next line.
  lemma WrapIsShown(s: Console.Screen, erase: int, c: int)
    requires Ready(s) && 32 <= c < DEL && s.x == s.columns
    ensures Ready(Console.Byte(s, c, erase)) && Console.Byte(s, c, erase).x == 1
    ensures s.y + 1 < s.bottom ==> Console.Byte(s, c, erase).y != s.y
    ensures s.y + 1 >= s.bottom ==>
              0 <= s.Row(s.y) < |s.cells| &&
              Console.Byte(s, c, erase) ==
                s.(cells := Console.ScrollUp(s).cells[s.Row(s.y) := s.attr * 256 + c], x := 1)
  {
    Console.ByteKeepsOk(s, c, erase);
    CellsOfLine(s, s.y, 0);
    if s.y + 1 < s.bottom { CellsOfLine(s, s.y + 1, 0); }
  }

  lemma RuboutOfNothing(s: Console.Screen, erase: int)
    requires Ready(s)
    ensures Shown(s, erase, [DEL, DEL]) == s <==> erase != DEL || s.x == 0
  {
    ShownTwo(s, erase, DEL, DEL);
    DeletedTwiceIsShown(s, erase);
  }

  // ---------- ^ and a second byte ----------

  lemma CaretShows(s: Console.Screen)
    ensures CaretCell(s) != Console.ERASE
  {
    assert CaretCell(s) % 256 == CARET;
  }

  // ^ in the line, then d, then two DELs.
  ghost function Rubbed(s: Console.Screen, erase: int, d: int): Console.Screen
    requires Ready(s) && IsByte(d)
  {
    Console.ByteKeepsOk(s, CARET, erase);
    var s1 := Console.Byte(s, CARET, erase);
    Console.ByteKeepsOk(s1, d, erase);
    var s2 := Console.Byte(s1, d, erase);
    Console.ByteKeepsOk(s2, DEL, erase);
    Console.Byte(Console.Byte(s2, DEL, erase), DEL, erase)
  }

  lemma PairOfVisible(s: Console.Screen, erase: int, d: int)
    requires Ready(s) && 32 <= d < DEL && s.x + 2 <= s.columns
    ensures Rubbed(s, erase, d) == s <==> erase == DEL && Free(s, 2)
  {
    PutIsShown(s, erase, CARET);
    var s1 := Put(s, CARET);
    PutIsShown(s1, erase, d);
    var s2 := Put(s1, d);
    DeletedTwiceIsShown(s2, erase);
    CellsOfLine(s, s.y, s.x);
    CellsOfLine(s, s.y, s.x + 1);
    if erase == DEL {
      var g := s.cells[s.At() := Console.ERASE][s.At() + 1 := Console.ERASE];
      assert DeletedTwice(s2, erase).cells == g;
      assert g[s.At()] == g[s.At() + 1] == Console.ERASE;
      if Free(s, 2) { assert g == s.cells; }
    }
  }

  lemma PairOfEscape(s: Console.Screen, erase: int)
    requires Ready(s) && s.x < s.columns
    ensures Rubbed(s, erase, 27) == s <==> erase == DEL && Free(s, 1)
  {
    PutIsShown(s, erase, CARET);
    var s1 := Put(s, CARET);
    Console.ByteKeepsOk(s1, 27, erase);
    assert Console.Byte(Console.Byte(s1, 27, erase), DEL, erase) == s1;
    BlankedTwice(s, CaretCell(s));
    DeletedIsShown(s1, erase);
  }

  // d does nothing on the screen.
  lemma PairOfSilent(s: Console.Screen, erase: int, d: int)
    requires Ready(s) && s.x < s.columns && IsByte(d) && d < 32 && d != 27 && d != erase && !(8 <= d <= 13)
    ensures Rubbed(s, erase, d) == s <==> erase == DEL && Free(s, 1) && s.x == 0
  {
    PutIsShown(s, erase, CARET);
    var s1 := Put(s, CARET);
    assert Console.Byte(s1, d, erase) == s1;
    DeletedTwiceIsShown(s1, erase);
    BlankedTwice(s, CaretCell(s));
  }

  lemma PairOfErase(s: Console.Screen, erase: int)
    requires Ready(s) && s.x < s.columns && 0 <= erase < 32 && erase != 27 && !(10 <= erase <= 13)
    ensures Rubbed(s, erase, erase) == s <==> Free(s, 1)
  {
    PutIsShown(s, erase, CARET);
    var s1 := Put(s, CARET);
    BlankedTwice(s, CaretCell(s));
    assert Console.Fill(s1.cells, s.At(), s.At() + 1) == s1.cells[s.At() := Console.ERASE];
    assert Console.Byte(s1, erase, erase) == s.(cells := s.cells[s.At() := Console.ERASE]);
    Console.ByteKeepsOk(s1, erase, erase);
    DeletedTwiceIsShown(Console.Byte(s1, erase, erase), erase);
  }

  lemma PairOfBackspace(s: Console.Screen, erase: int)
    requires Ready(s) && s.x < s.columns && erase != 8
    ensures Rubbed(s, erase, 8) == s <==> Cell(s, s.y, s.x) == CaretCell(s) && (erase != DEL || s.x == 0)
  {
    PutIsShown(s, erase, CARET);
    var s1 := Put(s, CARET);
    var s2 := s1.(x := s.x);
    assert Console.Byte(s1, 8, erase) == s2;
    Console.ByteKeepsOk(s1, 8, erase);
    DeletedTwiceIsShown(s2, erase);
    CellsOfLine(s, s.y, s.x);
    assert s1.cells[s.At()] == CaretCell(s);
    if Cell(s, s.y, s.x) == CaretCell(s) { assert s1.cells == s.cells; }
  }

  lemma PairOfReturn(s: Console.Screen, erase: int)
    requires Ready(s) && s.x < s.columns
    ensures Rubbed(s, erase, 13) == s <==> s.x == 0 && Cell(s, s.y, 0) == CaretCell(s)
  {
    PutIsShown(s, erase, CARET);
    var s1 := Put(s, CARET);
    var s2 := s1.(x := 0);
    assert Console.Byte(s1, 13, erase) == s2;
    Console.ByteKeepsOk(s1, 13, erase);
    DeletedTwiceIsShown(s2, erase);
    CellsOfLine(s, s.y, s.x);
    assert s1.cells[s.At()] == CaretCell(s);
    if s.x == 0 && Cell(s, s.y, 0) == CaretCell(s) { assert s1.cells == s.cells; }
  }

  // The tab stop after ^.
  function Stop(x: int): int { x + 9 - (x + 1) % 8 }

  lemma PairOfTab(s: Console.Screen, erase: int)
    requires Ready(s) && s.x < s.columns && erase != 9
    ensures Rubbed(s, erase, 9) == s <==> erase == DEL && s.x % 8 == 6 && Free(s, 2)
  {
    PutIsShown(s, erase, CARET);
    var s1 := Put(s, CARET);
    Console.ByteKeepsOk(s1, 9, erase);
    var s2 := Console.Byte(s1, 9, erase);
    DeletedTwiceIsShown(s2, erase);
    if Stop(s.x) <= s.columns {
      assert s2 == s1.(x := Stop(s.x));
      TabInLine(s, erase);
    } else {
      assert s2.x == Stop(s.x) - s.columns;
      TabIsElsewhere(s.x, s.columns);
    }
  }

  // Where a tab leads, it does not come back to after two DELs or none, unless ^ stands just
  // before a stop.
  lemma TabIsElsewhere(x: int, columns: int)
    requires 0 <= x < columns && columns >= 8 && columns % 2 == 0 && Stop(x) > columns
    ensures Stop(x) - columns != x && (if Stop(x) - columns > 2 then Stop(x) - columns - 2 else 0) != x
    ensures x % 8 == 6 ==> x + 2 > columns
  {
  }

  lemma TabInLine(s: Console.Screen, erase: int)
    requires Ready(s) && s.x < s.columns && Stop(s.x) <= s.columns && 0 <= s.At() < |s.cells|
    requires Ready(Put(s, CARET).(x := Stop(s.x)))
    ensures DeletedTwice(Put(s, CARET).(x := Stop(s.x)), erase) == s <==> erase == DEL && s.x % 8 == 6 && Free(s, 2)
  {
    var s2 := Put(s, CARET).(x := Stop(s.x));
    assert s2.x >= s.x + 2 && (s2.x == s.x + 2 <==> s.x % 8 == 6);
    if erase == DEL && s.x % 8 == 6 {
      CellsOfLine(s, s.y, s.x);
      CellsOfLine(s, s.y, s.x + 1);
      var g := s.cells[s.At() := Console.ERASE][s.At() + 1 := Console.ERASE];
      assert DeletedTwice(s2, erase).cells == g;
      assert g[s.At()] == g[s.At() + 1] == Console.ERASE;
      if Free(s, 2) { assert g == s.cells; }
    }
  }

  // ---------- Scrolling ----------

  lemma {:induction false} LineOf(s: Console.Screen, i: int, from: int, end: int) returns (row: int)
    requires Console.Ok(s) && 0 <= from < end <= s.lines && s.Row(from) <= i < s.Row(end)
    decreases end - from
    ensures from <= row < end && 0 <= i - s.Row(row) < s.columns
    ensures 0 <= i < |s.cells| && Cell(s, row, i - s.Row(row)) == s.cells[i]
  {
    Console.Rows(s, from, end);
    if i < s.Row(from + 1) {
      row := from;
      CellsOfLine(s, row, i - s.Row(row));
    } else {
      row := LineOf(s, i, from + 1, end);
    }
  }

  // The cells of g scrolled, with v put in front of the cursor's line afterwards.
  ghost function Rolled(s: Console.Screen, g: seq<int>, v: int): (r: seq<int>)
    requires Console.Ok(s) && |g| == |s.cells|
    ensures |r| == |s.cells|
  {
    CellsOfLine(s, s.y, 0);
    Console.ShiftLeft(g, s.Row(s.top), s.Row(s.bottom), s.columns)[s.Row(s.y) := v]
  }

  lemma RolledAt(s: Console.Screen, g: seq<int>, v: int, i: int)
    requires Console.Ok(s) && |g| == |s.cells| && 0 <= i < |g|
    ensures 0 <= s.Row(s.top) && s.Row(s.bottom) <= |g|
    ensures Rolled(s, g, v)[i] ==
              if i == s.Row(s.y) then v
              else if !(s.Row(s.top) <= i < s.Row(s.bottom)) then g[i]
              else if i + s.columns < s.Row(s.bottom) then g[i + s.columns] else Console.ERASE
  {
    Console.RegionFits(s);
    CellsOfLine(s, s.y, 0);
    Console.ShiftLeftAt(g, s.Row(s.top), s.Row(s.bottom), s.columns);
  }

  lemma RolledIsOk(s: Console.Screen, g: seq<int>, v: int)
    requires Console.Ok(s) && |g| == |s.cells|
    ensures Console.Ok(s.(cells := g)) && Console.Ok(s.(cells := Rolled(s, g, v)))
  {
  }

  lemma CellInRegion(s: Console.Screen, row: int, x: int)
    requires Console.Ok(s) && s.top <= row < s.bottom && 0 <= x < s.columns
    ensures s.Row(s.top) <= s.Row(row) + x < s.Row(s.bottom)
    ensures s.Row(row) + x + s.columns < s.Row(s.bottom) <==> row + 1 < s.bottom
    ensures s.Row(row + 1) == s.Row(row) + s.columns
  {
    Console.Rows(s, row, s.bottom);
    if s.top < row { Console.Rows(s, s.top, row); }
    if row + 1 < s.bottom { Console.Rows(s, row + 1, s.bottom); }
  }

  // What the cells of a line become.
  lemma RolledCell(s: Console.Screen, g: seq<int>, v: int, row: int, x: int)
    requires Console.Ok(s) && |g| == |s.cells| && s.top <= row < s.bottom && 0 <= x < s.columns
    ensures Console.Ok(s.(cells := g)) && Console.Ok(s.(cells := Rolled(s, g, v)))
    ensures row != s.y || x != 0 ==>
              Cell(s.(cells := Rolled(s, g, v)), row, x) ==
                if row + 1 < s.bottom then Cell(s.(cells := g), row + 1, x) else Console.ERASE
  {
    RolledIsOk(s, g, v);
    CellInRegion(s, row, x);
    CellsOfLine(s.(cells := Rolled(s, g, v)), row, x);
    if row != s.y || x != 0 {
      OtherCell(s, row, x);
      RolledAt(s, g, v, s.Row(row) + x);
      if row + 1 < s.bottom { CellsOfLine(s.(cells := g), row + 1, x); }
    }
  }

  lemma OtherCell(s: Console.Screen, row: int, x: int)
    requires Console.Ok(s) && 0 <= row < s.lines && 0 <= x < s.columns && (row != s.y || x != 0)
    ensures s.Row(row) + x != s.Row(s.y)
  {
    if row < s.y {
      Console.Rows(s, row, s.y);
    } else if row > s.y {
      Console.Rows(s, s.y, row);
    }
  }

  // s with v in front of the cursor's line.
  ghost function Marked(s: Console.Screen, v: int): (r: seq<int>)
    requires Console.Ok(s)
    ensures |r| == |s.cells|
  {
    CellsOfLine(s, s.y, 0);
    s.cells[s.Row(s.y) := v]
  }

  lemma MarkedCell(s: Console.Screen, v: int, row: int, x: int)
    requires Console.Ok(s) && 0 <= row < s.lines && 0 <= x < s.columns
    ensures Cell(s.(cells := Marked(s, v)), row, x) == if row == s.y && x == 0 then v else Cell(s, row, x)
  {
    CellsOfLine(s, row, x);
    CellsOfLine(s.(cells := Marked(s, v)), row, x);
    if row != s.y || x != 0 { OtherCell(s, row, x); }
  }

  // A screen that scrolls into itself has the same mark on every line.
  lemma {:induction false} MarksAbove(s: Console.Screen, u: int, v: int, row: int)
    requires Console.Ok(s) && s.y == s.bottom - 1 && Rolled(s, Marked(s, u), v) == s.cells && s.top <= row < s.y
    ensures LineIs(s, row, u)
    decreases s.y - row
  {
    if row + 1 < s.y {
      MarksAbove(s, u, v, row + 1);
    }
    forall x | 0 <= x < s.columns ensures Cell(s, row, x) == if x == 0 then u else Console.ERASE {
      RolledCell(s, Marked(s, u), v, row, x);
      MarkedCell(s, u, row + 1, x);
      if row + 1 == s.y && x != 0 { RolledCell(s, Marked(s, u), v, s.y, x); }
    }
  }

  lemma RollsIntoItself(s: Console.Screen, u: int, v: int)
    requires Console.Ok(s) && s.y == s.bottom - 1 && LineIs(s, s.y, v) && LinesAre(s, s.top, s.y, u)
    ensures Rolled(s, Marked(s, u), v) == s.cells
  {
    var r := Rolled(s, Marked(s, u), v);
    Console.RegionFits(s);
    forall i | 0 <= i < |s.cells| ensures r[i] == s.cells[i] {
      RolledAt(s, Marked(s, u), v, i);
      CellsOfLine(s, s.y, 0);
      if s.Row(s.top) <= i < s.Row(s.bottom) && i != s.Row(s.y) {
        var row := LineOf(s, i, s.top, s.bottom);
        var x := i - s.Row(row);
        RolledCell(s, Marked(s, u), v, row, x);
        CellsOfLine(s.(cells := r), row, x);
        if row < s.y {
          MarkedCell(s, u, row + 1, x);
          assert LineIs(s, row, u);
          if row + 1 < s.y { assert LineIs(s, row + 1, u); }
        }
      }
    }
  }

  // The cursor is on the last line of the region.
  lemma ScrollInside(s: Console.Screen, u: int, v: int)
    requires Console.Ok(s) && s.y == s.bottom - 1
    ensures Rolled(s, Marked(s, u), v) == s.cells <==> LineIs(s, s.y, v) && LinesAre(s, s.top, s.y, u)
  {
    if Rolled(s, Marked(s, u), v) == s.cells {
      forall row | s.top <= row < s.y ensures LineIs(s, row, u) { MarksAbove(s, u, v, row); }
      forall x | 0 <= x < s.columns ensures Cell(s, s.y, x) == if x == 0 then v else Console.ERASE {
        CellsOfLine(s, s.y, x);
        if x == 0 {
          RolledAt(s, Marked(s, u), v, s.Row(s.y));
        } else {
          RolledCell(s, Marked(s, u), v, s.y, x);
        }
      }
    } else if LineIs(s, s.y, v) && LinesAre(s, s.top, s.y, u) {
      RollsIntoItself(s, u, v);
    }
  }

  lemma {:induction false} BlanksAbove(s: Console.Screen, u: int, v: int, row: int)
    requires Console.Ok(s) && s.y >= s.bottom && Rolled(s, Marked(s, u), v) == s.cells && s.top <= row < s.bottom
    ensures LineIs(s, row, Console.ERASE)
    decreases s.bottom - row
  {
    if row + 1 < s.bottom {
      BlanksAbove(s, u, v, row + 1);
    }
    forall x | 0 <= x < s.columns ensures Cell(s, row, x) == Console.ERASE {
      RolledCell(s, Marked(s, u), v, row, x);
      if row + 1 < s.bottom { MarkedCell(s, u, row + 1, x); }
    }
  }

  lemma BlankRegionRolls(s: Console.Screen, u: int, v: int)
    requires Console.Ok(s) && s.y >= s.bottom && Cell(s, s.y, 0) == v && LinesAre(s, s.top, s.bottom, Console.ERASE)
    ensures Rolled(s, Marked(s, u), v) == s.cells
  {
    var r := Rolled(s, Marked(s, u), v);
    Console.RegionFits(s);
    CellsOfLine(s, s.y, 0);
    forall i | 0 <= i < |s.cells| ensures r[i] == s.cells[i] {
      RolledAt(s, Marked(s, u), v, i);
      if s.Row(s.top) <= i < s.Row(s.bottom) && i != s.Row(s.y) {
        var row := LineOf(s, i, s.top, s.bottom);
        var x := i - s.Row(row);
        RolledCell(s, Marked(s, u), v, row, x);
        CellsOfLine(s.(cells := r), row, x);
        assert LineIs(s, row, Console.ERASE);
        if row + 1 < s.bottom {
          MarkedCell(s, u, row + 1, x);
          assert LineIs(s, row + 1, Console.ERASE);
        }
      }
    }
  }

  // The cursor is below the region.
  lemma ScrollElsewhere(s: Console.Screen, u: int, v: int)
    requires Console.Ok(s) && s.y >= s.bottom
    ensures Rolled(s, Marked(s, u), v) == s.cells <==>
              Cell(s, s.y, 0) == v && LinesAre(s, s.top, s.bottom, Console.ERASE)
  {
    if Rolled(s, Marked(s, u), v) == s.cells {
      forall row | s.top <= row < s.bottom ensures LineIs(s, row, Console.ERASE) { BlanksAbove(s, u, v, row); }
      CellsOfLine(s, s.y, 0);
      RolledAt(s, Marked(s, u), v, s.Row(s.y));
    } else if Cell(s, s.y, 0) == v && LinesAre(s, s.top, s.bottom, Console.ERASE) {
      BlankRegionRolls(s, u, v);
    }
  }

  // ---------- ^ and what scrolls ----------

  lemma PairOfLineFeed(s: Console.Screen, erase: int, d: int)
    requires Ready(s) && s.x < s.columns && 10 <= d <= 12
    ensures Rubbed(s, erase, d) == s <==> erase == DEL && s.x == 0 && LineFeedUndone(s)
  {
    PutIsShown(s, erase, CARET);
    var s1 := Put(s, CARET);
    Console.ByteKeepsOk(s1, d, erase);
    var s2 := Console.Byte(s1, d, erase);
    assert s2 == Console.Lf(s1);
    DeletedTwiceIsShown(s2, erase);
    if s.y + 1 >= s.bottom && erase == DEL && s.x == 0 {
      assert s1.cells == Marked(s, CaretCell(s));
      assert s2.cells == Console.ShiftLeft(s1.cells, s.Row(s.top), s.Row(s.bottom), s.columns);
      assert DeletedTwice(s2, erase) == s.(cells := Rolled(s, Marked(s, CaretCell(s)), Console.ERASE));
      if s.y < s.bottom {
        ScrollInside(s, CaretCell(s), Console.ERASE);
      } else {
        ScrollElsewhere(s, CaretCell(s), Console.ERASE);
      }
    }
  }

  lemma PairWrapped(s: Console.Screen, erase: int, d: int)
    requires Ready(s) && s.x == s.columns && -64 <= d < DEL && (d != 9 || erase == 9)
    ensures Rubbed(s, erase, d) != s
  {
    WrapIsShown(s, erase, CARET);
    var s1 := Console.Byte(s, CARET, erase);
    Console.ByteKeepsOk(s1, d, erase);
    var s2 := Console.Byte(s1, d, erase);
    if d == 27 {
      assert Console.Byte(s2, DEL, erase) == s1;
      DeletedIsShown(s1, erase);
    } else {
      assert s2.x <= 2 && s2.esc.state == 0;
      DeletedTwiceIsShown(s2, erase);
    }
  }

  lemma PairOfWrappedTab(s: Console.Screen, erase: int)
    requires Ready(s) && s.x == s.columns && erase != 9
    ensures Rubbed(s, erase, 9) == s <==> erase != DEL && TabUndone(s)
  {
    WrapIsShown(s, erase, CARET);
    var s1 := Console.Byte(s, CARET, erase);
    Console.ByteKeepsOk(s1, 9, erase);
    var s2 := Console.Byte(s1, 9, erase);
    assert s2 == s1.(x := 8);
    DeletedTwiceIsShown(s2, erase);
    if s.y + 1 >= s.bottom && erase != DEL && s.columns == 8 {
      assert s2 == s.(cells := Rolled(s, s.cells, CaretCell(s)));
      SameMark(s);
      if s.y < s.bottom {
        ScrollInside(s, CaretCell(s), CaretCell(s));
        assert LinesAre(s, s.top, s.y + 1, CaretCell(s)) <==>
               LineIs(s, s.y, CaretCell(s)) && LinesAre(s, s.top, s.y, CaretCell(s));
      } else {
        ScrollElsewhere(s, CaretCell(s), CaretCell(s));
      }
    }
  }

  lemma SameMark(s: Console.Screen)
    requires Console.Ok(s)
    ensures Rolled(s, s.cells, CaretCell(s)) == s.cells <==> Rolled(s, Marked(s, CaretCell(s)), CaretCell(s)) == s.cells
  {
    CellsOfLine(s, s.y, 0);
    RolledAt(s, s.cells, CaretCell(s), s.Row(s.y));
    RolledAt(s, Marked(s, CaretCell(s)), CaretCell(s), s.Row(s.y));
    if s.cells[s.Row(s.y)] == CaretCell(s) { assert Marked(s, CaretCell(s)) == s.cells; }
  }

  // ---------- All characters ----------

  lemma RuboutOfPair(s: Console.Screen, erase: int, d: int)
    requires Ready(s) && -64 <= d < 96 && 0 <= erase < 256
    ensures Shown(s, erase, [CARET, d, DEL, DEL]) == s <==> PairUndone(s, erase, d)
  {
    ShownTwo(s, erase, CARET, d);
    ShownFour(s, erase, CARET, d, DEL, DEL);
    assert Shown(s, erase, [CARET, d, DEL, DEL]) == Rubbed(s, erase, d);
    if s.x == s.columns {
      if d == 9 && erase != 9 { PairOfWrappedTab(s, erase); } else { PairWrapped(s, erase, d); }
    } else if d >= 32 {
      if s.x + 2 <= s.columns { PairOfVisible(s, erase, d); } else { PairAtTheEnd(s, erase, d); }
    } else {
      CaretInLine(s, erase, d);
    }
  }

  // ^ in the last column and d at the beginning of the next line.
  lemma PairAtTheEnd(s: Console.Screen, erase: int, d: int)
    requires Ready(s) && 32 <= d < DEL && s.x + 1 == s.columns
    ensures Rubbed(s, erase, d) != s
  {
    PutIsShown(s, erase, CARET);
    WrapIsShown(Put(s, CARET), erase, d);
    DeletedTwiceIsShown(Console.Byte(Put(s, CARET), d, erase), erase);
  }

  lemma CaretInLine(s: Console.Screen, erase: int, d: int)
    requires Ready(s) && s.x < s.columns && -64 <= d < 32 && 0 <= erase < 256
    ensures Rubbed(s, erase, d) == s <==> PairUndone(s, erase, d)
  {
    if 10 <= d <= 12 { PairOfLineFeed(s, erase, d); }
    else if d == 13 { PairOfReturn(s, erase); }
    else if d == 27 { PairOfEscape(s, erase); }
    else if d == erase { PairOfErase(s, erase); }
    else if d == 8 { PairOfBackspace(s, erase); }
    else if d == 9 { PairOfTab(s, erase); }
    else { PairOfSilent(s, erase, d); }
  }

  // Echoing a byte other than a new line and rubbing it out leaves any screen that is not
  // inside an escape sequence as it was, exactly under the condition `Undone`.
  lemma RuboutMatchesEcho(s: Console.Screen, t: Termios, c: int)
    requires Ready(s) && IsByte(c) && c != NL && 0 <= t.erase < 256
    ensures Bytes(Echo(t, c) + Rubout(c))
    ensures Shown(s, t.erase, Echo(t, c) + Rubout(c)) == s <==> Undone(s, t, c)
  {
    if 32 <= c < DEL {
      assert Echo(t, c) + Rubout(c) == [c, DEL];
      RuboutOfOne(s, t.erase, c);
    } else if c == DEL || !t.echoctl {
      assert Echo(t, c) + Rubout(c) == [DEL, DEL];
      RuboutOfNothing(s, t.erase);
    } else {
      assert Echo(t, c) + Rubout(c) == [CARET, c + 64, DEL, DEL];
      RuboutOfPair(s, t.erase, c + 64);
    }
  }

  function BlankScreen(x: int): Console.Screen {
    var esc := Console.Parser(0, 0, seq(Console.NPAR, i => 0), false);
    Console.Screen(80, 25, seq(2000, i => Console.ERASE), x, 0, 0, 25, 7, 0, 0, esc)
  }

  lemma BlankIsReady(x: int)
    requires 0 <= x <= 80
    ensures Ready(BlankScreen(x)) && BlankScreen(x).At() == x
  {
    Console.MulIsProduct(25, 80);
  }

  // With the usual settings ^A in the last column is echoed across the line end, and its
  // rub-out ends at the beginning of the next line.
  lemma RuboutFailsAtLineEnd(t: Termios)
    requires t.echoctl && t.erase == DEL
    ensures Echo(t, 1) + Rubout(1) == [CARET, 'A' as int, DEL, DEL] && Ready(BlankScreen(79))
    ensures var s := Shown(BlankScreen(79), DEL, [CARET, 'A' as int, DEL, DEL]); s.x == 0 && s.y == 1
  {
    BlankIsReady(79);
    var s := BlankScreen(79);
    ShownTwo(s, DEL, CARET, 'A' as int);
    ShownFour(s, DEL, CARET, 'A' as int, DEL, DEL);
    PutIsShown(s, DEL, CARET);
    var s1 := Put(s, CARET);
    WrapIsShown(s1, DEL, 'A' as int);
    var s2 := Console.Byte(s1, 'A' as int, DEL);
    CellsOfLine(s1, 1, 0);
    assert s2.y == 1;
    DeletedTwiceIsShown(s2, DEL);
  }

  // Meta-A is echoed as ^ and an invisible byte, and its rub-out takes two columns; with
  // ^H as the erase character the DEL of a rub-out does nothing.
  lemma RuboutFailsExamples(t: Termios)
    requires t.echoctl
    ensures Ready(BlankScreen(10))
    ensures var u, v := t.(erase := DEL), t.(erase := 8);
            Echo(u, -63) + Rubout(-63) == [CARET, 1, DEL, DEL] &&
            Shown(BlankScreen(10), DEL, [CARET, 1, DEL, DEL]).x == 9 &&
            Echo(v, 'a' as int) + Rubout('a' as int) == ['a' as int, DEL] &&
            Shown(BlankScreen(10), 8, ['a' as int, DEL]).x == 11
  {
    BlankIsReady(10);
    var s := BlankScreen(10);
    ShownTwo(s, DEL, CARET, 1);
    ShownFour(s, DEL, CARET, 1, DEL, DEL);
    PutIsShown(s, DEL, CARET);
    DeletedTwiceIsShown(Put(s, CARET), DEL);
    ShownTwo(s, 8, 'a' as int, DEL);
    PutIsShown(s, 8, 'a' as int);
  }
}
