module Sequences {
  // The escape and control sequences of con_write (kernel/chr_drv/console.c) as the bytes
  // that a program writes: ESC c, ESC [ n c and ESC [ n ; m c, the numbers in decimal.

  import Arithmetic
  import Console
  import opened Echoes

  const ESC := 27
  const BRACKET := '[' as int
  const SEMICOLON := ';' as int
  const U32 := 0x1_0000_0000

  // ---------- Numbers ----------

  function Decimal(n: nat): seq<int> {
    if n < 10 then ['0' as int + n] else Decimal(n / 10) + ['0' as int + n % 10]
  }

  lemma {:induction false} DecimalIsDigits(n: nat)
    ensures Bytes(Decimal(n)) && Decimal(n) != []
    ensures forall i :: 0 <= i < |Decimal(n)| ==> '0' as int <= Decimal(n)[i] <= '9' as int
  {
    if n >= 10 { DecimalIsDigits(n / 10); }
  }

  lemma NextDigit(q: nat, d: nat)
    requires d < 10
    ensures (10 * (q % U32) + d) % U32 == (10 * q + d) % U32
  {
    var k, r := q / U32, q % U32;
    var y := 10 * r + d;
    Arithmetic.DivModUnique(10 * q + d, 10 * k + y / U32, y % U32, U32);
  }

  // ---------- Reading a sequence ----------

  lemma {:induction false} ShownConcat(s: Console.Screen, erase: int, a: seq<int>, b: seq<int>)
    requires Console.Ok(s) && Bytes(a) && Bytes(b)
    ensures Bytes(a + b) && Console.Ok(Shown(s, erase, a))
    ensures Shown(s, erase, a + b) == Shown(Shown(s, erase, a), erase, b)
  {
    if b == [] {
      assert a + b == a;
    } else {
      var b0, c := b[..|b| - 1], b[|b| - 1];
      ShownConcat(s, erase, a, b0);
      calc {
        Shown(s, erase, a + b);
        { assert a + b == (a + b0) + [c]; ShownSnoc(s, erase, a + b0, c); }
        Console.Byte(Shown(s, erase, a + b0), c, erase);
        Console.Byte(Shown(Shown(s, erase, a), erase, b0), c, erase);
        { assert b == b0 + [c]; ShownSnoc(Shown(s, erase, a), erase, b0, c); }
        Shown(Shown(s, erase, a), erase, b);
      }
    }
  }

  lemma ShownOne(s: Console.Screen, erase: int, c: int)
    requires Console.Ok(s) && IsByte(c)
    ensures Shown(s, erase, [c]) == Console.Byte(s, c, erase)
  {
    ShownSnoc(s, erase, [], c);
    assert [] + [c] == [c];
  }

  // The parser has read ESC [ and some parameters.
  ghost predicate InParams(s: Console.Screen) { Console.Ok(s) && s.esc.state == 3 }

  function WithParam(s: Console.Screen, p: int): Console.Screen
    requires 0 <= s.esc.npar < |s.esc.par|
  {
    s.(esc := s.esc.(par := s.esc.par[s.esc.npar := p]))
  }

  lemma DigitIsRead(s: Console.Screen, erase: int, d: nat)
    requires InParams(s) && d < 10
    ensures Console.Byte(s, '0' as int + d, erase) == WithParam(s, (10 * s.esc.par[s.esc.npar] + d) % U32)
  {
  }

  lemma {:induction false} NumberIsRead(s: Console.Screen, erase: int, n: nat)
    requires InParams(s) && s.esc.par[s.esc.npar] == 0
    ensures Bytes(Decimal(n)) && Shown(s, erase, Decimal(n)) == WithParam(s, n % U32)
  {
    DecimalIsDigits(n);
    if n < 10 {
      ShownOne(s, erase, '0' as int + n);
      DigitIsRead(s, erase, n);
    } else {
      NumberIsRead(s, erase, n / 10);
      ShownSnoc(s, erase, Decimal(n / 10), '0' as int + n % 10);
      DigitIsRead(WithParam(s, n / 10 % U32), erase, n % 10);
      NextDigit(n / 10, n % 10);
    }
  }

  // The screen at the first parameter.
  function AtParams(s: Console.Screen): Console.Screen { s.(esc := Console.NoParams(false)) }

  lemma SequenceBegins(s: Console.Screen, erase: int, bytes: seq<int>)
    requires Ready(s) && Bytes(bytes) && bytes != [] && bytes[0] != '?' as int
    ensures InParams(AtParams(s)) && Bytes([ESC, BRACKET] + bytes)
    ensures Shown(s, erase, [ESC, BRACKET] + bytes) == Shown(AtParams(s), erase, bytes)
  {
    ShownTwo(s, erase, ESC, BRACKET);
    ShownConcat(s, erase, [ESC, BRACKET], bytes);
    var s2, first, rest := Shown(s, erase, [ESC, BRACKET]), [bytes[0]], bytes[1..];
    assert bytes == first + rest;
    ShownOne(s2, erase, bytes[0]);
    ShownOne(AtParams(s), erase, bytes[0]);
    ShownConcat(s2, erase, first, rest);
    ShownConcat(AtParams(s), erase, first, rest);
  }

  // A letter, not a digit or a separator.
  predicate IsFinal(c: char) { c < 128 as char && !('0' <= c <= '9') && c != ';' && c != '?' }

  // The screen on which the command is carried out.
  function Parsed(s: Console.Screen, p0: int, p1: int, npar: int): Console.Screen {
    s.(esc := Console.Parser(0, npar, seq(Console.NPAR, i => if i == 0 then p0 else if i == 1 then p1 else 0), false))
  }

  function Csi(n: nat, c: char): seq<int> { [ESC, BRACKET] + (Decimal(n) + [c as int]) }

  function Csi2(n: nat, m: nat, c: char): seq<int> {
    [ESC, BRACKET] + (Decimal(n) + ([SEMICOLON] + (Decimal(m) + [c as int])))
  }

  lemma CommandIsRun(s: Console.Screen, erase: int, c: char)
    requires InParams(s) && IsFinal(c)
    ensures Shown(s, erase, [c as int]) == Console.Command(Console.SetState(s, 0), c)
  {
    ShownOne(s, erase, c as int);
  }

  // ESC [ n c runs command c with the parameter n, taken modulo 2^32.
  lemma SequenceIsRun(s: Console.Screen, erase: int, n: nat, c: char)
    requires Ready(s) && IsFinal(c)
    ensures Bytes(Csi(n, c)) && Shown(s, erase, Csi(n, c)) == Console.Command(Parsed(s, n % U32, 0, 0), c)
  {
    var s3, digits := AtParams(s), Decimal(n);
    DecimalIsDigits(n);
    SequenceBegins(s, erase, digits + [c as int]);
    NumberIsRead(s3, erase, n);
    ShownConcat(s3, erase, digits, [c as int]);
    CommandIsRun(WithParam(s3, n % U32), erase, c);
    assert Console.SetState(WithParam(s3, n % U32), 0) == Parsed(s, n % U32, 0, 0);
  }

  // ... and has come to the second one.
  function AtSecond(s: Console.Screen, p0: int): Console.Screen {
    s.(esc := Console.Parser(3, 1, Parsed(s, p0, 0, 1).esc.par, false))
  }

  lemma SeparatorIsRead(s: Console.Screen, erase: int, p0: int)
    requires Ready(s) && 0 <= p0 < U32
    ensures InParams(WithParam(AtParams(s), p0)) && InParams(AtSecond(s, p0))
    ensures Shown(WithParam(AtParams(s), p0), erase, [SEMICOLON]) == AtSecond(s, p0)
  {
    ShownOne(WithParam(AtParams(s), p0), erase, SEMICOLON);
    assert WithParam(AtParams(s), p0).esc.par == AtSecond(s, p0).esc.par;
  }

  lemma SecondNumber(s: Console.Screen, erase: int, p0: int, m: nat, c: char)
    requires Ready(s) && IsFinal(c) && 0 <= p0 < U32
    ensures InParams(AtSecond(s, p0)) && Bytes(Decimal(m) + [c as int])
    ensures Shown(AtSecond(s, p0), erase, Decimal(m) + [c as int]) ==
            Console.Command(Parsed(s, p0, m % U32, 1), c)
  {
    var b := AtSecond(s, p0);
    DecimalIsDigits(m);
    NumberIsRead(b, erase, m);
    ShownConcat(b, erase, Decimal(m), [c as int]);
    CommandIsRun(WithParam(b, m % U32), erase, c);
    assert Console.SetState(WithParam(b, m % U32), 0) == Parsed(s, p0, m % U32, 1);
  }

  lemma SequenceOfTwoIsRun(s: Console.Screen, erase: int, n: nat, m: nat, c: char)
    requires Ready(s) && IsFinal(c)
    ensures Bytes(Csi2(n, m, c))
    ensures Shown(s, erase, Csi2(n, m, c)) == Console.Command(Parsed(s, n % U32, m % U32, 1), c)
  {
    var tail := Decimal(m) + [c as int];
    var a := WithParam(AtParams(s), n % U32);
    DecimalIsDigits(n);
    DecimalIsDigits(m);
    SequenceBegins(s, erase, Decimal(n) + ([SEMICOLON] + tail));
    NumberIsRead(AtParams(s), erase, n);
    ShownConcat(AtParams(s), erase, Decimal(n), [SEMICOLON] + tail);
    SeparatorIsRead(s, erase, n % U32);
    ShownConcat(a, erase, [SEMICOLON], tail);
    SecondNumber(s, erase, n % U32, m, c);
  }

  // ---------- What the sequences do ----------

  // No number or 0 means 1.
  function Count(n: nat): nat { if n % U32 == 0 then 1 else n % U32 }

  // Columns and lines are numbered from 1; 0 means 1 too.
  function Coordinate(n: nat): int { if n % U32 == 0 then 0 else n % U32 - 1 }

  // The cursor is at (x, y), counted modulo 2^32, if that is on the screen, else where it
  // was; nothing else has changed.
  ghost predicate Moved(s: Console.Screen, r: Console.Screen, x: int, y: int) {
    r.(esc := s.esc) ==
      if x % U32 <= s.columns && y % U32 < s.lines then s.(x := x % U32, y := y % U32) else s
  }

  // Only the cells have changed.
  ghost predicate Redrawn(s: Console.Screen, r: Console.Screen) { r == s.(cells := r.cells, esc := r.esc) }

  ghost function After(s: Console.Screen, erase: int, n: nat, c: char): Console.Screen
    requires Ready(s) && IsFinal(c)
  {
    SequenceIsRun(s, erase, n, c);
    Shown(s, erase, Csi(n, c))
  }

  ghost function After2(s: Console.Screen, erase: int, n: nat, m: nat, c: char): Console.Screen
    requires Ready(s) && IsFinal(c)
  {
    SequenceOfTwoIsRun(s, erase, n, m, c);
    Shown(s, erase, Csi2(n, m, c))
  }

  lemma MovesTo(s: Console.Screen, erase: int, n: nat, c: char, x: int, y: int)
    requires Ready(s) && IsFinal(c) && Console.Moves(c) && Console.Target(Parsed(s, n % U32, 0, 0), c) == (x, y)
    ensures Moved(s, After(s, erase, n, c), x, y)
  {
    SequenceIsRun(s, erase, n, c);
  }

  lemma MovesToBoth(s: Console.Screen, erase: int, n: nat, m: nat, c: char, x: int, y: int)
    requires Ready(s) && IsFinal(c) && Console.Moves(c) && Console.Target(Parsed(s, n % U32, m % U32, 1), c) == (x, y)
    ensures Moved(s, After2(s, erase, n, m, c), x, y)
  {
    SequenceOfTwoIsRun(s, erase, n, m, c);
  }

  // CUU, CUD, CUF and CUB: up, down, forward and back.
  lemma StepsUp(s: Console.Screen, erase: int, n: nat)
    requires Ready(s)
    ensures Moved(s, After(s, erase, n, 'A'), s.x, s.y - Count(n))
  {
    MovesTo(s, erase, n, 'A', s.x, s.y - Count(n));
  }

  lemma StepsDown(s: Console.Screen, erase: int, n: nat, c: char)
    requires Ready(s) && (c == 'B' || c == 'e')
    ensures Moved(s, After(s, erase, n, c), s.x, s.y + Count(n))
  {
    MovesTo(s, erase, n, c, s.x, s.y + Count(n));
  }

  lemma StepsForward(s: Console.Screen, erase: int, n: nat, c: char)
    requires Ready(s) && (c == 'C' || c == 'a')
    ensures Moved(s, After(s, erase, n, c), s.x + Count(n), s.y)
  {
    MovesTo(s, erase, n, c, s.x + Count(n), s.y);
  }

  lemma StepsBack(s: Console.Screen, erase: int, n: nat)
    requires Ready(s)
    ensures Moved(s, After(s, erase, n, 'D'), s.x - Count(n), s.y)
  {
    MovesTo(s, erase, n, 'D', s.x - Count(n), s.y);
  }

  // CNL and CPL: lines below and above, from the left margin.
  lemma LineSteps(s: Console.Screen, erase: int, n: nat)
    requires Ready(s)
    ensures Moved(s, After(s, erase, n, 'E'), 0, s.y + Count(n))
    ensures Moved(s, After(s, erase, n, 'F'), 0, s.y - Count(n))
  {
    MovesTo(s, erase, n, 'E', 0, s.y + Count(n));
    MovesTo(s, erase, n, 'F', 0, s.y - Count(n));
  }

  // CHA, HPA and VPA: to a column, to a line ...
  lemma CursorPlaces(s: Console.Screen, erase: int, n: nat)
    requires Ready(s)
    ensures Moved(s, After(s, erase, n, 'G'), Coordinate(n), s.y)
    ensures Moved(s, After(s, erase, n, '`'), Coordinate(n), s.y)
    ensures Moved(s, After(s, erase, n, 'd'), s.x, Coordinate(n))
  {
    MovesTo(s, erase, n, 'G', Coordinate(n), s.y);
    MovesTo(s, erase, n, '`', Coordinate(n), s.y);
    MovesTo(s, erase, n, 'd', s.x, Coordinate(n));
  }

  // ... CUP and HVP: to both.
  lemma CursorPositions(s: Console.Screen, erase: int, n: nat, m: nat)
    requires Ready(s)
    ensures Moved(s, After2(s, erase, n, m, 'H'), Coordinate(m), Coordinate(n))
    ensures Moved(s, After2(s, erase, n, m, 'f'), Coordinate(m), Coordinate(n))
  {
    MovesToBoth(s, erase, n, m, 'H', Coordinate(m), Coordinate(n));
    MovesToBoth(s, erase, n, m, 'f', Coordinate(m), Coordinate(n));
  }

  // As long as numbers are below 2^31 the counting modulo 2^32 does not show: a move that
  // would leave the screen is not made at all, any other is made in full.
  lemma MovedOnScreen(s: Console.Screen, r: Console.Screen, x: int, y: int)
    requires Ready(s) && Moved(s, r, x, y) && -(U32 / 2) < x < U32 && -(U32 / 2) < y < U32
    ensures r.(esc := s.esc) == if 0 <= x <= s.columns && 0 <= y < s.lines then s.(x := x, y := y) else s
  {
    assert x % U32 == (if x < 0 then x + U32 else x) && y % U32 == (if y < 0 then y + U32 else y);
  }

  lemma CountIs(n: nat)
    requires 0 < n < U32
    ensures Count(n) == n
  {
  }

  lemma UpOnScreen(s: Console.Screen, erase: int, n: nat)
    requires Ready(s) && 0 < n < U32 / 2
    ensures After(s, erase, n, 'A').(esc := s.esc) == if n <= s.y then s.(y := s.y - n) else s
  {
    CountIs(n);
    StepsUp(s, erase, n);
    MovedOnScreen(s, After(s, erase, n, 'A'), s.x, s.y - n);
  }

  lemma DownOnScreen(s: Console.Screen, erase: int, n: nat)
    requires Ready(s) && 0 < n < U32 / 2
    ensures After(s, erase, n, 'B').(esc := s.esc) == if s.y + n < s.lines then s.(y := s.y + n) else s
  {
    CountIs(n);
    StepsDown(s, erase, n, 'B');
    MovedOnScreen(s, After(s, erase, n, 'B'), s.x, s.y + n);
  }

  // A very large step up goes down.
  lemma StepUpGoesDown(s: Console.Screen, erase: int)
    requires Ready(s) && s.y + 1 < s.lines
    ensures After(s, erase, U32 - 1, 'A').(esc := s.esc) == s.(y := s.y + 1)
  {
    CountIs(U32 - 1);
    StepsUp(s, erase, U32 - 1);
    assert (s.y - (U32 - 1)) % U32 == s.y + 1 && s.x % U32 == s.x;
  }

  // Cell i after the cells [from, end) have moved up or down by k, blanks following.
  function MovedUp(g: seq<int>, from: int, end: int, k: int, i: int): int
    requires 0 <= from <= end <= |g| && 0 <= i < |g| && k >= 0
  {
    if !(from <= i < end) then g[i] else if i + k < end then g[i + k] else Console.ERASE
  }

  function MovedDown(g: seq<int>, from: int, end: int, k: int, i: int): int
    requires 0 <= from <= end <= |g| && 0 <= i < |g| && k >= 0
  {
    if !(from <= i < end) then g[i] else if i - k >= from then g[i - k] else Console.ERASE
  }

  // ED: from the cursor to the end, from the beginning to before the cursor, everything.
  lemma DisplayIsErased(s: Console.Screen, erase: int, n: nat, i: int)
    requires Ready(s) && 0 <= i < |s.cells|
    ensures var r, p := After(s, erase, n, 'J'), n % U32;
            Redrawn(s, r) && |r.cells| == |s.cells| &&
            r.cells[i] == if (p == 0 && i >= s.At()) || (p == 1 && i < s.At()) || p == 2 then Console.ERASE
                          else s.cells[i]
  {
    SequenceIsRun(s, erase, n, 'J');
    Console.CursorInside(s);
  }

  // EL: the same for the cursor's line.
  lemma LineIsErased(s: Console.Screen, erase: int, n: nat, i: int)
    requires Ready(s) && 0 <= i < |s.cells|
    ensures var r, p := After(s, erase, n, 'K'), n % U32;
            Redrawn(s, r) && |r.cells| == |s.cells| &&
            r.cells[i] ==
              if s.Row(s.y) <= i < s.Row(s.y + 1) &&
                 ((p == 0 && i >= s.At()) || (p == 1 && i < s.At()) || p == 2) then Console.ERASE
              else s.cells[i]
  {
    SequenceIsRun(s, erase, n, 'K');
    Console.CursorInside(s);
  }

  // ICH and DCH: the rest of the line moves away from the cursor or up to it.
  lemma CharsAreInserted(s: Console.Screen, erase: int, n: nat, i: int)
    requires Ready(s) && 0 <= i < |s.cells|
    ensures var r, k, here, end := After(s, erase, n, '@'), Count(n), s.At(), s.Row(s.y + 1);
            Redrawn(s, r) && |r.cells| == |s.cells| && 0 <= here <= end <= |s.cells| &&
            r.cells[i] == MovedDown(s.cells, here, end, k, i)
  {
    SequenceIsRun(s, erase, n, '@');
    Console.CursorInside(s);
    Console.ShiftRightAt(s.cells, s.At(), s.Row(s.y + 1), Count(n), s.Row(s.y + 1));
  }

  lemma CharsAreDeleted(s: Console.Screen, erase: int, n: nat, i: int)
    requires Ready(s) && 0 <= i < |s.cells|
    ensures var r, k, here, end := After(s, erase, n, 'P'), Count(n), s.At(), s.Row(s.y + 1);
            Redrawn(s, r) && |r.cells| == |s.cells| && 0 <= here <= end <= |s.cells| &&
            r.cells[i] == MovedUp(s.cells, here, end, k, i)
  {
    SequenceIsRun(s, erase, n, 'P');
    Console.CursorInside(s);
    Console.ShiftLeftAt(s.cells, s.At(), s.Row(s.y + 1), Count(n));
  }

  // IL and DL: the same for lines, from the cursor's line to the end of the screen.
  lemma LinesAreInserted(s: Console.Screen, erase: int, n: nat, i: int)
    requires Ready(s) && 0 <= i < |s.cells|
    ensures var r, k, here := After(s, erase, n, 'L'), Console.Mul(Count(n), s.columns), s.Row(s.y);
            Redrawn(s, r) && |r.cells| == |s.cells| && 0 <= here <= |s.cells| && k >= 0 &&
            r.cells[i] == MovedDown(s.cells, here, |s.cells|, k, i)
  {
    SequenceIsRun(s, erase, n, 'L');
    Console.CursorInside(s);
    Console.MulSize(Count(n), s.columns);
    Console.ShiftRightAt(s.cells, s.Row(s.y), |s.cells|, Console.Mul(Count(n), s.columns), |s.cells|);
  }

  lemma LinesAreDeleted(s: Console.Screen, erase: int, n: nat, i: int)
    requires Ready(s) && 0 <= i < |s.cells|
    ensures var r, k, here := After(s, erase, n, 'M'), Console.Mul(Count(n), s.columns), s.Row(s.y);
            Redrawn(s, r) && |r.cells| == |s.cells| && 0 <= here <= |s.cells| && k >= 0 &&
            r.cells[i] == MovedUp(s.cells, here, |s.cells|, k, i)
  {
    SequenceIsRun(s, erase, n, 'M');
    Console.CursorInside(s);
    Console.MulSize(Count(n), s.columns);
    Console.ShiftLeftAt(s.cells, s.Row(s.y), |s.cells|, Console.Mul(Count(n), s.columns));
  }

  // SGR: normal, bold or underlined, inverse.
  lemma AttributeIsSet(s: Console.Screen, erase: int, n: nat)
    requires Ready(s)
    ensures var p := n % U32;
            After(s, erase, n, 'm').(esc := s.esc) ==
              s.(attr := if p in {0, 27} then 0x07 else if p in {1, 4} then 0x0f else if p == 7 then 0x70 else s.attr)
  {
    SequenceIsRun(s, erase, n, 'm');
    var par := Parsed(s, n % U32, 0, 0).esc.par;
    assert Console.Attrs(par, 1, s.attr) == Console.Attr(par[0], Console.Attrs(par, 0, s.attr));
  }

  // DECSTBM: the scroll region, if it is one.
  lemma RegionIsSet(s: Console.Screen, erase: int, n: nat, m: nat)
    requires Ready(s)
    ensures var top, bottom := Coordinate(n), if m % U32 == 0 then s.lines else m % U32;
            After2(s, erase, n, m, 'r').(esc := s.esc) ==
              if top < bottom <= s.lines then s.(top := top, bottom := bottom) else s
  {
    SequenceOfTwoIsRun(s, erase, n, m, 'r');
  }

  // The sequences ESC c: index, reverse index and next line; save and restore.
  lemma LineEscapes(s: Console.Screen, erase: int)
    requires Ready(s)
    ensures Shown(s, erase, [ESC, 'D' as int]).(esc := s.esc) == Console.Lf(s)
    ensures Shown(s, erase, [ESC, 'M' as int]).(esc := s.esc) == Console.Ri(s)
    ensures Moved(s, Shown(s, erase, [ESC, 'E' as int]), 0, s.y + 1)
  {
    ShownTwo(s, erase, ESC, 'D' as int);
    ShownTwo(s, erase, ESC, 'M' as int);
    ShownTwo(s, erase, ESC, 'E' as int);
  }

  lemma CursorIsSaved(s: Console.Screen, erase: int)
    requires Ready(s)
    ensures Shown(s, erase, [ESC, '7' as int]).(esc := s.esc) == s.(savedX := s.x, savedY := s.y)
    ensures After(s, erase, 0, 's').(esc := s.esc) == s.(savedX := s.x, savedY := s.y)
  {
    ShownTwo(s, erase, ESC, '7' as int);
    SequenceIsRun(s, erase, 0, 's');
  }

  lemma CursorIsRestored(s: Console.Screen, erase: int)
    requires Ready(s)
    ensures Moved(s, Shown(s, erase, [ESC, '8' as int]), s.savedX, s.savedY)
    ensures Moved(s, After(s, erase, 0, 'u'), s.savedX, s.savedY)
  {
    ShownTwo(s, erase, ESC, '8' as int);
    MovesTo(s, erase, 0, 'u', s.savedX, s.savedY);
  }

  lemma RegionInside(s: Console.Screen)
    requires Ready(s)
    ensures 0 <= s.Row(s.top) <= s.Row(s.bottom) <= |s.cells|
  {
    Console.Rows(s, s.top, s.bottom);
    if s.bottom < s.lines { Console.Rows(s, s.bottom, s.lines); }
  }

  // A line feed goes down a line, or the region scrolls up at its lower end; a reverse line
  // feed the other way round.
  lemma LineFeeds(s: Console.Screen, i: int)
    requires Ready(s) && 0 <= i < |s.cells|
    ensures 0 <= s.Row(s.top) <= s.Row(s.bottom) <= |s.cells|
    ensures var r := Console.Lf(s);
            if s.y + 1 < s.bottom then r == s.(y := s.y + 1)
            else Redrawn(s, r) && |r.cells| == |s.cells| &&
                 r.cells[i] == MovedUp(s.cells, s.Row(s.top), s.Row(s.bottom), s.columns, i)
    ensures var r := Console.Ri(s);
            if s.y > s.top then r == s.(y := s.y - 1)
            else Redrawn(s, r) && |r.cells| == |s.cells| &&
                 r.cells[i] == MovedDown(s.cells, s.Row(s.top), s.Row(s.bottom), s.columns, i)
  {
    RegionInside(s);
    Console.ShiftLeftAt(s.cells, s.Row(s.top), s.Row(s.bottom), s.columns);
    Console.ShiftRightAt(s.cells, s.Row(s.top), s.Row(s.bottom), s.columns, s.Row(s.bottom));
  }
}
