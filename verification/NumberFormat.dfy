// number (kernel/vsprintf.c): printing an integer in a base with width, precision and
// flags, and a reader that gets the integer back.
module NumberFormat {
  import opened Arithmetic
  import opened Options

  const U32 := 0x1_0000_0000

  datatype Flags = Flags(zeropad: bool, sign: bool, plus: bool, space: bool, left: bool, special: bool, small: bool)

  predicate IsInt(num: int) { -0x8000_0000 <= num < 0x8000_0000 }

  function Digit(d: int, small: bool): char
    requires 0 <= d < 36
  {
    if d < 10 then '0' + d as char else if small then 'a' + (d - 10) as char else 'A' + (d - 10) as char
  }

  lemma Mod32(n: int)
    ensures 0 <= n % U32 < U32 && (0 <= n < U32 ==> n % U32 == n)
  {
  }

  // The unsigned value the digits stand for: -num is formed in 32 bits, so the most
  // negative integer keeps its bit pattern.
  function Magnitude(num: int, f: Flags): (u: int)
    requires IsInt(num)
    ensures 0 <= u < U32
    ensures f.sign && num < 0 ==> u == -num
    ensures num >= 0 ==> u == num
  {
    if f.sign && num < 0 then Mod32(-num); (-num) % U32 else Mod32(num); num % U32
  }

  function Sign(num: int, f: Flags): string {
    if f.sign && num < 0 then "-" else if f.plus then "+" else if f.space then " " else ""
  }

  function Prefix(base: int, f: Flags): string {
    if f.special && base == 8 then "0" else if f.special && base == 16 then ['0', Digit(33, f.small)] else ""
  }

  function Digits(u: nat, base: int, small: bool): (s: string)
    requires 2 <= base <= 36
    ensures s != []
  {
    if u < base then [Digit(u, small)] else Digits(u / base, base, small) + [Digit(u % base, small)]
  }

  function Times(c: char, n: int): (s: string)
    ensures |s| == Max(n, 0) && forall i :: 0 <= i < |s| ==> s[i] == c
  {
    seq(Max(n, 0), i => c)
  }

  function Max(a: int, b: int): int { if a < b then b else a }

  // What number writes: blanks, sign, prefix, zeros, digits, blanks.
  function Text(num: int, base: int, size: int, precision: int, f: Flags): string
    requires IsInt(num) && 2 <= base <= 36
  {
    var sign, prefix, digits := Sign(num, f), Prefix(base, f), Digits(Magnitude(num, f), base, f.small);
    Layout(sign, prefix, size - |sign| - |prefix| - Max(precision, |digits|), precision - |digits|, digits, f)
  }

  function Layout(sign: string, prefix: string, room: int, zeros: int, digits: string, f: Flags): string {
    (if f.left || f.zeropad then "" else Times(' ', room)) + sign + prefix +
    (if !f.left && f.zeropad then Times('0', room) else "") + Times('0', zeros) + digits +
    if f.left then Times(' ', room) else ""
  }

  // ---------- Where the padding goes ----------

  // The text without padding.
  function Unpadded(num: int, base: int, precision: int, f: Flags): string
    requires IsInt(num) && 2 <= base <= 36
  {
    Text(num, base, 0, precision, f)
  }

  // ... is the sign and the prefix in front of zeros and digits.
  function Front(num: int, base: int, f: Flags): string { Sign(num, f) + Prefix(base, f) }

  function Rear(num: int, base: int, precision: int, f: Flags): (r: string)
    requires IsInt(num) && 2 <= base <= 36
    ensures |r| == Max(precision, |Digits(Magnitude(num, f), base, f.small)|)
  {
    var digits := Digits(Magnitude(num, f), base, f.small);
    Times('0', precision - |digits|) + digits
  }

  lemma LayoutIs(sign: string, prefix: string, room: int, zeros: int, digits: string, f: Flags)
    ensures var front, rest := sign + prefix, Times('0', zeros) + digits;
            Layout(sign, prefix, room, zeros, digits, f) ==
              if f.left then front + rest + Times(' ', room)
              else if f.zeropad then front + Times('0', room) + rest
              else Times(' ', room) + (front + rest)
  {
    if !f.left && !f.zeropad {
      assert Times(' ', room) + sign + prefix + "" + Times('0', zeros) + digits + "" ==
             Times(' ', room) + ((sign + prefix) + (Times('0', zeros) + digits));
    } else if f.left {
      assert "" + sign + prefix + "" + Times('0', zeros) + digits + Times(' ', room) ==
             (sign + prefix) + (Times('0', zeros) + digits) + Times(' ', room);
    } else {
      assert "" + sign + prefix + Times('0', room) + Times('0', zeros) + digits + "" ==
             (sign + prefix) + Times('0', room) + (Times('0', zeros) + digits);
    }
  }

  lemma UnpaddedIs(num: int, base: int, precision: int, f: Flags)
    requires IsInt(num) && 2 <= base <= 36
    ensures Unpadded(num, base, precision, f) == Front(num, base, f) + Rear(num, base, precision, f)
  {
    var sign, prefix, digits := Sign(num, f), Prefix(base, f), Digits(Magnitude(num, f), base, f.small);
    var room := 0 - |sign| - |prefix| - Max(precision, |digits|);
    LayoutIs(sign, prefix, room, precision - |digits|, digits, f);
    assert Times(' ', room) == "" == Times('0', room);
    assert Front(num, base, f) + "" == Front(num, base, f);
  }

  // LEFT puts the blanks behind the number, ZEROPAD zeros in front of its digits, and
  // without them the blanks stand in front of it.
  lemma Justified(num: int, base: int, size: int, precision: int, f: Flags)
    requires IsInt(num) && 2 <= base <= 36
    ensures var core, text := Unpadded(num, base, precision, f), Text(num, base, size, precision, f);
            var front := |Front(num, base, f)|;
            front <= |core| &&
            text == if f.left then core + Times(' ', size - |core|)
                    else if f.zeropad then core[..front] + Times('0', size - |core|) + core[front..]
                    else Times(' ', size - |core|) + core
  {
    var sign, prefix, digits := Sign(num, f), Prefix(base, f), Digits(Magnitude(num, f), base, f.small);
    var room := size - |sign| - |prefix| - Max(precision, |digits|);
    UnpaddedIs(num, base, precision, f);
    LayoutIs(sign, prefix, room, precision - |digits|, digits, f);
    var core, front := Unpadded(num, base, precision, f), Front(num, base, f);
    assert core[..|front|] == front && core[|front|..] == Rear(num, base, precision, f);
    assert room == size - |core|;
  }

  // The sign in front of everything: '-' for negative numbers, '+' and ' ' on demand.
  lemma SignIsShown(num: int, base: int, precision: int, f: Flags)
    requires IsInt(num) && 2 <= base <= 36
    ensures var text := Unpadded(num, base, precision, f);
            text != [] && (text[0] == '-' <==> f.sign && num < 0) &&
            (text[0] == '+' <==> f.plus && !(f.sign && num < 0)) &&
            (text[0] == ' ' <==> f.space && !f.plus && !(f.sign && num < 0))
  {
    var digits := Digits(Magnitude(num, f), base, f.small);
    DigitsAreDigits(Magnitude(num, f), base, f.small);
    assert digits[0] in digits;
    UnpaddedIs(num, base, precision, f);
    var rest := Rear(num, base, precision, f);
    assert rest[0] == '0' || rest[0] == digits[0];
  }

  // SMALL chooses the letters of digits and of the prefix 0x.
  lemma {:induction false} CaseIsChosen(u: nat, base: int, f: Flags)
    requires 2 <= base <= 36
    ensures forall c <- Digits(u, base, f.small) :: if f.small then !('A' <= c <= 'Z') else !('a' <= c <= 'z')
    ensures f.special && base == 16 ==> Prefix(base, f) == if f.small then "0x" else "0X"
    ensures f.special && base == 8 ==> Prefix(base, f) == "0"
    decreases u
  {
    if u >= base {
      HalfOf(u, base);
      CaseIsChosen(u / base, base, f);
    }
  }

  // ---------- The length law ----------

  lemma ExactLength(num: int, base: int, size: int, precision: int, f: Flags)
    requires IsInt(num) && 2 <= base <= 36
    ensures var digits := Digits(Magnitude(num, f), base, f.small);
            |Text(num, base, size, precision, f)| ==
              Max(size, |Sign(num, f)| + |Prefix(base, f)| + Max(precision, |digits|))
  {
  }

  // A number below 2^k has at most k digits in any base, so tmp never holds more than 32.
  lemma {:induction false} FewDigits(u: nat, base: int, small: bool, k: nat)
    requires 2 <= base <= 36 && u < Pow2(k) && k >= 1
    ensures |Digits(u, base, small)| <= k
    decreases k
  {
    if u >= base {
      assert u / base <= u / 2 by { ScaleOrder(u / 2, u / base, base); HalfOf(u, base); }
      assert u / 2 < Pow2(k - 1);
      FewDigits(u / base, base, small, k - 1);
    }
  }

  lemma AtMost32Digits(u: nat, base: int, small: bool)
    requires 2 <= base <= 36 && u < U32
    ensures |Digits(u, base, small)| <= 32
  {
    Pow2Of32();
    FewDigits(u, base, small, 32);
  }

  lemma HalfOf(u: nat, base: int)
    requires base >= 2
    ensures u / base <= u / 2
  {
    var q := u / base;
    assert q * base <= u;
    ScaleOrder(2, base, q + 1);
    if base > 2 { assert q * 2 <= q * base; }
  }

  // ---------- Reading back ----------

  function TrimLeft(s: string): string { if s != [] && s[0] == ' ' then TrimLeft(s[1..]) else s }

  function TrimRight(s: string): string { if s != [] && s[|s| - 1] == ' ' then TrimRight(s[..|s| - 1]) else s }

  function DigitValue(c: char): int {
    if '0' <= c <= '9' then (c - '0') as int
    else if 'a' <= c <= 'z' then (c - 'a') as int + 10
    else if 'A' <= c <= 'Z' then (c - 'A') as int + 10 else 0
  }

  function Value(s: string, base: int): int {
    if s == [] then 0 else Value(s[..|s| - 1], base) * base + DigitValue(s[|s| - 1])
  }

  function Unprefixed(s: string, base: int, special: bool): string {
    if special && base == 16 && |s| >= 2 then s[2..] else s
  }

  predicate Negative(t: string) { t != [] && t[0] == '-' }

  function Unsigned(t: string): string { if t != [] && (t[0] == '-' || t[0] == '+') then t[1..] else t }

  // Blanks, an optional sign, an optional prefix, digits, blanks.
  function Parse(s: string, base: int, special: bool): int {
    var t := TrimRight(TrimLeft(s));
    var v := Value(Unprefixed(Unsigned(t), base, special), base);
    if Negative(t) then -v else v
  }

  lemma DigitRoundTrip(d: int, small: bool)
    requires 0 <= d < 36
    ensures DigitValue(Digit(d, small)) == d && Digit(d, small) !in " +-"
  {
  }

  lemma ValueSnoc(s: string, c: char, base: int)
    ensures Value(s + [c], base) == Value(s, base) * base + DigitValue(c)
  {
    assert (s + [c])[..|s|] == s;
  }

  lemma {:induction false} ValueOfDigits(u: nat, base: int, small: bool)
    requires 2 <= base <= 36
    ensures Value(Digits(u, base, small), base) == u
  {
    if u < base {
      DigitRoundTrip(u, small);
      ValueSnoc("", Digit(u, small), base);
      assert "" + [Digit(u, small)] == Digits(u, base, small);
    } else {
      var q, r := u / base, u % base;
      HalfOf(u, base);
      DigitRoundTrip(r, small);
      ValueOfDigits(q, base, small);
      ValueSnoc(Digits(q, base, small), Digit(r, small), base);
      QuotientRemainder(u, base);
    }
  }

  lemma {:induction false} LeadingZeros(n: nat, s: string, base: int)
    ensures Value(Times('0', n) + s, base) == Value(s, base)
    decreases n + |s|
  {
    var t := Times('0', n) + s;
    if s != [] {
      assert t[..|t| - 1] == Times('0', n) + s[..|s| - 1];
      LeadingZeros(n, s[..|s| - 1], base);
    } else if n > 0 {
      assert t[..|t| - 1] == Times('0', n - 1) + s;
      LeadingZeros(n - 1, s, base);
    }
  }

  lemma {:induction false} TrimLeftBlanks(n: nat, s: string)
    requires s != [] && s[0] != ' '
    ensures TrimLeft(Times(' ', n) + s) == s
  {
    var t := Times(' ', n) + s;
    if n > 0 {
      assert t[1..] == Times(' ', n - 1) + s;
      TrimLeftBlanks(n - 1, s);
    } else {
      assert t == s;
    }
  }

  lemma {:induction false} TrimRightBlanks(s: string, n: nat)
    requires s != [] && s[|s| - 1] != ' '
    ensures TrimRight(s + Times(' ', n)) == s
  {
    var t := s + Times(' ', n);
    if n > 0 {
      assert t[..|t| - 1] == s + Times(' ', n - 1);
      TrimRightBlanks(s, n - 1);
    } else {
      assert t == s;
    }
  }

  lemma {:induction false} DigitsAreDigits(u: nat, base: int, small: bool)
    requires 2 <= base <= 36
    ensures forall c :: c in Digits(u, base, small) ==> c !in " +-"
  {
    if u < base {
      DigitRoundTrip(u, small);
    } else {
      HalfOf(u, base);
      DigitsAreDigits(u / base, base, small);
      DigitRoundTrip(u % base, small);
    }
  }

  lemma TimesAdd(c: char, m: nat, n: nat)
    ensures Times(c, m) + Times(c, n) == Times(c, m + n)
  {
  }

  // What is left of the text without blanks and sign.
  function Body(num: int, base: int, zeros: nat, f: Flags): string
    requires IsInt(num) && 2 <= base <= 36
  {
    Prefix(base, f) + (Times('0', zeros) + Digits(Magnitude(num, f), base, f.small))
  }

  function Visible(sign: string): string { if sign == " " then "" else sign }

  lemma LayoutParts(sign: string, prefix: string, room: int, zeros: int, digits: string, f: Flags)
    returns (before: nat, zs: nat, after: nat)
    ensures Layout(sign, prefix, room, zeros, digits, f) ==
              Times(' ', before) + sign + (prefix + (Times('0', zs) + digits)) + Times(' ', after)
  {
    before := if f.left || f.zeropad then 0 else Max(room, 0);
    var pad: nat := if !f.left && f.zeropad then Max(room, 0) else 0;
    var more: nat := Max(zeros, 0);
    zs := pad + more;
    after := if f.left then Max(room, 0) else 0;
    TimesAdd('0', pad, more);
    var x, p, m := Times(' ', before) + sign, Times('0', pad), Times('0', more);
    assert Times('0', zeros) == m;
    assert Layout(sign, prefix, room, zeros, digits, f) == x + prefix + p + m + digits + Times(' ', after);
    Regroup(x, prefix, p, m, digits, Times(' ', after));
  }

  lemma Regroup(x: string, prefix: string, p: string, m: string, digits: string, e: string)
    ensures x + prefix + p + m + digits + e == x + (prefix + ((p + m) + digits)) + e
  {
  }

  // A blank sign is one more blank.
  lemma BlankSign(before: nat, sign: string, body: string, e: string)
    ensures Times(' ', before) + sign + body + e ==
              Times(' ', before + if sign == " " then 1 else 0) + ((Visible(sign) + body) + e)
  {
    var a := Times(' ', before);
    if sign == " " {
      TimesAdd(' ', before, 1);
      assert Times(' ', 1) == " " && "" + body == body;
    } else {
    }
  }

  lemma TextIsBodyInBlanks(num: int, base: int, size: int, precision: int, f: Flags)
    returns (before: nat, zeros: nat, after: nat)
    requires IsInt(num) && 2 <= base <= 36
    ensures Text(num, base, size, precision, f) ==
              Times(' ', before) + ((Visible(Sign(num, f)) + Body(num, base, zeros, f)) + Times(' ', after))
  {
    var sign, prefix, digits := Sign(num, f), Prefix(base, f), Digits(Magnitude(num, f), base, f.small);
    before, zeros, after :=
      LayoutParts(sign, prefix, size - |sign| - |prefix| - Max(precision, |digits|), precision - |digits|, digits, f);
    BlankSign(before, Sign(num, f), Body(num, base, zeros, f), Times(' ', after));
    before := before + if Sign(num, f) == " " then 1 else 0;
  }

  predicate Solid(b: string) { b != [] && b[0] !in " +-" && b[|b| - 1] != ' ' }

  lemma SolidAfterZeros(prefix: string, zeros: nat, digits: string)
    requires Solid(digits) && (prefix == "" || prefix[0] == '0')
    ensures Solid(prefix + (Times('0', zeros) + digits))
  {
    var tail := Times('0', zeros) + digits;
    var b := prefix + tail;
    assert b[|b| - 1] == digits[|digits| - 1];
    assert tail[0] == if zeros == 0 then digits[0] else '0';
  }

  lemma PrefixedDigits(base: int, zeros: nat, digits: string, f: Flags)
    ensures Value(Unprefixed(Prefix(base, f) + (Times('0', zeros) + digits), base, f.special), base) ==
            Value(digits, base)
  {
    var tail := Times('0', zeros) + digits;
    var b := Prefix(base, f) + tail;
    LeadingZeros(zeros, digits, base);
    if f.special && base == 16 {
      assert b[2..] == tail;
    } else if f.special && base == 8 {
      LeadingZeros(1, tail, base);
      assert b == Times('0', 1) + tail;
    } else {
      assert b == tail;
    }
  }

  lemma BodyIsSolid(num: int, base: int, zeros: nat, f: Flags)
    requires IsInt(num) && 2 <= base <= 36
    ensures Solid(Body(num, base, zeros, f))
    ensures Value(Unprefixed(Body(num, base, zeros, f), base, f.special), base) == Magnitude(num, f)
  {
    var u := Magnitude(num, f);
    var digits := Digits(u, base, f.small);
    DigitsAreDigits(u, base, f.small);
    ValueOfDigits(u, base, f.small);
    assert digits[0] in digits && digits[|digits| - 1] in digits;
    SolidAfterZeros(Prefix(base, f), zeros, digits);
    PrefixedDigits(base, zeros, digits, f);
  }

  lemma TrimNothing(s: string)
    requires s != [] && s[0] != ' ' && s[|s| - 1] != ' '
    ensures TrimLeft(s) == s && TrimRight(s) == s
  {
  }

  lemma ParseIgnoresBlanks(before: nat, s: string, after: nat, base: int, special: bool)
    requires s != [] && s[0] != ' ' && s[|s| - 1] != ' '
    ensures Parse(Times(' ', before) + (s + Times(' ', after)), base, special) == Parse(s, base, special)
  {
    TrimLeftBlanks(before, s + Times(' ', after));
    TrimRightBlanks(s, after);
    TrimNothing(s);
  }

  lemma SignIsFound(sign: string, b: string)
    requires (sign == "" || sign == "+" || sign == "-") && Solid(b)
    ensures var s := sign + b;
            s[0] != ' ' && s[|s| - 1] != ' ' && Unsigned(s) == b && (Negative(s) <==> sign == "-")
  {
    var s := sign + b;
    assert s[|s| - 1] == b[|b| - 1];
    if sign == "" { assert s == b; } else { assert s[1..] == b; }
  }

  lemma ParseSigned(sign: string, b: string, base: int, special: bool)
    requires (sign == "" || sign == "+" || sign == "-") && Solid(b)
    ensures var s := sign + b; s[0] != ' ' && s[|s| - 1] != ' '
    ensures var v := Value(Unprefixed(b, base, special), base);
            Parse(sign + b, base, special) == if sign == "-" then -v else v
  {
    var s := sign + b;
    SignIsFound(sign, b);
    TrimNothing(s);
  }

  // Reading the output gives the number back, for every integer, base, width, precision
  // and flags, the most negative integer included.
  lemma PrintParseRoundTrip(num: int, base: int, size: int, precision: int, f: Flags)
    requires IsInt(num) && 2 <= base <= 36
    ensures Parse(Text(num, base, size, precision, f), base, f.special) == if f.sign then num else num % U32
  {
    var before, zeros, after := TextIsBodyInBlanks(num, base, size, precision, f);
    var sign, b := Visible(Sign(num, f)), Body(num, base, zeros, f);
    BodyIsSolid(num, base, zeros, f);
    ParseSigned(sign, b, base, f.special);
    ParseIgnoresBlanks(before, sign + b, after, base, f.special);
    assert Text(num, base, size, precision, f) == Times(' ', before) + ((sign + b) + Times(' ', after));
    assert Parse(sign + b, base, f.special) == if sign == "-" then -Magnitude(num, f) else Magnitude(num, f);
  }

  // ---------- The code ----------

  function Reversed(s: string): (r: string)
    ensures |r| == |s|
  {
    if s == "" then "" else [s[|s| - 1]] + Reversed(s[..|s| - 1])
  }

  // The digits already written to tmp, lowest first, and those still to come.
  predicate DigitsLeft(u: nat, n: nat, base: int, small: bool, tmp: string)
    requires 2 <= base <= 36
  {
    Digits(u, base, small) == DigitsOrNone(n, base, small) + Reversed(tmp)
  }

  lemma OneMoreDigit(u: nat, n: nat, q: nat, r: nat, base: int, small: bool, tmp: string)
    requires 2 <= base <= 36 && n > 0 && DigitsLeft(u, n, base, small, tmp) && n == q * base + r && r < base
    ensures DigitsLeft(u, q, base, small, tmp + [Digit(r, small)])
    ensures |tmp| < |Digits(u, base, small)| && q < n
  {
    DigitsStep(n, q, r, base, small);
    AppendReversed(DigitsOrNone(q, base, small), Digit(r, small), tmp);
  }

  lemma AppendReversed(d: string, c: char, tmp: string)
    ensures (d + [c]) + Reversed(tmp) == d + Reversed(tmp + [c])
  {
    assert (tmp + [c])[..|tmp|] == tmp;
    assert Reversed(tmp + [c]) == [c] + Reversed(tmp);
  }

  function DigitsOrNone(n: nat, base: int, small: bool): string
    requires 2 <= base <= 36
  {
    if n == 0 then "" else Digits(n, base, small)
  }

  lemma DigitsStep(n: nat, q: nat, r: nat, base: int, small: bool)
    requires 2 <= base <= 36 && n > 0 && n == q * base + r && r < base
    ensures Digits(n, base, small) == DigitsOrNone(q, base, small) + [Digit(r, small)] && q < n
  {
    DivModUnique(n, q, r, base);
    HalfOf(n, base);
    ScaleOrder(q, 1, base);
  }

  // do_div
  method DoDiv(n: nat, base: int) returns (q: nat, r: nat)
    requires base >= 2
    ensures n == q * base + r && r < base
  {
    QuotientRemainder(n, base);
    ScaleOrder(n / base, 0, base);
    q, r := n / base, n % base;
  }

  // while (n-- > 0) *str++ = c;
  method Repeat(str: string, c: char, n: int) returns (r: string, left: int)
    ensures r == str + Times(c, n) && left == if n > 0 then -1 else n - 1
  {
    r, left := str, n;
    while left > 0
      invariant left <= n && (n > 0 ==> left >= 0) && (n <= 0 ==> left == n) && r == str + Times(c, n - Max(left, 0))
    {
      TimesAdd(c, n - left, 1);
      r, left := r + [c], left - 1;
      assert Times(c, 1) == [c];
    }
    left := left - 1;
  }

  lemma NoDigitYet(u: nat, base: int, small: bool)
    requires 2 <= base <= 36
    ensures u != 0 ==> DigitsLeft(u, u, base, small, "")
    ensures u == 0 ==> DigitsLeft(u, 0, base, small, "0")
  {
    assert Digits(u, base, small) + "" == Digits(u, base, small);
    assert Reversed("0") == ['0'] + Reversed("");
  }

  // The loop that fills tmp, lowest digit first.
  method Convert(u: nat, base: int, small: bool, tmp: array<char>) returns (i: nat)
    requires 2 <= base <= 36 && u < U32 && tmp.Length == 36
    modifies tmp
    ensures 1 <= i <= 32 && Digits(u, base, small) == Reversed(tmp[..i])
  {
    i := 0;
    var n := u;
    ghost var most := |Digits(u, base, small)|;
    AtMost32Digits(u, base, small);
    NoDigitYet(u, base, small);
    if n == 0 {
      tmp[i] := '0';
      i := i + 1;
      assert tmp[..1] == "0";
    } else {
      while n != 0
        invariant 0 <= i <= most && 0 <= n && (n == 0 ==> i >= 1) && DigitsLeft(u, n, base, small, tmp[..i])
        decreases n
      {
        var q, r := DoDiv(n, base);
        OneMoreDigit(u, n, q, r, base, small, tmp[..i]);
        tmp[i] := Digit(r, small);
        assert tmp[..i + 1] == tmp[..i] + [Digit(r, small)];
        n := q;
        i := i + 1;
      }
    }
  }

  // The first half of number: sign, magnitude, and the width left for blanks and digits.
  method SignAndRoom(num: int, base: int, size: int, f: Flags) returns (sign: string, u: int, room: int)
    requires IsInt(num)
    ensures sign == Sign(num, f) && u == Magnitude(num, f) && room == size - |sign| - |Prefix(base, f)|
  {
    var n := num;
    sign, room := "", size;
    if f.sign && num < 0 {
      sign := "-";
      n := -num;
    } else if f.plus {
      sign := "+";
    } else if f.space {
      sign := " ";
    }
    if sign != "" {
      room := room - 1;
    }
    if f.special {
      if base == 16 {
        room := room - 2;
      } else if base == 8 {
        room := room - 1;
      }
    }
    u := n % U32;
  }

  // number; None stands for the null pointer it returns for an impossible base.
  method Number(str: string, num: int, base: int, size: int, precision: int, f: Flags) returns (r: Option<string>)
    requires IsInt(num)
    ensures r == if 2 <= base <= 36 then Some(str + Text(num, base, size, precision, f)) else None
  {
    if base < 2 || base > 36 {
      return None;
    }
    var sign, u, room := SignAndRoom(num, base, size, f);
    var tmp := new char[36];
    var i := Convert(u, base, f.small, tmp);
    var digits := if i > precision then i else precision;
    room := room - digits;
    var out := Emit(str, sign, base, room, digits - i, tmp, i, f);
    r := Some(out);
    SameZeros(sign, Prefix(base, f), room, precision - i, Digits(u, base, f.small), f);
  }

  lemma SameZeros(sign: string, prefix: string, room: int, zeros: int, digits: string, f: Flags)
    ensures Layout(sign, prefix, room, Max(zeros, 0), digits, f) == Layout(sign, prefix, room, zeros, digits, f)
  {
  }

  // The second half of number: everything is known but where the blanks go.
  method Emit(str: string, sign: string, base: int, size: int, zeros: nat, tmp: array<char>, i: nat, f: Flags)
    returns (out: string)
    requires i <= tmp.Length
    ensures out == str + Layout(sign, Prefix(base, f), size, zeros, Reversed(tmp[..i]), f)
  {
    var zeropad := f.zeropad && !f.left;
    var room := size;
    ghost var before, pad := "", "";
    out := str;
    if !zeropad && !f.left {
      before := Times(' ', room);
      out, room := Repeat(out, ' ', room);
    }
    assert out == str + before;
    out := out + sign;
    if f.special {
      if base == 8 {
        out := out + "0";
      } else if base == 16 {
        out := out + "0";
        out := out + [Digit(33, f.small)];
      }
    }
    ghost var prefixed := str + before + sign + Prefix(base, f);
    assert out == prefixed;
    if !f.left {
      pad := Times(if zeropad then '0' else ' ', room);
      out, room := Repeat(out, if zeropad then '0' else ' ', room);
    }
    assert out == prefixed + pad;
    var rest;
    out, rest := Repeat(out, '0', zeros);
    out := Flush(out, tmp, i);
    ghost var after := Times(' ', room);
    out, room := Repeat(out, ' ', room);
    Joined(str, before, sign, Prefix(base, f), pad, Times('0', zeros), Reversed(tmp[..i]), after);
  }

  // while (i-- > 0) *str++ = tmp[i];
  method Flush(str: string, tmp: array<char>, n: nat) returns (r: string)
    requires n <= tmp.Length
    ensures r == str + Reversed(tmp[..n])
  {
    var i := n;
    r := str;
    while i > 0
      invariant 0 <= i <= n && r + Reversed(tmp[..i]) == str + Reversed(tmp[..n])
    {
      assert tmp[..i][..i - 1] == tmp[..i - 1];
      i := i - 1;
      r := r + [tmp[i]];
    }
    assert r + "" == r;
  }

  lemma Joined(str: string, a: string, s: string, p: string, b: string, z: string, d: string, e: string)
    ensures str + (a + s + p + b + z + d + e) == str + a + s + p + b + z + d + e
  {
  }
}
