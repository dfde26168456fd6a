// The terminal's line discipline: the ring buffers of include/linux/tty.h and
// copy_to_cooked and tty_write of kernel/chr_drv/tty_io.c.
module LineEditor {
  import opened Options

  const SIZE := 1024              // TTY_BUF_SIZE
  const NL := 10
  const CR := 13
  const DEL := 127

  // & (TTY_BUF_SIZE - 1)
  function Wrap(n: int): (r: int)
    ensures 0 <= r < SIZE
  {
    n % SIZE
  }

  // ---------- struct tty_queue ----------

  // `contents` lies in the ring from `tail` on.
  predicate InRing(buf: seq<int>, tail: int, contents: seq<int>)
    requires |buf| == SIZE
  {
    |contents| < SIZE && forall i {:trigger contents[i]} :: 0 <= i < |contents| ==> contents[i] == buf[Wrap(tail + i)]
  }

  class Queue {
    const buf: array<int>
    var head: int
    var tail: int
    var data: int
    ghost var contents: seq<int>

    ghost predicate Valid()
      reads this, buf
    {
      buf.Length == SIZE && 0 <= tail < SIZE && InRing(buf[..], tail, contents) && head == Wrap(tail + |contents|)
    }

    constructor ()
      ensures Valid() && fresh(buf) && contents == [] && data == 0
    {
      buf := new int[SIZE];
      head, tail, data, contents := 0, 0, 0, [];
    }

    // EMPTY, LEFT and LAST
    predicate Empty()
      requires Valid()
      reads this, buf
      ensures Empty() <==> contents == []
    {
      head == tail
    }

    function Left(): (r: int)
      requires Valid()
      reads this, buf
      ensures r == SIZE - 1 - |contents|
    {
      Wrap(tail - head - 1)
    }

    function Last(): (c: int)
      requires Valid() && contents != []
      reads this, buf
      ensures c == contents[|contents| - 1]
    {
      assert contents[|contents| - 1] == buf[..][Wrap(tail + (|contents| - 1))];
      buf[Wrap(head - 1)]
    }

    // GETCH
    method Getch() returns (c: int)
      requires Valid() && contents != []
      modifies `tail, `contents
      ensures Valid() && old(contents) == [c] + contents
    {
      c := buf[tail];
      tail := Wrap(tail + 1);
      contents := contents[1..];
    }

    // PUTCH on a queue that is not full
    method Putch(c: int)
      requires Valid() && |contents| < SIZE - 1
      modifies `head, `contents, buf
      ensures Valid() && contents == old(contents) + [c]
    {
      buf[head] := c;
      head := Wrap(head + 1);
      contents := contents + [c];
    }

    // DEC(head)
    method DropLast()
      requires Valid() && contents != []
      modifies `head, `contents
      ensures Valid() && contents == old(contents)[..|old(contents)| - 1]
    {
      head := Wrap(head - 1);
      contents := contents[..|contents| - 1];
    }
  }

  // ---------- Editing, on values ----------

  // c_iflag, c_lflag and c_cc of the terminal
  datatype Termios = Termios(
    crnl: bool, nocr: bool, nlcr: bool, uclc: bool, canon: bool, echo: bool, echoctl: bool,
    kill: int, erase: int, eof: int, stop: int, start: int)

  // The cooked characters, everything echoed so far, the count of line ends, and ^S/^Q.
  datatype Line = Line(cooked: seq<int>, out: seq<int>, data: int, stopped: bool)

  function Lower(c: int): int { if 'A' as int <= c <= 'Z' as int then c + 32 else c }

  // Input mapping; a carriage return may be dropped.
  function Mapped(t: Termios, c: int): Option<int> {
    if c == CR && !t.crnl && t.nocr then None
    else
      var m := if c == CR then (if t.crnl then NL else CR) else if c == NL && t.nlcr then CR else c;
      Some(if t.uclc then Lower(m) else m)
  }

  // Does c end a line, so that it cannot be edited away?
  predicate Ends(t: Termios, c: int) { c == NL || c == t.eof }

  function Rubout(c: int): seq<int> { if c < 32 then [DEL, DEL] else [DEL] }

  function Echo(t: Termios, c: int): seq<int> {
    if c == NL then [NL, CR] else if c < 32 then if t.echoctl then ['^' as int, c + 64] else [] else [c]
  }

  predicate AtLineStart(t: Termios, s: Line) { s.cooked == [] || Ends(t, s.cooked[|s.cooked| - 1]) }

  // ERASE
  function EraseOne(t: Termios, s: Line): Line
    requires !AtLineStart(t, s)
  {
    var n := |s.cooked| - 1;
    s.(cooked := s.cooked[..n], out := s.out + if t.echo then Rubout(s.cooked[n]) else [])
  }

  // KILL
  function EraseLine(t: Termios, s: Line): Line
    decreases |s.cooked|
  {
    if AtLineStart(t, s) then s else EraseLine(t, EraseOne(t, s))
  }

  function Enter(t: Termios, s: Line, c: int): Line {
    s.(cooked := s.cooked + [c], out := s.out + (if t.echo then Echo(t, c) else []),
      data := s.data + if Ends(t, c) then 1 else 0)
  }

  function Step(t: Termios, s: Line, raw: int): Line {
    match Mapped(t, raw)
    case None => s
    case Some(c) =>
      if t.canon && c == t.kill then EraseLine(t, s)
      else if t.canon && c == t.erase then if AtLineStart(t, s) then s else EraseOne(t, s)
      else if t.canon && c == t.stop then s.(stopped := true)
      else if t.canon && c == t.start then s.(stopped := false)
      else Enter(t, s, c)
  }

  // Input is cooked while there is room; what is left stays in the read queue.
  function Cook(t: Termios, s: Line, input: seq<int>): (Line, seq<int>)
    decreases |input|
  {
    if input == [] || |s.cooked| >= SIZE - 1 then (s, input) else Cook(t, Step(t, s, input[0]), input[1..])
  }

  // ---------- What editing preserves ----------

  function LineEnds(t: Termios, cooked: seq<int>): nat {
    if cooked == [] then 0
    else LineEnds(t, cooked[..|cooked| - 1]) + if Ends(t, cooked[|cooked| - 1]) then 1 else 0
  }

  predicate Counted(t: Termios, s: Line) { s.data == LineEnds(t, s.cooked) }

  // The completed lines: up to and including the last line end.
  function Completed(t: Termios, cooked: seq<int>): (r: seq<int>)
    ensures r <= cooked
  {
    if cooked == [] || Ends(t, cooked[|cooked| - 1]) then cooked else Completed(t, cooked[..|cooked| - 1])
  }

  lemma {:induction false} KillIsExact(t: Termios, s: Line)
    ensures EraseLine(t, s).cooked == Completed(t, s.cooked)
    ensures EraseLine(t, s).data == s.data && EraseLine(t, s).stopped == s.stopped
    ensures Counted(t, s) ==> Counted(t, EraseLine(t, s))
    decreases |s.cooked|
  {
    if !AtLineStart(t, s) { KillIsExact(t, EraseOne(t, s)); }
  }

  lemma EnterKeepsCount(t: Termios, s: Line, c: int)
    requires Counted(t, s)
    ensures Counted(t, Enter(t, s, c))
  {
    assert (s.cooked + [c])[..|s.cooked|] == s.cooked;
  }

  // `data` counts the line ends in the queue, whatever is typed, erased and killed.
  lemma StepKeepsCount(t: Termios, s: Line, raw: int)
    requires Counted(t, s)
    ensures Counted(t, Step(t, s, raw))
  {
    KillIsExact(t, s);
    if Mapped(t, raw).Some? { EnterKeepsCount(t, s, Mapped(t, raw).value); }
  }

  lemma {:induction false} CompletedTwice(t: Termios, cooked: seq<int>)
    ensures Completed(t, Completed(t, cooked)) == Completed(t, cooked)
  {
    if cooked != [] && !Ends(t, cooked[|cooked| - 1]) { CompletedTwice(t, cooked[..|cooked| - 1]); }
  }

  // Nothing typed later changes a completed line.
  lemma StepKeepsLines(t: Termios, s: Line, raw: int)
    ensures Completed(t, s.cooked) <= Completed(t, Step(t, s, raw).cooked)
  {
    KillIsExact(t, s);
    CompletedTwice(t, s.cooked);
  }

  // Over any input: the count is right, completed lines stay, and input is left over only
  // if the queue is full.
  lemma {:induction false} CookKeepsLines(t: Termios, s: Line, input: seq<int>)
    requires Counted(t, s)
    ensures var (s', rest) := Cook(t, s, input);
            Counted(t, s') && Completed(t, s.cooked) <= Completed(t, s'.cooked) &&
            (rest == [] || |s'.cooked| >= SIZE - 1) && |rest| <= |input| && rest == input[|input| - |rest|..]
    decreases |input|
  {
    if input != [] && |s.cooked| < SIZE - 1 {
      StepKeepsCount(t, s, input[0]);
      StepKeepsLines(t, s, input[0]);
      CookKeepsLines(t, Step(t, s, input[0]), input[1..]);
    }
  }

  // ---------- Erasing takes back typing ----------

  // An ordinary character, which goes into the line.
  predicate Ordinary(t: Termios, c: int) {
    t.canon && Mapped(t, c) == Some(c) && !Ends(t, c) && c != t.kill && c != t.erase && c != t.stop && c != t.start
  }

  // The erase and kill characters are what the input mapping leaves alone.
  predicate EditKeys(t: Termios) {
    t.canon && Mapped(t, t.erase) == Some(t.erase) && Mapped(t, t.kill) == Some(t.kill) && t.erase != t.kill
  }

  lemma EraseTakesBackOne(t: Termios, s: Line, c: int)
    requires Ordinary(t, c) && EditKeys(t)
    ensures Step(t, Step(t, s, c), t.erase).cooked == s.cooked
  {
    assert (s.cooked + [c])[..|s.cooked|] == s.cooked;
  }

  function Typed(t: Termios, s: Line, input: seq<int>): Line {
    if input == [] then s else Step(t, Typed(t, s, input[..|input| - 1]), input[|input| - 1])
  }

  // Kill takes back everything typed since the last line end.
  lemma {:induction false} KillTakesBackAll(t: Termios, s: Line, input: seq<int>)
    requires EditKeys(t) && AtLineStart(t, s) && forall i :: 0 <= i < |input| ==> Ordinary(t, input[i])
    ensures Step(t, Typed(t, s, input), t.kill).cooked == s.cooked
  {
    KillIsExact(t, Typed(t, s, input));
    TypedCompletes(t, s, input);
  }

  lemma {:induction false} TypedCompletes(t: Termios, s: Line, input: seq<int>)
    requires EditKeys(t) && AtLineStart(t, s) && forall i :: 0 <= i < |input| ==> Ordinary(t, input[i])
    ensures Completed(t, Typed(t, s, input).cooked) == s.cooked
  {
    if input != [] {
      var before := input[..|input| - 1];
      TypedCompletes(t, s, before);
      var w := Typed(t, s, before).cooked;
      assert (w + [input[|input| - 1]])[..|w|] == w;
    }
  }

  // ---------- What the flags do ----------

  predicate IsUpper(c: int) { 'A' as int <= c <= 'Z' as int }

  // The characters that can get into the line, by the input flags.
  predicate Admitted(t: Termios, c: int) {
    (c == CR ==> t.nlcr || (!t.crnl && !t.nocr)) && (c == NL ==> t.crnl || !t.nlcr) && !(t.uclc && IsUpper(c))
  }

  predicate AllAdmitted(t: Termios, s: seq<int>) { forall i :: 0 <= i < |s| ==> Admitted(t, s[i]) }

  lemma MappedIsAdmitted(t: Termios, raw: int)
    ensures Mapped(t, raw).Some? ==> Admitted(t, Mapped(t, raw).value)
  {
  }

  lemma EnterAdmits(t: Termios, s: Line, c: int)
    requires AllAdmitted(t, s.cooked) && Admitted(t, c)
    ensures AllAdmitted(t, Enter(t, s, c).cooked)
  {
  }

  lemma EraseAdmits(t: Termios, s: Line)
    requires AllAdmitted(t, s.cooked)
    ensures AllAdmitted(t, EraseLine(t, s).cooked)
    ensures !AtLineStart(t, s) ==> AllAdmitted(t, EraseOne(t, s).cooked)
  {
    KillIsExact(t, s);
  }

  lemma StepAdmits(t: Termios, s: Line, raw: int)
    requires AllAdmitted(t, s.cooked)
    ensures AllAdmitted(t, Step(t, s, raw).cooked)
  {
    MappedIsAdmitted(t, raw);
    EraseAdmits(t, s);
    if Mapped(t, raw).Some? { EnterAdmits(t, s, Mapped(t, raw).value); }
  }

  // ICRNL leaves no carriage returns but those that INLCR makes, INLCR no new lines but
  // those that ICRNL makes, IGNCR no carriage returns, IUCLC no capitals.
  lemma {:induction false} CookAdmits(t: Termios, s: Line, input: seq<int>)
    requires AllAdmitted(t, s.cooked)
    ensures AllAdmitted(t, Cook(t, s, input).0.cooked)
    decreases |input|
  {
    if input != [] && |s.cooked| < SIZE - 1 {
      StepAdmits(t, s, input[0]);
      CookAdmits(t, Step(t, s, input[0]), input[1..]);
    }
  }

  predicate IsKey(t: Termios, c: int) { t.canon && (c == t.kill || c == t.erase || c == t.stop || c == t.start) }

  // The key that ends a line: CR with ICRNL, else NL unless INLCR is set.
  lemma LineEndKeys(t: Termios, s: Line)
    requires !IsKey(t, NL)
    ensures (t.crnl <==> Step(t, s, CR).cooked == s.cooked + [NL]) &&
            (!t.nlcr ==> Step(t, s, NL).cooked == s.cooked + [NL] && Step(t, s, NL).data == s.data + 1)
    ensures t.crnl ==> Step(t, s, CR).data == s.data + 1
    ensures t.crnl && t.echo ==> Step(t, s, CR).out == s.out + [NL, CR]
  {
    var n := |s.cooked|;
    if !t.crnl {
      KillIsExact(t, s);
      assert |Step(t, s, CR).cooked| <= n || Step(t, s, CR).cooked[n] == CR;
      assert (s.cooked + [NL])[n] == NL;
    }
  }

  // The end-of-file character ends a line, too: it is counted and cannot be erased.
  lemma EofEndsLine(t: Termios, s: Line)
    requires EditKeys(t) && !IsKey(t, t.eof) && Mapped(t, t.eof) == Some(t.eof)
    ensures var s1 := Step(t, s, t.eof);
            s1.cooked == s.cooked + [t.eof] && s1.data == s.data + 1 &&
            Step(t, s1, t.erase) == s1 && Step(t, s1, t.kill) == s1
  {
  }

  // ^S stops the output and ^Q starts it again; neither gets into the line. Without ICANON
  // they are characters like all others.
  lemma StopAndStart(t: Termios, s: Line)
    requires t.stop != t.start && t.stop !in {t.kill, t.erase} && t.start !in {t.kill, t.erase}
    requires Mapped(t, t.stop) == Some(t.stop) && Mapped(t, t.start) == Some(t.start)
    ensures t.canon ==> Step(t, s, t.stop) == s.(stopped := true) && Step(t, s, t.start) == s.(stopped := false)
    ensures !t.canon ==> Step(t, s, t.stop).cooked == s.cooked + [t.stop] && Step(t, s, t.stop).stopped == s.stopped
  {
  }

  // Without ECHO nothing is echoed.
  lemma {:induction false} EchoOnlyIfAsked(t: Termios, s: Line, input: seq<int>)
    requires !t.echo
    ensures Cook(t, s, input).0.out == s.out
    decreases |input|
  {
    if input != [] && |s.cooked| < SIZE - 1 {
      SilentKill(t, s);
      EchoOnlyIfAsked(t, Step(t, s, input[0]), input[1..]);
    }
  }

  lemma {:induction false} SilentKill(t: Termios, s: Line)
    requires !t.echo
    ensures EraseLine(t, s).out == s.out
    decreases |s.cooked|
  {
    if !AtLineStart(t, s) { SilentKill(t, EraseOne(t, s)); }
  }

  // ---------- Output processing ----------

  // c_oflag
  datatype OutFlags = OutFlags(post: bool, crnl: bool, nlret: bool, nlcr: bool, lcuc: bool)

  function Upper(c: int): int { if 'a' as int <= c <= 'z' as int then c - 32 else c }

  function Turned(o: OutFlags, c: int): int { if c == CR && o.crnl then NL else if c == NL && o.nlret then CR else c }

  // What one written byte becomes: a new line gets a carriage return in front.
  function Processed(o: OutFlags, c: int): seq<int> {
    if !o.post then [c]
    else
      var m := Turned(o, c);
      (if m == NL && o.nlcr then [CR] else []) + [if o.lcuc then Upper(m) else m]
  }

  function AllProcessed(o: OutFlags, s: seq<int>, n: nat): seq<int>
    requires n <= |s|
  {
    if n == 0 then [] else AllProcessed(o, s, n - 1) + Processed(o, s[n - 1])
  }

  predicate IsLower(c: int) { 'a' as int <= c <= 'z' as int }

  // The characters that can be sent, by the output flags.
  predicate Sendable(o: OutFlags, c: int) {
    o.post ==>
      (c == NL ==> o.crnl || !o.nlret) && (c == CR ==> !o.crnl || o.nlret || o.nlcr) && !(o.lcuc && IsLower(c))
  }

  // OCRNL leaves no carriage returns but those of ONLRET and ONLCR, ONLRET no new lines but
  // those of OCRNL, OLCUC no small letters.
  lemma {:induction false} OutputIsSendable(o: OutFlags, s: seq<int>, n: nat)
    requires n <= |s|
    ensures forall i :: 0 <= i < |AllProcessed(o, s, n)| ==> Sendable(o, AllProcessed(o, s, n)[i])
  {
    if n > 0 { OutputIsSendable(o, s, n - 1); }
  }

  predicate NoLoneNl(out: seq<int>) { forall i :: 0 <= i < |out| && out[i] == NL ==> i > 0 && out[i - 1] == CR }

  // With ONLCR every new line comes directly behind a carriage return.
  lemma {:induction false} NewLinesReturn(o: OutFlags, s: seq<int>, n: nat)
    requires n <= |s| && o.post && o.nlcr
    ensures NoLoneNl(AllProcessed(o, s, n))
  {
    if n > 0 { NewLinesReturn(o, s, n - 1); }
  }

  // What remains of a character if line ends and the size of letters do not matter.
  function Letter(c: int): seq<int> { if c == NL || c == CR then [] else [Upper(c)] }

  function Letters(s: seq<int>): seq<int> {
    if s == [] then [] else Letters(s[..|s| - 1]) + Letter(s[|s| - 1])
  }

  lemma LettersSnoc(s: seq<int>, c: int)
    ensures Letters(s + [c]) == Letters(s) + Letter(c)
  {
    assert (s + [c])[..|s|] == s;
  }

  lemma {:induction false} LettersConcat(a: seq<int>, b: seq<int>)
    ensures Letters(a + b) == Letters(a) + Letters(b)
  {
    if b == [] {
      assert a + b == a;
    } else {
      var b0, c := b[..|b| - 1], b[|b| - 1];
      calc {
        Letters(a + b);
        { assert a + b == (a + b0) + [c]; LettersSnoc(a + b0, c); }
        Letters(a + b0) + Letter(c);
        { LettersConcat(a, b0); }
        Letters(a) + Letters(b0) + Letter(c);
        { assert Letters(b) == Letters(b0) + Letter(c); }
        Letters(a) + Letters(b);
      }
    }
  }

  lemma LettersOfOne(c: int)
    ensures Letters([c]) == Letter(c)
  {
    assert [c][..0] == [];
  }

  lemma ProcessedLetters(o: OutFlags, c: int)
    ensures Letters(Processed(o, c)) == Letter(c)
  {
    var m := if o.post then Turned(o, c) else c;
    var last := if o.post && o.lcuc then Upper(m) else m;
    LettersOfOne(CR);
    LettersOfOne(last);
    LettersConcat([CR], [last]);
    assert [] + [last] == [last];
  }

  lemma LettersStep(s: seq<int>, n: nat)
    requires 0 < n <= |s|
    ensures Letters(s[..n]) == Letters(s[..n - 1]) + Letter(s[n - 1])
  {
    assert s[..n][..n - 1] == s[..n - 1];
  }

  // Every character is sent, in its place.
  lemma {:induction false} OutputKeepsLetters(o: OutFlags, s: seq<int>, n: nat)
    requires n <= |s|
    ensures Letters(AllProcessed(o, s, n)) == Letters(s[..n])
  {
    if n > 0 {
      OutputKeepsLetters(o, s, n - 1);
      LettersConcat(AllProcessed(o, s, n - 1), Processed(o, s[n - 1]));
      ProcessedLetters(o, s[n - 1]);
      LettersStep(s, n);
    }
  }

  // Without OPOST nothing changes.
  lemma {:induction false} OutputUnchanged(o: OutFlags, s: seq<int>, n: nat)
    requires n <= |s| && !o.post
    ensures AllProcessed(o, s, n) == s[..n]
  {
    if n > 0 { OutputUnchanged(o, s, n - 1); }
  }

  lemma SentMore(shown: seq<int>, w: seq<int>, sent: seq<int>, cr: seq<int>, c: int)
    requires shown + w == sent + cr
    ensures shown + (w + [c]) == sent + (cr + [c])
  {
    assert shown + (w + [c]) == (shown + w) + [c];
  }

  // ---------- The code ----------

  class Tty {
    const termios: Termios
    const oflag: OutFlags
    const readQ: Queue
    const writeQ: Queue
    const secondary: Queue
    var stopped: bool
    var crFlag: bool                // cr_flag of tty_write
    ghost var shown: seq<int>       // what `write` has sent to the screen

    ghost predicate Valid()
      reads this, readQ, writeQ, secondary, readQ.buf, writeQ.buf, secondary.buf
    {
      readQ != writeQ && readQ != secondary && writeQ != secondary &&
      readQ.buf != writeQ.buf && readQ.buf != secondary.buf && writeQ.buf != secondary.buf &&
      readQ.Valid() && writeQ.Valid() && secondary.Valid() && |writeQ.contents| <= SIZE - 3
    }

    ghost function State(): Line
      reads this, writeQ, secondary
    {
      Line(secondary.contents, shown + writeQ.contents, secondary.data, stopped)
    }

    constructor (termios: Termios, oflag: OutFlags)
      ensures Valid() && fresh(readQ) && fresh(writeQ) && fresh(secondary) && State() == Line([], [], 0, false)
      ensures this.termios == termios && this.oflag == oflag && readQ.contents == [] && !crFlag
    {
      this.termios, this.oflag, crFlag := termios, oflag, false;
      readQ := new Queue();
      writeQ := new Queue();
      secondary := new Queue();
      stopped, shown := false, [];
    }

    // tty->write: drains the write queue, as con_write does.
    method Write()
      requires writeQ.Valid()
      modifies writeQ, writeQ.buf, `shown
      ensures writeQ.Valid() && writeQ.contents == [] && shown == old(shown) + old(writeQ.contents)
      ensures writeQ.data == old(writeQ.data)
    {
      while !writeQ.Empty()
        invariant writeQ.Valid() && shown + writeQ.contents == old(shown) + old(writeQ.contents)
        invariant writeQ.data == old(writeQ.data)
        decreases |writeQ.contents|
      {
        ghost var was := writeQ.contents;
        var c := writeQ.Getch();
        assert shown + ([c] + writeQ.contents) == (shown + [c]) + writeQ.contents;
        shown := shown + [c];
      }
    }

    // Up to two characters and a call of write.
    method Show(s: seq<int>)
      requires writeQ.Valid() && |writeQ.contents| <= SIZE - 3 && |s| <= 2
      modifies writeQ, writeQ.buf, `shown
      ensures writeQ.Valid() && writeQ.contents == []
      ensures shown == old(shown) + old(writeQ.contents) + s
    {
      for i := 0 to |s|
        invariant writeQ.Valid() && writeQ.contents == old(writeQ.contents) + s[..i] && shown == old(shown)
      {
        writeQ.Putch(s[i]);
      }
      assert s[..|s|] == s;
      Write();
      assert old(shown) + (old(writeQ.contents) + s) == old(shown) + old(writeQ.contents) + s;
    }

    method RubOut()
      requires Valid() && !AtLineStart(termios, State())
      modifies this, writeQ, writeQ.buf, secondary
      ensures Valid() && State() == EraseOne(termios, old(State())) && readQ.contents == old(readQ.contents)
    {
      var c := secondary.Last();
      if termios.echo {
        Show(Rubout(c));
      }
      secondary.DropLast();
    }

    method AtStart() returns (r: bool)
      requires Valid()
      ensures r == AtLineStart(termios, State())
    {
      if secondary.Empty() {
        return true;
      }
      var c := secondary.Last();
      r := c == NL || c == termios.eof;
    }

    method Kill()
      requires Valid()
      modifies this, writeQ, writeQ.buf, secondary
      ensures Valid() && State() == EraseLine(termios, old(State())) && readQ.contents == old(readQ.contents)
    {
      var start := AtStart();
      while !start
        invariant Valid() && start == AtLineStart(termios, State()) && readQ.contents == old(readQ.contents)
        invariant EraseLine(termios, State()) == EraseLine(termios, old(State()))
        decreases |secondary.contents|
      {
        RubOut();
        start := AtStart();
      }
    }

    // A character that goes into the secondary queue.
    method Accept(c: int)
      requires Valid() && |secondary.contents| < SIZE - 1
      modifies this, writeQ, writeQ.buf, secondary, secondary.buf
      ensures Valid() && State() == Enter(termios, old(State()), c) && readQ.contents == old(readQ.contents)
    {
      if c == NL || c == termios.eof {
        secondary.data := secondary.data + 1;
      }
      if termios.echo {
        Show(Echo(termios, c));
      }
      secondary.Putch(c);
    }

    method Handle(raw: int)
      requires Valid() && |secondary.contents| < SIZE - 1
      modifies this, writeQ, writeQ.buf, secondary, secondary.buf
      ensures Valid() && State() == Step(termios, old(State()), raw) && readQ.contents == old(readQ.contents)
    {
      var c := raw;
      if c == CR {
        if termios.crnl {
          c := NL;
        } else if termios.nocr {
          return;
        }
      } else if c == NL && termios.nlcr {
        c := CR;
      }
      if termios.uclc {
        c := Lower(c);
      }
      if termios.canon {
        if c == termios.kill {
          Kill();
          return;
        }
        if c == termios.erase {
          var start := AtStart();
          if !start {
            RubOut();
          }
          return;
        }
        if c == termios.stop {
          stopped := true;
          return;
        }
        if c == termios.start {
          stopped := false;
          return;
        }
      }
      Accept(c);
    }

    // copy_to_cooked
    method CopyToCooked()
      requires Valid()
      modifies this, readQ, writeQ, secondary, writeQ.buf, secondary.buf
      ensures Valid() && (State(), readQ.contents) == Cook(termios, old(State()), old(readQ.contents))
    {
      while !readQ.Empty() && secondary.Left() != 0
        invariant Valid() && Cook(termios, State(), readQ.contents) == Cook(termios, old(State()), old(readQ.contents))
        decreases |readQ.contents|
      {
        var c := readQ.Getch();
        Handle(c);
      }
    }

    // One round of the inner loop of tty_write, for byte k of the buffer.
    method SendByte(buf: seq<int>, k: nat, ghost before: seq<int>) returns (next: nat)
      requires writeQ.Valid() && k < |buf| && |writeQ.contents| < SIZE - 1 && Sent(buf, k, before)
      modifies writeQ, writeQ.buf, `crFlag
      ensures writeQ.Valid() && k <= next <= |buf| && Sent(buf, next, before)
      ensures next == k + 1 || (next == k && crFlag && !old(crFlag))
    {
      var c := buf[k];
      if oflag.post {
        c := Turned(oflag, c);
        if c == NL && !crFlag && oflag.nlcr {
          SendReturn(buf, k, before);
          return k;
        }
        if oflag.lcuc {
          c := Upper(c);
        }
      }
      SendLast(buf, k, c, before);
      next := k + 1;
    }

    // The carriage return in front of a new line.
    method SendReturn(buf: seq<int>, k: nat, ghost before: seq<int>)
      requires writeQ.Valid() && k < |buf| && |writeQ.contents| < SIZE - 1 && Sent(buf, k, before)
      requires !crFlag && oflag.post && Turned(oflag, buf[k]) == NL && oflag.nlcr
      modifies writeQ, writeQ.buf, `crFlag
      ensures writeQ.Valid() && Sent(buf, k, before) && crFlag
    {
      SentMore(shown, writeQ.contents, before + AllProcessed(oflag, buf, k), [], CR);
      crFlag := true;
      writeQ.Putch(CR);
    }

    // The byte itself, or what has become of it.
    method SendLast(buf: seq<int>, k: nat, c: int, ghost before: seq<int>)
      requires writeQ.Valid() && k < |buf| && |writeQ.contents| < SIZE - 1 && Sent(buf, k, before)
      requires Processed(oflag, buf[k]) == (if crFlag then [CR] else []) + [c]
      modifies writeQ, writeQ.buf, `crFlag
      ensures writeQ.Valid() && Sent(buf, k + 1, before) && !crFlag
    {
      ghost var done, cr := AllProcessed(oflag, buf, k), if crFlag then [CR] else [];
      SentMore(shown, writeQ.contents, before + done, cr, c);
      assert before + done + (cr + [c]) == before + AllProcessed(oflag, buf, k + 1);
      crFlag := false;
      writeQ.Putch(c);
    }

    // The inner loop of tty_write, from byte k of the buffer on.
    method FillQueue(buf: seq<int>, k: nat, ghost before: seq<int>) returns (next: nat)
      requires writeQ.Valid() && k < |buf| && |writeQ.contents| < SIZE - 1
      requires Sent(buf, k, before)
      modifies writeQ, writeQ.buf, `crFlag
      ensures writeQ.Valid() && k <= next <= |buf| && Sent(buf, next, before)
      ensures next == |buf| || writeQ.Left() == 0
      ensures next == k ==> crFlag && !old(crFlag)
    {
      next := SendByte(buf, k, before);
      while next < |buf| && writeQ.Left() != 0
        invariant writeQ.Valid() && k <= next <= |buf| && Sent(buf, next, before)
        invariant next == k ==> crFlag && !old(crFlag)
        decreases |buf| - next, !crFlag
      {
        next := SendByte(buf, next, before);
      }
    }

    // The first k bytes are on their way, and a carriage return if crFlag is set.
    ghost predicate Sent(buf: seq<int>, k: int, before: seq<int>)
      reads this, writeQ
      requires 0 <= k <= |buf|
    {
      shown + writeQ.contents == before + AllProcessed(oflag, buf, k) + (if crFlag then [CR] else []) &&
      (crFlag ==> k < |buf| && oflag.post && Turned(oflag, buf[k]) == NL && oflag.nlcr)
    }

    // tty_write, with the waiting for a full queue to drain done by write.
    method TtyWrite(buf: seq<int>)
      requires Valid() && !crFlag
      modifies this, writeQ, writeQ.buf
      ensures Valid() && !crFlag && State().out == old(State().out) + AllProcessed(oflag, buf, |buf|)
      ensures secondary.contents == old(secondary.contents) && readQ.contents == old(readQ.contents)
    {
      ghost var before := shown + writeQ.contents;
      var k := 0;
      while k < |buf|
        invariant Valid() && 0 <= k <= |buf| && Sent(buf, k, before)
        decreases |buf| - k, !crFlag
      {
        k := FillQueue(buf, k, before);
        ghost var all := shown + writeQ.contents;
        Write();
        assert shown + writeQ.contents == all;
      }
    }
  }
}
