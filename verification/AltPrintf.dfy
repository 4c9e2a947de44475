/** The tiny printf: %c, %x and %s only, hexadecimal by nibbles, and its agreement with the log printf. */
module AltPrintf {
  import opened Digits
  import opened IntegerText
  import opened Words
  import opened Formats
  import LogPrintf

  function HexText(v: Word): string {
    DigitChars(Shortest(v, 16), false)
  }

  /** The four bits of v that a shift by digitShift brings to the bottom. */
  function Nibble(v: Word, digitShift: nat): (digit: nat)
    ensures digit < 16
  {
    v / Power(16, digitShift / 4) % 16
  }

  lemma EightNibbles()
    ensures Power(16, 8) == WORD
  {
    assert Power(16, 4) == 16 * (16 * (16 * (16 * Power(16, 0))));
    assert Power(16, 8) == 16 * (16 * (16 * (16 * Power(16, 4))));
  }

  /** A zero nibble above which there is nothing leaves nothing at or above it. */
  lemma NothingHere(v: Word, j: nat)
    requires 0 < v < Power(16, j + 1) && Nibble(v, 4 * j) == 0
    ensures 0 < j && v < Power(16, j)
  {
    TopNibble(v, j);
    Recompose(v, Power(16, j));
    assert Power(16, 0) == 1;
  }

  /** With nothing above it, a nibble is all of what is left of v. */
  lemma TopNibble(v: Word, j: nat)
    requires v < Power(16, j + 1)
    ensures Nibble(v, 4 * j) == v / Power(16, j) < 16
  {
    QuotientBelow(v, Power(16, j), 16);
    Quotient(v / Power(16, j), 16, 0, v / Power(16, j));
  }

  /** The first nonzero nibble is the first digit. */
  lemma FirstNibble(v: Word, j: nat)
    requires v < Power(16, j + 1) && Nibble(v, 4 * j) != 0
    ensures |Shortest(v, 16)| == j + 1
  {
    TopNibble(v, j);
    ShortestLength(v, 16, j);
    assert |Shortest(v / Power(16, j), 16)| == 1;
  }

  /** %x: skips zero nibbles from the top, then prints the rest. */
  method PrintHex(v: Word) returns (out: string)
    ensures out == HexText(v)
  {
    if v == 0 {
      return "0";
    }
    var digitShift: nat := 28;
    ghost var j: nat := 7;
    EightNibbles();
    while Nibble(v, digitShift) == 0
      invariant digitShift == 4 * j && 0 < v < Power(16, j + 1)
      decreases digitShift
    {
      NothingHere(v, j);
      digitShift := digitShift - 4;
      j := j - 1;
    }
    FirstNibble(v, j);
    ShortestIsPadded(v, 16);
    out := PrintNibbles(v, digitShift, j);
  }

  method PrintNibbles(v: Word, from: nat, ghost top: nat) returns (out: string)
    requires from == 4 * top
    ensures out == DigitChars(Padded(v, 16, top + 1), false)
  {
    var digitShift: int := from;
    ghost var j: int := top;
    ghost var all := DigitChars(Padded(v, 16, top + 1), false);
    out := "";
    while digitShift >= 0
      invariant digitShift == 4 * j && -1 <= j <= top
      invariant out == all[..top - j]
    {
      var digit := Nibble(v, digitShift);
      PaddedDigit(v, 16, top + 1, j);
      var c := if digit <= 9 then ('0' as int + digit) as char else ('a' as int + digit - 10) as char;
      assert c == all[top - j];
      out := out + [c];
      digitShift := digitShift - 4;
      j := j - 1;
    }
    assert all[..top + 1] == all;
  }

  /** What the character after a '%' prints, and how many arguments it takes; unknown ones do nothing. */
  function Directed(c: char, args: seq<Arg>, k: nat): (string, nat) {
    match c
    case '%' => ("%", 0)
    case 'c' => ([CharOf(NumArg(args, k))], 1)
    case 'x' => (HexText(NumArg(args, k)), 1)
    case 's' => (TextArg(args, k), 1)
    case _ => ("", 0)
  }

  /** What the printf prints for the rest of a format; a '%' at the very end stops it. */
  function Output(fmt: string, args: seq<Arg>, k: nat): string
    decreases |fmt|
  {
    if fmt == "" || fmt == "%" then ""
    else if fmt[0] != '%' then [fmt[0]] + Output(fmt[1..], args, k)
    else
      var (text, used) := Directed(fmt[1], args, k);
      text + Output(fmt[2..], args, k + used)
  }

  method Direct(c: char, args: seq<Arg>, k: nat) returns (text: string, used: nat)
    ensures (text, used) == Directed(c, args, k)
  {
    if c == '%' {
      text, used := "%", 0;
    } else if c == 'c' {
      text, used := [CharOf(NumArg(args, k))], 1;
    } else if c == 'x' {
      text := PrintHex(NumArg(args, k));
      used := 1;
    } else if c == 's' {
      text, used := TextArg(args, k), 1;
    } else {
      text, used := "", 0;
    }
  }

  /** The printf itself: on a common format, what the log printf prints. */
  method Print(fmt: string, args: seq<Arg>) returns (out: string)
    ensures out == Output(fmt, args, 0)
    ensures Common(fmt) ==> out == LogPrintf.Output(LogPrintf.START, fmt, args, 0)
  {
    var w, k := 0, 0;
    out := "";
    while w < |fmt|
      invariant 0 <= w <= |fmt| && 0 <= k
      invariant out + Output(fmt[w..], args, k) == Output(fmt, args, 0)
    {
      OutputAt(fmt, w, args, k, out);
      var c := fmt[w];
      w := w + 1;
      if c != '%' {
        out := out + [c];
      } else if w < |fmt| {
        c := fmt[w];
        w := w + 1;
        var text, used := Direct(c, args, k);
        out, k := out + text, k + used;
      } else {
        break;
      }
    }
    assert out + "" == out;
    if Common(fmt) {
      PrintersAgree(LogPrintf.START, fmt, args, 0);
    }
  }

  lemma OutputAt(fmt: string, w: nat, args: seq<Arg>, k: nat, out: string)
    requires w < |fmt|
    ensures fmt[w] != '%' ==> out + Output(fmt[w..], args, k) == (out + [fmt[w]]) + Output(fmt[w + 1..], args, k)
    ensures fmt[w] == '%' && w + 1 < |fmt| ==>
              var (text, used) := Directed(fmt[w + 1], args, k);
              out + Output(fmt[w..], args, k) == (out + text) + Output(fmt[w + 2..], args, k + used)
    ensures fmt[w] == '%' && w + 1 == |fmt| ==> Output(fmt[w..], args, k) == ""
  {
    assert fmt[w..][1..] == fmt[w + 1..];
    if w + 1 < |fmt| {
      assert fmt[w..][2..] == fmt[w + 2..];
    }
  }

  // ----- the two printers -----

  /** What follows a '%' means the same to both printers. */
  predicate Shared(c: char) {
    !('0' <= c <= '9') && c !in ".ldiuoX"
  }

  predicate Common(fmt: string)
    decreases |fmt|
  {
    || |fmt| <= 1
    || (if fmt[0] == '%' then Shared(fmt[1]) && Common(fmt[2..]) else Common(fmt[1..]))
  }

  /** A conversion without flag or width prints the same either way: nibbles against division. */
  lemma DirectedAlike(c: char, m: LogPrintf.Machine, args: seq<Arg>, k: nat)
    requires Shared(c) && m == LogPrintf.Machine(LogPrintf.FirstFmtChar, false, false, -1, -1)
    ensures var (next, action) := LogPrintf.Step(m, c);
            && next == m.(mode := LogPrintf.Chars)
            && Directed(c, args, k) == (LogPrintf.Done(action, args, k), if action.Convert? then 1 else 0)
  {
    SharedStep(c, m);
    match c
    case 'x' => RenderedBare(NumArg(args, k));
    case 'c' => FillNothing(-2, [CharOf(NumArg(args, k))]);
    case 's' => FillNothing(-1 - |TextArg(args, k)|, TextArg(args, k));
    case _ =>
  }

  /** What the log printf's machine makes of a character both know right after a '%'. */
  function SharedAction(c: char): LogPrintf.Action {
    match c
    case '%' => LogPrintf.Emit('%')
    case 'c' => LogPrintf.Convert(Character, false, -1)
    case 'x' => LogPrintf.Convert(Hex, false, -1)
    case 's' => LogPrintf.Convert(Str, false, -1)
    case _ => LogPrintf.Nothing
  }

  lemma SharedStep(c: char, m: LogPrintf.Machine)
    requires Shared(c) && m == LogPrintf.Machine(LogPrintf.FirstFmtChar, false, false, -1, -1)
    ensures LogPrintf.Step(m, c) == (m.(mode := LogPrintf.Chars), SharedAction(c))
  {
  }

  lemma FillNothing(n: int, s: string)
    requires n <= 0
    ensures Fill(' ', n) + s == s
  {
  }

  lemma RenderedBare(v: Word)
    ensures Rendered(v, IntFormat(Hex, false, -1)) == HexText(v)
  {
    assert IntFormat(Hex, false, -1) == Format(16, false, false, false, -1);
    assert Fill(' ', -1 - |HexText(v)|) == "";
  }

  /** On a common format the two printers print the same characters, whatever the arguments. */
  lemma {:induction false} PrintersAgree(m: LogPrintf.Machine, fmt: string, args: seq<Arg>, k: nat)
    requires m.mode == LogPrintf.Chars && Common(fmt)
    ensures Output(fmt, args, k) == LogPrintf.Output(m, fmt, args, k)
    decreases |fmt|
  {
    if fmt != "" && fmt[0] != '%' {
      assert fmt == [fmt[0]] + fmt[1..];
      LogPrintf.OutputNext(m, fmt[0], fmt[1..], args, k);
      PrintersAgree(m, fmt[1..], args, k);
    } else if |fmt| >= 2 {
      ConversionsAgree(m, fmt[1], fmt[2..], args, k);
      assert fmt == ['%', fmt[1]] + fmt[2..];
    } else if fmt != "" {
      LogPrintf.OutputNext(m, '%', "", args, k);
    }
  }

  lemma {:induction false} ConversionsAgree(m: LogPrintf.Machine, c: char, rest: string, args: seq<Arg>, k: nat)
    requires m.mode == LogPrintf.Chars && Shared(c) && Common(rest)
    ensures Output(['%', c] + rest, args, k) == LogPrintf.Output(m, ['%', c] + rest, args, k)
    decreases |rest| + 1
  {
    var first := LogPrintf.Machine(LogPrintf.FirstFmtChar, false, false, -1, -1);
    var (text, used) := Directed(c, args, k);
    DirectedAlike(c, first, args, k);
    PrintersAgree(first.(mode := LogPrintf.Chars), rest, args, k + used);
    assert (['%', c] + rest)[2..] == rest;
    assert ['%', c] + rest == ['%'] + ([c] + rest);
    LogPrintf.OutputNext(m, '%', [c] + rest, args, k);
    LogPrintf.OutputNext(first, c, rest, args, k);
  }
}
