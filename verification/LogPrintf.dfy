/** The log printf: a state machine over the format's characters. */
module LogPrintf {
  import opened IntegerText
  import opened Formats

  datatype Mode = Chars | FirstFmtChar | OtherFmtChar

  /** The machine's variables that outlive a character. */
  datatype Machine = Machine(mode: Mode, leadingZero: bool, long: bool, beforeDecimal: int, afterDecimal: int)

  datatype Action = Nothing | Emit(c: char) | Convert(kind: Kind, zeros: bool, width: int)

  /** The conversion a letter asks for, if any. */
  function KindOf(c: char): seq<Kind> {
    match c
    case 'd' => [Decimal]
    case 'i' => [Integer]
    case 'u' => [Unsigned]
    case 'o' => [Octal]
    case 'x' => [Hex]
    case 'X' => [UpperHex]
    case 'c' => [Character]
    case 's' => [Str]
    case _ => []
  }

  function Other(m: Machine, c: char): (Machine, Action) {
    if c == '.' then (m.(mode := OtherFmtChar, afterDecimal := 0), Nothing)
    else if '0' <= c <= '9' then
      var d := c as int - '0' as int;
      if m.afterDecimal < 0 then
        (m.(mode := OtherFmtChar,
            beforeDecimal := (if m.beforeDecimal < 0 then 0 else m.beforeDecimal * 10) + d), Nothing)
      else (m.(mode := OtherFmtChar, afterDecimal := m.afterDecimal * 10 + d), Nothing)
    else if c == 'l' then (m.(mode := OtherFmtChar, long := true), Nothing)
    else
      (m.(mode := Chars),
       if KindOf(c) == [] then Nothing else Convert(KindOf(c)[0], m.leadingZero, m.beforeDecimal))
  }

  /** One character of the format. */
  function Step(m: Machine, c: char): (Machine, Action) {
    match m.mode
    case Chars =>
      if c == '%' then (Machine(FirstFmtChar, false, false, -1, -1), Nothing) else (m, Emit(c))
    case FirstFmtChar =>
      if c == '0' then (m.(mode := OtherFmtChar, leadingZero := true), Nothing)
      else if c == '%' then (m.(mode := Chars), Emit(c))
      else Other(m, c)
    case OtherFmtChar => Other(m, c)
  }

  function Done(a: Action, args: seq<Arg>, k: nat): string {
    match a
    case Nothing => ""
    case Emit(c) => [c]
    case Convert(kind, zeros, width) => Converted(kind, zeros, width, args, k)
  }

  /** What the machine prints for the rest of a format. */
  function Output(m: Machine, fmt: string, args: seq<Arg>, k: nat): string
    decreases |fmt|
  {
    if fmt == "" then ""
    else
      var (next, action) := Step(m, fmt[0]);
      Done(action, args, k) + Output(next, fmt[1..], args, if action.Convert? then k + 1 else k)
  }

  method Perform(a: Action, args: seq<Arg>, k: nat) returns (out: string)
    ensures out == Done(a, args, k)
  {
    match a {
      case Nothing =>
        out := "";
      case Emit(c) =>
        out := [c];
      case Convert(kind, zeros, width) =>
        match kind {
          case Character =>
            out := RepeatChar(' ', width - 1);
            out := out + [CharOf(NumArg(args, k))];
          case Str =>
            var s := TextArg(args, k);
            out := RepeatChar(' ', width - |s|);
            out := out + s;
          case _ =>
            out := PrintInteger(NumArg(args, k), IntFormat(kind, zeros, width));
        }
    }
  }

  const START := Machine(Chars, false, false, 0, 0)

  /** The printf itself. */
  method Print(fmt: string, args: seq<Arg>) returns (out: string)
    ensures out == Output(START, fmt, args, 0)
    ensures forall ps | (forall i | 0 <= i < |ps| :: WellFormed(ps[i])) && fmt == SpelledAll(ps) ::
              out == ShownAll(ps, args, 0)
    ensures forall p: Piece | p.Conversion? && WellFormed(p) && fmt == Spelled(p) && args != [] ::
              Means(fmt[|fmt| - 1], Width(p.width), args[0], out)
  {
    var m := START;
    var w, k := 0, 0;
    out := "";
    while w < |fmt|
      invariant 0 <= w <= |fmt| && 0 <= k
      invariant out + Output(m, fmt[w..], args, k) == Output(START, fmt, args, 0)
    {
      OutputAt(m, fmt, w, args, k, out);
      var step := Step(m, fmt[w]);
      var text := Perform(step.1, args, k);
      out := out + text;
      k := if step.1.Convert? then k + 1 else k;
      m := step.0;
      w := w + 1;
    }
    assert fmt[w..] == "";
    assert out + "" == out;
    PrintsWhatIsSpelled(fmt, args);
    forall p: Piece | p.Conversion? && WellFormed(p) && fmt == Spelled(p) && args != []
      ensures Means(fmt[|fmt| - 1], Width(p.width), args[0], out)
    {
      ConversionMeans(p, args, 0);
    }
  }

  /** A well-formed format prints what its pieces stand for. */
  lemma PrintsWhatIsSpelled(fmt: string, args: seq<Arg>)
    ensures forall ps | (forall i | 0 <= i < |ps| :: WellFormed(ps[i])) && fmt == SpelledAll(ps) ::
              Output(START, fmt, args, 0) == ShownAll(ps, args, 0)
  {
    forall ps | (forall i | 0 <= i < |ps| :: WellFormed(ps[i])) && fmt == SpelledAll(ps)
      ensures Output(START, fmt, args, 0) == ShownAll(ps, args, 0)
    {
      PrintsPieces(START, ps, args, 0);
    }
  }

  // ----- the machine prints what the format spells -----

  /** Reading a width digit by digit. */
  function Extended(before: int, s: string): int
    decreases |s|
  {
    if s == "" then before
    else Extended((if before < 0 then 0 else before * 10) + (s[0] as int - '0' as int), s[1..])
  }

  lemma {:induction false} ExtendedReads(before: int, s: string)
    requires AllDigits(s) && s != ""
    ensures Extended(before, s) == ReadDigits(s, 10) + (if before < 0 then 0 else before) * Digits10(|s|)
    decreases |s|
  {
    var first := (if before < 0 then 0 else before * 10) + (s[0] as int - '0' as int);
    if |s| == 1 {
      assert s[..0] == "" && ReadDigits(s[..0], 10) == 0;
      assert s[1..] == "";
    } else {
      ExtendedReads(first, s[1..]);
      ReadFirst(s);
      Distribute(if before < 0 then 0 else before, s[0] as int - '0' as int, Digits10(|s| - 1));
    }
  }

  lemma Distribute(b: int, d: int, p: int)
    ensures (b * 10 + d) * p == b * (10 * p) + d * p
  {
  }

  function Digits10(n: nat): int {
    if n == 0 then 1 else 10 * Digits10(n - 1)
  }

  lemma {:induction false} ReadFirst(s: string)
    requires AllDigits(s) && s != ""
    ensures ReadDigits(s, 10) == (s[0] as int - '0' as int) * Digits10(|s| - 1) + ReadDigits(s[1..], 10)
    decreases |s|
  {
    var n := |s| - 1;
    if n == 0 {
      assert s[..0] == "" && s[1..] == "";
    } else {
      ReadFirst(s[..n]);
      assert s[..n][0] == s[0];
      assert s[..n][1..] == s[1..][..n - 1];
      assert ReadDigits(s[1..], 10) == ReadDigits(s[1..][..n - 1], 10) * 10 + DigitOf(s[n]);
    }
  }

  /** One digit before the '.', whatever follows it. */
  lemma WidthDigit(m: Machine, c: char, s: string)
    requires m.mode == OtherFmtChar && m.afterDecimal < 0 && '0' <= c <= '9'
    ensures var before := (if m.beforeDecimal < 0 then 0 else m.beforeDecimal * 10) + (c as int - '0' as int);
            && Step(m, c) == (m.(beforeDecimal := before), Nothing)
            && Extended(m.beforeDecimal, [c] + s) == Extended(before, s)
  {
    assert ([c] + s)[1..] == s;
  }

  lemma {:induction false} WidthDigits(m: Machine, s: string, rest: string, args: seq<Arg>, k: nat)
    requires m.mode == OtherFmtChar && m.afterDecimal < 0 && AllDigits(s)
    ensures Output(m, s + rest, args, k) == Output(m.(beforeDecimal := Extended(m.beforeDecimal, s)), rest, args, k)
    decreases |s|, 1
  {
    if s == "" {
      assert s + rest == rest;
    } else {
      WidthStep(m, s[0], s[1..], rest, args, k);
      assert s == [s[0]] + s[1..];
    }
  }

  lemma {:induction false} WidthStep(m: Machine, c: char, s: string, rest: string, args: seq<Arg>, k: nat)
    requires m.mode == OtherFmtChar && m.afterDecimal < 0 && '0' <= c <= '9' && AllDigits(s)
    ensures Output(m, ([c] + s) + rest, args, k) ==
            Output(m.(beforeDecimal := Extended(m.beforeDecimal, [c] + s)), rest, args, k)
    decreases |s| + 1, 0
  {
    var before := (if m.beforeDecimal < 0 then 0 else m.beforeDecimal * 10) + (c as int - '0' as int);
    var next := m.(beforeDecimal := before);
    calc {
      Output(m, ([c] + s) + rest, args, k);
      { assert ([c] + s) + rest == [c] + (s + rest); }
      Output(m, [c] + (s + rest), args, k);
      { WidthDigit(m, c, s); OutputNext(m, c, s + rest, args, k); }
      Output(next, s + rest, args, k);
      { WidthDigits(next, s, rest, args, k); }
      Output(next.(beforeDecimal := Extended(before, s)), rest, args, k);
      { WidthDigit(m, c, s); }
      Output(m.(beforeDecimal := Extended(m.beforeDecimal, [c] + s)), rest, args, k);
    }
  }

  /** Between conversions nothing but the mode matters, and inside one only whether a '.' was seen. */
  predicate Alike(m: Machine, n: Machine) {
    && m.mode == n.mode
    && (m.mode != Chars ==>
          m.leadingZero == n.leadingZero && m.beforeDecimal == n.beforeDecimal &&
          (m.afterDecimal < 0 <==> n.afterDecimal < 0))
  }

  lemma {:induction false} AlikePrintAlike(m: Machine, n: Machine, fmt: string, args: seq<Arg>, k: nat)
    requires Alike(m, n)
    ensures Output(m, fmt, args, k) == Output(n, fmt, args, k)
    decreases |fmt|
  {
    if fmt != "" {
      var a, b := Step(m, fmt[0]), Step(n, fmt[0]);
      assert a.1 == b.1 && Alike(a.0, b.0);
      AlikePrintAlike(a.0, b.0, fmt[1..], args, if a.1.Convert? then k + 1 else k);
    }
  }

  lemma {:induction false} PrecisionDigits(m: Machine, s: string, rest: string, args: seq<Arg>, k: nat)
    requires m.mode == OtherFmtChar && m.afterDecimal >= 0 && AllDigits(s)
    ensures Output(m, s + rest, args, k) == Output(m, rest, args, k)
    decreases |s|
  {
    if s == "" {
      assert s + rest == rest;
    } else {
      var next := Step(m, s[0]).0;
      assert (s + rest)[1..] == s[1..] + rest;
      PrecisionDigits(next, s[1..], rest, args, k);
      AlikePrintAlike(next, m, rest, args, k);
    }
  }

  lemma LetterKind(kind: Kind)
    ensures KindOf(Letter(kind)) == [kind] && Letter(kind) != '.' && Letter(kind) != 'l'
    ensures !('0' <= Letter(kind) <= '9') && Letter(kind) != '%'
  {
  }

  /** The machine's next character taken apart. */
  lemma OutputNext(m: Machine, c: char, rest: string, args: seq<Arg>, k: nat)
    ensures var (next, action) := Step(m, c);
            Output(m, [c] + rest, args, k) ==
            Done(action, args, k) + Output(next, rest, args, if action.Convert? then k + 1 else k)
  {
    assert ([c] + rest)[1..] == rest;
  }

  lemma OutputAt(m: Machine, fmt: string, w: nat, args: seq<Arg>, k: nat, out: string)
    requires w < |fmt|
    ensures var (next, action) := Step(m, fmt[w]);
            out + Output(m, fmt[w..], args, k) ==
            (out + Done(action, args, k)) + Output(next, fmt[w + 1..], args, if action.Convert? then k + 1 else k)
  {
    assert fmt[w..] == [fmt[w]] + fmt[w + 1..];
    OutputNext(m, fmt[w], fmt[w + 1..], args, k);
  }

  lemma JustLetterConverts(m: Machine, kind: Kind, rest: string, args: seq<Arg>, k: nat)
    requires m.mode == OtherFmtChar
    ensures Output(m, [Letter(kind)] + rest, args, k) ==
            Converted(kind, m.leadingZero, m.beforeDecimal, args, k) + Output(START, rest, args, k + 1)
  {
    LetterKind(kind);
    OutputNext(m, Letter(kind), rest, args, k);
    AlikePrintAlike(m.(mode := Chars), START, rest, args, k + 1);
  }

  /** Length modifier and letter. */
  lemma LetterConverts(m: Machine, long: bool, kind: Kind, rest: string, args: seq<Arg>, k: nat)
    requires m.mode == OtherFmtChar
    ensures Output(m, (if long then "l" else "") + [Letter(kind)] + rest, args, k) ==
            Converted(kind, m.leadingZero, m.beforeDecimal, args, k) + Output(START, rest, args, k + 1)
  {
    var s := [Letter(kind)] + rest;
    if long {
      assert "l" + [Letter(kind)] + rest == ['l'] + s;
      OutputNext(m, 'l', s, args, k);
      JustLetterConverts(m.(long := true), kind, rest, args, k);
    } else {
      assert "" + [Letter(kind)] + rest == s;
      JustLetterConverts(m, kind, rest, args, k);
    }
  }

  /** Precision, length modifier and letter. */
  lemma TailConverts(m: Machine, dot: bool, precision: string, long: bool, kind: Kind,
                     rest: string, args: seq<Arg>, k: nat)
    requires m.mode == OtherFmtChar && m.afterDecimal < 0
    requires AllDigits(precision) && (precision != "" ==> dot)
    ensures var tail := (if dot then "." else "") + (precision + ((if long then "l" else "") + [Letter(kind)]));
            Output(m, tail + rest, args, k) ==
            Converted(kind, m.leadingZero, m.beforeDecimal, args, k) + Output(START, rest, args, k + 1)
  {
    var letter := (if long then "l" else "") + [Letter(kind)];
    var tail := (if dot then "." else "") + (precision + letter);
    if dot {
      var d := m.(afterDecimal := 0);
      assert tail + rest == ['.'] + (precision + (letter + rest));
      OutputNext(m, '.', precision + (letter + rest), args, k);
      PrecisionDigits(d, precision, letter + rest, args, k);
      LetterConverts(d, long, kind, rest, args, k);
    } else {
      assert tail + rest == letter + rest;
      LetterConverts(m, long, kind, rest, args, k);
    }
  }

  /** After the flag: width, precision, length modifier and letter. */
  lemma FlaggedConverts(m: Machine, p: Piece, rest: string, args: seq<Arg>, k: nat)
    requires m == Machine(OtherFmtChar, m.leadingZero, false, -1, -1)
    requires p.Conversion? && WellFormed(p)
    ensures Output(m, AfterFlag(p) + rest, args, k) ==
            Converted(p.kind, m.leadingZero, Width(p.width), args, k) + Output(START, rest, args, k + 1)
  {
    var tail := (if p.dot then "." else "") + (p.precision + ((if p.long then "l" else "") + [Letter(p.kind)]));
    assert AfterFlag(p) + rest == p.width + (tail + rest);
    WidthDigits(m, p.width, tail + rest, args, k);
    if p.width != "" {
      ExtendedReads(-1, p.width);
    }
    TailConverts(m.(beforeDecimal := Width(p.width)), p.dot, p.precision, p.long, p.kind, rest, args, k);
  }

  /** What follows '%' and the flag in a conversion. */
  function AfterFlag(p: Piece): (s: string)
    requires p.Conversion?
    ensures s != ""
  {
    p.width + ((if p.dot then "." else "") + (p.precision + ((if p.long then "l" else "") + [Letter(p.kind)])))
  }

  /** The machine, between conversions, prints one piece and is between conversions again. */
  lemma PrintsPiece(m: Machine, p: Piece, rest: string, args: seq<Arg>, k: nat)
    requires m.mode == Chars && WellFormed(p)
    ensures Output(m, Spelled(p) + rest, args, k) ==
            Shown(p, args, k) + Output(START, rest, args, if p.Conversion? then k + 1 else k)
  {
    match p
    case Plain(c) =>
      OutputNext(m, c, rest, args, k);
      AlikePrintAlike(m, START, rest, args, k);
    case Percent =>
      var first := Machine(FirstFmtChar, false, false, -1, -1);
      assert Spelled(p) + rest == ['%'] + (['%'] + rest);
      OutputNext(m, '%', ['%'] + rest, args, k);
      OutputNext(first, '%', rest, args, k);
      AlikePrintAlike(first.(mode := Chars), START, rest, args, k);
    case Conversion(_, _, _, _, _, _) =>
      PrintsConversion(m, p, rest, args, k);
  }

  /** The flag, if there is one. */
  lemma ReadsFlag(first: Machine, other: Machine, p: Piece, s: string, args: seq<Arg>, k: nat)
    requires p.Conversion? && WellFormed(p) && AfterFlag(p) <= s
    requires first == Machine(FirstFmtChar, false, false, -1, -1)
    requires other == Machine(OtherFmtChar, p.zeros, false, -1, -1)
    ensures Output(first, (if p.zeros then "0" else "") + s, args, k) == Output(other, s, args, k)
  {
    if p.zeros {
      assert "0" + s == ['0'] + s;
      OutputNext(first, '0', s, args, k);
    } else {
      assert "" + s == s;
      NoFlag(p);
      SkipFlag(first, other, s, args, k);
    }
  }

  lemma PrintsConversion(m: Machine, p: Piece, rest: string, args: seq<Arg>, k: nat)
    requires m.mode == Chars && WellFormed(p) && p.Conversion?
    ensures Output(m, Spelled(p) + rest, args, k) == Shown(p, args, k) + Output(START, rest, args, k + 1)
  {
    var first := Machine(FirstFmtChar, false, false, -1, -1);
    var other := Machine(OtherFmtChar, p.zeros, false, -1, -1);
    var flagged := AfterFlag(p) + rest;
    var flag := if p.zeros then "0" else "";
    calc {
      Output(m, Spelled(p) + rest, args, k);
      { SpelledApart(p, rest); }
      Output(m, ['%'] + (flag + flagged), args, k);
      { OutputNext(m, '%', flag + flagged, args, k); }
      Output(first, flag + flagged, args, k);
      { ReadsFlag(first, other, p, flagged, args, k); }
      Output(other, flagged, args, k);
      { FlaggedConverts(other, p, rest, args, k); }
      Shown(p, args, k) + Output(START, rest, args, k + 1);
    }
  }

  lemma SpelledApart(p: Piece, rest: string)
    requires p.Conversion?
    ensures Spelled(p) + rest == ['%'] + ((if p.zeros then "0" else "") + (AfterFlag(p) + rest))
  {
  }

  lemma NoFlag(p: Piece)
    requires p.Conversion? && WellFormed(p) && !p.zeros
    ensures AfterFlag(p)[0] != '0' && AfterFlag(p)[0] != '%'
  {
    LetterKind(p.kind);
  }

  /** A character that is neither the flag nor '%' is handled as if the flag had been passed. */
  lemma SkipFlag(first: Machine, other: Machine, s: string, args: seq<Arg>, k: nat)
    requires first.mode == FirstFmtChar && other == first.(mode := OtherFmtChar)
    requires s != "" && s[0] != '0' && s[0] != '%'
    ensures Output(first, s, args, k) == Output(other, s, args, k)
  {
    assert Step(first, s[0]) == Step(other, s[0]);
  }

  /** The machine prints, piece by piece, what the format spells. */
  lemma {:induction false} PrintsPieces(m: Machine, ps: seq<Piece>, args: seq<Arg>, k: nat)
    requires m.mode == Chars && forall i | 0 <= i < |ps| :: WellFormed(ps[i])
    ensures Output(m, SpelledAll(ps), args, k) == ShownAll(ps, args, k)
    decreases |ps|
  {
    if ps != [] {
      PrintsPiece(m, ps[0], SpelledAll(ps[1..]), args, k);
      PrintsPieces(START, ps[1..], args, if ps[0].Conversion? then k + 1 else k);
    }
  }

  // ----- what whole formats mean -----

  function Bare(p: Piece): Piece
    requires p.Conversion?
  {
    Conversion(false, "", false, "", false, p.kind)
  }

  /** A whole conversion, whatever its flag, width, precision and length modifier. */
  lemma ConversionMeans(p: Piece, args: seq<Arg>, k: nat)
    requires p.Conversion? && WellFormed(p) && k < |args|
    ensures var out := Output(START, Spelled(p), args, k);
            && Means(Spelled(p)[|Spelled(p)| - 1], Width(p.width), args[k], out)
            && Fills(Spelled(p)[|Spelled(p)| - 1], p.zeros, Width(p.width),
                     Output(START, Spelled(Bare(p)), args, k), out)
  {
    PrintsAlone(p, args, k);
    PrintsAlone(Bare(p), args, k);
    LastLetter(p);
    MeansOf(p, Spelled(p)[|Spelled(p)| - 1], args, k, Output(START, Spelled(p), args, k),
            Output(START, Spelled(Bare(p)), args, k));
  }

  lemma LastLetter(p: Piece)
    requires p.Conversion?
    ensures Spelled(p)[|Spelled(p)| - 1] == Letter(p.kind)
  {
  }

  lemma MeansOf(p: Piece, letter: char, args: seq<Arg>, k: nat, out: string, bare: string)
    requires p.Conversion? && k < |args| && letter == Letter(p.kind)
    requires out == Shown(p, args, k) && bare == Shown(Bare(p), args, k)
    ensures Means(letter, Width(p.width), args[k], out) && Fills(letter, p.zeros, Width(p.width), bare, out)
  {
    ConvertedMeans(p.kind, p.zeros, Width(p.width), args, k);
    assert Width("") == -1;
  }

  lemma PrintsAlone(p: Piece, args: seq<Arg>, k: nat)
    requires WellFormed(p)
    ensures Output(START, Spelled(p), args, k) == Shown(p, args, k)
  {
    PrintsPiece(START, p, "", args, k);
    assert Spelled(p) + "" == Spelled(p);
    assert Shown(p, args, k) + "" == Shown(p, args, k);
  }

  /** A piece prints the same whatever follows it, and what follows a conversion starts with the next argument. */
  lemma ArgumentsInOrder(p: Piece, rest: string, args: seq<Arg>, k: nat)
    requires WellFormed(p)
    ensures Output(START, Spelled(p) + rest, args, k) ==
            Output(START, Spelled(p), args, k) + Output(START, rest, args, if p.Conversion? then k + 1 else k)
  {
    PrintsPiece(START, p, rest, args, k);
    PrintsAlone(p, args, k);
  }

  /** A letter that means nothing ends the conversion, prints nothing and takes no argument. */
  lemma UnknownLetterIsSilent(c: char, rest: string, args: seq<Arg>, k: nat)
    requires c !in {'d', 'i', 'u', 'o', 'x', 'X', 'c', 's', '.', 'l', '%'} && !('0' <= c <= '9')
    ensures Output(START, ['%'] + ([c] + rest), args, k) == Output(START, rest, args, k)
  {
    var first := Machine(FirstFmtChar, false, false, -1, -1);
    assert Step(first, c) == (first.(mode := Chars), Nothing);
    OutputNext(START, '%', [c] + rest, args, k);
    OutputNext(first, c, rest, args, k);
    AlikePrintAlike(first.(mode := Chars), START, rest, args, k);
  }

  /** Plain characters print as themselves, and "%%" as '%'. */
  lemma PlainMeans(c: char, args: seq<Arg>, k: nat)
    ensures c != '%' ==> Output(START, [c], args, k) == [c]
    ensures Output(START, "%%", args, k) == "%"
  {
    if c != '%' {
      PrintsAlone(Plain(c), args, k);
    }
    PrintsAlone(Percent, args, k);
  }
}
