/**
 The text of one converted integer: what the log printf's %d, %i, %u, %o, %x and %X print, the number
 such a text stands for, and the printing loops.
 */
module IntegerText {
  import opened Digits
  import opened Words

  /** Conversion flags; a negative width means none was given. */
  datatype Format = Format(base: nat, signed: bool, upper: bool, zeros: bool, width: int)

  /** A 32-bit word printed as a signed number is in two's complement. */
  predicate Negative(w: Word, f: Format) {
    f.signed && w >= WORD / 2
  }

  function Magnitude(w: Word, f: Format): Word {
    if Negative(w, f) then WORD - w else w
  }

  function Number(w: Word, f: Format): int {
    if Negative(w, f) then w - WORD else w
  }

  function DigitChar(d: nat, upper: bool): char
    requires d < 16
  {
    var c := '0' as int + d;
    if c > '9' as int then (c + (if upper then 'A' as int else 'a' as int) - '0' as int - 10) as char
    else c as char
  }

  function DigitChars(ds: seq<nat>, upper: bool): (s: string)
    requires forall i | 0 <= i < |ds| :: ds[i] < 16
    ensures |s| == |ds|
  {
    seq(|ds|, i requires 0 <= i < |ds| => DigitChar(ds[i], upper))
  }

  /** n times c, or nothing. */
  function Fill(c: char, n: int): (s: string)
    ensures |s| == if n > 0 then n else 0
  {
    if n <= 0 then "" else seq(n, _ => c)
  }

  predicate Printable(f: Format) {
    2 <= f.base <= 16
  }

  /** The digits of a word in the format's base. */
  function Body(w: Word, f: Format): (s: string)
    requires Printable(f)
  {
    DigitChars(Shortest(Magnitude(w, f), f.base), f.upper)
  }

  function Sign(w: Word, f: Format): string {
    if Negative(w, f) then "-" else ""
  }

  /** Right-justified: zeros go between the sign and the digits, spaces before the sign. */
  function Rendered(w: Word, f: Format): string
    requires Printable(f)
  {
    var room := f.width - |Body(w, f)| - |Sign(w, f)|;
    if f.zeros then Sign(w, f) + Fill('0', room) + Body(w, f)
    else Fill(' ', room) + Sign(w, f) + Body(w, f)
  }

  // ----- reading it back -----

  function DigitOf(c: char): nat {
    if '0' <= c <= '9' then c as nat - '0' as nat
    else if 'a' <= c <= 'f' then c as nat - 'a' as nat + 10
    else if 'A' <= c <= 'F' then c as nat - 'A' as nat + 10
    else 0
  }

  function ReadDigits(s: string, base: nat): int {
    if s == [] then 0 else ReadDigits(s[..|s| - 1], base) * base + DigitOf(s[|s| - 1])
  }

  function ReadSigned(s: string, base: nat): int {
    if s != [] && s[0] == '-' then -ReadDigits(s[1..], base) else ReadDigits(s, base)
  }

  /** Skips spaces, then reads a sign and digits. */
  function Read(s: string, base: nat): int {
    if s != [] && s[0] == ' ' then Read(s[1..], base) else ReadSigned(s, base)
  }

  lemma {:induction false} ReadBody(ds: seq<nat>, upper: bool, base: nat)
    requires forall i | 0 <= i < |ds| :: ds[i] < 16
    ensures ReadDigits(DigitChars(ds, upper), base) == Value(ds, base)
  {
    if ds != [] {
      var n := |ds| - 1;
      ReadBody(ds[..n], upper, base);
      assert DigitChars(ds, upper)[..n] == DigitChars(ds[..n], upper);
      assert DigitOf(DigitChar(ds[n], upper)) == ds[n];
    }
  }

  lemma {:induction false} ReadZeros(n: nat, s: string, base: nat)
    ensures ReadDigits(Fill('0', n) + s, base) == ReadDigits(s, base)
    decreases |s|, n
  {
    var t := Fill('0', n) + s;
    if s != [] {
      ReadZeros(n, s[..|s| - 1], base);
      assert t[..|t| - 1] == Fill('0', n) + s[..|s| - 1];
    } else if n > 0 {
      assert t[..n - 1] == Fill('0', n - 1) + [];
      ReadZeros(n - 1, s, base);
    }
  }

  lemma {:induction false} ReadSpaces(n: nat, s: string, base: nat)
    ensures Read(Fill(' ', n) + s, base) == Read(s, base)
  {
    if n > 0 {
      var t := Fill(' ', n) + s;
      assert t[1..] == Fill(' ', n - 1) + s;
      ReadSpaces(n - 1, s, base);
    } else {
      assert Fill(' ', n) + s == s;
    }
  }

  lemma ReadSign(w: Word, f: Format, digits: string)
    requires digits != [] && digits[0] != '-' && digits[0] != ' '
    ensures Read(Sign(w, f) + digits, f.base) ==
            if Negative(w, f) then -ReadDigits(digits, f.base) else ReadDigits(digits, f.base)
  {
    if Negative(w, f) {
      assert (Sign(w, f) + digits)[1..] == digits;
    } else {
      assert Sign(w, f) + digits == digits;
    }
  }

  /** Whatever the sign mode, width and fill, the text reads back as the number. */
  lemma ReadRendered(w: Word, f: Format)
    requires Printable(f)
    ensures Read(Rendered(w, f), f.base) == Number(w, f)
  {
    var body := Body(w, f);
    assert |body| == |Shortest(Magnitude(w, f), f.base)|;
    assert ReadDigits(body, f.base) == Magnitude(w, f) && body[0] != '-' && body[0] != ' ' by {
      ReadBody(Shortest(Magnitude(w, f), f.base), f.upper, f.base);
      ValueOfShortest(Magnitude(w, f), f.base);
    }
    var room := f.width - |body| - |Sign(w, f)|;
    ReadJustified(w, f, body, if room > 0 then room else 0);
  }

  lemma ReadJustified(w: Word, f: Format, body: string, n: nat)
    requires body != [] && body[0] != '-' && body[0] != ' '
    requires ReadDigits(body, f.base) == Magnitude(w, f)
    ensures Read(Sign(w, f) + Fill('0', n) + body, f.base) == Number(w, f)
    ensures Read(Fill(' ', n) + Sign(w, f) + body, f.base) == Number(w, f)
  {
    assert Sign(w, f) + Fill('0', n) + body == Sign(w, f) + (Fill('0', n) + body);
    ReadZeros(n, body, f.base);
    ReadSign(w, f, Fill('0', n) + body);
    assert Fill(' ', n) + Sign(w, f) + body == Fill(' ', n) + (Sign(w, f) + body);
    ReadSign(w, f, body);
    ReadSpaces(n, Sign(w, f) + body, f.base);
  }

  /** The text is as long as the width asks and no longer than that or sign and digits need. */
  lemma RenderedLength(w: Word, f: Format)
    requires Printable(f)
    ensures var needed := |Sign(w, f)| + |Shortest(Magnitude(w, f), f.base)|;
            |Rendered(w, f)| == if f.width > needed then f.width else needed
  {
  }

  /** Short texts are filled with spaces before the sign, or with zeros between the sign and the digits. */
  lemma RenderedFill(w: Word, f: Format)
    requires Printable(f)
    ensures var text, room := Rendered(w, f), f.width - |Sign(w, f)| - |Body(w, f)|;
            && (f.zeros ==> Sign(w, f) <= text && forall i | |Sign(w, f)| <= i < |Sign(w, f)| + room :: text[i] == '0')
            && (!f.zeros ==> forall i | 0 <= i < room :: text[i] == ' ')
            && (room > 0 ==> (text[0] == ' ' <==> !f.zeros))
  {
  }

  /** Without a width nothing but sign and digits is printed; a width that leaves no room changes nothing. */
  lemma RenderedMinimal(w: Word, f: Format, bare: Format)
    requires Printable(f) && bare == f.(zeros := false, width := -1)
    ensures Rendered(w, bare) == Sign(w, f) + Body(w, f)
    ensures f.width <= |Rendered(w, bare)| ==> Rendered(w, f) == Rendered(w, bare)
  {
  }

  /** Letters among the digits are upper-case exactly if asked for. */
  lemma RenderedCase(w: Word, f: Format)
    requires Printable(f)
    ensures forall i | 0 <= i < |Rendered(w, f)| ::
              if f.upper then !('a' <= Rendered(w, f)[i] <= 'z') else !('A' <= Rendered(w, f)[i] <= 'Z')
  {
    forall i | 0 <= i < |Body(w, f)|
      ensures if f.upper then !('a' <= Body(w, f)[i] <= 'z') else !('A' <= Body(w, f)[i] <= 'Z')
    {
    }
  }

  /** No shorter digit sequence stands for the number. */
  lemma BodyIsShortest(w: Word, f: Format, ds: seq<nat>)
    requires Printable(f) && ds != [] && forall i | 0 <= i < |ds| :: ds[i] < f.base
    requires Value(ds, f.base) == Magnitude(w, f)
    ensures |Body(w, f)| <= |ds|
  {
    DropLeadingZeros(ds, f.base);
  }

  lemma {:induction false} DropLeadingZeros(ds: seq<nat>, base: nat)
    requires 2 <= base && ds != [] && forall i | 0 <= i < |ds| :: ds[i] < base
    ensures |Shortest(Value(ds, base), base)| <= |ds|
    decreases |ds|
  {
    if |ds| == 1 || ds[0] != 0 {
      ShortestIsUnique(ds, base);
    } else {
      ValueOfTail(ds, base);
      DropLeadingZeros(ds[1..], base);
    }
  }

  lemma {:induction false} ValueOfTail(ds: seq<nat>, base: nat)
    requires |ds| > 1 && ds[0] == 0
    ensures Value(ds[1..], base) == Value(ds, base)
    decreases |ds|
  {
    var n := |ds| - 1;
    if n == 1 {
      assert ds[..1] == [0] && ds[1..][..0] == [] && ds[..1][..0] == [];
    } else {
      ValueOfTail(ds[..n], base);
      assert ds[1..][..n - 1] == ds[..n][1..];
    }
  }

  // ----- the printing loops -----

  /** Counts the digits of v and finds the place value of the first. */
  method CountDigits(v: Word, base: nat) returns (digitCount: nat, p: Word)
    requires 2 <= base <= 16
    ensures digitCount == |Shortest(v, base)| && p == Power(base, digitCount - 1)
  {
    digitCount, p := 1, 1;
    var vShrink: Word := v;
    while vShrink / base > 0
      invariant 1 <= digitCount && p == Power(base, digitCount - 1)
      invariant vShrink == v / p && (digitCount > 1 ==> vShrink > 0)
      decreases vShrink
    {
      NextCount(v, vShrink, p, base, digitCount - 1);
      vShrink := vShrink / base;
      digitCount, p := digitCount + 1, p * base;
    }
    if vShrink > 0 {
      ShortestLength(v, base, digitCount - 1);
    } else {
      assert p == 1 && v == 0;
    }
  }

  lemma NextCount(v: Word, vShrink: nat, p: nat, base: nat, k: nat)
    requires 2 <= base && p == Power(base, k) && vShrink == v / p && vShrink / base > 0
    ensures p * base == Power(base, k + 1) && vShrink / base == v / (p * base)
    ensures p * base <= v && vShrink / base < vShrink
  {
    assert vShrink / base == v / (p * base) by {
      DivideTwice(v, p, base);
    }
    PlaceFits(v, p, base);
    assert vShrink / base < vShrink by {
      BigEnough(vShrink, base, 1);
      DivisionShrinks(vShrink, base);
    }
  }

  lemma PlaceFits(v: nat, p: nat, base: nat)
    requires 0 < p && 0 < base && 0 < v / (p * base)
    ensures p * base <= v
  {
    Recompose(v, p * base);
    Monotone(1, v / (p * base), p * base);
  }

  /** The k lowest digits of v as characters. */
  function Lowest(v: nat, base: nat, k: nat, upper: bool): (s: string)
    requires 2 <= base <= 16
    ensures |s| == k
  {
    DigitChars(Padded(v, base, k), upper)
  }

  /** Prints the digits from place value p down. */
  method PrintDigits(v0: Word, p0: Word, base: nat, upper: bool, ghost k0: nat) returns (out: string)
    requires 2 <= base <= 16 && 0 < k0 && p0 == Power(base, k0 - 1) && v0 < Power(base, k0)
    ensures out == DigitChars(Padded(v0, base, k0), upper)
  {
    var v: Word, p: Word := v0, p0;
    ghost var k: int := k0;
    ghost var all := Lowest(v0, base, k0, upper);
    ghost var todo := all;
    out := "";
    while p > 0
      invariant 0 <= k <= k0 && p == (if k == 0 then 0 else Power(base, k - 1)) && v < Power(base, k)
      invariant todo == Lowest(v, base, k, upper) && out + todo == all
      decreases k
    {
      var c;
      ghost var before := out;
      c, v, p, todo := TakeDigit(v, p, base, upper, k - 1, todo);
      out := out + [c];
      MoveOver(before, c, todo);
      k := k - 1;
    }
  }

  lemma MoveOver(out: string, c: char, todo: string)
    ensures (out + [c]) + todo == out + ([c] + todo)
  {
  }

  /** The character at place value p, the remainder, and the next place value, 0 after the last. */
  method TakeDigit(v: Word, p: Word, base: nat, upper: bool, ghost k: nat, ghost todo: string)
    returns (c: char, rest: Word, next: Word, ghost todoNext: string)
    requires 2 <= base <= 16 && p == Power(base, k) && v < Power(base, k + 1) && todo == Lowest(v, base, k + 1, upper)
    ensures rest < Power(base, k) && next == if k == 0 then 0 else Power(base, k - 1)
    ensures todo == [c] + todoNext && todoNext == Lowest(rest, base, k, upper)
  {
    NextPlace(v, p, base, k);
    var d;
    d, rest, next := v / p, v % p, p / base;
    PaddedHead(v, base, k, d, rest);
    PrependChar(d, Padded(rest, base, k), upper);
    c := DigitChar(d, upper);
    todoNext := Lowest(rest, base, k, upper);
  }

  lemma PrependChar(d: nat, ds: seq<nat>, upper: bool)
    requires d < 16 && forall i | 0 <= i < |ds| :: ds[i] < 16
    ensures forall i | 0 <= i < |[d] + ds| :: ([d] + ds)[i] < 16
    ensures DigitChars([d] + ds, upper) == [DigitChar(d, upper)] + DigitChars(ds, upper)
  {
  }

  lemma NextPlace(v: nat, p: Word, base: nat, k: nat)
    requires 2 <= base && p == Power(base, k) && v < Power(base, k + 1)
    ensures 0 <= v / p < base && 0 <= v % p < p
    ensures p / base < WORD && p / base == if k == 0 then 0 else Power(base, k - 1)
  {
    QuotientBelow(v, p, base);
    PowerOverBase(base, k);
    PlaceShrinks(p, base);
  }

  lemma PowerOverBase(base: nat, k: nat)
    requires 2 <= base
    ensures Power(base, k) / base == if k == 0 then 0 else Power(base, k - 1)
  {
    if k == 0 {
      Quotient(1, base, 0, 1);
    } else {
      Quotient(Power(base, k), base, Power(base, k - 1), 0);
    }
  }

  lemma PlaceShrinks(p: Word, base: nat)
    requires 2 <= base
    ensures 0 <= p / base < WORD
  {
    if p < base {
      Quotient(p, base, 0, p);
    } else {
      DivisionShrinks(p, base);
    }
  }

  /** Prints c r times; a negative count prints nothing. */
  method RepeatChar(c: char, r: int) returns (out: string)
    ensures out == Fill(c, r)
  {
    out := "";
    var i := r;
    while i > 0
      invariant i <= r && (r <= 0 ==> i == r) && (r > 0 ==> 0 <= i && out == Fill(c, r - i))
      invariant r <= 0 ==> out == ""
    {
      out := out + [c];
      i := i - 1;
    }
  }

  /** Fill and sign of an integer whose digits take digitCount characters. */
  method PrintLead(f: Format, sign: bool, digitCount: nat) returns (out: string)
    ensures var room := f.width - digitCount - if sign then 1 else 0;
            out == if f.zeros then (if sign then "-" else "") + Fill('0', room)
                   else Fill(' ', room) + if sign then "-" else ""
  {
    var beforeDecimal := f.width - digitCount;
    out := "";
    if f.zeros {
      if sign {
        out := "-";
        beforeDecimal := beforeDecimal - 1;
      }
      var fill := RepeatChar('0', beforeDecimal);
      out := out + fill;
    } else {
      if sign {
        beforeDecimal := beforeDecimal - 1;
      }
      out := RepeatChar(' ', beforeDecimal);
      if sign {
        out := out + "-";
      }
    }
  }

  /** Two's complement negation of words with the sign bit set. */
  method StripSign(w: Word, f: Format) returns (sign: bool, v: Word)
    ensures sign == Negative(w, f) && v == Magnitude(w, f)
  {
    sign, v := false, w;
    if f.signed && v >= WORD / 2 {
      v := (WORD - 1 - v + 1) % WORD;
      sign := true;
    }
  }

  /** One integer conversion. */
  method PrintInteger(w: Word, f: Format) returns (out: string)
    requires Printable(f)
    ensures out == Rendered(w, f) && Read(out, f.base) == Number(w, f)
  {
    var sign, v := StripSign(w, f);
    var digitCount, p := CountDigits(v, f.base);
    var lead := PrintLead(f, sign, digitCount);
    var digits := PrintAll(v, p, f.base, f.upper);
    out := lead + digits;
    assert Read(Rendered(w, f), f.base) == Number(w, f) by {
      ReadRendered(w, f);
    }
  }

  /** Prints the digits of v, given the place value of the first. */
  method PrintAll(v: Word, p: Word, base: nat, upper: bool) returns (out: string)
    requires 2 <= base <= 16 && p == Power(base, |Shortest(v, base)| - 1)
    ensures out == DigitChars(Shortest(v, base), upper)
  {
    ghost var n := |Shortest(v, base)|;
    assert v < Power(base, n) by {
      ValueBelowPower(Shortest(v, base), base);
      ValueOfShortest(v, base);
    }
    out := PrintDigits(v, p, base, upper, n);
    ShortestIsPadded(v, base);
  }
}
