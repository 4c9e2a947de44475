/**
 Format strings as the sequences of pieces they spell, and the text each piece stands for. The two
 printf implementations are proved against this.
 */
module Formats {
  import opened IntegerText
  import opened Words

  /** A variable argument: a word, or a string passed by pointer. */
  datatype Arg = Num(w: Word) | Text(s: string)

  /** The k-th argument read as a word; reading a missing or mistyped one is undefined in C. */
  function NumArg(args: seq<Arg>, k: nat): Word {
    if k < |args| && args[k].Num? then args[k].w else 0
  }

  function TextArg(args: seq<Arg>, k: nat): string {
    if k < |args| && args[k].Text? then args[k].s else ""
  }

  /** What reaches the output when an int is written as a character. */
  function CharOf(w: Word): char {
    (w % 256) as char
  }

  datatype Kind = Decimal | Integer | Unsigned | Octal | Hex | UpperHex | Character | Str

  function Letter(kind: Kind): char {
    match kind
    case Decimal => 'd'
    case Integer => 'i'
    case Unsigned => 'u'
    case Octal => 'o'
    case Hex => 'x'
    case UpperHex => 'X'
    case Character => 'c'
    case Str => 's'
  }

  /** A plain character, "%%", or a conversion with its flag, width, precision and length modifier. */
  datatype Piece =
    | Plain(c: char)
    | Percent
    | Conversion(zeros: bool, width: string, dot: bool, precision: string, long: bool, kind: Kind)

  predicate AllDigits(s: string) {
    forall i | 0 <= i < |s| :: '0' <= s[i] <= '9'
  }

  predicate WellFormed(p: Piece) {
    match p
    case Plain(c) => c != '%'
    case Percent => true
    case Conversion(zeros, width, dot, precision, long, kind) =>
      && AllDigits(width) && AllDigits(precision)
      && (!zeros && width != "" ==> width[0] != '0')
      && (precision != "" ==> dot)
  }

  function Spelled(p: Piece): string {
    match p
    case Plain(c) => [c]
    case Percent => "%%"
    case Conversion(zeros, width, dot, precision, long, kind) =>
      "%" + (if zeros then "0" else "") + (width + ((if dot then "." else "") + (precision +
      ((if long then "l" else "") + [Letter(kind)]))))
  }

  function SpelledAll(ps: seq<Piece>): string {
    if ps == [] then "" else Spelled(ps[0]) + SpelledAll(ps[1..])
  }

  function Width(width: string): int {
    if width == "" then -1 else ReadDigits(width, 10)
  }

  /** How an integer conversion prints. */
  function IntFormat(kind: Kind, zeros: bool, width: int): (f: Format)
    requires !kind.Character? && !kind.Str?
    ensures Printable(f)
  {
    Format(if kind.Octal? then 8 else if kind.Hex? || kind.UpperHex? then 16 else 10,
           kind.Decimal? || kind.Integer?, kind.UpperHex?, zeros, width)
  }

  function Converted(kind: Kind, zeros: bool, width: int, args: seq<Arg>, k: nat): string {
    match kind
    case Character => Fill(' ', width - 1) + [CharOf(NumArg(args, k))]
    case Str => Fill(' ', width - |TextArg(args, k)|) + TextArg(args, k)
    case _ => Rendered(NumArg(args, k), IntFormat(kind, zeros, width))
  }

  function Shown(p: Piece, args: seq<Arg>, k: nat): string {
    match p
    case Plain(c) => [c]
    case Percent => "%"
    case Conversion(zeros, width, _, _, _, kind) => Converted(kind, zeros, Width(width), args, k)
  }

  /** The text of the pieces, conversions taking the arguments from the k-th on in order. */
  function ShownAll(ps: seq<Piece>, args: seq<Arg>, k: nat): string {
    if ps == [] then ""
    else Shown(ps[0], args, k) + ShownAll(ps[1..], args, if ps[0].Conversion? then k + 1 else k)
  }

  // ----- what the letters mean -----

  /** The text reads back as the number, with letters of one case at most. */
  predicate Prints(out: string, base: nat, number: int, upper: bool) {
    && Read(out, base) == number
    && forall i | 0 <= i < |out| :: if upper then !('a' <= out[i] <= 'z') else !('A' <= out[i] <= 'Z')
  }

  /** Right-justified with spaces in a field of the width. */
  predicate Justified(out: string, width: int, text: string) {
    && |out| == (if width > |text| then width else |text|)
    && out[|out| - |text|..] == text
    && forall i | 0 <= i < |out| - |text| :: out[i] == ' '
  }

  /** What a conversion ending in this letter is to print of its argument; a negative width means none. */
  predicate Means(letter: char, width: int, arg: Arg, out: string) {
    match letter
    case 'd' => arg.Num? ==> Prints(out, 10, if arg.w < 0x8000_0000 then arg.w else arg.w - 0x1_0000_0000, false)
    case 'i' => arg.Num? ==> Prints(out, 10, if arg.w < 0x8000_0000 then arg.w else arg.w - 0x1_0000_0000, false)
    case 'u' => arg.Num? ==> Prints(out, 10, arg.w, false)
    case 'o' => arg.Num? ==> Prints(out, 8, arg.w, false)
    case 'x' => arg.Num? ==> Prints(out, 16, arg.w, false)
    case 'X' => arg.Num? ==> Prints(out, 16, arg.w, true)
    case 'c' => arg.Num? ==> Justified(out, width, [(arg.w % 256) as char])
    case 's' => arg.Text? ==> Justified(out, width, arg.s)
    case _ => false
  }

  /** The field is at least as wide as asked for; what an integer leaves free is zeros or spaces. */
  predicate Fills(letter: char, zeros: bool, width: int, bare: string, out: string) {
    && width <= |out|
    && (letter in {'d', 'i', 'u', 'o', 'x', 'X'} && |bare| < width ==> |out| == width && (out[0] == ' ' <==> !zeros))
    && (letter in {'d', 'i', 'u', 'o', 'x', 'X'} && width <= |bare| ==> out == bare)
  }

  lemma ConvertedMeans(kind: Kind, zeros: bool, width: int, args: seq<Arg>, k: nat)
    requires k < |args|
    ensures var out := Converted(kind, zeros, width, args, k);
            && Means(Letter(kind), width, args[k], out)
            && Fills(Letter(kind), zeros, width, Converted(kind, false, -1, args, k), out)
  {
    if kind.Character? {
      TextMeans(width, [CharOf(NumArg(args, k))]);
    } else if kind.Str? {
      TextMeans(width, TextArg(args, k));
    } else {
      IntegerPrints(kind, zeros, width, NumArg(args, k));
      IntegerFills(kind, zeros, width, NumArg(args, k));
    }
  }

  lemma TextMeans(width: int, text: string)
    ensures Justified(Fill(' ', width - |text|) + text, width, text)
  {
  }

  lemma IntegerPrints(kind: Kind, zeros: bool, width: int, w: Word)
    requires !kind.Character? && !kind.Str?
    ensures Means(Letter(kind), width, Num(w), Rendered(w, IntFormat(kind, zeros, width)))
  {
    var f := IntFormat(kind, zeros, width);
    ReadRendered(w, f);
    RenderedCase(w, f);
    assert Prints(Rendered(w, f), f.base, Number(w, f), f.upper);
  }

  lemma IntegerFills(kind: Kind, zeros: bool, width: int, w: Word)
    requires !kind.Character? && !kind.Str?
    ensures Fills(Letter(kind), zeros, width, Rendered(w, IntFormat(kind, false, -1)),
                  Rendered(w, IntFormat(kind, zeros, width)))
  {
    var f := IntFormat(kind, zeros, width);
    RenderedFill(w, f);
    RenderedMinimal(w, f, IntFormat(kind, false, -1));
  }
}
