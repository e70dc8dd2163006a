// The bounded formatter of the EV-function board's console: what an unbounded
// buffer would receive, and the methods that fill the bounded one.
module Formatter {

  const WORD: nat := 0x1_0000_0000

  // A variable argument: a 32-bit word or a string pointer, which may be null.
  datatype Arg = Word(v: nat) | Text(s: string) | NullText

  // -------------------------------------------------------------- expansion

  function Repeat(c: char, n: nat): string { seq(n, _ => c) }

  function Padding(n: nat, width: nat, zero: bool): string {
    if width > n then Repeat(if zero then '0' else ' ', width - n) else ""
  }

  function DigitOf(d: nat, upper: bool): char
    requires d < 16
  {
    if d < 10 then '0' + d as char else if upper then 'A' + (d - 10) as char else 'a' + (d - 10) as char
  }

  // v in the given base, most significant digit first.
  function Digits(v: nat, base: nat, upper: bool): (s: string)
    requires base == 10 || base == 16
    ensures |s| >= 1
    decreases v, base
  {
    if v < base then [DigitOf(v, upper)] else Digits(v / base, base, upper) + [DigitOf(v % base, upper)]
  }

  function Padded(s: string, width: nat, zero: bool): string { Padding(|s|, width, zero) + s }

  // The value of a word as a signed number.
  function Signed(w: nat): int
    requires w < WORD
  {
    if w < 0x8000_0000 then w else w - WORD
  }

  // The sign stands before the padding.
  function SignedText(v: int, width: nat, zero: bool): string {
    if v < 0 then "-" + Padded(Digits(-v, 10, false), if width > 0 then width - 1 else 0, zero)
    else Padded(Digits(v, 10, false), width, zero)
  }

  // A conversion: the flags and width after the percent sign, the letter, and
  // how many characters they take.
  datatype Spec = Spec(zero: bool, width: nat, letter: char, next: nat)

  predicate IsDigit(c: char) { '0' <= c <= '9' }

  function DigitValue(c: char): (d: nat)
    requires IsDigit(c)
    ensures d < 10
  {
    c as nat - '0' as nat
  }

  function WidthEnd(fmt: string, i: nat): (j: nat)
    requires i <= |fmt|
    ensures i <= j <= |fmt|
    ensures j < |fmt| ==> !IsDigit(fmt[j])
    decreases |fmt| - i
  {
    if i < |fmt| && IsDigit(fmt[i]) then WidthEnd(fmt, i + 1) else i
  }

  // The number written from i to j, in 32 bits.
  function WidthValue(fmt: string, i: nat, j: nat): (w: nat)
    requires i <= j <= |fmt| && forall k :: i <= k < j ==> IsDigit(fmt[k])
    ensures w < WORD
    decreases j
  {
    if i == j then 0 else (WidthValue(fmt, i, j - 1) * 10 + DigitValue(fmt[j - 1])) % WORD
  }

  lemma {:induction false} WidthIsDigits(fmt: string, i: nat)
    requires i <= |fmt|
    ensures forall k :: i <= k < WidthEnd(fmt, i) ==> IsDigit(fmt[k])
    decreases |fmt| - i
  {
    if i < |fmt| && IsDigit(fmt[i]) {
      WidthIsDigits(fmt, i + 1);
    }
  }

  // Where the letter of the conversion whose flags start at i is; past the end
  // if the format stops inside the conversion.
  function LetterAt(fmt: string, i: nat): (j: nat)
    requires i <= |fmt|
    ensures i <= j <= |fmt|
  {
    var a := if i < |fmt| && fmt[i] == '0' then i + 1 else i;
    var b := WidthEnd(fmt, a);
    if b < |fmt| && (fmt[b] == 'l' || fmt[b] == 'z') then b + 1 else b
  }

  function SpecAt(fmt: string, i: nat): (spec: Spec)
    requires i <= |fmt| && LetterAt(fmt, i) < |fmt|
    ensures i < spec.next <= |fmt|
  {
    var zero := i < |fmt| && fmt[i] == '0';
    var a := if zero then i + 1 else i;
    WidthIsDigits(fmt, a);
    Spec(zero, WidthValue(fmt, a, WidthEnd(fmt, a)), fmt[LetterAt(fmt, i)], LetterAt(fmt, i) + 1)
  }

  predicate TakesWord(c: char) { c == 'c' || c == 'd' || c == 'i' || c == 'u' || c == 'x' || c == 'X' || c == 'p' }

  // The arguments that are left fit the conversion.
  predicate Fits(spec: Spec, args: seq<Arg>) {
    && (TakesWord(spec.letter) ==> |args| > 0 && args[0].Word? && args[0].v < WORD)
    && (spec.letter == 's' ==> |args| > 0 && !args[0].Word?)
  }

  function Rest(spec: Spec, args: seq<Arg>): seq<Arg>
    requires Fits(spec, args)
  {
    if TakesWord(spec.letter) || spec.letter == 's' then args[1..] else args
  }

  function Converted(spec: Spec, args: seq<Arg>): string
    requires Fits(spec, args)
  {
    match spec.letter
    case 'c' => [(args[0].v % 256) as char]
    case 's' => if args[0].Text? then args[0].s else "(null)"
    case 'd' => SignedText(Signed(args[0].v), spec.width, spec.zero)
    case 'i' => SignedText(Signed(args[0].v), spec.width, spec.zero)
    case 'u' => Padded(Digits(args[0].v, 10, false), spec.width, spec.zero)
    case 'x' => Padded(Digits(args[0].v, 16, false), spec.width, spec.zero)
    case 'X' => Padded(Digits(args[0].v, 16, true), spec.width, spec.zero)
    case 'p' => "0x" + Padded(Digits(args[0].v, 16, false), spec.width, spec.zero)
    case '%' => "%"
    case _ => "?"
  }

  // No conversion is cut off by the end of the format, and each finds its
  // argument.
  predicate WellFormed(fmt: string, i: nat, args: seq<Arg>)
    requires i <= |fmt|
    decreases |fmt| - i
  {
    if i == |fmt| then true
    else if fmt[i] != '%' then WellFormed(fmt, i + 1, args)
    else
      && LetterAt(fmt, i + 1) < |fmt|
      && var spec := SpecAt(fmt, i + 1);
         Fits(spec, args) && WellFormed(fmt, spec.next, Rest(spec, args))
  }

  // The text of the format from i on, with no bound on its length.
  function Expand(fmt: string, i: nat, args: seq<Arg>): string
    requires i <= |fmt| && WellFormed(fmt, i, args)
    decreases |fmt| - i
  {
    if i == |fmt| then ""
    else if fmt[i] != '%' then [fmt[i]] + Expand(fmt, i + 1, args)
    else
      var spec := SpecAt(fmt, i + 1);
      Converted(spec, args) + Expand(fmt, spec.next, Rest(spec, args))
  }

  // ------------------------------------------------------------- reading back

  function Value(s: string): nat
    requires AllDigits(s)
  {
    if s == "" then 0 else Value(s[..|s| - 1]) * 10 + DigitValue(s[|s| - 1])
  }

  predicate AllDigits(s: string) { forall k :: 0 <= k < |s| ==> IsDigit(s[k]) }

  // A decimal number with an optional minus sign.
  predicate IsNumber(s: string) { if s != "" && s[0] == '-' then AllDigits(s[1..]) else AllDigits(s) }

  function Number(s: string): int
    requires IsNumber(s)
  {
    if s != "" && s[0] == '-' then -(Value(s[1..]) as int) else Value(s)
  }

  lemma {:induction false} DigitsReadBack(v: nat)
    ensures AllDigits(Digits(v, 10, false))
    ensures Value(Digits(v, 10, false)) == v
    ensures v > 0 ==> Digits(v, 10, false)[0] != '0'
    decreases v
  {
    var s := Digits(v, 10, false);
    if v >= 10 {
      DigitsReadBack(v / 10);
      assert s[..|s| - 1] == Digits(v / 10, 10, false);
    } else {
      assert s[..0] == "";
    }
  }

  // An unpadded %d reads back as its argument, the most negative included.
  lemma SignedReadsBack(w: nat)
    requires w < WORD
    ensures IsNumber(SignedText(Signed(w), 0, false))
    ensures Number(SignedText(Signed(w), 0, false)) == Signed(w)
  {
    var v := Signed(w);
    var m: nat := if v < 0 then -v else v;
    DigitsReadBack(m);
    var d := Digits(m, 10, false);
    assert IsDigit(d[0]) && SignedText(v, 0, false) == if v < 0 then "-" + d else d by {
      assert Padding(|d|, 0, false) + d == d;
    }
    hide SignedText, Signed, Digits;
    assert ("-" + d)[1..] == d;
  }

  function Pow(base: nat, n: nat): nat { if n == 0 then 1 else base * Pow(base, n - 1) }

  // n digits are enough for every value below base to the n.
  lemma {:induction false} DigitsSuffice(v: nat, base: nat, upper: bool, n: nat)
    requires (base == 10 || base == 16) && n > 0 && v < Pow(base, n)
    ensures |Digits(v, base, upper)| <= n
    decreases n
  {
    if v >= base {
      assert Pow(base, n) == base * Pow(base, n - 1);
      DigitsSuffice(v / base, base, upper, n - 1);
    }
  }
}
