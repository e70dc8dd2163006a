// What printed text means: numbers that read back, fields of the width asked
// for, and whole formats written piece by piece.
module FormatLaws {
  import opened Formatter

  // ------------------------------------------------------------------ numbers

  predicate IsHexDigit(c: char, upper: bool) {
    '0' <= c <= '9' || (upper && 'A' <= c <= 'F') || (!upper && 'a' <= c <= 'f')
  }

  function HexDigit(c: char, upper: bool): (d: nat)
    requires IsHexDigit(c, upper)
    ensures d < 16
  {
    if c <= '9' then c as int - '0' as int
    else if upper then 10 + (c as int - 'A' as int)
    else 10 + (c as int - 'a' as int)
  }

  predicate AllHex(s: string, upper: bool) { forall k :: 0 <= k < |s| ==> IsHexDigit(s[k], upper) }

  function HexValue(s: string, upper: bool): nat
    requires AllHex(s, upper)
  {
    if s == "" then 0 else 16 * HexValue(s[..|s| - 1], upper) + HexDigit(s[|s| - 1], upper)
  }

  // No zero in front, except for zero itself.
  predicate Canonical(s: string) { s != "" && (s[0] == '0' ==> |s| == 1) }

  predicate IsHex(s: string, v: nat, upper: bool) { AllHex(s, upper) && HexValue(s, upper) == v && Canonical(s) }

  predicate IsDecimal(s: string, v: nat) { AllDigits(s) && Value(s) == v && Canonical(s) }

  // Hexadecimal digits of either case read back as the number they print.
  lemma {:induction false} HexReadsBack(v: nat, upper: bool)
    ensures IsHex(Digits(v, 16, upper), v, upper)
    ensures v > 0 ==> Digits(v, 16, upper)[0] != '0'
    decreases v
  {
    var s := Digits(v, 16, upper);
    if v >= 16 {
      HexReadsBack(v / 16, upper);
      assert s[..|s| - 1] == Digits(v / 16, 16, upper);
      assert v == 16 * (v / 16) + v % 16;
    } else {
      assert s[..0] == "";
    }
  }

  lemma DecimalReadsBack(v: nat)
    ensures IsDecimal(Digits(v, 10, false), v)
  {
    DigitsReadBack(v);
  }

  // There is only one such text for a number.
  lemma {:induction false} HexIsUnique(s: string, t: string, v: nat, upper: bool)
    requires IsHex(s, v, upper) && IsHex(t, v, upper)
    ensures s == t
    decreases |s|
  {
    HexSplits(s, v, upper);
    HexSplits(t, v, upper);
    SameHexDigit(s[|s| - 1], t[|t| - 1], upper);
    if v >= 16 {
      HexIsUnique(s[..|s| - 1], t[..|t| - 1], v / 16, upper);
      assert s == s[..|s| - 1] + [s[|s| - 1]] && t == t[..|t| - 1] + [t[|t| - 1]];
    }
  }

  lemma SameHexDigit(c: char, d: char, upper: bool)
    requires IsHexDigit(c, upper) && IsHexDigit(d, upper)
    ensures HexDigit(c, upper) == HexDigit(d, upper) <==> c == d
  {
  }

  lemma HexSplits(s: string, v: nat, upper: bool)
    requires IsHex(s, v, upper)
    ensures HexDigit(s[|s| - 1], upper) == v % 16
    ensures v < 16 ==> |s| == 1
    ensures v >= 16 ==> |s| > 1 && IsHex(s[..|s| - 1], v / 16, upper)
  {
    var front := s[..|s| - 1];
    assert v == 16 * HexValue(front, upper) + HexDigit(s[|s| - 1], upper);
    if front != "" {
      HexGrows(front, upper);
    }
  }

  lemma {:induction false} HexGrows(s: string, upper: bool)
    requires AllHex(s, upper) && s != "" && s[0] != '0'
    ensures HexValue(s, upper) > 0
  {
    if |s| > 1 {
      HexGrows(s[..|s| - 1], upper);
    } else {
      assert s[..0] == "";
    }
  }

  // ------------------------------------------------------------------- fields

  // The text s at the right end of a field of at least this width, behind
  // zeros or blanks.
  predicate IsField(text: string, s: string, width: nat, zero: bool) {
    && |text| == (if width > |s| then width else |s|)
    && text[|text| - |s|..] == s
    && forall k :: 0 <= k < |text| - |s| ==> text[k] == if zero then '0' else ' '
  }

  lemma PaddedIsField(s: string, width: nat, zero: bool)
    ensures IsField(Padded(s, width, zero), s, width, zero)
  {
  }

  ghost predicate IsHexField(text: string, v: nat, upper: bool, width: nat, zero: bool) {
    exists s :: IsHex(s, v, upper) && IsField(text, s, width, zero)
  }

  ghost predicate IsDecimalField(text: string, v: nat, width: nat, zero: bool) {
    exists s :: IsDecimal(s, v) && IsField(text, s, width, zero)
  }

  // A negative number has its sign in front of the field, which is one shorter.
  ghost predicate IsSignedField(text: string, v: int, width: nat, zero: bool) {
    if v >= 0 then IsDecimalField(text, v, width, zero)
    else text != "" && text[0] == '-' && IsDecimalField(text[1..], -v, if width == 0 then 0 else width - 1, zero)
  }

  lemma HexFieldIsPrinted(v: nat, upper: bool, width: nat, zero: bool)
    ensures IsHexField(Padded(Digits(v, 16, upper), width, zero), v, upper, width, zero)
  {
    HexReadsBack(v, upper);
    PaddedIsField(Digits(v, 16, upper), width, zero);
  }

  lemma DecimalFieldIsPrinted(v: nat, width: nat, zero: bool)
    ensures IsDecimalField(Padded(Digits(v, 10, false), width, zero), v, width, zero)
  {
    DecimalReadsBack(v);
    PaddedIsField(Digits(v, 10, false), width, zero);
  }

  lemma SignedFieldIsPrinted(v: int, width: nat, zero: bool)
    ensures IsSignedField(SignedText(v, width, zero), v, width, zero)
  {
    hide IsDecimalField, Padded, Digits;
    if v < 0 {
      var w := if width > 0 then width - 1 else 0;
      DecimalFieldIsPrinted(-v, w, zero);
      SignInFront(Padded(Digits(-v, 10, false), w, zero));
    } else {
      DecimalFieldIsPrinted(v, width, zero);
    }
  }

  lemma SignInFront(s: string)
    ensures ("-" + s)[0] == '-' && ("-" + s)[1..] == s && ("0x" + s)[2..] == s
  {
  }

  // -------------------------------------------------------------- conversions

  // A piece of a format: a character that stands for itself, or a conversion.
  datatype Piece =
    | Plain(c: char)
    | Conversion(zero: bool, width: nat, long: string, letter: char)

  predicate Proper(p: Piece) {
    if p.Plain? then p.c != '%'
    else
      && p.width < WORD && (p.long == "" || p.long == "l" || p.long == "z")
      && !IsDigit(p.letter) && p.letter != 'l' && p.letter != 'z'
  }

  // How a piece is written.
  function Written(p: Piece): string {
    match p
    case Plain(c) => [c]
    case Conversion(zero, width, long, letter) =>
      "%" + ((if zero then "0" else "") + (WidthText(width) + (long + [letter])))
  }

  function WidthText(width: nat): string { if width > 0 then Digits(width, 10, false) else "" }

  lemma WidthReadsBack(width: nat)
    ensures var s := WidthText(width); AllDigits(s) && Value(s) == width && (s != "" ==> s[0] != '0')
  {
    DigitsReadBack(width);
  }

  // The argument a conversion takes, if it takes one.
  predicate TakesArg(letter: char) {
    letter == 'c' || letter == 's' || letter == 'd' || letter == 'i' || letter == 'u'
    || letter == 'x' || letter == 'X' || letter == 'p'
  }

  predicate FitsArg(letter: char, a: Arg) { if letter == 's' then !a.Word? else a.Word? && a.v < WORD }

  // What it puts out for it.
  ghost predicate Prints(text: string, p: Piece, a: Arg)
    requires p.Conversion? && (TakesArg(p.letter) ==> FitsArg(p.letter, a))
  {
    match p.letter
    case 'c' => text == [(a.v % 256) as char]
    case 's' => text == if a.Text? then a.s else "(null)"
    case 'd' => IsSignedField(text, if a.v < 0x8000_0000 then a.v else a.v - 0x1_0000_0000, p.width, p.zero)
    case 'i' => IsSignedField(text, if a.v < 0x8000_0000 then a.v else a.v - 0x1_0000_0000, p.width, p.zero)
    case 'u' => IsDecimalField(text, a.v, p.width, p.zero)
    case 'x' => IsHexField(text, a.v, false, p.width, p.zero)
    case 'X' => IsHexField(text, a.v, true, p.width, p.zero)
    case 'p' => |text| > 2 && text[0] == '0' && text[1] == 'x' && IsHexField(text[2..], a.v, false, p.width, p.zero)
    case '%' => text == "%"
    case _ => text == "?"
  }

  lemma ConvertedPrints(spec: Spec, args: seq<Arg>, p: Piece, a: Arg)
    requires Fits(spec, args) && p.Conversion? && p.zero == spec.zero && p.width == spec.width && p.letter == spec.letter
    requires TakesArg(p.letter) ==> args != [] && a == args[0] && FitsArg(p.letter, a)
    ensures Prints(Converted(spec, args), p, a)
  {
    var c := spec.letter;
    hide Padded, Digits, SignedText, IsHexField, IsDecimalField, IsSignedField;
    if c == 'd' || c == 'i' {
      SignedFieldIsPrinted(Signed(a.v), spec.width, spec.zero);
    } else if c == 'u' {
      DecimalFieldIsPrinted(a.v, spec.width, spec.zero);
    } else if c == 'x' || c == 'p' {
      HexFieldIsPrinted(a.v, false, spec.width, spec.zero);
      SignInFront(Padded(Digits(a.v, 16, false), spec.width, spec.zero));
      assert |Padded(Digits(a.v, 16, false), spec.width, spec.zero)| > 0 by { NotEmpty(a.v, spec.width, spec.zero); }
    } else if c == 'X' {
      HexFieldIsPrinted(a.v, true, spec.width, spec.zero);
    }
  }

  lemma NotEmpty(v: nat, width: nat, zero: bool)
    ensures Padded(Digits(v, 16, false), width, zero) != ""
  {
  }

  // ------------------------------------------------------------------ parsing

  lemma {:induction false} WidthEndIs(fmt: string, a: nat, b: nat)
    requires a <= b < |fmt| && !IsDigit(fmt[b]) && forall k :: a <= k < b ==> IsDigit(fmt[k])
    ensures WidthEnd(fmt, a) == b
    decreases b - a
  {
    if a < b {
      WidthEndIs(fmt, a + 1, b);
    }
  }

  lemma {:induction false} WidthValueIs(fmt: string, a: nat, b: nat)
    requires a <= b <= |fmt| && AllDigits(fmt[a..b]) && Value(fmt[a..b]) < WORD
    requires forall k :: a <= k < b ==> IsDigit(fmt[k])
    ensures WidthValue(fmt, a, b) == Value(fmt[a..b])
    decreases b
  {
    if a < b {
      var s := fmt[a..b];
      assert s[..|s| - 1] == fmt[a..b - 1] && s[|s| - 1] == fmt[b - 1];
      assert Value(s) == Value(fmt[a..b - 1]) * 10 + DigitValue(fmt[b - 1]);
      WidthValueIs(fmt, a, b - 1);
    }
  }

  // A conversion stands at i and ends before next.
  predicate ReadsAt(fmt: string, i: nat, p: Piece, next: nat)
    requires p.Conversion?
  {
    && i < |fmt| && fmt[i] == '%' && LetterAt(fmt, i + 1) < |fmt|
    && SpecAt(fmt, i + 1) == Spec(p.zero, p.width, p.letter, next)
  }

  // Its parts are in their places: flag, width digits up to b, length, letter.
  predicate StandsAt(fmt: string, i: nat, p: Piece, digits: string, b: nat, next: nat)
    requires p.Conversion?
  {
    var a := i + 1 + if p.zero then 1 else 0;
    && b == a + |digits| && next == b + |p.long| + 1 <= |fmt|
    && fmt[i] == '%' && (p.zero ==> fmt[i + 1] == '0') && fmt[a..b] == digits
    && (p.long != "" ==> fmt[b] == p.long[0]) && fmt[next - 1] == p.letter
  }

  // A conversion is read as it was written, wherever it stands.
  lemma ConversionReadsBack(before: string, p: Piece, after: string)
    requires p.Conversion? && Proper(p)
    ensures ReadsAt(before + (Written(p) + after), |before|, p, |before| + |Written(p)|)
  {
    Places(before, p, after);
    WidthReadsBack(p.width);
    hide WidthText, Written, Proper, ReadsAt, StandsAt, AllDigits, Value;
    PartsReadBack(before + (Written(p) + after), |before|, p, WidthText(p.width),
                  |before| + 1 + (if p.zero then 1 else 0) + |WidthText(p.width)|, |before| + |Written(p)|);
  }

  lemma PartsReadBack(fmt: string, i: nat, p: Piece, digits: string, b: nat, next: nat)
    requires p.Conversion? && Proper(p) && StandsAt(fmt, i, p, digits, b, next)
    requires AllDigits(digits) && Value(digits) == p.width && (digits != "" ==> digits[0] != '0')
    ensures ReadsAt(fmt, i, p, next)
  {
    var a := i + 1 + if p.zero then 1 else 0;
    forall k | a <= k < b ensures IsDigit(fmt[k]) && fmt[k] == digits[k - a] {
      assert fmt[k] == fmt[a..b][k - a];
    }
    assert !IsDigit(fmt[b]);
    assert !p.zero ==> fmt[i + 1] != '0';
    WidthEndIs(fmt, a, b);
    WidthValueIs(fmt, a, b);
    hide WidthEnd, WidthValue, Value, AllDigits;
    assert LetterAt(fmt, i + 1) == next - 1;
  }

  lemma Places(before: string, p: Piece, after: string)
    requires p.Conversion? && Proper(p)
    ensures StandsAt(before + (Written(p) + after), |before|, p, WidthText(p.width),
                     |before| + 1 + (if p.zero then 1 else 0) + |WidthText(p.width)|, |before| + |Written(p)|)
  {
    hide WidthText;
  }

  // ------------------------------------------------------------ whole formats

  function Format(pieces: seq<Piece>): string {
    if pieces == [] then "" else Written(pieces[0]) + Format(pieces[1..])
  }

  // The arguments are those the conversions take, one after the other.
  predicate Serves(pieces: seq<Piece>, args: seq<Arg>) {
    if pieces == [] then true
    else if pieces[0].Plain? || !TakesArg(pieces[0].letter) then Serves(pieces[1..], args)
    else args != [] && FitsArg(pieces[0].letter, args[0]) && Serves(pieces[1..], args[1..])
  }

  // The text is what the pieces print, one after the other.
  ghost predicate IsText(text: string, pieces: seq<Piece>, args: seq<Arg>)
    requires Serves(pieces, args)
    decreases |pieces|
  {
    if pieces == [] then text == ""
    else if pieces[0].Plain? then text != "" && text[0] == pieces[0].c && IsText(text[1..], pieces[1..], args)
    else exists n: nat :: n <= |text| && IsSplit(text, n, pieces, args)
  }

  ghost predicate IsSplit(text: string, n: nat, pieces: seq<Piece>, args: seq<Arg>)
    requires Serves(pieces, args) && pieces != [] && pieces[0].Conversion? && n <= |text|
    decreases |pieces|, 0
  {
    if TakesArg(pieces[0].letter) then
      Prints(text[..n], pieces[0], args[0]) && IsText(text[n..], pieces[1..], args[1..])
    else
      Prints(text[..n], pieces[0], NullText) && IsText(text[n..], pieces[1..], args)
  }

  // Every format written from such pieces is accepted with the arguments they
  // take, and expands to what the pieces print.
  lemma {:induction false} FormatPrintsItsPieces(before: string, pieces: seq<Piece>, args: seq<Arg>)
    requires (forall k :: 0 <= k < |pieces| ==> Proper(pieces[k])) && Serves(pieces, args)
    ensures WellFormed(before + Format(pieces), |before|, args)
    ensures IsText(Expand(before + Format(pieces), |before|, args), pieces, args)
    decreases |pieces|
  {
    if pieces != [] {
      var p := pieces[0];
      var args' := if p.Conversion? && TakesArg(p.letter) then args[1..] else args;
      Regroup(before, Written(p), Format(pieces[1..]));
      FormatPrintsItsPieces(before + Written(p), pieces[1..], args');
      assert Format(pieces) == Written(p) + Format(pieces[1..]);
      hide WellFormed, IsText, Expand, Format, Written, Proper, Serves;
      PiecePrints(before, Format(pieces[1..]), pieces, args, args');
    } else {
      assert before + "" == before;
    }
  }

  lemma Regroup(a: string, b: string, c: string)
    ensures (a + b) + c == a + (b + c)
  {
  }

  lemma PiecePrints(before: string, after: string, pieces: seq<Piece>, args: seq<Arg>, args': seq<Arg>)
    requires Serves(pieces, args) && pieces != [] && Proper(pieces[0])
    requires args' == if pieces[0].Conversion? && TakesArg(pieces[0].letter) then args[1..] else args
    requires var fmt := before + (Written(pieces[0]) + after); var next := |before + Written(pieces[0])|;
      WellFormed(fmt, next, args') && IsText(Expand(fmt, next, args'), pieces[1..], args')
    ensures var fmt := before + (Written(pieces[0]) + after);
      WellFormed(fmt, |before|, args) && IsText(Expand(fmt, |before|, args), pieces, args)
  {
    var p, fmt := pieces[0], before + (Written(pieces[0]) + after);
    hide WellFormed, IsText, Expand, Format, Serves, ReadsAt;
    if p.Plain? {
      PlainStands(before, p, after);
      PlainPrints(fmt, |before|, pieces, args);
    } else {
      ConversionReadsBack(before, p, after);
      hide Written;
      ConversionPrints(fmt, |before|, pieces, args, |before + Written(p)|, args');
    }
  }

  lemma PlainStands(before: string, p: Piece, after: string)
    requires p.Plain?
    ensures |before + Written(p)| == |before| + 1 <= |before + (Written(p) + after)|
    ensures (before + (Written(p) + after))[|before|] == p.c
  {
  }

  lemma PlainPrints(fmt: string, i: nat, pieces: seq<Piece>, args: seq<Arg>)
    requires Serves(pieces, args) && pieces != [] && pieces[0].Plain? && Proper(pieces[0])
    requires i < |fmt| && fmt[i] == pieces[0].c
    requires WellFormed(fmt, i + 1, args) && IsText(Expand(fmt, i + 1, args), pieces[1..], args)
    ensures WellFormed(fmt, i, args) && IsText(Expand(fmt, i, args), pieces, args)
  {
    assert Expand(fmt, i, args)[1..] == Expand(fmt, i + 1, args);
  }

  lemma ArgsFit(spec: Spec, p: Piece, pieces: seq<Piece>, args: seq<Arg>)
    requires Serves(pieces, args) && pieces != [] && pieces[0] == p && p.Conversion? && spec.letter == p.letter
    ensures Fits(spec, args)
    ensures Rest(spec, args) == if TakesArg(p.letter) then args[1..] else args
    ensures Serves(pieces[1..], Rest(spec, args))
    ensures TakesArg(p.letter) ==> args != [] && FitsArg(p.letter, args[0])
  {
  }

  lemma ConversionPrints(fmt: string, i: nat, pieces: seq<Piece>, args: seq<Arg>, next: nat, args': seq<Arg>)
    requires Serves(pieces, args) && pieces != [] && pieces[0].Conversion? && next <= |fmt|
    requires args' == if TakesArg(pieces[0].letter) then args[1..] else args
    requires ReadsAt(fmt, i, pieces[0], next)
    requires WellFormed(fmt, next, args') && IsText(Expand(fmt, next, args'), pieces[1..], args')
    ensures WellFormed(fmt, i, args) && IsText(Expand(fmt, i, args), pieces, args)
  {
    var spec := SpecAt(fmt, i + 1);
    ArgsFit(spec, pieces[0], pieces, args);
    var a := if TakesArg(pieces[0].letter) then args[0] else NullText;
    assert spec.next == next && spec.letter == pieces[0].letter;
    FirstPrints(spec, pieces[0], args, a);
    hide ReadsAt, SpecAt, Serves, IsText, Fits, Rest, TakesArg, Prints, Converted;
    ExpandsTo(fmt, i, args, spec, args');
    Joined(Converted(spec, args), Expand(fmt, next, args'), pieces, args, a, args');
  }

  lemma FirstPrints(spec: Spec, p: Piece, args: seq<Arg>, a: Arg)
    requires p.Conversion? && spec.zero == p.zero && spec.width == p.width && spec.letter == p.letter && Fits(spec, args)
    requires if TakesArg(p.letter) then args != [] && a == args[0] && FitsArg(p.letter, a) else a == NullText
    ensures (TakesArg(p.letter) ==> FitsArg(p.letter, a)) && Prints(Converted(spec, args), p, a)
  {
    hide Prints, Converted;
    ConvertedPrints(spec, args, p, a);
  }

  lemma ExpandsTo(fmt: string, i: nat, args: seq<Arg>, spec: Spec, args': seq<Arg>)
    requires i < |fmt| && fmt[i] == '%' && LetterAt(fmt, i + 1) < |fmt| && spec == SpecAt(fmt, i + 1)
    requires Fits(spec, args) && args' == Rest(spec, args) && WellFormed(fmt, spec.next, args')
    ensures WellFormed(fmt, i, args) && Expand(fmt, i, args) == Converted(spec, args) + Expand(fmt, spec.next, args')
  {
    hide SpecAt, LetterAt, Fits, Rest, Converted;
  }

  lemma Joined(one: string, more: string, pieces: seq<Piece>, args: seq<Arg>, a: Arg, args': seq<Arg>)
    requires Serves(pieces, args) && pieces != [] && pieces[0].Conversion?
    requires if TakesArg(pieces[0].letter) then a == args[0] && args' == args[1..] else a == NullText && args' == args
    requires Prints(one, pieces[0], a) && IsText(more, pieces[1..], args')
    ensures IsText(one + more, pieces, args)
  {
    var text := one + more;
    hide Prints;
    assert text[..|one|] == one && text[|one|..] == more;
    assert IsSplit(text, |one|, pieces, args);
  }
}
