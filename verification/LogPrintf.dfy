/** The logging printf: how integers are printed, and the format interpreter. */
module LogPrintf {

  const WORD := 0x1_0000_0000
  const SIGN := 0x8000_0000

  /** The bases of the conversions d, i, u, o, x and X. */
  predicate IsBase(base: nat) { base == 8 || base == 10 || base == 16 }

  function DigitChar(d: nat, upper: bool): char
    requires d < 16
  {
    if d < 10 then '0' + d as char else (if upper then 'A' else 'a') + (d - 10) as char
  }

  /** The digits of a number, no more than needed. */
  function Digits(v: nat, base: nat, upper: bool): string
    requires IsBase(base)
  {
    if v < base then [DigitChar(v, upper)] else Digits(v / base, base, upper) + [DigitChar(v % base, upper)]
  }

  function Repeat(c: char, n: int): string { if n <= 0 then "" else seq(n, _ => c) }

  /** The sign and the padding, where `pad` is the width that the digits leave. */
  function Leading(negative: bool, zero: bool, pad: int): string {
    var sign := if negative then "-" else "";
    if zero then sign + Repeat('0', pad - |sign|) else Repeat(' ', pad - |sign|) + sign
  }

  /** The text of an integer: with the zero flag the sign comes before the padding, otherwise after. */
  function Text(magnitude: nat, negative: bool, base: nat, upper: bool, zero: bool, width: int): string
    requires IsBase(base)
  {
    var digits := Digits(magnitude, base, upper);
    Leading(negative, zero, width - |digits|) + digits
  }

  /** The number that a 32-bit word stands for. */
  function Number(word: nat, signed: bool): int {
    if signed && word >= SIGN then word - WORD else word
  }

  function Signed(negative: bool, m: nat): int { if negative then 0 - m else m }

  function Abs(x: int): nat { if x < 0 then -x else x }

  function IntegerText(word: nat, signed: bool, base: nat, upper: bool, zero: bool, width: int): string
    requires IsBase(base)
  {
    var x := Number(word, signed);
    Text(Abs(x), x < 0, base, upper, zero, width)
  }

  lemma TextIs(before: string, m: nat, negative: bool, base: nat, upper: bool, zero: bool, width: int)
    requires IsBase(base)
    ensures before + Leading(negative, zero, width - |Digits(m, base, upper)|) + Digits(m, base, upper)
         == before + Text(m, negative, base, upper, zero, width)
  {
    Associate(before, Leading(negative, zero, width - |Digits(m, base, upper)|), Digits(m, base, upper));
  }

  // Reading the text back

  function DigitValue(c: char): nat {
    if '0' <= c <= '9' then (c - '0') as nat
    else if 'a' <= c <= 'f' then (c - 'a') as nat + 10
    else if 'A' <= c <= 'F' then (c - 'A') as nat + 10
    else 0
  }

  function ParseDigits(s: string, base: nat): nat {
    if s == "" then 0 else ParseDigits(s[..|s| - 1], base) * base + DigitValue(s[|s| - 1])
  }

  function ParseSigned(s: string, base: nat): int {
    if s != "" && s[0] == '-' then 0 - ParseDigits(s[1..], base) else ParseDigits(s, base)
  }

  function SkipSpaces(s: string): string {
    if s != "" && s[0] == ' ' then SkipSpaces(s[1..]) else s
  }

  function Parse(s: string, base: nat): int { ParseSigned(SkipSpaces(s), base) }

  lemma DigitRoundTrip(d: nat, upper: bool)
    requires d < 16
    ensures DigitValue(DigitChar(d, upper)) == d
    ensures DigitChar(d, upper) != ' ' && DigitChar(d, upper) != '-' && (DigitChar(d, upper) == '0' <==> d == 0)
  {
  }

  lemma ParseAppend(s: string, c: char, base: nat)
    ensures ParseDigits(s + [c], base) == ParseDigits(s, base) * base + DigitValue(c)
  {
    assert (s + [c])[..|s|] == s;
  }

  lemma DivMod(v: nat, base: nat)
    requires IsBase(base)
    ensures v / base * base + v % base == v && v % base < base && (v > 0 ==> v / base < v)
  {
  }

  lemma {:induction false} DigitsRoundTrip(v: nat, base: nat, upper: bool)
    requires IsBase(base)
    ensures ParseDigits(Digits(v, base, upper), base) == v
  {
    DivMod(v, base);
    if v < base {
      OneDigit(v, base, upper);
    } else {
      DigitsRoundTrip(v / base, base, upper);
      OneMoreDigit(v / base, v % base, Digits(v / base, base, upper), base, upper);
    }
  }

  lemma Shrinks(v: nat, base: nat)
    requires IsBase(base) && v > 0
    ensures 0 <= v / base < v
  {
  }

  lemma OneDigit(v: nat, base: nat, upper: bool)
    requires v < 16
    ensures ParseDigits([DigitChar(v, upper)], base) == v
  {
    DigitRoundTrip(v, upper);
    ParseAppend("", DigitChar(v, upper), base);
    assert "" + [DigitChar(v, upper)] == [DigitChar(v, upper)];
  }

  lemma OneMoreDigit(q: nat, d: nat, s: string, base: nat, upper: bool)
    requires d < 16 && ParseDigits(s, base) == q
    ensures ParseDigits(s + [DigitChar(d, upper)], base) == q * base + d
  {
    ParseAppend(s, DigitChar(d, upper), base);
    DigitRoundTrip(d, upper);
  }

  /** No leading zero, unless the number is 0. */
  lemma {:induction false} DigitsMinimal(v: nat, base: nat, upper: bool)
    requires IsBase(base)
    ensures var s := Digits(v, base, upper);
            |s| > 0 && s[0] != ' ' && s[0] != '-' && (s[0] == '0' <==> v == 0) && (v == 0 ==> |s| == 1)
  {
    if v < base {
      DigitRoundTrip(v, upper);
    } else {
      DigitsMinimal(v / base, base, upper);
    }
  }

  lemma {:induction false} LeadingZeros(n: int, s: string, base: nat)
    ensures ParseDigits(Repeat('0', n) + s, base) == ParseDigits(s, base)
  {
    var t := Repeat('0', n) + s;
    if s != "" {
      assert t[..|t| - 1] == Repeat('0', n) + s[..|s| - 1];
      LeadingZeros(n, s[..|s| - 1], base);
    } else if n > 0 {
      assert t[..|t| - 1] == Repeat('0', n - 1) + s;
      LeadingZeros(n - 1, s, base);
    } else {
      assert t == s;
    }
  }

  lemma {:induction false} SkipsPadding(n: int, s: string)
    requires s != "" && s[0] != ' '
    ensures SkipSpaces(Repeat(' ', n) + s) == s
  {
    var t := Repeat(' ', n) + s;
    if n > 0 {
      assert t[1..] == Repeat(' ', n - 1) + s;
      SkipsPadding(n - 1, s);
    } else {
      assert t == s;
    }
  }

  /** Whatever the base, the flags and the width, the text is read back as the number. */
  lemma IntegerRoundTrip(word: nat, signed: bool, base: nat, upper: bool, zero: bool, width: int)
    requires IsBase(base) && word < WORD
    ensures Parse(IntegerText(word, signed, base, upper, zero, width), base) == Number(word, signed)
  {
    var x := Number(word, signed);
    TextRoundTrip(Abs(x), x < 0, base, upper, zero, width);
  }

  lemma TextRoundTrip(m: nat, negative: bool, base: nat, upper: bool, zero: bool, width: int)
    requires IsBase(base)
    ensures Parse(Text(m, negative, base, upper, zero, width), base) == Signed(negative, m)
  {
    var digits := Digits(m, base, upper);
    DigitsRoundTrip(m, base, upper);
    DigitsMinimal(m, base, upper);
    LeadingRoundTrip(negative, zero, width - |digits|, digits, base, m);
  }

  lemma LeadingRoundTrip(negative: bool, zero: bool, pad: int, s: string, base: nat, m: nat)
    requires s != "" && s[0] != ' ' && s[0] != '-' && ParseDigits(s, base) == m
    ensures Parse(Leading(negative, zero, pad) + s, base) == Signed(negative, m)
  {
    var n := pad - if negative then 1 else 0;
    if zero {
      ZerosRoundTrip(negative, n, s, base, m);
    } else {
      SpacesRoundTrip(negative, n, s, base, m);
    }
  }

  lemma ZerosRoundTrip(negative: bool, n: int, s: string, base: nat, m: nat)
    requires s != "" && s[0] != ' ' && s[0] != '-' && ParseDigits(s, base) == m
    ensures Parse((if negative then "-" else "") + Repeat('0', n) + s, base) == Signed(negative, m)
  {
    LeadingZeros(n, s, base);
    HeadOfPadded(n, s);
    SignedRoundTrip(negative, Repeat('0', n) + s, base, m);
    Associate(if negative then "-" else "", Repeat('0', n), s);
  }

  lemma HeadOfPadded(n: int, s: string)
    requires s != "" && s[0] != ' ' && s[0] != '-'
    ensures var t := Repeat('0', n) + s; t != "" && t[0] != ' ' && t[0] != '-'
  {
  }

  lemma SpacesRoundTrip(negative: bool, n: int, s: string, base: nat, m: nat)
    requires s != "" && s[0] != ' ' && s[0] != '-' && ParseDigits(s, base) == m
    ensures Parse(Repeat(' ', n) + (if negative then "-" else "") + s, base) == Signed(negative, m)
  {
    var t := (if negative then "-" else "") + s;
    SignedRoundTrip(negative, s, base, m);
    SkipsPadding(n, t);
    SkipsPadding(0, t);
    assert Repeat(' ', 0) + t == t;
    Associate(Repeat(' ', n), if negative then "-" else "", s);
  }

  lemma SignedRoundTrip(negative: bool, s: string, base: nat, m: nat)
    requires s != "" && s[0] != ' ' && s[0] != '-' && ParseDigits(s, base) == m
    ensures Parse((if negative then "-" else "") + s, base) == Signed(negative, m)
  {
    if negative {
      assert ("-" + s)[1..] == s;
    } else {
      assert "" + s == s;
    }
  }

  /** The text is as long as the width asks for, or as the digits and the sign need. */
  lemma TextLength(m: nat, negative: bool, base: nat, upper: bool, zero: bool, width: int)
    requires IsBase(base)
    ensures var needed := |Digits(m, base, upper)| + if negative then 1 else 0;
            |Text(m, negative, base, upper, zero, width)| == if width > needed then width else needed
  {
  }

  // Where sign, padding and digits are

  predicate IsDigit(c: char, upper: bool) {
    '0' <= c <= '9' || (if upper then 'A' <= c <= 'F' else 'a' <= c <= 'f')
  }

  /** Every character is a digit, in the case asked for. */
  lemma {:induction false} DigitsOnly(v: nat, base: nat, upper: bool)
    requires IsBase(base)
    ensures forall c | c in Digits(v, base, upper) :: IsDigit(c, upper)
  {
    if v >= base {
      DigitsOnly(v / base, base, upper);
    }
    DigitIn(v % base, upper);
    DivMod(v, base);
  }

  lemma DigitIn(d: nat, upper: bool)
    requires d < 16
    ensures IsDigit(DigitChar(d, upper), upper)
  {
  }

  /** With the zero flag there are no spaces, and a sign comes first: all that follows are digits. */
  lemma ZeroFlagMeans(m: nat, negative: bool, base: nat, upper: bool, width: int)
    requires IsBase(base)
    ensures var t := Text(m, negative, base, upper, true, width);
            && (negative ==> t[0] == '-')
            && forall i | (if negative then 1 else 0) <= i < |t| :: IsDigit(t[i], upper)
  {
    DigitsOnly(m, base, upper);
    DigitsMinimal(m, base, upper);
    var digits, t := Digits(m, base, upper), Text(m, negative, base, upper, true, width);
    var pad := t[..|t| - |digits|];
    assert t == pad + digits;
    forall i | (if negative then 1 else 0) <= i < |t| ensures IsDigit(t[i], upper) {
      if i < |pad| {
        assert t[i] == '0';
      } else {
        assert t[i] in digits;
      }
    }
  }

  /** Without it the sign and the digits, none to spare, come last, and there are but spaces before. */
  lemma NoZeroFlagMeans(m: nat, negative: bool, base: nat, upper: bool, width: int)
    requires IsBase(base)
    ensures SkipSpaces(Text(m, negative, base, upper, false, width))
         == (if negative then "-" else "") + Digits(m, base, upper)
  {
    var digits, sign := Digits(m, base, upper), if negative then "-" else "";
    DigitsMinimal(m, base, upper);
    SkipsPadding(width - |digits| - |sign|, sign + digits);
    Associate(Repeat(' ', width - |digits| - |sign|), sign, digits);
  }

  /** A word stands for the number of the same residue, within the range of its type. */
  lemma NumberMeans(word: nat, signed: bool)
    requires word < WORD
    ensures var x := Number(word, signed);
            x % WORD == word && if signed then -SIGN <= x < SIGN else 0 <= x < WORD
  {
  }

  // Place values

  function Pow(base: nat, k: nat): nat { if k == 0 then 1 else base * Pow(base, k - 1) }

  /** The last `k` digits. */
  function FixedDigits(v: nat, k: nat, base: nat, upper: bool): string
    requires IsBase(base)
  {
    if k == 0 then "" else FixedDigits(v / base, k - 1, base, upper) + [DigitChar(v % base, upper)]
  }

  lemma {:induction false} DigitsAreFixed(v: nat, base: nat, upper: bool)
    requires IsBase(base)
    ensures Digits(v, base, upper) == FixedDigits(v, |Digits(v, base, upper)|, base, upper)
  {
    if v < base {
      OnlyDigit(v, base, upper);
    } else {
      DigitsAreFixed(v / base, base, upper);
      LastFixedDigit(v, |Digits(v / base, base, upper)|, base, upper);
    }
  }

  lemma LastFixedDigit(v: nat, k: nat, base: nat, upper: bool)
    requires IsBase(base)
    ensures FixedDigits(v, k + 1, base, upper) == FixedDigits(v / base, k, base, upper) + [DigitChar(v % base, upper)]
  {
  }

  lemma DigitsCount(v: nat, base: nat, upper: bool)
    requires IsBase(base)
    ensures |Digits(v, base, upper)| == 1 + if v / base > 0 then |Digits(v / base, base, upper)| else 0
  {
  }

  lemma {:induction false} DigitsBound(v: nat, base: nat, upper: bool)
    requires IsBase(base)
    ensures |Digits(v, base, upper)| > 0 && v < Pow(base, |Digits(v, base, upper)|)
    ensures v > 0 ==> Pow(base, |Digits(v, base, upper)| - 1) <= v
  {
    if v < base {
      assert Pow(base, 1) == base * Pow(base, 0);
    } else {
      var q := v / base;
      var k := |Digits(q, base, upper)|;
      DigitsBound(q, base, upper);
      assert Pow(base, k) == base * Pow(base, k - 1) && Pow(base, k + 1) == base * Pow(base, k);
      BetweenMultiples(v, base, Pow(base, k - 1), Pow(base, k));
    }
  }

  lemma PlaceFits(v: nat, base: nat, upper: bool)
    requires IsBase(base) && v < WORD
    ensures Pow(base, |Digits(v, base, upper)| - 1) < WORD
  {
    DigitsBound(v, base, upper);
  }

  lemma BetweenMultiples(v: nat, base: nat, low: nat, high: nat)
    requires IsBase(base) && low <= v / base < high
    ensures base * low <= v < base * high
  {
  }

  lemma Euclid(w: nat, q: nat)
    requires q > 0
    ensures w == w / q * q + w % q && w % q < q
  {
  }

  /** Division by a place value. */
  lemma Places(v: nat, base: nat, q: nat, h: nat, l: nat, d: nat)
    requires IsBase(base) && v == (h * q + l) * base + d && l < q && d < base
    ensures v / (base * q) == h && v % (base * q) / base == l && v % (base * q) % base == d
  {
    Regroup(h, q, l, base, d);
    Unique(v, base * q, h, l * base + d);
    LastDigit(l, base, d);
  }

  lemma Regroup(h: nat, q: nat, l: nat, base: nat, d: nat)
    requires l < q && d < base
    ensures (h * q + l) * base + d == h * (base * q) + (l * base + d)
    ensures l * base + d < base * q
  {
    assert (h * q + l) * base == h * q * base + l * base;
    assert h * q * base == h * (base * q);
    assert (l + 1) * base <= q * base;
  }

  lemma LastDigit(l: nat, base: nat, d: nat)
    requires IsBase(base) && d < base
    ensures (l * base + d) / base == l && (l * base + d) % base == d
  {
  }

  lemma Unique(v: nat, m: nat, h: nat, r: nat)
    requires m > 0 && v == h * m + r && r < m
    ensures v / m == h && v % m == r
  {
    if v / m < h {
      Smaller(v / m, h, m, v % m, r);
    } else if h < v / m {
      Smaller(h, v / m, m, r, v % m);
    }
  }

  lemma Smaller(h: nat, h': nat, m: nat, r: nat, r': nat)
    requires h < h' && r < m
    ensures h * m + r < h' * m + r'
  {
    assert (h + 1) * m <= h' * m;
  }

  lemma PowNext(base: nat, k: nat)
    ensures Pow(base, k) * base == Pow(base, k + 1)
  {
  }

  lemma {:induction false} PowPositive(base: nat, k: nat)
    requires base > 0
    ensures Pow(base, k) > 0
  {
    if k > 0 {
      PowPositive(base, k - 1);
    }
  }

  /** The first digit is the quotient by the largest place value. */
  lemma {:induction false} FirstDigit(v: nat, k: nat, base: nat, upper: bool)
    requires IsBase(base) && k > 0 && v < Pow(base, k)
    ensures Pow(base, k - 1) > 0 && 0 <= v / Pow(base, k - 1) < base && 0 <= v % Pow(base, k - 1) < Pow(base, k - 1)
    ensures FixedDigits(v, k, base, upper)
         == [DigitChar(v / Pow(base, k - 1), upper)] + FixedDigits(v % Pow(base, k - 1), k - 1, base, upper)
  {
    PowPositive(base, k - 1);
    if k == 1 {
      OnlyDigit(v, base, upper);
    } else {
      var q, w := Pow(base, k - 2), v / base;
      BelowPlace(v, base, Pow(base, k - 1));
      FirstDigit(w, k - 1, base, upper);
      DivMod(v, base);
      Euclid(w, q);
      Places(v, base, q, w / q, w % q, v % base);
      FirstDigitStep(v, k, base, upper, v / Pow(base, k - 1), v % Pow(base, k - 1), w % q);
    }
  }

  lemma FirstDigitStep(v: nat, k: nat, base: nat, upper: bool, h: nat, r: nat, l: nat)
    requires IsBase(base) && k > 1 && h < base && r / base == l && r % base == v % base
    requires FixedDigits(v / base, k - 1, base, upper) == [DigitChar(h, upper)] + FixedDigits(l, k - 2, base, upper)
    ensures FixedDigits(v, k, base, upper) == [DigitChar(h, upper)] + FixedDigits(r, k - 1, base, upper)
  {
    Associate([DigitChar(h, upper)], FixedDigits(l, k - 2, base, upper), [DigitChar(v % base, upper)]);
  }

  lemma OnlyDigit(v: nat, base: nat, upper: bool)
    requires IsBase(base) && v < base
    ensures Pow(base, 0) == 1 && FixedDigits(v % 1, 0, base, upper) == ""
    ensures FixedDigits(v, 1, base, upper) == [DigitChar(v, upper)]
  {
    assert FixedDigits(v / base, 0, base, upper) == "";
  }

  lemma BelowPlace(v: nat, base: nat, q: nat)
    requires IsBase(base) && v < base * q
    ensures v / base < q
  {
  }

  // The format

  /** An argument: a 32-bit word, and the string that it points to if it is a pointer. */
  datatype Slot = Slot(word: nat, text: string)

  predicate IsSpecChar(c: char) { c == '.' || c == 'l' || '0' <= c <= '9' }

  /** How many flag characters there are before the letter of a directive. */
  function SpecLength(s: string): (n: nat)
    ensures n <= |s| && (n < |s| ==> !IsSpecChar(s[n])) && forall i | 0 <= i < n :: IsSpecChar(s[i])
  {
    if s != "" && IsSpecChar(s[0]) then 1 + SpecLength(s[1..]) else 0
  }

  /** The digits before the point. */
  function WidthDigits(s: string): string {
    if s == "" then ""
    else if '.' !in s && '0' <= s[|s| - 1] <= '9' then WidthDigits(s[..|s| - 1]) + [s[|s| - 1]]
    else WidthDigits(s[..|s| - 1])
  }

  /** The width, or -1 if there is none. */
  function Width(s: string): int {
    if WidthDigits(s) == "" then -1 else ParseDigits(WidthDigits(s), 10)
  }

  function Conversion(letter: char, zero: bool, width: int, arg: Slot): string {
    match letter
    case 'd' => IntegerText(arg.word, true, 10, false, zero, width)
    case 'i' => IntegerText(arg.word, true, 10, false, zero, width)
    case 'u' => IntegerText(arg.word, false, 10, false, zero, width)
    case 'o' => IntegerText(arg.word, false, 8, false, zero, width)
    case 'x' => IntegerText(arg.word, false, 16, false, zero, width)
    case 'X' => IntegerText(arg.word, false, 16, true, zero, width)
    case 'c' => Repeat(' ', width - 1) + [(arg.word % 256) as char]
    case 's' => Repeat(' ', width - |arg.text|) + arg.text
    case _ => ""
  }

  /** The number conversions, and their bases. */
  function BaseOf(letter: char): nat { if letter == 'o' then 8 else if letter in "xX" then 16 else 10 }

  /** What a number conversion prints is read back as the argument, signed for d and i. */
  lemma ConversionReadsBack(letter: char, zero: bool, width: int, arg: Slot)
    requires letter in "diuoxX" && arg.word < WORD
    ensures letter in "diu" ==> Parse(Conversion(letter, zero, width, arg), 10) == Number(arg.word, letter in "di")
    ensures letter == 'o' ==> Parse(Conversion(letter, zero, width, arg), 8) == arg.word
    ensures letter in "xX" ==> Parse(Conversion(letter, zero, width, arg), 16) == arg.word
  {
    IntegerRoundTrip(arg.word, letter in "di", BaseOf(letter), letter == 'X', zero, width);
  }

  /** The letters that x and X print, and o, and the decimal ones. */
  lemma ConversionDigits(letter: char, zero: bool, width: int, arg: Slot)
    requires letter in "diuoxX" && arg.word < WORD
    ensures forall c | c in Conversion(letter, zero, width, arg) :: c in " -" || IsDigit(c, letter == 'X')
  {
    var x := Number(arg.word, letter in "di");
    if zero {
      ZeroFlagMeans(Abs(x), x < 0, BaseOf(letter), letter == 'X', width);
    } else {
      DigitsOnly(Abs(x), BaseOf(letter), letter == 'X');
    }
  }

  /** A string or a character is printed whole, at the right end of the width. */
  lemma TextConversions(letter: char, zero: bool, width: int, arg: Slot)
    requires letter in "cs"
    ensures var t := Conversion(letter, zero, width, arg);
            var body := if letter == 's' then arg.text else [(arg.word % 256) as char];
            && |t| == (if width > |body| then width else |body|) && t[|t| - |body|..] == body
            && forall i | 0 <= i < |t| - |body| :: t[i] == ' '
  {
  }

  predicate TakesArgument(letter: char) { letter in "diuoxXcs" }

  /** What a format prints, from argument `k` on: literal characters, `%%`, and directives made of an
      optional zero flag, flag characters and a letter.  An unfinished directive prints nothing. */
  function Format(fmt: string, args: nat -> Slot, k: nat): string
    decreases |fmt|, 1
  {
    if fmt == "" then ""
    else if fmt[0] != '%' then [fmt[0]] + Format(fmt[1..], args, k)
    else AfterPercent(fmt[1..], args, k)
  }

  function AfterPercent(fmt: string, args: nat -> Slot, k: nat): string
    decreases |fmt|, 3
  {
    if fmt == "" then ""
    else if fmt[0] == '%' then "%" + Format(fmt[1..], args, k)
    else if fmt[0] == '0' then Directive(fmt[1..], true, args, k)
    else Directive(fmt, false, args, k)
  }

  function Directive(fmt: string, zero: bool, args: nat -> Slot, k: nat): string
    decreases |fmt|, 2
  {
    var n := SpecLength(fmt);
    if n == |fmt| then "" else
    Conversion(fmt[n], zero, Width(fmt[..n]), args(k))
      + Format(fmt[n + 1..], args, if TakesArgument(fmt[n]) then k + 1 else k)
  }

  /** A format without a per cent sign is printed as it is, and so is such a beginning of one. */
  lemma {:induction false} LiteralText(text: string, rest: string, args: nat -> Slot, k: nat)
    requires '%' !in text
    ensures Format(text + rest, args, k) == text + Format(rest, args, k)
  {
    if text == "" {
      assert text + rest == rest;
    } else {
      LiteralText(text[1..], rest, args, k);
      assert (text + rest)[1..] == text[1..] + rest;
      assert text == [text[0]] + text[1..];
      Associate([text[0]], text[1..], Format(rest, args, k));
    }
  }

  /** A directive prints its conversion and takes an argument if the letter is one of those that print. */
  lemma DirectivePrints(zero: bool, spec: string, letter: char, rest: string, args: nat -> Slot, k: nat)
    requires (forall i | 0 <= i < |spec| :: IsSpecChar(spec[i])) && !IsSpecChar(letter)
    requires !zero ==> (spec != "" && spec[0] != '0') || (spec == "" && letter != '%')
    ensures Format((if zero then "%0" else "%") + spec + [letter] + rest, args, k)
         == Conversion(letter, zero, Width(spec), args(k)) + Format(rest, args, if letter in "diuoxXcs" then k + 1 else k)
  {
    SpecThenLetter(spec, letter, rest);
    Flagged(zero, spec, letter, rest);
    DirectiveOf(zero, spec + [letter] + rest, args, k);
    DirectiveIs(spec + [letter] + rest, spec, letter, rest, zero, args, k);
  }

  lemma Flagged(zero: bool, spec: string, letter: char, rest: string)
    ensures (if zero then "%0" else "%") + spec + [letter] + rest == (if zero then "%0" else "%") + (spec + [letter] + rest)
  {
  }

  /** What comes after the per cent sign, and after a zero if there is one, is a directive. */
  lemma DirectiveOf(zero: bool, s: string, args: nat -> Slot, k: nat)
    requires zero || s == "" || (s[0] != '0' && s[0] != '%')
    ensures Format((if zero then "%0" else "%") + s, args, k) == Directive(s, zero, args, k)
  {
    if zero {
      assert ("%0" + s)[1..] == "0" + s && ("0" + s)[1..] == s;
      assert AfterPercent("0" + s, args, k) == Directive(s, true, args, k);
    } else {
      assert ("%" + s)[1..] == s;
      assert AfterPercent(s, args, k) == Directive(s, false, args, k);
    }
  }

  lemma SpecThenLetter(spec: string, letter: char, rest: string)
    requires (forall i | 0 <= i < |spec| :: IsSpecChar(spec[i])) && !IsSpecChar(letter)
    ensures var s := spec + [letter] + rest;
            |spec| == SpecLength(s) < |s| && s[..|spec|] == spec && s[|spec|] == letter && s[|spec| + 1..] == rest
  {
    var s := spec + [letter] + rest;
    assert s[0..] == s && s[0..|spec|] == spec && s[..|spec|] == spec && s[|spec|] == letter;
    SpecEnds(s, 0, |spec|);
  }

  /** Two per cent signs print one. */
  lemma PerCent(rest: string, args: nat -> Slot, k: nat)
    ensures Format("%%" + rest, args, k) == "%" + Format(rest, args, k)
  {
    assert ("%%" + rest)[1..] == "%" + rest && ("%" + rest)[1..] == rest;
  }

  /** A directive that the format breaks off prints nothing ... */
  lemma UnfinishedPrintsNothing(zero: bool, spec: string, args: nat -> Slot, k: nat)
    requires (forall i | 0 <= i < |spec| :: IsSpecChar(spec[i])) && (!zero ==> spec == "" || spec[0] != '0')
    ensures Format((if zero then "%0" else "%") + spec, args, k) == ""
  {
    assert SpecLength(spec) == |spec|;
    DirectiveOf(zero, spec, args, k);
  }

  /** ... and so does an unknown letter, which takes no argument. */
  lemma UnknownLetterPrintsNothing(zero: bool, spec: string, letter: char, rest: string, args: nat -> Slot, k: nat)
    requires (forall i | 0 <= i < |spec| :: IsSpecChar(spec[i])) && !IsSpecChar(letter)
    requires letter !in "diuoxXcs%" && (!zero ==> spec == "" || spec[0] != '0')
    ensures Format((if zero then "%0" else "%") + spec + [letter] + rest, args, k) == Format(rest, args, k)
  {
    DirectivePrints(zero, spec, letter, rest, args, k);
    NoConversion(letter, zero, Width(spec), args(k));
    assert "" + Format(rest, args, k) == Format(rest, args, k);
  }

  lemma NoConversion(letter: char, zero: bool, width: int, arg: Slot)
    requires letter !in "diuoxXcs"
    ensures Conversion(letter, zero, width, arg) == ""
  {
  }

  /** The width is the number before the point; there is none if nothing comes before it. */
  lemma WidthReads(n: nat, tail: string)
    requires tail == "" || tail[0] == '.'
    ensures Width(Digits(n, 10, false) + tail) == n && Width(tail) == -1
  {
    DecimalDigits(n);
    DigitsMinimal(n, 10, false);
    WidthOf(Digits(n, 10, false), tail);
    WidthOf("", tail);
    assert "" + tail == tail;
    DigitsRoundTrip(n, 10, false);
  }

  lemma {:induction false} DecimalDigits(n: nat)
    ensures forall c | c in Digits(n, 10, false) :: '0' <= c <= '9'
  {
    if n >= 10 {
      DecimalDigits(n / 10);
    }
  }

  lemma {:induction false} WidthOf(digits: string, tail: string)
    requires (forall c | c in digits :: '0' <= c <= '9') && (tail == "" || tail[0] == '.')
    ensures WidthDigits(digits + tail) == digits
  {
    if tail == "" {
      WidthOfDigits(digits);
      assert digits + tail == digits;
    } else {
      var t, c := tail[..|tail| - 1], tail[|tail| - 1];
      WidthOf(digits, t);
      WidthDigitsNext(digits + t, c);
      Associate(digits, t, [c]);
      assert t + [c] == tail;
      AfterPoint(digits, t, c);
    }
  }

  lemma AfterPoint(digits: string, t: string, c: char)
    requires if t == "" then c == '.' else t[0] == '.'
    ensures '.' in digits + t || c == '.'
  {
    if t != "" {
      assert (digits + t)[|digits|] == '.';
    }
  }

  lemma {:induction false} WidthOfDigits(digits: string)
    requires forall c | c in digits :: '0' <= c <= '9'
    ensures WidthDigits(digits) == digits
  {
    if digits != "" {
      var d, c := digits[..|digits| - 1], digits[|digits| - 1];
      assert c in digits && forall x | x in d :: x in digits;
      WidthOfDigits(d);
      WidthDigitsNext(d, c);
      assert d + [c] == digits;
    }
  }

  datatype FormatState = Chars | FirstFmtChar | OtherFmtChar

  class Log {
    var out: string   // what has been written to the device

    constructor ()
      ensures out == ""
    {
      out := "";
    }

    method TxChar(c: char)
      modifies this
      ensures out == old(out) + [c]
    {
      out := out + [c];
    }

    /** alt_log_repchar: a negative count prints nothing. */
    method RepChar(c: char, r: int)
      modifies this
      ensures out == old(out) + Repeat(c, r)
    {
      var left := r;
      while left > 0
        invariant left <= r || left <= 0
        invariant out + Repeat(c, left) == old(out) + Repeat(c, r)
      {
        assert Repeat(c, left) == [c] + Repeat(c, left - 1);
        left := left - 1;
        TxChar(c);
      }
    }

    /** Counts the digits, and finds the largest place value.  The product does not overflow. */
    method CountDigits(v: nat, base: nat, ghost upper: bool) returns (digitCount: nat, p: nat)
      requires IsBase(base) && v < WORD
      ensures digitCount == |Digits(v, base, upper)| && digitCount > 0 && p == Pow(base, digitCount - 1) < WORD
    {
      var vShrink := v / base;
      p, digitCount := 1, 1;
      DigitsCount(v, base, upper);
      while vShrink > 0
        invariant digitCount > 0 && p == Pow(base, digitCount - 1)
        invariant |Digits(v, base, upper)| == digitCount + if vShrink > 0 then |Digits(vShrink, base, upper)| else 0
        decreases vShrink
      {
        digitCount := digitCount + 1;
        p := p * base;
        PowNext(base, digitCount - 2);
        Shrinks(vShrink, base);
        DigitsCount(vShrink, base, upper);
        vShrink := vShrink / base;
      }
      PlaceFits(v, base, upper);
    }

    /** The digits, most significant first. */
    method PrintDigits(value: nat, place: nat, base: nat, upper: bool, ghost count: nat)
      requires IsBase(base) && count > 0 && place == Pow(base, count - 1) && value < Pow(base, count)
      modifies this
      ensures out == old(out) + FixedDigits(value, count, base, upper)
    {
      var v: nat, p: nat := value, place;
      ghost var k: nat := count;
      while p > 0
        invariant p == if k == 0 then 0 else Pow(base, k - 1)
        invariant v < Pow(base, k)
        invariant out + FixedDigits(v, k, base, upper) == old(out) + FixedDigits(value, count, base, upper)
        decreases k
      {
        FirstDigit(v, k, base, upper);
        NextPlace(base, k);
        PutDigit(v / p, upper);
        v := v % p;
        p := p / base;
        k := k - 1;
      }
    }

    method PutDigit(digit: nat, upper: bool)
      requires digit < 16
      modifies this
      ensures out == old(out) + [DigitChar(digit, upper)]
    {
      var d := digit + '0' as int;
      if d > '9' as int {
        d := d + (if upper then 'A' else 'a') as int - '0' as int - 10;
      }
      TxChar(d as char);
    }

    lemma NextPlace(base: nat, k: nat)
      requires IsBase(base) && k > 0
      ensures Pow(base, k - 1) / base == if k == 1 then 0 else Pow(base, k - 2)
    {
    }

    /** Prints an integer as a conversion letter asks for it. */
    method PrintInteger(word: nat, signed: bool, base: nat, upper: bool, zero: bool, width: int)
      requires IsBase(base) && word < WORD
      modifies this
      ensures out == old(out) + IntegerText(word, signed, base, upper, zero, width)
    {
      var v, sign := StripSign(word, signed);
      PrintMagnitude(v, sign, base, upper, zero, width);
    }

    method StripSign(word: nat, signed: bool) returns (v: nat, sign: bool)
      requires word < WORD
      ensures v == Abs(Number(word, signed)) < WORD && sign == (Number(word, signed) < 0)
    {
      v, sign := word, false;
      if signed && v >= SIGN {
        v := (WORD - 1 - v + 1) % WORD;   // ~v + 1
        sign := true;
      }
    }

    method PrintMagnitude(v: nat, sign: bool, base: nat, upper: bool, zero: bool, width: int)
      requires IsBase(base) && v < WORD
      modifies this
      ensures out == old(out) + Text(v, sign, base, upper, zero, width)
    {
      var digitCount, p := CountDigits(v, base, upper);
      PrintPadded(v, p, digitCount, sign, base, upper, zero, width);
    }

    method PrintPadded(v: nat, p: nat, digitCount: nat, sign: bool, base: nat, upper: bool, zero: bool, width: int)
      requires IsBase(base) && digitCount == |Digits(v, base, upper)| > 0 && p == Pow(base, digitCount - 1)
      modifies this
      ensures out == old(out) + Text(v, sign, base, upper, zero, width)
    {
      ghost var before := out;
      PrintLeading(sign, zero, width - digitCount);
      PrintAllDigits(v, p, base, upper, digitCount);
      TextIs(before, v, sign, base, upper, zero, width);
    }

    method PrintAllDigits(v: nat, p: nat, base: nat, upper: bool, ghost digitCount: nat)
      requires IsBase(base) && digitCount == |Digits(v, base, upper)| > 0 && p == Pow(base, digitCount - 1)
      modifies this
      ensures out == old(out) + Digits(v, base, upper)
    {
      DigitsBound(v, base, upper);
      DigitsAreFixed(v, base, upper);
      PrintDigits(v, p, base, upper, digitCount);
    }

    method PrintLeading(sign: bool, zero: bool, pad: int)
      modifies this
      ensures out == old(out) + Leading(sign, zero, pad)
    {
      var left := pad;
      if zero {
        if sign {
          TxChar('-');
          left := left - 1;
        }
        RepChar('0', left);
      } else {
        if sign {
          left := left - 1;
        }
        RepChar(' ', left);
        if sign {
          TxChar('-');
        }
      }
    }

    /** One conversion: the letter that ends a directive. */
    method Convert(letter: char, zero: bool, width: int, arg: Slot)
      requires arg.word < WORD
      modifies this
      ensures out == old(out) + Conversion(letter, zero, width, arg)
    {
      if letter == 'd' || letter == 'i' {
        PrintInteger(arg.word, true, 10, false, zero, width);
      } else if letter == 'u' {
        PrintInteger(arg.word, false, 10, false, zero, width);
      } else if letter == 'o' {
        PrintInteger(arg.word, false, 8, false, zero, width);
      } else if letter == 'x' {
        PrintInteger(arg.word, false, 16, false, zero, width);
      } else if letter == 'X' {
        PrintInteger(arg.word, false, 16, true, zero, width);
      } else if letter == 'c' {
        RepChar(' ', width - 1);
        TxChar((arg.word % 256) as char);
      } else if letter == 's' {
        RepChar(' ', width - |arg.text|);
        out := out + arg.text;
      }
    }

    /** alt_log_private_printf: one character of the format at a time, in three states. */
    method Printf(fmt: string, args: nat -> Slot)
      requires forall k :: args(k).word < WORD
      modifies this
      ensures out == old(out) + Format(fmt, args, 0)
    {
      var state, zero, before, after, k: nat := Chars, false, -1, -1, 0;
      ghost var total, start: nat := out + Format(fmt, args, 0), 0;
      FormatBegins(out, fmt, args);
      for i := 0 to |fmt|
        invariant start <= i && Going(total, out, state, fmt, start, i, zero, before, after, args, k)
      {
        state, zero, before, after, k, start := NextChar(fmt, i, state, zero, before, after, args, k, total, start);
      }
      FormatEnds(total, out, state, fmt, start, zero, before, after, args, k);
    }

    method NextChar(fmt: string, i: nat, state: FormatState, zero: bool, before: int, after: int,
                    args: nat -> Slot, k: nat, ghost total: string, ghost start: nat)
      returns (state': FormatState, zero': bool, before': int, after': int, k': nat, ghost start': nat)
      requires forall k :: args(k).word < WORD
      requires start <= i < |fmt| && Going(total, out, state, fmt, start, i, zero, before, after, args, k)
      modifies this
      ensures start' <= i + 1 && Going(total, out, state', fmt, start', i + 1, zero', before', after', args, k')
    {
      var c := fmt[i];
      state', zero', before', after', k', start' := state, zero, before, after, k, start;
      if state == Chars {
        CharsStep(total, out, fmt, i, args, k);
        if c == '%' {
          zero', before', after' := false, -1, -1;
          state' := FirstFmtChar;
        } else {
          TxChar(c);
        }
      } else if state == FirstFmtChar && c == '0' {
        FirstStep(total, out, fmt, i, args, k);
        zero' := true;
        state', start' := OtherFmtChar, i + 1;
      } else if state == FirstFmtChar && c == '%' {
        FirstStep(total, out, fmt, i, args, k);
        TxChar(c);
        state' := Chars;
      } else {
        if state == FirstFmtChar {
          FirstStep(total, out, fmt, i, args, k);
          start' := i;
        }
        state', before', after', k' := OtherChar(fmt, i, zero, before, after, args, k, total, start');
      }
    }

    /** A flag character or the letter of a directive. */
    method OtherChar(fmt: string, i: nat, zero: bool, before: int, after: int, args: nat -> Slot, k: nat,
                     ghost total: string, ghost start: nat)
      returns (state: FormatState, before': int, after': int, k': nat)
      requires forall k :: args(k).word < WORD
      requires start <= i < |fmt| && InDirective(total, out, fmt, start, i, zero, before, after, args, k)
      modifies this
      ensures Going(total, out, state, fmt, start, i + 1, zero, before', after', args, k')
    {
      var c := fmt[i];
      state, before', after', k' := OtherFmtChar, before, after, k;
      if c == '.' || '0' <= c <= '9' || c == 'l' {
        before', after' := FlagChar(c, before, after, fmt[start..i]);
        assert fmt[start..i + 1] == fmt[start..i] + [c];
      } else {
        state := Chars;
        k' := Letter(fmt, i, zero, before, after, args, k, total, start);
      }
    }

    method Letter(fmt: string, i: nat, zero: bool, before: int, ghost after: int, args: nat -> Slot, k: nat,
                  ghost total: string, ghost start: nat)
      returns (k': nat)
      requires forall k :: args(k).word < WORD
      requires start <= i < |fmt| && InDirective(total, out, fmt, start, i, zero, before, after, args, k)
      requires !IsSpecChar(fmt[i])
      modifies this
      ensures InChars(total, out, fmt, i + 1, args, k')
    {
      LetterStep(total, out, fmt, start, i, zero, before, after, args, k);
      Convert(fmt[i], zero, before, args(k));
      k' := if TakesArgument(fmt[i]) then k + 1 else k;
    }

    method FlagChar(c: char, before: int, after: int, ghost done: string) returns (before': int, after': int)
      requires IsSpecChar(c) && InSpec(done, before, after)
      ensures InSpec(done + [c], before', after')
    {
      before', after' := before, after;
      WidthNext(done, c);
      if c == '.' {
        after' := 0;
      } else if '0' <= c <= '9' {
        var d := (c - '0') as int;
        if after < 0 {
          before' := (if before < 0 then 0 else before * 10) + d;
        } else {
          after' := after * 10 + d;
        }
      }
    }
  }

  /** The flag characters `done` have been taken. */
  ghost predicate InSpec(done: string, before: int, after: int) {
    && (forall i | 0 <= i < |done| :: IsSpecChar(done[i]))
    && before == Width(done) && (after >= 0 <==> '.' in done)
  }

  // What has been printed, `out`, and what the rest of the format prints make up all there is to print

  ghost predicate InChars(total: string, out: string, fmt: string, i: nat, args: nat -> Slot, k: nat)
    requires i <= |fmt|
  {
    out + Format(fmt[i..], args, k) == total
  }

  ghost predicate InFirst(total: string, out: string, fmt: string, i: nat, args: nat -> Slot, k: nat)
    requires i <= |fmt|
  {
    out + AfterPercent(fmt[i..], args, k) == total
  }

  /** Within a directive its flag characters, from `start` on, count as not yet taken. */
  ghost predicate InDirective(total: string, out: string, fmt: string, start: nat, i: nat, zero: bool,
                              before: int, after: int, args: nat -> Slot, k: nat)
    requires start <= i <= |fmt|
  {
    out + Directive(fmt[start..], zero, args, k) == total && InSpec(fmt[start..i], before, after)
  }

  ghost predicate Going(total: string, out: string, state: FormatState, fmt: string, start: nat, i: nat, zero: bool,
                        before: int, after: int, args: nat -> Slot, k: nat)
    requires start <= i <= |fmt|
  {
    match state
    case Chars => InChars(total, out, fmt, i, args, k)
    case FirstFmtChar => InFirst(total, out, fmt, i, args, k) && before == after == -1 && !zero
    case OtherFmtChar => InDirective(total, out, fmt, start, i, zero, before, after, args, k)
  }

  lemma CharsStep(total: string, out: string, fmt: string, i: nat, args: nat -> Slot, k: nat)
    requires i < |fmt| && InChars(total, out, fmt, i, args, k)
    ensures if fmt[i] == '%' then InFirst(total, out, fmt, i + 1, args, k) else InChars(total, out + [fmt[i]], fmt, i + 1, args, k)
  {
    assert fmt[i..][1..] == fmt[i + 1..];
    Associate(out, [fmt[i]], Format(fmt[i + 1..], args, k));
  }

  lemma FirstStep(total: string, out: string, fmt: string, i: nat, args: nat -> Slot, k: nat)
    requires i < |fmt| && InFirst(total, out, fmt, i, args, k)
    ensures if fmt[i] == '%' then InChars(total, out + [fmt[i]], fmt, i + 1, args, k)
            else if fmt[i] == '0' then InDirective(total, out, fmt, i + 1, i + 1, true, -1, -1, args, k)
            else InDirective(total, out, fmt, i, i, false, -1, -1, args, k)
  {
    assert fmt[i..][1..] == fmt[i + 1..] && fmt[i..i] == fmt[i + 1..i + 1] == "";
    Associate(out, [fmt[i]], Format(fmt[i + 1..], args, k));
  }

  lemma LetterStep(total: string, out: string, fmt: string, start: nat, i: nat, zero: bool,
                   before: int, after: int, args: nat -> Slot, k: nat)
    requires start <= i < |fmt| && !IsSpecChar(fmt[i])
    requires InDirective(total, out, fmt, start, i, zero, before, after, args, k)
    ensures InChars(total, out + Conversion(fmt[i], zero, before, args(k)), fmt, i + 1, args,
                    if TakesArgument(fmt[i]) then k + 1 else k)
  {
    LetterEnds(fmt, start, i, zero, args, k);
    Associate(out, Conversion(fmt[i], zero, before, args(k)),
              Format(fmt[i + 1..], args, if TakesArgument(fmt[i]) then k + 1 else k));
  }

  lemma Associate(a: string, b: string, c: string)
    ensures a + (b + c) == (a + b) + c
  {
  }

  lemma FormatBegins(out: string, fmt: string, args: nat -> Slot)
    ensures Going(out + Format(fmt, args, 0), out, Chars, fmt, 0, 0, false, -1, -1, args, 0)
  {
    assert fmt[0..] == fmt;
  }

  lemma FormatEnds(total: string, out: string, state: FormatState, fmt: string, start: nat, zero: bool,
                   before: int, after: int, args: nat -> Slot, k: nat)
    requires start <= |fmt| && Going(total, out, state, fmt, start, |fmt|, zero, before, after, args, k)
    ensures out == total
  {
    if state == OtherFmtChar {
      assert fmt[start..|fmt|] == fmt[start..];
    }
  }

  lemma WidthNext(done: string, c: char)
    ensures WidthDigits(done + [c]) == if '.' !in done && '0' <= c <= '9' then WidthDigits(done) + [c] else WidthDigits(done)
    ensures '0' <= c <= '9' && '.' !in done ==>
      Width(done + [c]) == (if Width(done) < 0 then 0 else Width(done) * 10) + (c - '0') as int
  {
    WidthDigitsNext(done, c);
    if '0' <= c <= '9' && '.' !in done {
      NumberNext(WidthDigits(done), c);
    }
  }

  lemma WidthDigitsNext(done: string, c: char)
    ensures WidthDigits(done + [c]) == if '.' !in done && '0' <= c <= '9' then WidthDigits(done) + [c] else WidthDigits(done)
  {
    var s := done + [c];
    assert s[..|s| - 1] == done && s[|s| - 1] == c;
    assert '0' <= c <= '9' ==> ('.' in s <==> '.' in done);
  }

  lemma NumberNext(digits: string, c: char)
    requires '0' <= c <= '9'
    ensures ParseDigits(digits + [c], 10) == (if digits == "" then 0 else ParseDigits(digits, 10) * 10) + (c - '0') as int
  {
    ParseAppend(digits, c, 10);
  }

  lemma SpecEnds(fmt: string, start: nat, i: nat)
    requires start <= i < |fmt| && !IsSpecChar(fmt[i])
    requires forall j | 0 <= j < i - start :: IsSpecChar(fmt[start..i][j])
    ensures SpecLength(fmt[start..]) == i - start
  {
    var s := fmt[start..];
    assert s[i - start] == fmt[i];
    assert forall j | 0 <= j < i - start :: s[j] == fmt[start..i][j];
  }

  lemma LetterEnds(fmt: string, start: nat, i: nat, zero: bool, args: nat -> Slot, k: nat)
    requires start <= i < |fmt| && !IsSpecChar(fmt[i])
    requires forall j | 0 <= j < i - start :: IsSpecChar(fmt[start..i][j])
    ensures Directive(fmt[start..], zero, args, k)
         == Conversion(fmt[i], zero, Width(fmt[start..i]), args(k))
          + Format(fmt[i + 1..], args, if TakesArgument(fmt[i]) then k + 1 else k)
  {
    SpecEnds(fmt, start, i);
    Parts(fmt, start, i);
    DirectiveIs(fmt[start..], fmt[start..i], fmt[i], fmt[i + 1..], zero, args, k);
  }

  lemma DirectiveIs(s: string, spec: string, letter: char, rest: string, zero: bool, args: nat -> Slot, k: nat)
    requires |spec| == SpecLength(s) < |s| && s[..|spec|] == spec && s[|spec|] == letter && s[|spec| + 1..] == rest
    ensures Directive(s, zero, args, k)
         == Conversion(letter, zero, Width(spec), args(k)) + Format(rest, args, if TakesArgument(letter) then k + 1 else k)
  {
  }

  lemma Parts(s: string, start: nat, i: nat)
    requires start <= i < |s|
    ensures s[start..][..i - start] == s[start..i] && s[start..][i - start] == s[i] && s[start..][i - start + 1..] == s[i + 1..]
  {
  }
}
