/** The %d branch of printk (lib/libc.c, lines 197-253): the three loops that measure, emit and
    pad a number, a declarative rendering they agree with, and a parser that undoes it. */
module Decimal {
  import opened Arithmetic

  datatype Option<+T> = None | Some(value: T)

  newtype int32 = x: int | -0x8000_0000 <= x < 0x8000_0000
  newtype int16 = x: int | -0x8000 <= x < 0x8000

  // ----- declarative rendering -----

  function Digit(d: nat): (c: char)
    requires d < 10
    ensures '0' <= c <= '9' && c as int - '0' as int == d
  {
    '0' + d as char
  }

  /** Decimal digits, most significant first. */
  function Digits(n: nat): (s: string)
    ensures |s| >= 1
  {
    if n < 10 then [Digit(n)] else Digits(n / 10) + [Digit(n % 10)]
  }

  function Magnitude(v: int): nat {
    if v < 0 then -v else v
  }

  /** The number without padding. */
  function Body(v: int): string {
    (if v < 0 then "-" else "") + Digits(Magnitude(v))
  }

  function Spaces(n: int): (s: string)
    ensures |s| == if n < 0 then 0 else n
    ensures forall i :: 0 <= i < |s| ==> s[i] == ' '
  {
    if n <= 0 then "" else Spaces(n - 1) + " "
  }

  /** The short width after k decrements: below -32768 it wraps to the positive side. */
  function Remaining(width: int, k: nat): int {
    if width - k >= -0x8000 then width - k else width - k + 0x1_0000
  }

  function Rendered(v: int, width: int, leftAlign: bool): string {
    var pad := Spaces(Remaining(width, |Body(v)|));
    if leftAlign then Body(v) + pad else pad + Body(v)
  }

  // ----- the code -----

  /** width-- on a short. */
  function Decrement(w: int16): int16 {
    if w == -0x8000 then 0x7FFF else w - 1
  }

  function Pow10(k: nat): (p: nat)
    ensures p > 0
  {
    if k == 0 then 1 else 10 * Pow10(k - 1)
  }

  function Quotient(n: nat, d: nat): nat
    requires d > 0
  {
    n / d
  }

  /** The number without its last m digits. */
  function Upper(n: nat, m: nat): nat {
    Quotient(n, Pow10(m))
  }

  /** The minimum int is excluded because its negation overflows, which C leaves undefined.
      Every int keeps type int32, so verification shows that the divisor never overflows. */
  method PrintDecimal(number: int32, fieldWidth: int16, leftAlign: bool) returns (out: string)
    requires number > -0x8000_0000
    ensures out == Rendered(number as int, fieldWidth as int, leftAlign)
  {
    var value, width := number, Decrement(fieldWidth);
    var negative := false;
    if value < 0 {
      value := -value;
      negative := true;
      width := Decrement(width);
    }
    var divisor;
    divisor, width := Measure(value, width);
    ghost var v, digits := number as int, Digits(value as int);
    ghost var pad := Spaces(width as int);
    assert pad == Spaces(Remaining(fieldWidth as int, |Body(v)|)) by {
      SmallDigits(value as int);
    }
    Assemble(v, fieldWidth as int, leftAlign);
    out := "";
    if !leftAlign {
      out, width := Pad(out, width);
    }
    if negative {
      out := out + "-";
    }
    out := EmitDigits(out, value, divisor);
    if leftAlign {
      out, width := Pad(out, width);
    }
  }

  /** The pieces in the order the code writes them make up the rendering. */
  lemma Assemble(v: int, width: int, leftAlign: bool)
    ensures var digits, pad := Digits(Magnitude(v)), Spaces(Remaining(width, |Body(v)|));
      Rendered(v, width, leftAlign) ==
      (if leftAlign then (if v < 0 then "" + "-" else "") + digits + pad
       else (if v < 0 then "" + pad + "-" else "" + pad) + digits)
  {
    var digits, pad := Digits(Magnitude(v)), Spaces(Remaining(width, |Body(v)|));
    assert "" + pad == pad && "" + "-" == "-" && "" + digits == digits;
    assert (pad + "-") + digits == pad + ("-" + digits);
  }

  /** The first loop: the largest power of ten not above the value, one decrement per extra digit. */
  method Measure(value: int32, fieldWidth: int16) returns (divisor: int32, width: int16)
    requires value >= 0
    ensures divisor as int == Pow10(|Digits(value as int)| - 1)
    ensures width as int == Remaining(fieldWidth as int, |Digits(value as int)| - 1)
    ensures value / divisor <= 9 && (divisor == 1 || divisor <= value)
  {
    ghost var n, k := value as int, 0;
    divisor, width := 1, fieldWidth;
    SmallDigits(n);
    while value / divisor > 9
      invariant divisor as int == Pow10(k) && k <= 9
      invariant |Digits(n)| == k + |Digits(Upper(n, k))|
      invariant width as int == Remaining(fieldWidth as int, k)
      invariant divisor == 1 || divisor <= value
      decreases value / divisor
    {
      NextDivisor(n, divisor as int);
      DropDigit(n, k);
      divisor := divisor * 10;
      width := Decrement(width);
      k := k + 1;
    }
  }

  /** The second loop: one digit per division, most significant first. */
  method EmitDigits(text: string, number: int32, highest: int32) returns (out: string)
    requires number >= 0 && highest as int == Pow10(|Digits(number as int)| - 1)
    requires number / highest <= 9 && (highest == 1 || highest <= number)
    ensures out == text + Digits(number as int)
  {
    var value, divisor := number, highest;
    ghost var n, total := number as int, |Digits(number as int)|;
    ghost var m: nat := total;
    out := text;
    FirstDigit(n, highest as int);
    while divisor > 0
      invariant m <= total && divisor as int == (if m == 0 then 0 else Pow10(m - 1))
      invariant value as int == n % Pow10(m)
      invariant m == total ==> out == text
      invariant m < total ==> out == text + Digits(Upper(n, m)) && (m > 0 ==> Upper(n, m) >= 1)
      decreases m
    {
      NextDigit(n, divisor as int);
      assert m > 1 ==> divisor as int == 10 * Pow10(m - 2);
      ghost var before := out;
      out := out + [Digit((value / divisor) as int)];
      assert m < total ==> text + Digits(Upper(n, m)) + [Digit((value / divisor) as int)]
                           == text + (Digits(Upper(n, m)) + [Digit((value / divisor) as int)]);
      value := value % divisor;
      divisor := divisor / 10;
      m := m - 1;
    }
  }

  /** The padding loop, the same before and after the number. */
  method Pad(text: string, fieldWidth: int16) returns (out: string, width: int16)
    ensures out == text + Spaces(fieldWidth as int)
    ensures width <= 0 && (fieldWidth <= 0 ==> width == fieldWidth)
  {
    out, width := text, fieldWidth;
    ghost var k := 0;
    assert text + Spaces(0) == text;
    while width > 0
      invariant fieldWidth <= 0 ==> width == fieldWidth && k == 0
      invariant fieldWidth > 0 ==> 0 <= width && k == fieldWidth as int - width as int
      invariant k >= 0 && out == text + Spaces(k)
      decreases width
    {
      assert Spaces(k + 1) == Spaces(k) + " ";
      out := out + [' '];
      width := width - 1;
      k := k + 1;
    }
  }

  // ----- arithmetic of the two digit loops -----

  /** Dividing by ten more splits off one digit. */
  lemma NextDigit(n: nat, p: nat)
    requires p > 0
    ensures n / (10 * p) == (n / p) / 10
    ensures (n % (10 * p)) / p == (n / p) % 10
    ensures (n % (10 * p)) % p == n % p
  {
    var q := n / p;
    NextDigitAux(n, q / 10, q % 10, n % p, p);
  }

  lemma NextDigitAux(n: nat, h: nat, d: nat, r: nat, p: nat)
    requires 0 <= d < 10 && 0 <= r < p && n == (10 * h + d) * p + r
    ensures n / (10 * p) == h && (n % (10 * p)) / p == d && (n % (10 * p)) % p == r
  {
    assert (10 * h + d) * p == h * (10 * p) + d * p;
    AtLeastOneMultiple(10 - d, p);
    assert (10 - d) * p == 10 * p - d * p;
    assert 0 <= d * p;
    DivModUnique(n, h, d * p + r, 10 * p);
    DivModUnique(d * p + r, d, r, p);
  }

  lemma FirstDigit(n: nat, p: nat)
    requires p > 0 && n / p <= 9 && (p == 1 || p <= n)
    ensures n % (10 * p) == n
    ensures p > 1 ==> n / p >= 1
  {
    assert n == (n / p) * p + n % p;
    assert (n / p) * p <= 9 * p;
    DivModUnique(n, 0, n, 10 * p);
    assert (n / p) * p == 0 || n / p >= 1;
  }

  lemma TenOrMore(q: nat, divisor: nat)
    requires q >= 10 && divisor > 0
    ensures q * divisor >= 10 * divisor
  {
    AtLeastOneMultiple(q - 9, divisor);
    assert q * divisor == 9 * divisor + (q - 9) * divisor;
  }

  lemma NextDivisor(value: nat, divisor: nat)
    requires divisor > 0 && value / divisor > 9
    ensures 10 * divisor <= value && value / (10 * divisor) < value / divisor
  {
    NextDigit(value, divisor);
    var q := value / divisor;
    assert value == q * divisor + value % divisor;
    TenOrMore(q, divisor);
  }

  lemma DropDigit(n: nat, k: nat)
    requires Upper(n, k) > 9
    ensures |Digits(Upper(n, k))| == 1 + |Digits(Upper(n, k + 1))|
  {
    NextDigit(n, Pow10(k));
    assert Pow10(k + 1) == 10 * Pow10(k);
  }

  lemma {:induction false} DigitsBound(n: nat, k: nat)
    requires k >= 1 && n < Pow10(k)
    ensures |Digits(n)| <= k
    decreases k
  {
    if n >= 10 {
      assert Pow10(1) == 10;
      DigitsBound(n / 10, k - 1);
    }
  }

  lemma SmallDigits(n: nat)
    requires n < 0x8000_0000
    ensures |Digits(n)| <= 10
  {
    assert Pow10(5) == 100000;
    assert Pow10(10) == 10000000000;
    DigitsBound(n, 10);
  }

  // ----- the parser -----

  function SkipSpaces(s: string): string {
    if |s| > 0 && s[0] == ' ' then SkipSpaces(s[1..]) else s
  }

  function TrimSpaces(s: string): string {
    if |s| > 0 && s[|s| - 1] == ' ' then TrimSpaces(s[..|s| - 1]) else s
  }

  predicate IsNumeral(s: string) {
    |s| > 0 && forall i :: 0 <= i < |s| ==> '0' <= s[i] <= '9'
  }

  function NumeralValue(s: string): nat
    requires forall i :: 0 <= i < |s| ==> '0' <= s[i] <= '9'
  {
    if |s| == 0 then 0
    else 10 * NumeralValue(s[..|s| - 1]) + (s[|s| - 1] as int - '0' as int)
  }

  function Parse(s: string): Option<int> {
    var t := TrimSpaces(SkipSpaces(s));
    if |t| > 0 && t[0] == '-' then
      if IsNumeral(t[1..]) then
        var n: int := NumeralValue(t[1..]);
        Some(-n)
      else None
    else
      if IsNumeral(t) then Some(NumeralValue(t)) else None
  }

  lemma {:induction false} DigitsParse(n: nat)
    ensures IsNumeral(Digits(n)) && NumeralValue(Digits(n)) == n
  {
    if n < 10 {
      assert Digits(n)[..0] == "";
    } else {
      DigitsParse(n / 10);
      assert Digits(n)[..|Digits(n)| - 1] == Digits(n / 10);
    }
  }

  lemma {:induction false} SkipLeading(n: int, s: string)
    requires |s| > 0 && s[0] != ' '
    ensures SkipSpaces(Spaces(n) + s) == s
    decreases n
  {
    if n <= 0 {
      assert Spaces(n) + s == s;
    } else {
      SkipLeading(n - 1, s);
      SpacesFront(n);
      assert (Spaces(n) + s)[1..] == Spaces(n - 1) + s;
    }
  }

  lemma SpacesFront(n: int)
    requires n > 0
    ensures Spaces(n)[1..] == Spaces(n - 1)
  {
    assert |Spaces(n)[1..]| == |Spaces(n - 1)|;
    forall i | 0 <= i < n - 1
      ensures Spaces(n)[1..][i] == Spaces(n - 1)[i]
    {
    }
  }

  lemma {:induction false} TrimTrailing(n: int, s: string)
    requires |s| > 0 && s[|s| - 1] != ' '
    ensures TrimSpaces(s + Spaces(n)) == s
    decreases n
  {
    if n <= 0 {
      assert s + Spaces(n) == s;
    } else {
      TrimTrailing(n - 1, s);
      assert (s + Spaces(n))[..|s + Spaces(n)| - 1] == s + Spaces(n - 1);
    }
  }

  lemma BodyEnds(v: int)
    ensures |Body(v)| > 0 && Body(v)[0] != ' ' && Body(v)[|Body(v)| - 1] != ' '
    ensures v < 0 ==> Body(v)[0] == '-' && Body(v)[1..] == Digits(Magnitude(v))
    ensures v >= 0 ==> Body(v) == Digits(v) && Body(v)[0] != '-'
  {
    DigitsParse(Magnitude(v));
  }

  lemma ParseBody(s: string, v: int)
    requires TrimSpaces(SkipSpaces(s)) == Body(v)
    ensures Parse(s) == Some(v)
  {
    BodyEnds(v);
    DigitsParse(Magnitude(v));
  }

  lemma StripPadding(body: string, n: int, leftAlign: bool)
    requires |body| > 0 && body[0] != ' ' && body[|body| - 1] != ' '
    ensures TrimSpaces(SkipSpaces(if leftAlign then body + Spaces(n) else Spaces(n) + body)) == body
  {
    if leftAlign {
      assert (body + Spaces(n))[0] != ' ';
      TrimTrailing(n, body);
    } else {
      SkipLeading(n, body);
    }
  }

  /** Whatever the width and the side of the padding, parsing the output gives the number back. */
  lemma ParseUndoesPrint(v: int, width: int, leftAlign: bool)
    ensures Parse(Rendered(v, width, leftAlign)) == Some(v)
  {
    BodyEnds(v);
    StripPadding(Body(v), Remaining(width, |Body(v)|), leftAlign);
    ParseBody(Rendered(v, width, leftAlign), v);
  }

  /** No leading zeros: a first digit 0 means the number is 0 and has one digit. */
  lemma {:induction false} NoLeadingZeros(n: nat)
    ensures Digits(n)[0] == '0' <==> n == 0
    ensures n == 0 ==> |Digits(n)| == 1
  {
    if n >= 10 {
      NoLeadingZeros(n / 10);
      assert Digits(n)[0] == Digits(n / 10)[0];
    }
  }

  /** Blanks stand on one side only: none before a left-aligned number, none after a right-aligned one. */
  lemma PaddedOnOneSide(v: int, width: int, leftAlign: bool)
    ensures var out, n := Rendered(v, width, leftAlign), |Body(v)|;
      n <= |out| &&
      (leftAlign ==> out[..n] == Body(v) && forall i :: n <= i < |out| ==> out[i] == ' ') &&
      (!leftAlign ==> out[|out| - n..] == Body(v) && forall i :: 0 <= i < |out| - n ==> out[i] == ' ')
  {
    var out, n := Rendered(v, width, leftAlign), |Body(v)|;
    if leftAlign {
      assert out[..n] == Body(v);
    } else {
      assert out[|out| - n..] == Body(v);
    }
  }

  /** The field is max(width, natural length) wide for exactly the widths whose decrements do not
      wrap the short around; the others (from -32768 up) produce over 32000 characters instead. */
  lemma FieldLength(v: int, width: int, leftAlign: bool)
    requires -0x8000_0000 < v < 0x8000_0000 && -0x8000 <= width < 0x8000
    ensures var n := |Body(v)|;
      |Rendered(v, width, leftAlign)| == (if width > n then width else n) <==> width - n >= -0x8000
    ensures width - |Body(v)| < -0x8000 ==> |Rendered(v, width, leftAlign)| == width + 0x1_0000 > 32000
    ensures |Body(v)| <= 11
  {
    SmallDigits(Magnitude(v));
  }

  /** The format "%32768d" leaves -32768 in the short: the number 5 then takes 32768 characters. */
  lemma WrappedWidth()
    ensures |Rendered(5, -0x8000, false)| == 32768 && |Body(5)| == 1
  {
    FieldLength(5, -0x8000, false);
  }
}
