/**
 Number literals in src/cJSON.c: parse_number, with the number it reads taken as an exact decimal, and
 the integer case of print_number.
 */
module JsonNumbers {
  import opened JsonStrings

  predicate IsDigit(c: char) {
    '0' <= c <= '9'
  }

  predicate AllDigits(ds: string) {
    forall i :: 0 <= i < |ds| ==> IsDigit(ds[i])
  }

  /** How many digits the text begins with. */
  function DigitRun(t: string): (k: nat)
    ensures k <= |t| && AllDigits(t[..k]) && !IsDigit(At(t, k))
  {
    if !IsDigit(At(t, 0)) then 0
    else
      var k := 1 + DigitRun(t[1..]);
      assert forall i :: 0 < i < k ==> t[i] == t[1..][i - 1];
      k
  }

  /** n, continued with decimal digits. */
  function Accumulate(n: nat, ds: string): nat
    requires AllDigits(ds)
    decreases |ds|
  {
    if ds == "" then n else Accumulate(n * 10 + (ds[0] as int - '0' as int), ds[1..])
  }

  /** The decimal (-1)^neg * mantissa * 10^exponent. */
  datatype Decimal = Decimal(neg: bool, mantissa: nat, exponent: int)

  /** The fraction, if there is one: the digits after a point that a digit follows. */
  function FractionRun(t: string): (f: nat)
    ensures f > 0 ==> f < |t| && AllDigits(t[1..1 + f])
  {
    if At(t, 0) == '.' && IsDigit(At(t, 1)) then
      var f := DigitRun(t[1..]);
      assert t[1..][..f] == t[1..1 + f];
      f
    else 0
  }

  /** The exponent part and what follows it. */
  function ReadExponent(t: string): (int, string) {
    if At(t, 0) != 'e' && At(t, 0) != 'E' then (0, t)
    else
      var u := t[1..];
      var v := if At(u, 0) == '+' || At(u, 0) == '-' then u[1..] else u;
      var k := DigitRun(v);
      (if At(u, 0) == '-' then 0 - Accumulate(0, v[..k]) else Accumulate(0, v[..k]), v[k..])
  }

  /** The digits before the point: a zero is skipped, then digits are taken if one from 1 on follows. */
  function ReadWhole(t: string): (nat, string) {
    var u := if At(t, 0) == '0' then t[1..] else t;
    var k := if '1' <= At(u, 0) <= '9' then DigitRun(u) else 0;
    (Accumulate(0, u[..k]), u[k..])
  }

  /** The number with the fraction's digits, how many they are, and what follows. */
  function ReadFraction(whole: nat, t: string): (nat, nat, string) {
    var f := FractionRun(t);
    if f > 0 then (Accumulate(whole, t[1..1 + f]), f, t[1 + f..]) else (whole, 0, t)
  }

  /** parse_number after the sign. */
  function ParseUnsigned(t: string): (nat, int, string) {
    var (whole, t3) := ReadWhole(t);
    var (mantissa, f, t4) := ReadFraction(whole, t3);
    var (scale, rest) := ReadExponent(t4);
    (mantissa, scale - f, rest)
  }

  /** parse_number. */
  function ParseNumber(t: string): (Decimal, string) {
    var neg := At(t, 0) == '-';
    var (mantissa, exponent, rest) := ParseUnsigned(if neg then t[1..] else t);
    (Decimal(neg, mantissa, exponent), rest)
  }

  lemma NumberShrinks(t: string)
    requires At(t, 0) == '-' || IsDigit(At(t, 0))
    ensures |ParseNumber(t).1| < |t|
  {
    var t1 := if At(t, 0) == '-' then t[1..] else t;
    assert |ReadWhole(t1).1| <= |t1| && (IsDigit(At(t1, 0)) ==> |ReadWhole(t1).1| < |t1|);
    hide ReadWhole, Accumulate, DigitRun;
    assert forall w: nat, u :: |ReadFraction(w, u).2| <= |u|;
    assert forall u :: |ReadExponent(u).1| <= |u|;
  }

  // ----- the grammar, section 6 of RFC 8259 -----

  datatype Sign = NoSign | Plus | Minus

  datatype Exponent = NoExponent | Exponent(e: char, sign: Sign, digits: string)

  datatype Literal = Literal(minus: bool, whole: string, fraction: string, exponent: Exponent)

  predicate ExponentOk(x: Exponent) {
    x.NoExponent? || ((x.e == 'e' || x.e == 'E') && x.digits != "" && AllDigits(x.digits))
  }

  predicate LiteralOk(n: Literal) {
    && n.whole != "" && AllDigits(n.whole) && (n.whole[0] == '0' ==> |n.whole| == 1)
    && AllDigits(n.fraction) && ExponentOk(n.exponent)
  }

  function SignText(sign: Sign): string {
    match sign case NoSign => [] case Plus => ['+'] case Minus => ['-']
  }

  function ExponentText(x: Exponent): string {
    if x.NoExponent? then [] else [x.e] + (SignText(x.sign) + x.digits)
  }

  function FractionText(n: Literal): string {
    if n.fraction == [] then [] else ['.'] + n.fraction
  }

  function LiteralText(n: Literal): string {
    (if n.minus then ['-'] else []) + Unsigned(n)
  }

  function Scale(x: Exponent): int
    requires ExponentOk(x)
  {
    if x.NoExponent? then 0 else if x.sign.Minus? then 0 - Accumulate(0, x.digits) else Accumulate(0, x.digits)
  }

  /** The number that a literal denotes: its digits without the point, scaled. */
  function Value(n: Literal): Decimal
    requires LiteralOk(n)
  {
    Decimal(n.minus, Accumulate(0, n.whole + n.fraction), Scale(n.exponent) - |n.fraction|)
  }

  /** What may follow a number without being taken for more of it. */
  predicate Ends(rest: string) {
    rest == "" || (!IsDigit(rest[0]) && rest[0] != '.' && rest[0] != 'e' && rest[0] != 'E')
  }

  lemma {:induction false} DigitRunIs(ds: string, rest: string)
    requires AllDigits(ds) && !IsDigit(At(rest, 0))
    ensures DigitRun(ds + rest) == |ds|
  {
    if ds == "" {
      assert ds + rest == rest;
    } else {
      assert (ds + rest)[1..] == ds[1..] + rest;
      DigitRunIs(ds[1..], rest);
    }
  }

  lemma {:induction false} AccumulateOn(n: nat, a: string, b: string)
    requires AllDigits(a) && AllDigits(b)
    ensures AllDigits(a + b) && Accumulate(Accumulate(n, a), b) == Accumulate(n, a + b)
    decreases |a|
  {
    if a == "" {
      assert a + b == b;
    } else {
      AccumulateOn(n * 10 + (a[0] as int - '0' as int), a[1..], b);
      assert (a + b)[1..] == a[1..] + b;
    }
  }

  lemma Tail(c: char, t: string)
    ensures ([c] + t)[1..] == t && At([c] + t, 0) == c
  {
  }

  lemma Regroup(a: string, b: string, c: string)
    ensures (a + b) + c == a + (b + c)
  {
  }

  lemma SignSpelled(sign: Sign, t: string)
    requires IsDigit(At(t, 0))
    ensures var u := SignText(sign) + t;
            && (if At(u, 0) == '+' || At(u, 0) == '-' then u[1..] else u) == t
            && (At(u, 0) == '-' <==> sign.Minus?)
  {
    match sign
    case NoSign => assert SignText(sign) + t == t;
    case Plus => Tail('+', t);
    case Minus => Tail('-', t);
  }

  lemma ExponentSpelled(x: Exponent, rest: string)
    requires ExponentOk(x) && Ends(rest)
    ensures ReadExponent(ExponentText(x) + rest) == (Scale(x), rest)
  {
    if x.Exponent? {
      hide SignText, AllDigits, DigitRun, Accumulate;
      var v := x.digits + rest;
      assert IsDigit(At(v, 0)) && !IsDigit(At(rest, 0)) by {
        assert v[0] == x.digits[0];
        FirstDigit(x.digits);
      }
      SignSpelled(x.sign, v);
      Regroup([x.e], SignText(x.sign) + x.digits, rest);
      Regroup(SignText(x.sign), x.digits, rest);
      Tail(x.e, SignText(x.sign) + v);
      DigitRunIs(x.digits, rest);
      assert v[..|x.digits|] == x.digits && v[|x.digits|..] == rest;
    } else {
      assert ExponentText(x) + rest == rest;
    }
  }

  lemma FirstDigit(ds: string)
    requires AllDigits(ds) && ds != ""
    ensures IsDigit(ds[0])
  {
  }

  lemma FractionSpelled(whole: nat, n: Literal, more: string)
    requires AllDigits(n.fraction) && !IsDigit(At(more, 0)) && At(more, 0) != '.'
    ensures ReadFraction(whole, FractionText(n) + more) == (Accumulate(whole, n.fraction), |n.fraction|, more)
    ensures !IsDigit(At(FractionText(n) + more, 0))
  {
    var t := FractionText(n) + more;
    if n.fraction != [] {
      DigitRunIs(n.fraction, more);
      Tail('.', n.fraction + more);
      assert t == ['.'] + (n.fraction + more);
      assert t[1..1 + |n.fraction|] == n.fraction && t[1 + |n.fraction|..] == more;
    } else {
      assert t == more;
    }
  }

  lemma WholeSpelled(whole: string, more: string)
    requires whole != "" && AllDigits(whole) && (whole[0] == '0' ==> |whole| == 1) && !IsDigit(At(more, 0))
    ensures ReadWhole(whole + more) == (Accumulate(0, whole), more)
  {
    var t1 := whole + more;
    if whole[0] == '0' {
      assert t1[1..] == more;
      assert whole[1..] == "";
      assert more[..0] == "";
    } else {
      DigitRunIs(whole, more);
      assert t1[..|whole|] == whole && t1[|whole|..] == more;
    }
  }

  lemma ExponentHead(x: Exponent, rest: string)
    requires ExponentOk(x) && Ends(rest)
    ensures !IsDigit(At(ExponentText(x) + rest, 0)) && At(ExponentText(x) + rest, 0) != '.'
  {
    if x.Exponent? {
      assert (ExponentText(x) + rest)[0] == x.e;
    } else {
      assert ExponentText(x) + rest == rest;
    }
  }

  function Unsigned(n: Literal): string {
    n.whole + (FractionText(n) + ExponentText(n.exponent))
  }

  /** parse_number after the sign. */
  lemma UnsignedSpelled(n: Literal, rest: string)
    requires LiteralOk(n) && Ends(rest)
    ensures ParseUnsigned(Unsigned(n) + rest) == (Value(n).mantissa, Value(n).exponent, rest)
  {
    hide ReadWhole, ReadFraction, Accumulate, ReadExponent, ExponentText;
    hide FractionText, Scale, ExponentOk, Ends, AllDigits;
    var t4 := ExponentText(n.exponent) + rest;
    var t3 := FractionText(n) + t4;
    var whole := Accumulate(0, n.whole);
    ExponentHead(n.exponent, rest);
    ExponentSpelled(n.exponent, rest);
    FractionSpelled(whole, n, t4);
    WholeSpelled(n.whole, t3);
    AccumulateOn(0, n.whole, n.fraction);
    assert Unsigned(n) + rest == n.whole + t3 by {
      Regroup(n.whole, FractionText(n) + ExponentText(n.exponent), rest);
      Regroup(FractionText(n), ExponentText(n.exponent), rest);
    }
    hide Unsigned;
    assert Value(n).mantissa == Accumulate(whole, n.fraction);
  }

  /** parse_number reads a literal of the grammar to its end, and reads the number that it denotes. */
  lemma NumberSpelled(n: Literal, rest: string)
    requires LiteralOk(n) && Ends(rest)
    ensures ParseNumber(LiteralText(n) + rest) == (Value(n), rest)
  {
    UnsignedSpelled(n, rest);
    var u := Unsigned(n) + rest;
    assert IsDigit(At(u, 0));
    hide ParseUnsigned, Value, Unsigned, LiteralOk, Ends;
    if n.minus {
      Regroup(['-'], Unsigned(n), rest);
      Tail('-', u);
    } else {
      assert [] + Unsigned(n) == Unsigned(n);
    }
  }

  // ----- print_number for numbers that an int holds -----

  function Digits(n: nat): (ds: string)
    ensures AllDigits(ds) && ds != ""
  {
    if n < 10 then [(n + '0' as int) as char] else Digits(n / 10) + [(n % 10 + '0' as int) as char]
  }

  predicate IsInt32(d: Decimal) {
    d.exponent == 0 && if d.neg then 0 < d.mantissa <= 0x8000_0000 else d.mantissa < 0x8000_0000
  }

  /** Of the decimals without a scale, these are the values of an int, zero without a sign. */
  lemma TheInts(d: Decimal)
    requires d.exponent == 0
    ensures var v := if d.neg then 0 - d.mantissa else d.mantissa;
            IsInt32(d) <==> -0x8000_0000 <= v <= 0x7FFF_FFFF && !(d.neg && v == 0)
  {
  }

  /** sprintf("%d"). */
  function PrintNumber(d: Decimal): string {
    (if d.neg then ['-'] else []) + Digits(d.mantissa)
  }

  lemma {:induction false} DigitsAccumulate(n: nat)
    ensures Accumulate(0, Digits(n)) == n && (Digits(n)[0] == '0' ==> n == 0 && |Digits(n)| == 1)
  {
    if n >= 10 {
      var ds, last := Digits(n / 10), [(n % 10 + '0' as int) as char];
      DigitsAccumulate(n / 10);
      AccumulateOn(0, ds, last);
      assert last[1..] == "";
      assert Digits(n)[0] == ds[0];
    } else {
      assert Digits(n)[1..] == "";
    }
  }

  /** The literal that print_number writes for an integer. */
  function IntLiteral(d: Decimal): Literal {
    Literal(d.neg, Digits(d.mantissa), [], NoExponent)
  }

  /** It is a literal of the grammar that denotes the integer, and it is what print_number writes. */
  lemma IntSpelled(d: Decimal)
    requires d.exponent == 0
    ensures LiteralOk(IntLiteral(d)) && Value(IntLiteral(d)) == d && LiteralText(IntLiteral(d)) == PrintNumber(d)
  {
    DigitsAccumulate(d.mantissa);
    assert Digits(d.mantissa) + [] == Digits(d.mantissa);
  }

  function Power10(k: nat): nat {
    if k == 0 then 1 else 10 * Power10(k - 1)
  }

  lemma {:induction false} DigitsLength(n: nat, k: nat)
    requires 0 < k && n < Power10(k)
    ensures |Digits(n)| <= k
  {
    if n >= 10 {
      DigitsLength(n / 10, k - 1);
    }
  }

  /** The 21 bytes that print_number allocates hold any int and the NUL. */
  lemma IntFits(d: Decimal)
    requires IsInt32(d)
    ensures |PrintNumber(d)| + 1 <= 21
  {
    assert Power10(10) == 10_000_000_000 by {
      assert Power10(4) == 10_000;
      assert Power10(7) == 10_000_000;
    }
    DigitsLength(d.mantissa, 10);
  }

  // ----- the code -----

  /** A loop over digits. */
  method TakeDigits(s: string, p: nat, n0: nat) returns (n: nat, next: nat)
    requires p <= |s|
    ensures next == p + DigitRun(s[p..]) <= |s| && n == Accumulate(n0, s[p..][..next - p])
  {
    n, next := n0, p;
    while IsDigit(At(s, next))
      invariant p <= next <= |s| && AllDigits(s[p..next])
      invariant n == Accumulate(n0, s[p..next]) && DigitRun(s[p..]) == next - p + DigitRun(s[next..])
      decreases |s| - next
    {
      var d := s[next] as int - '0' as int;
      assert s[p..next + 1] == s[p..next] + [s[next]] && s[next..][1..] == s[next + 1..];
      AccumulateOn(n0, s[p..next], [s[next]]);
      assert [s[next]][1..] == [];
      n, next := n * 10 + d, next + 1;
    }
    assert s[p..][..next - p] == s[p..next];
  }

  /** parse_number after the digits before the point. */
  method ParseFraction(s: string, p: nat, whole: nat) returns (mantissa: nat, scale: int, next: nat)
    requires p <= |s|
    ensures next <= |s| && ReadFraction(whole, s[p..]) == (mantissa, -scale, s[next..])
  {
    mantissa, scale, next := whole, 0, p;
    if At(s, p) == '.' && IsDigit(At(s, p + 1)) {
      assert s[p..][1..] == s[p + 1..];
      mantissa, next := TakeDigits(s, p + 1, whole);
      scale := scale - (next - (p + 1));
      assert s[p..][1..1 - scale] == s[p + 1..][..-scale];
    }
  }

  method ParseSign(s: string, p: nat) returns (sign: int, next: nat)
    requires p <= |s|
    ensures next <= |s| && sign == (if At(s[p..], 0) == '-' then -1 else 1)
    ensures s[next..] == if At(s[p..], 0) == '+' || At(s[p..], 0) == '-' then s[p..][1..] else s[p..]
  {
    sign, next := 1, p;
    if At(s, p) == '+' {
      next := p + 1;
    } else if At(s, p) == '-' {
      sign, next := -1, p + 1;
    }
  }

  method ParseExponent(s: string, p: nat) returns (subscale: int, next: nat)
    requires p <= |s|
    ensures next <= |s| && ReadExponent(s[p..]) == (subscale, s[next..])
  {
    hide DigitRun, Accumulate;
    if At(s, p) != 'e' && At(s, p) != 'E' {
      return 0, p;
    }
    assert s[p..][1..] == s[p + 1..];
    var sign;
    sign, next := ParseSign(s, p + 1);
    ghost var v: nat := next;
    subscale, next := TakeDigits(s, next, 0);
    assert s[v..][next - v..] == s[next..];
    subscale := subscale * sign;
  }

  method ParseWhole(s: string, p: nat) returns (whole: nat, next: nat)
    requires p <= |s|
    ensures next <= |s| && ReadWhole(s[p..]) == (whole, s[next..])
  {
    whole, next := 0, p;
    if At(s, next) == '0' {
      next := next + 1;
    }
    assert next == p + 1 ==> s[p..][1..] == s[next..];
    ghost var digits: nat := next;
    if '1' <= At(s, next) <= '9' {
      whole, next := TakeDigits(s, next, whole);
    }
    assert s[digits..][next - digits..] == s[next..];
    assert s[digits..][..0] == [];
  }

  /** parse_number. */
  method ParseNumberAt(s: string, i: nat) returns (d: Decimal, next: nat)
    requires i <= |s|
    ensures next <= |s| && ParseNumber(s[i..]) == (d, s[next..])
  {
    hide ReadWhole, ReadFraction, ReadExponent;
    next := i;
    var neg := false;
    if At(s, next) == '-' {
      neg, next := true, next + 1;
    }
    assert neg ==> s[i..][1..] == s[next..];
    var whole, mantissa, scale, subscale;
    whole, next := ParseWhole(s, next);
    mantissa, scale, next := ParseFraction(s, next, whole);
    subscale, next := ParseExponent(s, next);
    d := Decimal(neg, mantissa, scale + subscale);
  }
}
