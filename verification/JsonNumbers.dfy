/** JSON numbers, which arrive as floats, and the two ways in which the Go library prints them. */
module JsonNumbers {
  import opened Options
  import opened Texts
  import opened CqlLexer

  /** A float as its shortest decimal: the significant digits, and the point in front of, among or behind them. */
  datatype Number = Number(negative: bool, digits: string, point: int)

  /** The digits neither start nor end with a zero; zero has none. */
  predicate Shortest(n: Number) {
    && AllDigits(n.digits) && (n.digits == "" ==> n.point == 0)
    && (n.digits != "" ==> n.digits[0] != '0' && n.digits[|n.digits| - 1] != '0')
  }

  type Float = n: Number | Shortest(n) witness Number(false, "", 0)

  function Zeros(n: nat): (s: string)
    ensures |s| == n && AllDigits(s)
  {
    seq(n, _ => '0')
  }

  function Sign(n: Float): string {
    if n.negative then "-" else ""
  }

  /** The digits in front of the point. */
  function WholePart(n: Float): (s: string)
    ensures s != "" && AllDigits(s)
  {
    if n.point <= 0 then "0"
    else if |n.digits| <= n.point then n.digits + Zeros(n.point - |n.digits|)
    else n.digits[..n.point]
  }

  /** The digits behind it. */
  function Fraction(n: Float): (s: string)
    ensures AllDigits(s) && (s == "" <==> |n.digits| <= n.point)
  {
    if |n.digits| <= n.point then ""
    else if n.point <= 0 then Zeros(-n.point) + n.digits
    else n.digits[n.point..]
  }

  /** strconv.FormatFloat(x, 'f', -1, 64): no exponent, however long that gets. */
  function Plain(n: Float): string {
    Sign(n) + WholePart(n) + (if Fraction(n) == "" then "" else "." + Fraction(n))
  }

  /** The exponents for which %v prints no exponent. */
  predicate Moderate(n: Float) {
    -4 <= n.point - 1 < 6
  }

  /** The exponent, with at least two digits. */
  function ExponentDigits(e: nat): (s: string)
    ensures s != "" && AllDigits(s)
  {
    (if e < 10 then "0" else "") + Decimal(e)
  }

  function Exponent(e: int): string {
    if e < 0 then "-" + ExponentDigits(-e) else "+" + ExponentDigits(e)
  }

  function Mantissa(n: Float): string
    requires n.digits != ""
  {
    [n.digits[0]] + (if |n.digits| == 1 then "" else "." + n.digits[1..])
  }

  /** fmt's %v. */
  function Shown(n: Float): string {
    if Moderate(n) then Plain(n) else Sign(n) + Mantissa(n) + "e" + Exponent(n.point - 1)
  }

  /** The integer a conversion truncates the number to. */
  function Truncated(n: Float): int {
    if n.negative then -(Texts.Number(WholePart(n)) as int) else Texts.Number(WholePart(n))
  }

  // ----- both texts are numbers to the lexer -----

  /** The characters of an unsigned number without an exponent. */
  predicate PlainChars(s: string) {
    forall i :: 0 <= i < |s| ==> Digit(s[i]) || s[i] == '.'
  }

  lemma {:induction false} PlainNumber(n: Float)
    ensures IsNumber(Plain(n)) && 'e' !in Plain(n)
  {
    var body := WholePart(n) + (if Fraction(n) == "" then "" else "." + Fraction(n));
    assert Plain(n) == Sign(n) + body;
    assert PlainChars(body) && Digit(body[0]);
    SignedIsNumber(Sign(n), body);
  }

  lemma {:induction false} SignedIsNumber(sign: string, body: string)
    requires (sign == "" || sign == "-") && body != "" && PlainChars(body) && Digit(body[0])
    ensures IsNumber(sign + body)
  {
    var s := sign + body;
    assert s[0] == if sign == "" then body[0] else '-';
    forall i | 0 <= i < |s| ensures NumberChar(s[i]) && (i > 0 ==> s[i] != '-') {
      assert s[i] == if i < |sign| then '-' else body[i - |sign|];
    }
    NumberCharsAll(s);
  }

  lemma {:induction false} ExponentNumber(n: Float)
    requires !Moderate(n)
    ensures IsNumber(Shown(n)) && 'e' in Shown(n)
  {
    var body, e := Mantissa(n), Exponent(n.point - 1);
    assert PlainChars(body) && Digit(body[0]);
    var s := Sign(n) + body + "e" + e;
    var k := |Sign(n)| + |body|;
    assert s[k] == 'e';
    assert s[0] == if Sign(n) == "" then body[0] else '-';
    forall i | 0 <= i < |s| ensures NumberChar(s[i]) && (i > 0 && s[i] == '-' ==> s[i - 1] != '-') {
      if i < k {
        assert s[i] == if i < |Sign(n)| then '-' else body[i - |Sign(n)|];
      } else if i > k {
        assert s[i] == e[i - k - 1];
        assert i > k + 1 ==> Digit(s[i]);
      }
    }
    NumberCharsAll(s);
  }

  lemma {:induction false} ShownNumber(n: Float)
    ensures IsNumber(Shown(n))
  {
    if Moderate(n) {
      PlainNumber(n);
    } else {
      ExponentNumber(n);
    }
  }

  /** The two texts are the same exactly for the exponents that %v does not print. */
  lemma {:induction false} SameText(n: Float)
    ensures Shown(n) == Plain(n) <==> -4 <= n.point - 1 <= 5
  {
    if !Moderate(n) {
      PlainNumber(n);
      ExponentNumber(n);
    }
  }

  // ----- integers -----

  /** The number of a text of digits. */
  function Digits(s: string): Option<nat> {
    if s != "" && AllDigits(s) then Some(Texts.Number(s)) else None
  }

  /** A decimal integer with an optional sign. */
  function Integer(s: string): Option<int> {
    var signed := s != "" && (s[0] == '+' || s[0] == '-');
    match Digits(if signed then s[1..] else s)
    case None => None
    case Some(n) => Some(if s[0] == '-' then -(n as int) else n)
  }

  lemma SignedInteger(sign: string, body: string)
    requires (sign == "" || sign == "-") && body != "" && Digit(body[0])
    ensures Integer(sign + body) == match Digits(body)
      case None => None
      case Some(k) => Some(if sign == "-" then -(k as int) else k)
  {
    if sign == "" {
      assert sign + body == body;
    } else {
      assert (sign + body)[1..] == body;
    }
  }

  lemma {:induction false} PlainAsInteger(n: Float)
    ensures Integer(Plain(n)) == if |n.digits| <= n.point then Some(Truncated(n)) else None
  {
    var rest := if Fraction(n) == "" then "" else "." + Fraction(n);
    var body := WholePart(n) + rest;
    assert Plain(n) == Sign(n) + body && Digit(body[0]);
    SignedInteger(Sign(n), body);
    if Fraction(n) == "" {
      assert body == WholePart(n);
    } else {
      assert body[|WholePart(n)|] == '.';
    }
  }

  lemma NotDigits(before: string, after: string)
    ensures Digits(before + "e" + after) == None
  {
    assert (before + "e" + after)[|before|] == 'e';
  }

  lemma {:induction false} ExponentIsNoInteger(n: Float)
    requires !Moderate(n)
    ensures Integer(Shown(n)) == None
  {
    var body := Mantissa(n) + "e" + Exponent(n.point - 1);
    assert Shown(n) == Sign(n) + body by {
      Regroup(Sign(n), Mantissa(n), "e", Exponent(n.point - 1));
    }
    NotDigits(Mantissa(n), Exponent(n.point - 1));
    assert body[0] == n.digits[0];
    SignedInteger(Sign(n), body);
  }

  lemma Regroup(a: string, b: string, c: string, d: string)
    ensures a + b + c + d == a + (b + c + d)
  {
  }

  /** The text shown is an integer exactly for whole numbers below a million, and then it is the one truncated to. */
  lemma {:induction false} ShownAsInteger(n: Float)
    ensures Integer(Shown(n)) == if |n.digits| <= n.point <= 6 then Some(Truncated(n)) else None
  {
    if Moderate(n) {
      PlainAsInteger(n);
    } else {
      ExponentIsNoInteger(n);
    }
  }

  // ----- both texts stand for the number -----

  function Power(k: nat): (p: nat)
    ensures p > 0
  {
    if k == 0 then 1 else 10 * Power(k - 1)
  }

  lemma {:induction false} NumberOfZeros(s: string, k: nat)
    requires AllDigits(s)
    ensures Texts.Number(s + Zeros(k)) == Texts.Number(s) * Power(k)
  {
    if k == 0 {
      assert s + Zeros(0) == s;
    } else {
      NumberOfZeros(s, k - 1);
      assert (s + Zeros(k))[..|s| + k - 1] == s + Zeros(k - 1);
      assert (s + Zeros(k))[|s| + k - 1] == '0';
      Regrouped(Texts.Number(s), Power(k - 1));
    }
  }

  lemma Regrouped(a: nat, b: nat)
    ensures 10 * (a * b) == a * (10 * b)
  {
  }

  lemma {:induction false} NumberBehindZeros(k: nat, s: string)
    requires AllDigits(s)
    ensures Texts.Number(Zeros(k) + s) == Texts.Number(s)
    decreases |s|
  {
    if s == "" {
      NumberOfZeros("", k);
      assert Zeros(k) + s == "" + Zeros(k);
    } else {
      var front, t := s[..|s| - 1], Zeros(k) + s;
      NumberBehindZeros(k, front);
      assert t[..|t| - 1] == Zeros(k) + front && t[|t| - 1] == s[|s| - 1];
    }
  }

  lemma NumberOfNothing()
    ensures Texts.Number("") == 0 && Texts.Number("0") == 0
  {
  }

  // The point is not in front of the last digit.
  lemma {:induction false} WholeDenotes(n: Float)
    requires |n.digits| <= n.point
    ensures Fraction(n) == "" && Texts.Number(WholePart(n)) == Texts.Number(n.digits) * Power(n.point - |n.digits|)
  {
    if n.point == 0 {
      NumberOfNothing();
      assert n.digits == "";
    } else {
      NumberOfZeros(n.digits, n.point - |n.digits|);
    }
  }

  lemma {:induction false} FractionDenotes(n: Float)
    requires |n.digits| > n.point
    ensures Texts.Number(WholePart(n) + Fraction(n)) == Texts.Number(n.digits) && |Fraction(n)| == |n.digits| - n.point
  {
    if n.point <= 0 {
      assert WholePart(n) + Fraction(n) == Zeros(1 - n.point) + n.digits;
      NumberBehindZeros(1 - n.point, n.digits);
    } else {
      assert WholePart(n) + Fraction(n) == n.digits;
    }
  }

  /** A number is its digits times a power of ten, `point - |digits|`.  The digits of the text without an exponent, before
      and behind the point, are those of the number, with zeros behind them where the power is positive, and where it is
      negative so many of them are behind the point. */
  lemma {:induction false} PlainDenotes(n: Float)
    ensures Texts.Number(WholePart(n) + Fraction(n))
      == Texts.Number(n.digits) * Power(if n.point > |n.digits| then n.point - |n.digits| else 0)
    ensures |Fraction(n)| == if n.point >= |n.digits| then 0 else |n.digits| - n.point
  {
    assert Power(0) == 1;
    if |n.digits| <= n.point {
      WholeDenotes(n);
      assert WholePart(n) + "" == WholePart(n);
    } else {
      FractionDenotes(n);
    }
  }

  lemma NumberSnoc(s: string)
    requires s != "" && AllDigits(s)
    ensures Texts.Number(s) == 10 * Texts.Number(s[..|s| - 1]) + (s[|s| - 1] - '0') as nat && (s[|s| - 1] - '0') as nat < 10
  {
  }

  lemma Carry(a: nat, b: nat, power: nat, last: nat)
    requires b < power && last < 10
    ensures 10 * (a * power + b) + last == a * (10 * power) + (10 * b + last) && 10 * b + last < 10 * power
  {
    Regrouped(a, power);
  }

  lemma {:induction false} NumberConcat(a: string, b: string)
    requires AllDigits(a) && AllDigits(b)
    ensures Texts.Number(a + b) == Texts.Number(a) * Power(|b|) + Texts.Number(b) && Texts.Number(b) < Power(|b|)
    decreases |b|
  {
    if b == "" {
      NumberOfNothing();
      assert a + b == a;
    } else {
      var front, all := b[..|b| - 1], a + b;
      NumberConcat(a, front);
      NumberSnoc(b);
      NumberSnoc(all);
      assert all[..|all| - 1] == a + front && all[|all| - 1] == b[|b| - 1];
      Carry(Texts.Number(a), Texts.Number(front), Power(|front|), (b[|b| - 1] - '0') as nat);
    }
  }

  lemma {:induction false} PowerGrows(k: nat, n: nat)
    requires k <= n
    ensures Power(k) <= Power(n)
  {
    if k < n {
      PowerGrows(k, n - 1);
    }
  }

  lemma OneMore(a: nat, b: nat)
    ensures (a + 1) * b == a * b + b && a * b >= 0
  {
  }

  // The whole part is what the digits stand for, rounded down.
  predicate RoundedDown(whole: nat, digits: nat, one: nat) {
    whole * one <= digits < (whole + 1) * one
  }

  lemma {:induction false} SmallIsZero(digits: string, k: nat)
    requires AllDigits(digits) && k >= |digits|
    ensures RoundedDown(0, Texts.Number(digits), Power(k))
  {
    NumberConcat("", digits);
    PowerGrows(|digits|, k);
  }

  lemma {:induction false} PrefixRounds(digits: string, i: nat)
    requires AllDigits(digits) && i <= |digits|
    ensures RoundedDown(Texts.Number(digits[..i]), Texts.Number(digits), Power(|digits| - i))
  {
    NumberConcat(digits[..i], digits[i..]);
    assert digits[..i] + digits[i..] == digits;
    OneMore(Texts.Number(digits[..i]), Power(|digits| - i));
  }

  /** Converted to an integer a number loses what is behind its point, whatever its sign: the digits there stand for less
      than one. */
  lemma {:induction false} TruncatesExactly(n: Float)
    ensures (if n.negative then -Truncated(n) else Truncated(n)) == Texts.Number(WholePart(n))
    ensures n.point >= |n.digits| ==> Texts.Number(WholePart(n)) == Texts.Number(n.digits) * Power(n.point - |n.digits|)
    ensures n.point < |n.digits| ==>
      RoundedDown(Texts.Number(WholePart(n)), Texts.Number(n.digits), Power(|n.digits| - n.point))
  {
    if n.point >= |n.digits| {
      WholeDenotes(n);
    } else if n.point <= 0 {
      NumberOfNothing();
      SmallIsZero(n.digits, |n.digits| - n.point);
    } else {
      PrefixRounds(n.digits, n.point);
    }
  }

  /** With an exponent the digits are those of the number, all but the first behind the point, and the exponent reads as
      that of the first digit. */
  lemma {:induction false} ShownDenotes(n: Float)
    requires !Moderate(n)
    ensures exists mantissa, sign, exponent ::
      && Shown(n) == Sign(n) + mantissa + "e" + [sign] + exponent
      && mantissa == [n.digits[0]] + (if |n.digits| == 1 then "" else "." + n.digits[1..])
      && AllDigits(exponent) && |exponent| >= 2
      && n.point - 1 == (if sign == '-' then -(Texts.Number(exponent) as int) else Texts.Number(exponent) as int)
  {
    var e := n.point - 1;
    var k: nat := if e < 0 then -e else e;
    var exponent := ExponentDigits(k);
    ExponentNumberOf(k);
    assert Exponent(e) == [if e < 0 then '-' else '+'] + exponent;
    assert Shown(n) == Sign(n) + Mantissa(n) + "e" + [if e < 0 then '-' else '+'] + exponent;
  }

  lemma {:induction false} ExponentNumberOf(k: nat)
    ensures Texts.Number(ExponentDigits(k)) == k && |ExponentDigits(k)| >= 2
  {
    NumberOfDecimal(k);
    if k < 10 {
      assert ExponentDigits(k) == Zeros(1) + Decimal(k);
      NumberBehindZeros(1, Decimal(k));
    } else {
      assert "" + Decimal(k) == Decimal(k);
      assert |Decimal(k / 10)| >= 1;
    }
  }
}
