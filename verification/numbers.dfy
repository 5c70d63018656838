/**
 * Decimal numerals inside strings, read the way three parts of the system
 * read them where no integer parser of text.dfy is involved: MySQL, when a
 * string bound to a `?` placeholder is compared with an integer column or
 * stored into one; PHP's is_numeric and (int) cast; and JavaScript's
 * ToNumber, which `==` applies to a string compared with a number. A
 * numeral's value is kept exactly, as m * 10^e.
 */
module Numbers {
  import opened Base
  import opened Text

  /** m * 10^k: m with k zeros appended. */
  function Scale(m: int, k: nat): int {
    if k == 0 then m else 10 * Scale(m, k - 1)
  }

  /** m / 10^k rounded down: the last k digits dropped. */
  function Shrink(m: int, k: nat): int {
    if k == 0 then m else Shrink(m, k - 1) / 10
  }

  /** The number m * 10^e. */
  datatype Decimal = Decimal(m: int, e: int)

  /** The decimal equals the integer v (compared exactly, by scaling the integer). */
  predicate EqualsInt(d: Decimal, v: int) {
    if d.e >= 0 then Scale(d.m, d.e) == v else d.m == Scale(v, -d.e)
  }

  /** The decimal is smaller than the integer v. */
  predicate BelowInt(d: Decimal, v: int) {
    if d.e >= 0 then Scale(d.m, d.e) < v else d.m < Scale(v, -d.e)
  }

  lemma {:induction false} ScaleOne(k: nat)
    ensures Scale(1, k) >= 1
  {
    if k > 0 { ScaleOne(k - 1); }
  }

  /** Scaling distributes over a sum. */
  lemma {:induction false} ScaleAdd(a: int, b: int, k: nat)
    ensures Scale(a + b, k) == Scale(a, k) + Scale(b, k)
  {
    if k > 0 { ScaleAdd(a, b, k - 1); }
  }

  lemma {:induction false} ScaleNeg(a: int, k: nat)
    ensures Scale(-a, k) == -Scale(a, k)
  {
    if k > 0 { ScaleNeg(a, k - 1); }
  }

  lemma {:induction false} ScaleTen(a: int, k: nat)
    ensures Scale(10 * a, k) == 10 * Scale(a, k)
  {
    if k > 0 { ScaleTen(a, k - 1); }
  }

  /** Integers a < b scaled stay apart by at least 10^k. */
  lemma {:induction false} ScaleStep(a: int, b: int, k: nat)
    requires a < b
    ensures Scale(a, k) + Scale(1, k) <= Scale(b, k)
  {
    if k > 0 { ScaleStep(a, b, k - 1); }
  }

  lemma ScaleMono(a: int, b: int, k: nat)
    requires a <= b
    ensures Scale(a, k) <= Scale(b, k)
  {
    if a < b { ScaleStep(a, b, k); ScaleOne(k); }
  }

  /** Shrink(m, k) is the integer f with f * 10^k <= m < (f + 1) * 10^k. */
  lemma {:induction false} ShrinkBounds(m: int, k: nat)
    ensures Scale(Shrink(m, k), k) <= m < Scale(Shrink(m, k) + 1, k)
  {
    if k > 0 {
      var q := Shrink(m, k - 1);
      var f := q / 10;
      ShrinkBounds(m, k - 1);
      assert 10 * f <= q < 10 * (f + 1);
      ScaleMono(10 * f, q, k - 1);
      ScaleMono(q + 1, 10 * (f + 1), k - 1);
      ScaleTen(f, k - 1);
      ScaleTen(f + 1, k - 1);
    }
  }

  /** Dropping the k zeros of v * 10^k gives v back. */
  lemma ShrinkExact(m: int, k: nat, v: int)
    requires m == Scale(v, k)
    ensures Shrink(m, k) == v
  {
    var f := Shrink(m, k);
    ShrinkBounds(m, k);
    ScaleOne(k);
    if v < f {
      ScaleStep(v, f, k);
    } else if f < v {
      ScaleMono(f + 1, v, k);
    }
  }

  /** The decimal rounded down: the integer f with f <= d < f + 1. */
  function Floor(d: Decimal): (f: int)
    ensures !BelowInt(d, f) && BelowInt(d, f + 1)
  {
    if d.e >= 0 then Scale(d.m, d.e)
    else
      ShrinkBounds(d.m, -d.e);
      Shrink(d.m, -d.e)
  }

  /** An integer v is above the decimal exactly when it is above its floor. */
  lemma BelowIsAboveFloor(d: Decimal, v: int)
    ensures BelowInt(d, v) <==> Floor(d) < v
  {
    var f := Floor(d);
    if d.e < 0 {
      if f < v {
        ScaleMono(f + 1, v, -d.e);
      } else {
        ScaleMono(v, f, -d.e);
      }
    }
  }

  /** The decimal as an integer, when it is one. */
  function IntegerValue(d: Decimal): (r: Option<int>)
    ensures r.Some? ==> EqualsInt(d, r.value)
    ensures r.None? ==> forall v :: !EqualsInt(d, v)
  {
    if d.e >= 0 then Some(Scale(d.m, d.e))
    else
      var f := Shrink(d.m, -d.e);
      if Scale(f, -d.e) == d.m then Some(f)
      else
        assert forall v :: !EqualsInt(d, v) by {
          forall v ensures !EqualsInt(d, v) {
            if d.m == Scale(v, -d.e) { ShrinkExact(d.m, -d.e, v); }
          }
        }
        None
  }

  /**
   * For a >= 0, the q = (2a + 10^k) / (2 * 10^k) of rounding a / 10^k a half
   * up: -10^k <= 2 * (a - q * 10^k) < 10^k.
   */
  function HalfUp(a: nat, k: nat): (q: int)
    ensures -Scale(1, k) <= 2 * (a - Scale(q, k)) < Scale(1, k)
  {
    var g := Shrink(2 * a + Scale(1, k), k);
    var q := g / 2;
    ShrinkBounds(2 * a + Scale(1, k), k);
    ScaleAdd(g, 1, k);
    ScaleAdd(q, q, k);
    ScaleAdd(2 * q, 1, k);
    assert g == 2 * q || g == 2 * q + 1;
    q
  }

  /**
   * The decimal rounded to the nearest integer, a half away from zero: the
   * integer r with |d - r| <= 1/2, where a tie goes to the r farther from 0.
   */
  function Round(d: Decimal): (r: int)
    ensures d.e >= 0 ==> r == Scale(d.m, d.e)
    ensures d.e < 0 && d.m >= 0 ==> -Scale(1, -d.e) <= 2 * (d.m - Scale(r, -d.e)) < Scale(1, -d.e)
    ensures d.e < 0 && d.m < 0 ==> -Scale(1, -d.e) < 2 * (d.m - Scale(r, -d.e)) <= Scale(1, -d.e)
  {
    if d.e >= 0 then Scale(d.m, d.e)
    else if d.m >= 0 then HalfUp(d.m, -d.e)
    else
      var q := HalfUp(-d.m, -d.e);
      ScaleNeg(q, -d.e);
      -q
  }

  /** An integer, rounded or rounded down, is itself. */
  lemma IntegerRounds(d: Decimal, v: int)
    requires EqualsInt(d, v)
    ensures Round(d) == v && Floor(d) == v
  {
    if d.e < 0 {
      var k := -d.e;
      var r := Round(d);
      ShrinkExact(d.m, k, v);
      ScaleAdd(v - r, r, k);
      ScaleOne(k);
      if v - r >= 1 {
        ScaleMono(1, v - r, k);
      } else if v - r <= -1 {
        ScaleMono(v - r, -1, k);
        ScaleNeg(1, k);
      }
    }
  }

  // ---------------------------------------------------------------------------
  // Numerals
  // ---------------------------------------------------------------------------

  /**
   * An exponent at the head of `s`: 'e' or 'E', an optional sign and at
   * least one digit. Its value and its length; (0, 0) when there is none.
   */
  function ExponentAt(s: string): (r: (int, nat))
    ensures r.1 <= |s|
    ensures r.1 == 0 ==> r.0 == 0
    ensures r.1 > 0 ==> s[0] == 'e' || s[0] == 'E'
  {
    if s != [] && (s[0] == 'e' || s[0] == 'E') then
      var (neg, body) := SignOf(s[1..]);
      var d := LeadingDigits(body);
      if d == [] then (0, 0) else (Signed(neg, DigitsValue(d)), |s| - |body| + |d|)
    else (0, 0)
  }

  /**
   * The unsigned decimal numeral at the head of `s`: digits, then optionally
   * a '.' and more digits, at least one digit in all, then optionally an
   * exponent ("12", "1.", ".5", "1.5e3"). Its value and its length; None when
   * `s` does not start with one.
   */
  function NumeralAt(s: string): (r: Option<(Decimal, nat)>)
    ensures r.Some? ==> 0 < r.value.1 <= |s|
  {
    var w := LeadingDigits(s);
    var dot := |w| < |s| && s[|w|] == '.';
    var f := if dot then LeadingDigits(s[|w| + 1..]) else [];
    if w == [] && f == [] then None
    else
      var k := |w| + (if dot then 1 else 0) + |f|;
      var x := ExponentAt(s[k..]);
      assert forall i :: 0 <= i < |w + f| ==> IsDigit((w + f)[i]);
      Some((Decimal(DigitsValue(w + f), x.0 - |f|), k + x.1))
  }

  /** A digit followed by anything but a digit: one leading digit, of its own value. */
  lemma DigitThen(a: char, t: string)
    requires IsDigit(a) && (t == [] || !IsDigit(t[0]))
    ensures LeadingDigits([a] + t) == [a] && DigitsValue([a]) == DigitValue(a)
  {
    assert ([a] + t)[1..] == t;
    OneDigit(a);
  }

  /** One digit on its own: no sign, one leading digit, of its own value. */
  lemma SingleDigit(b: char)
    requires IsDigit(b)
    ensures SignOf([b]) == (false, [b]) && LeadingDigits([b]) == [b] && DigitsValue([b]) == DigitValue(b)
  {
    assert [b][1..] == [];
    OneDigit(b);
  }

  /** Two digits: ten times the first plus the second. */
  lemma TwoDigits(a: char, b: char)
    requires IsDigit(a) && IsDigit(b)
    ensures DigitsValue([a, b]) == 10 * DigitValue(a) + DigitValue(b)
  {
    assert [a, b][..1] == [a] && [a, b][1] == b;
    OneDigit(a);
  }

  /** Digits not followed by '.': the numeral is those digits and the exponent after them. */
  lemma NumeralWithoutDot(s: string)
    requires LeadingDigits(s) != []
    requires |LeadingDigits(s)| == |s| || s[|LeadingDigits(s)|] != '.'
    ensures NumeralAt(s).Some?
    ensures NumeralAt(s).value.0.m == DigitsValue(LeadingDigits(s))
    ensures NumeralAt(s).value.0.e == ExponentAt(s[|LeadingDigits(s)|..]).0
    ensures NumeralAt(s).value.1 == |LeadingDigits(s)| + ExponentAt(s[|LeadingDigits(s)|..]).1
  {
    assert LeadingDigits(s) + [] == LeadingDigits(s);
  }

  /**
   * Digits w, '.', digits f and nothing more: the numeral is the digits of w
   * and f together, scaled down by the length of f.
   */
  lemma NumeralWithDot(s: string, w: string, f: string, wf: string)
    requires w == LeadingDigits(s) && w != [] && |w| < |s| && s[|w|] == '.'
    requires f == LeadingDigits(s[|w| + 1..]) && |w| + 1 + |f| == |s| && wf == w + f && AllDigits(wf)
    ensures NumeralAt(s).Some?
    ensures NumeralAt(s).value.0.m == DigitsValue(wf)
    ensures NumeralAt(s).value.0.e == -|f|
    ensures NumeralAt(s).value.1 == |s|
  {
    assert s[|s|..] == [];
  }

  /** 'e' or 'E', an optional sign and digits: the exponent those digits spell. */
  lemma ExponentOfDigits(c: char, t: string, neg: bool, body: string)
    requires c == 'e' || c == 'E'
    requires SignOf(t) == (neg, body) && LeadingDigits(body) != []
    ensures ExponentAt([c] + t).0 == Signed(neg, DigitsValue(LeadingDigits(body)))
    ensures ExponentAt([c] + t).1 == 1 + |t| - |body| + |LeadingDigits(body)|
  {
    assert ([c] + t)[1..] == t;
  }

  /** 'e' and a digit: an exponent of that digit, two characters long. */
  lemma ExponentOfDigit(b: char)
    requires IsDigit(b)
    ensures ExponentAt(['e', b]) == (DigitValue(b), 2)
  {
    SingleDigit(b);
    ExponentOfDigits('e', [b], false, [b]);
    assert ['e'] + [b] == ['e', b];
  }

  /** A string of digits is a numeral of its own value, and nothing follows it. */
  lemma NumeralOfDigits(s: string)
    requires AllDigits(s)
    ensures NumeralAt(s) == Some((Decimal(DigitsValue(s), 0), |s|))
  {
    DigitsPassThrough(s);
    assert LeadingDigits(s) == s;
    assert s[|s|..] == [];
    NumeralWithoutDot(s);
  }

  /** A digit, '.', a digit ("1.5"): tenths. */
  lemma NumeralWithFraction(a: char, b: char)
    requires IsDigit(a) && IsDigit(b)
    ensures NumeralAt([a, '.', b]) == Some((Decimal(10 * DigitValue(a) + DigitValue(b), -1), 3))
  {
    var s := [a, '.', b];
    assert s == [a] + ['.', b];
    DigitThen(a, ['.', b]);
    assert s[2..] == [b] && s[3..] == [];
    SingleDigit(b);
    assert [a] + [b] == [a, b];
    NumeralWithDot(s, [a], [b], [a, b]);
    TwoDigits(a, b);
  }

  /** A digit, 'e', a digit ("1e1"): the digit times a power of ten. */
  lemma NumeralWithExponent(a: char, b: char)
    requires IsDigit(a) && IsDigit(b)
    ensures NumeralAt([a, 'e', b]) == Some((Decimal(DigitValue(a), DigitValue(b)), 3))
  {
    var s := [a, 'e', b];
    assert s == [a] + ['e', b];
    DigitThen(a, ['e', b]);
    NumeralWithoutDot(s);
    assert s[1..] == ['e', b];
    ExponentOfDigit(b);
  }

  /** A digit followed by text that starts neither a fraction nor an exponent ("1abc", "1e"). */
  lemma NumeralThenText(a: char, t: string)
    requires IsDigit(a) && t != [] && !IsDigit(t[0]) && t[0] != '.' && ExponentAt(t).1 == 0
    ensures NumeralAt([a] + t) == Some((Decimal(DigitValue(a), 0), 1))
  {
    var s := [a] + t;
    DigitThen(a, t);
    assert s[1..] == t;
    NumeralWithoutDot(s);
  }

  /** The numeral with its sign applied. */
  function Signed10(neg: bool, d: Decimal): Decimal {
    if neg then Decimal(-d.m, d.e) else d
  }

  // ---------------------------------------------------------------------------
  // MySQL
  // ---------------------------------------------------------------------------

  /**
   * The number at the head of a string: leading white space skipped, an
   * optional sign, then a numeral; whatever follows is ignored, and a string
   * without a numeral reads as 0. MySQL reads a string this way where a
   * number is expected: an integer column compared with a string is
   * compared with this number (as DOUBLE), and a string stored into an
   * integer column is this number rounded. PHP reads a numeric string by
   * the same grammar (see the PHP section below).
   */
  function LeadingNumber(s: string): Decimal {
    var (neg, body) := SignOf(TrimLeft(s));
    match NumeralAt(body)
    case None => Decimal(0, 0)
    case Some((d, _)) => Signed10(neg, d)
  }

  /** Where the reading stops: after the numeral, or at 0 when there is none. */
  function LeadingNumberEnd(s: string): (n: nat)
    ensures n <= |s|
  {
    var (neg, body) := SignOf(TrimLeft(s));
    match NumeralAt(body)
    case None => 0
    case Some((_, k)) => |s| - |body| + k
  }

  /**
   * Something other than white space follows what MySQL reads: a warning
   * ("Truncated incorrect DOUBLE value", 1292) in a SELECT, and an error in
   * an UPDATE, INSERT or DELETE of a strict-mode session.
   */
  predicate MySqlTruncates(s: string) {
    !Spaces(s[LeadingNumberEnd(s)..])
  }

  /**
   * A strict-mode session stores `s` into an integer column only when it
   * holds a numeral with nothing but white space after it; any other string
   * is an error (1366 "Incorrect integer value", or 1265 "Data truncated").
   */
  predicate MySqlStrictStores(s: string) {
    NumeralAt(SignOf(TrimLeft(s)).1).Some? && !MySqlTruncates(s)
  }

  /** The rows whose integer column equals `s`: those holding this value, or none. */
  function MySqlEquals(s: string): (r: Option<int>)
    ensures r.Some? ==> EqualsInt(LeadingNumber(s), r.value)
    ensures r.None? ==> forall v :: !EqualsInt(LeadingNumber(s), v)
  {
    IntegerValue(LeadingNumber(s))
  }

  /** `col > s` holds for exactly the integers above this bound (MySqlAboveIsComparison). */
  function MySqlAbove(s: string): int {
    Floor(LeadingNumber(s))
  }

  /** The integer stored for `s`: its reading rounded, a half away from zero. */
  function MySqlStored(s: string): (v: int)
    ensures MySqlEquals(s).Some? ==> v == MySqlEquals(s).value
  {
    var d := LeadingNumber(s);
    if IntegerValue(d).Some? then
      IntegerRounds(d, IntegerValue(d).value);
      Round(d)
    else Round(d)
  }

  /** An integer column compares greater than `s` exactly when it exceeds MySqlAbove(s). */
  lemma MySqlAboveIsComparison(s: string, v: int)
    ensures BelowInt(LeadingNumber(s), v) <==> v > MySqlAbove(s)
  {
    BelowIsAboveFloor(LeadingNumber(s), v);
  }

  /** A string that equals an integer is stored as that integer. */
  lemma MySqlStoresEqual(s: string, v: int)
    requires MySqlEquals(s) == Some(v)
    ensures MySqlStored(s) == v && MySqlAbove(s) == v
  {
    IntegerRounds(LeadingNumber(s), v);
  }

  /** A string starting with a digit: MySQL reads the numeral at its head, with no sign. */
  lemma MySqlReadsNumeral(s: string)
    requires s != [] && IsDigit(s[0]) && NumeralAt(s).Some?
    ensures LeadingNumber(s) == NumeralAt(s).value.0 && LeadingNumberEnd(s) == NumeralAt(s).value.1
    ensures MySqlEquals(s) == IntegerValue(NumeralAt(s).value.0)
    ensures MySqlAbove(s) == Floor(NumeralAt(s).value.0)
    ensures MySqlStored(s) == Round(NumeralAt(s).value.0)
    ensures MySqlStrictStores(s) <==> Spaces(s[NumeralAt(s).value.1..])
    ensures MySqlTruncates(s) <==> !Spaces(s[NumeralAt(s).value.1..])
    ensures NumeralAt(s).value.1 == |s| ==> MySqlStrictStores(s) && !MySqlTruncates(s)
  {
    StartsWithDigit(s);
    assert s[|s|..] == [];
  }

  /** A digit other than '0' has a positive value. */
  lemma NonZeroDigit(b: char)
    requires IsDigit(b) && b != '0'
    ensures DigitValue(b) > 0
  {
    assert b as int != '0' as int;
  }

  /** A string of digits reads as its value, in every one of these uses. */
  lemma MySqlReadsDigits(s: string)
    requires AllDigits(s)
    ensures LeadingNumber(s) == Decimal(DigitsValue(s), 0)
    ensures MySqlEquals(s) == Some(DigitsValue(s))
    ensures MySqlAbove(s) == DigitsValue(s) && MySqlStored(s) == DigitsValue(s)
    ensures MySqlStrictStores(s) && !MySqlTruncates(s)
  {
    NumeralOfDigits(s);
    MySqlReadsNumeral(s);
    IntegerRounds(Decimal(DigitsValue(s), 0), DigitsValue(s));
  }

  /**
   * a + b/10 for a digit b other than 0: no integer, a when rounded down, and
   * a or a + 1 when rounded to the nearest.
   */
  lemma Tenths(a: nat, b: nat)
    requires 0 < b < 10
    ensures IntegerValue(Decimal(10 * a + b, -1)) == None
    ensures Floor(Decimal(10 * a + b, -1)) == a
    ensures Round(Decimal(10 * a + b, -1)) == a + (if b >= 5 then 1 else 0)
  {
    assert Shrink(10 * a + b, 1) == a;
    assert Scale(a, 1) == 10 * a;
    assert Scale(1, 1) == 10;
    assert Shrink(2 * (10 * a + b) + 10, 1) == 2 * a + 1 + (if b >= 5 then 1 else 0);
  }

  /**
   * A fraction such as "1.5" equals no integer, so `col = '1.5'` matches no
   * row; `col > '1.5'` holds from 2 on; stored, it rounds (to 2).
   */
  lemma MySqlFraction(a: char, b: char)
    requires IsDigit(a) && IsDigit(b) && b != '0'
    ensures MySqlEquals([a, '.', b]) == None
    ensures MySqlAbove([a, '.', b]) == DigitValue(a)
    ensures MySqlStored([a, '.', b]) == DigitValue(a) + (if DigitValue(b) >= 5 then 1 else 0)
    ensures MySqlStrictStores([a, '.', b])
  {
    NumeralWithFraction(a, b);
    NonZeroDigit(b);
    MySqlReadsTenths([a, '.', b], DigitValue(a), DigitValue(b));
  }

  /** A string that is exactly the numeral x + y/10, for y other than 0, as MySQL reads it. */
  lemma MySqlReadsTenths(s: string, x: nat, y: nat)
    requires s != [] && IsDigit(s[0]) && NumeralAt(s) == Some((Decimal(10 * x + y, -1), |s|)) && 0 < y < 10
    ensures MySqlEquals(s) == None && MySqlAbove(s) == x && MySqlStored(s) == x + (if y >= 5 then 1 else 0)
    ensures MySqlStrictStores(s)
  {
    MySqlReadsNumeral(s);
    Tenths(x, y);
  }

  /** An exponent counts: "1e1" equals 10. */
  lemma MySqlExponent(a: char, b: char)
    requires IsDigit(a) && IsDigit(b)
    ensures MySqlEquals([a, 'e', b]) == Some(Scale(DigitValue(a), DigitValue(b)))
    ensures MySqlStrictStores([a, 'e', b])
  {
    var s := [a, 'e', b];
    NumeralWithExponent(a, b);
    MySqlReadsNumeral(s);
  }

  /**
   * Text after the number is ignored by a comparison ("1abc" equals 1), but
   * strict mode refuses to store it.
   */
  lemma MySqlTrailingText(a: char, t: string)
    requires IsDigit(a) && t != [] && !IsDigit(t[0]) && t[0] != '.' && !IsSpace(t[0]) && ExponentAt(t).1 == 0
    ensures MySqlEquals([a] + t) == Some(DigitValue(a))
    ensures MySqlTruncates([a] + t) && !MySqlStrictStores([a] + t)
  {
    var s := [a] + t;
    NumeralThenText(a, t);
    MySqlReadsNumeral(s);
    assert s[1..][0] == t[0];
  }

  // ---------------------------------------------------------------------------
  // PHP
  // ---------------------------------------------------------------------------

  /** Negating a decimal turns "equal to v" into "equal to -v", and "below -v" into "above v". */
  lemma NegCompare(d: Decimal, v: int)
    ensures EqualsInt(Decimal(-d.m, d.e), -v) <==> EqualsInt(d, v)
    ensures BelowInt(Decimal(-d.m, d.e), -v) <==> !BelowInt(d, v) && !EqualsInt(d, v)
  {
    if d.e >= 0 {
      ScaleNeg(d.m, d.e);
    } else {
      ScaleNeg(v, -d.e);
    }
  }

  /**
   * The decimal with its fraction dropped, toward zero, as PHP turns a
   * float into an int: t <= d < t + 1 for d >= 0, and t - 1 < d <= t below 0.
   */
  function Truncate(d: Decimal): (t: int)
    ensures d.m >= 0 ==> !BelowInt(d, t) && BelowInt(d, t + 1)
    ensures d.m < 0 ==> (BelowInt(d, t) || EqualsInt(d, t)) && !BelowInt(d, t - 1) && !EqualsInt(d, t - 1)
    ensures IntegerValue(d).Some? ==> t == IntegerValue(d).value
  {
    if d.m >= 0 then
      if IntegerValue(d).Some? then
        IntegerRounds(d, IntegerValue(d).value);
        Floor(d)
      else Floor(d)
    else
      var f := Floor(Decimal(-d.m, d.e));
      NegCompare(d, -f);
      NegCompare(d, -f - 1);
      if IntegerValue(d).Some? then
        NegCompare(d, IntegerValue(d).value);
        IntegerRounds(Decimal(-d.m, d.e), -IntegerValue(d).value);
        -f
      else -f
  }

  /**
   * PHP 7's is_numeric: leading white space, an optional sign and a
   * numeral, with nothing after it. "1", " 1", "-1", "1.", ".5", "1.5" and
   * "1e3" are numeric; "", ".", "1e", "1 " and "0x1A" are not.
   */
  predicate PhpIsNumeric(s: string) {
    NumeralAt(SignOf(TrimLeft(s)).1).Some? && LeadingNumberEnd(s) == |s|
  }

  /**
   * PHP's (int) cast of a string, from PHP 7.1 on: the number at the head of
   * the string, fraction and exponent included, truncated toward zero, and
   * 0 when the string does not start with one ("1e1" is 10, "1.9" is 1).
   */
  function PhpIntCast(s: string): (v: int)
    ensures NumeralAt(SignOf(TrimLeft(s)).1).None? ==> v == 0
    ensures MySqlEquals(s).Some? ==> v == MySqlEquals(s).value
    ensures LeadingNumber(s).m >= 0 ==> v == MySqlAbove(s)
  {
    Truncate(LeadingNumber(s))
  }

  /**
   * A string starting with a digit is numeric exactly when its numeral takes
   * all of it, and casts to that numeral rounded down.
   */
  lemma PhpReadsNumeral(s: string)
    requires s != [] && IsDigit(s[0]) && NumeralAt(s).Some?
    ensures PhpIsNumeric(s) <==> NumeralAt(s).value.1 == |s|
    ensures PhpIntCast(s) == Floor(NumeralAt(s).value.0)
  {
    StartsWithDigit(s);
    MySqlReadsNumeral(s);
  }

  /** A string of digits is numeric and casts to its value. */
  lemma PhpReadsDigits(s: string)
    ensures AllDigits(s) ==> PhpIsNumeric(s) && PhpIntCast(s) == DigitsValue(s)
  {
    if AllDigits(s) {
      NumeralOfDigits(s);
      MySqlReadsDigits(s);
      PhpReadsNumeral(s);
    }
  }

  /** A printed page number is numeric to PHP and casts back to itself. */
  lemma PhpReadsPrintedNumbers(n: nat)
    ensures PhpIsNumeric(NatToString(n)) && PhpIntCast(NatToString(n)) == n
  {
    DigitsValueOfNatToString(n);
    PhpReadsDigits(NatToString(n));
  }

  /** x + y/10 rounded down is x. */
  lemma FloorTenths(x: nat, y: nat)
    requires y < 10
    ensures Floor(Decimal(10 * x + y, -1)) == x
  {
    assert Shrink(10 * x + y, 1) == x;
  }

  /** One character never holds an exponent: that takes a digit after the 'e'. */
  lemma NoExponentInOne(t: string)
    requires |t| == 1
    ensures ExponentAt(t).1 == 0
  {
    if t[0] == 'e' || t[0] == 'E' {
      assert t[1..] == [];
    }
  }

  /** A digit followed by one character that is neither a digit nor a point reads as the digit alone. */
  lemma DigitThenOneOther(a: char, c: char)
    requires IsDigit(a) && !IsDigit(c) && c != '.'
    ensures NumeralAt([a, c]) == Some((Decimal(DigitValue(a), 0), 1))
  {
    var t := [c];
    NoExponentInOne(t);
    NumeralThenText(a, t);
    assert [a] + t == [a, c];
  }

  /** A string that is exactly the numeral x + y/10 is numeric and casts to x. */
  lemma PhpReadsTenths(s: string, x: nat, y: nat)
    requires s != [] && IsDigit(s[0]) && NumeralAt(s) == Some((Decimal(10 * x + y, -1), |s|)) && y < 10
    ensures PhpIsNumeric(s) && PhpIntCast(s) == x
  {
    PhpReadsNumeral(s);
    FloorTenths(x, y);
  }

  /** White space, then a numeral that starts with a digit: the space is skipped. */
  lemma PhpSkipsSpace(s: string, t: string)
    requires s != [] && IsSpace(s[0]) && t == s[1..] && t != [] && IsDigit(t[0]) && NumeralAt(t).Some?
    ensures PhpIsNumeric(s) <==> NumeralAt(t).value.1 == |t|
    ensures PhpIntCast(s) == Floor(NumeralAt(t).value.0)
  {
    StartsWithDigit(t);
    assert TrimLeft(s) == TrimLeft(t);
    assert TrimLeft(t) == t;
  }

  /** "a.b" is numeric and casts to a. */
  lemma PhpFractionForm(a: char, b: char)
    requires IsDigit(a) && IsDigit(b)
    ensures PhpIsNumeric([a, '.', b]) && PhpIntCast([a, '.', b]) == DigitValue(a)
  {
    NumeralWithFraction(a, b);
    PhpReadsTenths([a, '.', b], DigitValue(a), DigitValue(b));
  }

  /** "aeb" is numeric and casts to a * 10^b. */
  lemma PhpExponentForm(a: char, b: char)
    requires IsDigit(a) && IsDigit(b)
    ensures PhpIsNumeric([a, 'e', b]) && PhpIntCast([a, 'e', b]) == Scale(DigitValue(a), DigitValue(b))
  {
    NumeralWithExponent(a, b);
    PhpReadsNumeral([a, 'e', b]);
  }

  /** " a" is numeric and casts to a. */
  lemma PhpLeadingSpaceForm(a: char)
    requires IsDigit(a)
    ensures PhpIsNumeric([' ', a]) && PhpIntCast([' ', a]) == DigitValue(a)
  {
    var w := [' ', a];
    assert w[1..] == [a];
    SingleDigit(a);
    NumeralOfDigits([a]);
    PhpSkipsSpace(w, [a]);
  }

  /**
   * The forms a page or a channel_id can take: "a.b" is numeric and casts
   * to a; "aeb" is numeric and casts to a * 10^b, so "1e1" is 10; " a" is
   * numeric and casts to a.
   */
  lemma PhpNumericForms(a: char, b: char)
    requires IsDigit(a) && IsDigit(b)
    ensures PhpIsNumeric([a, '.', b]) && PhpIntCast([a, '.', b]) == DigitValue(a)
    ensures PhpIsNumeric([a, 'e', b]) && PhpIntCast([a, 'e', b]) == Scale(DigitValue(a), DigitValue(b))
    ensures PhpIsNumeric([' ', a]) && PhpIntCast([' ', a]) == DigitValue(a)
  {
    PhpFractionForm(a, b);
    PhpExponentForm(a, b);
    PhpLeadingSpaceForm(a);
  }

  /** Neither nothing nor a lone point is numeric, and nothing casts to 0. */
  lemma PhpNoDigits()
    ensures !PhpIsNumeric([]) && !PhpIsNumeric(".")
    ensures PhpIntCast([]) == 0
  {
    assert SignOf(TrimLeft([])) == (false, []);
    assert TrimLeft(".") == "." by { assert !IsSpace("."[0]); }
    assert SignOf(".") == (false, ".");
    assert LeadingDigits(".") == [];
    assert LeadingDigits("."[1..]) == [];
  }

  /** A digit followed by one character that is neither a digit nor a point is not numeric. */
  lemma PhpDigitThenOther(a: char, c: char)
    requires IsDigit(a) && !IsDigit(c) && c != '.'
    ensures !PhpIsNumeric([a, c])
  {
    DigitThenOneOther(a, c);
    PhpReadsNumeral([a, c]);
  }

  // ---------------------------------------------------------------------------
  // JavaScript
  // ---------------------------------------------------------------------------

  /** A number ToNumber can give, as far as comparing it with an integer goes. */
  datatype JsNumber = Finite(d: Decimal) | Infinite | NotANumber

  /** The value of `s` in base `radix`, when every character is a digit of that base. */
  predicate RadixDigits(s: string, radix: nat) {
    forall i :: 0 <= i < |s| ==> IsHexDigit(s[i]) && HexValue(s[i]) < radix
  }

  function RadixValue(s: string, radix: nat): int
    requires RadixDigits(s, radix)
  {
    if s == [] then 0 else radix * RadixValue(s[..|s| - 1], radix) + HexValue(s[|s| - 1])
  }

  /** "0x", "0o" or "0b" in either case: the base it announces, or 0 for none. */
  function RadixOf(t: string): (radix: nat)
    ensures radix in {0, 2, 8, 16}
  {
    if |t| < 2 || t[0] != '0' then 0
    else if t[1] == 'x' || t[1] == 'X' then 16
    else if t[1] == 'o' || t[1] == 'O' then 8
    else if t[1] == 'b' || t[1] == 'B' then 2
    else 0
  }

  /**
   * JavaScript's ToNumber for a string: white space trimmed at both ends; ""
   * is 0; "0x", "0o" or "0b" followed by digits of that base, with no sign;
   * otherwise an optional sign and either "Infinity" or a decimal numeral
   * that takes up the whole rest; anything else is NaN.
   */
  function JsToNumber(s: string): (r: JsNumber)
    ensures Trim(s) == "" ==> r == Finite(Decimal(0, 0))
  {
    var t := Trim(s);
    var radix := RadixOf(t);
    if t == "" then Finite(Decimal(0, 0))
    else if radix != 0 then JsRadixNumber(t[2..], radix)
    else JsDecimalNumber(t)
  }

  /** The digits after a "0x", "0o" or "0b" prefix: at least one, all of that base. */
  function JsRadixNumber(digits: string, radix: nat): JsNumber {
    if digits != [] && RadixDigits(digits, radix) then Finite(Decimal(RadixValue(digits, radix), 0))
    else NotANumber
  }

  /** An optional sign, then "Infinity" or a decimal numeral that takes up all the rest. */
  function JsDecimalNumber(t: string): JsNumber {
    var (neg, body) := SignOf(t);
    if body == "Infinity" then Infinite
    else match NumeralAt(body)
      case Some((d, n)) => if n == |body| then Finite(Signed10(neg, d)) else NotANumber
      case None => NotANumber
  }

  /** `x == s` for a number x that is an integer: ToNumber(s) is finite and equals it. */
  predicate JsLooseEquals(x: int, s: string) {
    var v := JsToNumber(s);
    v.Finite? && EqualsInt(v.d, x)
  }

  /**
   * A string with nothing to trim that starts with a digit and has no radix
   * prefix: ToNumber reads it as a decimal numeral, which must take up all of it.
   */
  lemma JsReadsNumeral(s: string)
    requires s != [] && IsDigit(s[0]) && Trim(s) == s && RadixOf(s) == 0
    ensures NumeralAt(s).Some? && NumeralAt(s).value.1 == |s| ==> JsToNumber(s) == Finite(NumeralAt(s).value.0)
    ensures NumeralAt(s).Some? && NumeralAt(s).value.1 < |s| ==> JsToNumber(s) == NotANumber
  {
    NotInfinity(s);
  }

  /** A string starting with a digit has no sign and is not "Infinity". */
  lemma NotInfinity(s: string)
    requires s != [] && IsDigit(s[0])
    ensures SignOf(s) == (false, s) && s != "Infinity"
  {
    assert "Infinity"[0] == 'I';
  }

  /** A string that starts and ends with a digit, has no radix prefix and is one whole numeral. */
  lemma JsReadsWholeNumeral(s: string, d: Decimal)
    requires s != [] && IsDigit(s[0]) && IsDigit(s[|s| - 1]) && RadixOf(s) == 0
    requires NumeralAt(s) == Some((d, |s|))
    ensures JsToNumber(s) == Finite(d)
  {
    BetweenDigits(s);
    JsReadsNumeral(s);
  }

  /** A string of two or more digits has no radix prefix. */
  lemma DigitsHaveNoRadix(s: string)
    requires AllDigits(s)
    ensures RadixOf(s) == 0
  {
    if |s| >= 2 { assert IsDigit(s[1]); }
  }

  /** ToNumber of a string of digits is the number it spells. */
  lemma JsToNumberOfDigits(s: string)
    requires AllDigits(s)
    ensures JsToNumber(s) == Finite(Decimal(DigitsValue(s), 0))
  {
    BetweenDigits(s);
    DigitsHaveNoRadix(s);
    NumeralOfDigits(s);
    JsReadsNumeral(s);
  }

  /** A string of digits equals exactly the number it spells. */
  lemma JsDigitsEqual(x: int, s: string)
    ensures AllDigits(s) ==> (JsLooseEquals(x, s) <==> x == DigitsValue(s))
  {
    if AllDigits(s) {
      JsToNumberOfDigits(s);
    }
  }

  /** A sign, or a fraction of zeros, or an exponent of 0, or hexadecimal: "+1", "1.0", "1e0", "0x1" all equal 1. */
  lemma JsOtherSpellingsOfOne()
    ensures JsLooseEquals(1, "+1") && JsLooseEquals(1, "1.0") && JsLooseEquals(1, "1e0") && JsLooseEquals(1, "0x1")
  {
    JsSigned('1');
    JsFractionOfOne();
    JsExponentOfOne();
    JsHex('1');
  }

  lemma JsSigned(a: char)
    requires IsDigit(a)
    ensures JsToNumber(['+', a]) == Finite(Decimal(DigitValue(a), 0))
  {
    var s := ['+', a];
    assert Trim(s) == s by { assert TrimLeft(s) == s; assert TrimRight(s) == s; }
    assert SignOf(s) == (false, [a]);
    assert AllDigits([a]);
    NumeralOfDigits([a]);
    OneDigit(a);
  }

  lemma JsFraction(a: char, b: char)
    requires IsDigit(a) && IsDigit(b)
    ensures JsToNumber([a, '.', b]) == Finite(Decimal(10 * DigitValue(a) + DigitValue(b), -1))
  {
    NumeralWithFraction(a, b);
    JsReadsWholeNumeral([a, '.', b], Decimal(10 * DigitValue(a) + DigitValue(b), -1));
  }

  lemma JsFractionOfOne()
    ensures JsLooseEquals(1, "1.0")
  {
    JsFraction('1', '0');
    assert Scale(1, 1) == 10;
  }

  lemma JsExponent(a: char, b: char)
    requires IsDigit(a) && IsDigit(b)
    ensures JsToNumber([a, 'e', b]) == Finite(Decimal(DigitValue(a), DigitValue(b)))
  {
    NumeralWithExponent(a, b);
    JsReadsWholeNumeral([a, 'e', b], Decimal(DigitValue(a), DigitValue(b)));
  }

  lemma JsExponentOfOne()
    ensures JsLooseEquals(1, "1e0")
  {
    JsExponent('1', '0');
  }

  lemma JsHex(a: char)
    requires IsDigit(a)
    ensures JsToNumber(['0', 'x', a]) == Finite(Decimal(DigitValue(a), 0))
  {
    var s := ['0', 'x', a];
    BetweenDigits(s);
    assert s[2..] == [a];
    assert RadixValue([a], 16) == DigitValue(a) by { assert [a][..0] == []; }
  }

  /** Text after the number makes NaN, which equals nothing: "1abc", "1e". */
  lemma JsTrailingText(a: char, t: string, x: int)
    requires IsDigit(a) && t != [] && !IsDigit(t[0]) && t[0] != '.' && ExponentAt(t).1 == 0
    requires !IsSpace(t[|t| - 1]) && RadixOf([a] + t) == 0  // not a "0x", "0o" or "0b" prefix
    ensures !JsLooseEquals(x, [a] + t)
  {
    var s := [a] + t;
    assert Trim(s) == s by {
      assert TrimLeft(s) == s by { assert !IsSpace(s[0]); }
      assert TrimRight(s) == s by { assert s[|s| - 1] == t[|t| - 1]; }
    }
    NumeralThenText(a, t);
    JsReadsNumeral(s);
  }
}
