/**
 * String helpers used across the service and the benchmarker: searching,
 * splitting, trimming, decimal formatting, and the integer readings of Go's
 * strconv, JavaScript's parseInt, Python's int(), Ruby's to_i, PHP's
 * is_numeric and (int) cast, and MySQL's conversion of a string to an integer.
 * White space is the ASCII set; Unicode digits and white space are not read.
 */
module Text {
  import opened Base

  predicate IsDigit(c: char) { '0' <= c <= '9' }

  /** ASCII white space, the characters Go's TrimSpace removes in the ASCII range. */
  predicate IsSpace(c: char) {
    c == ' ' || c == '\t' || c == '\n' || c == '\r' || c == 11 as char || c == 12 as char
  }

  predicate AllDigits(s: string) {
    |s| > 0 && forall i :: 0 <= i < |s| ==> IsDigit(s[i])
  }

  predicate HasPrefix(s: string, p: string) { |p| <= |s| && s[..|p|] == p }

  predicate HasSuffix(s: string, p: string) { |p| <= |s| && s[|s| - |p|..] == p }

  // ---------------------------------------------------------------------------
  // Searching and splitting
  // ---------------------------------------------------------------------------

  /** Index of the first occurrence of `c` in `s`. */
  function IndexOf(s: string, c: char): (r: Option<nat>)
    ensures r.None? <==> c !in s
    ensures r.Some? ==> r.value < |s| && s[r.value] == c && c !in s[..r.value]
  {
    if s == [] then None
    else if s[0] == c then Some(0)
    else match IndexOf(s[1..], c)
      case None => None
      case Some(i) =>
        assert s[1..][..i] == s[1..i + 1];
        assert s[..i + 1] == [s[0]] + s[1..i + 1];
        Some(i + 1)
  }

  /** Index of the last occurrence of `c` in `s`. */
  function LastIndexOf(s: string, c: char): (r: Option<nat>)
    ensures r.None? <==> c !in s
    ensures r.Some? ==> r.value < |s| && s[r.value] == c && c !in s[r.value + 1..]
  {
    if s == [] then None
    else if s[|s| - 1] == c then Some(|s| - 1)
    else
      var r := LastIndexOf(s[..|s| - 1], c);
      assert s == s[..|s| - 1] + [s[|s| - 1]];
      match r
      case None => None
      case Some(i) =>
        assert s[i + 1..] == s[..|s| - 1][i + 1..] + [s[|s| - 1]];
        Some(i)
  }

  /** The parts joined back together with `c` between them. */
  function Join(parts: seq<string>, c: char): string
    requires |parts| >= 1
  {
    if |parts| == 1 then parts[0] else parts[0] + [c] + Join(parts[1..], c)
  }

  /** `s` cut at every `c`: the parts contain no `c` and joining them gives `s` back. */
  function Split(s: string, c: char): (parts: seq<string>)
    ensures |parts| >= 1
    ensures forall k :: 0 <= k < |parts| ==> c !in parts[k]
    ensures Join(parts, c) == s
    decreases |s|
  {
    match IndexOf(s, c)
    case None => [s]
    case Some(i) =>
      var rest := Split(s[i + 1..], c);
      assert s == s[..i] + [c] + s[i + 1..];
      [s[..i]] + rest
  }

  /** Parts that hold no `c`, joined with `c` and split at `c` again, come back unchanged. */
  lemma {:induction false} SplitOfJoin(parts: seq<string>, c: char)
    requires |parts| >= 1
    requires forall k :: 0 <= k < |parts| ==> c !in parts[k]
    ensures Split(Join(parts, c), c) == parts
    decreases |parts|
  {
    var s := Join(parts, c);
    var p := parts[0];
    if |parts| == 1 {
      assert IndexOf(s, c).None?;
    } else {
      var rest := Join(parts[1..], c);
      assert s == p + [c] + rest;
      assert s[..|p|] == p && s[|p|] == c;
      var k := IndexOf(s, c).value;
      assert s[k + 1..] == rest;
      SplitOfJoin(parts[1..], c);
      assert [p] + parts[1..] == parts;
    }
  }

  /** Number of occurrences of the character `c` in `s`. */
  function Count(s: string, c: char): (n: nat)
    ensures n <= |s|
    ensures n == 0 <==> c !in s
  {
    if s == [] then 0 else (if s[0] == c then 1 else 0) + Count(s[1..], c)
  }

  lemma {:induction false} CountIsMultiplicity(s: string, c: char)
    ensures Count(s, c) == multiset(s)[c]
  {
    if s != [] {
      CountIsMultiplicity(s[1..], c);
      assert s == [s[0]] + s[1..];
    }
  }

  // ---------------------------------------------------------------------------
  // Trimming
  // ---------------------------------------------------------------------------

  function TrimLeft(s: string): (r: string)
    ensures |r| <= |s| && r == s[|s| - |r|..]
    ensures |r| == |s| - LeadingSpaces(s)
    ensures r == [] || !IsSpace(r[0])
  {
    if s != [] && IsSpace(s[0]) then TrimLeft(s[1..]) else s
  }

  /** Only white space is trimmed from the front. */
  lemma {:induction false} TrimLeftDropsSpaces(s: string)
    ensures forall i :: 0 <= i < |s| - |TrimLeft(s)| ==> IsSpace(s[i])
  {
    if s != [] && IsSpace(s[0]) {
      TrimLeftDropsSpaces(s[1..]);
      forall i | 1 <= i < |s| - |TrimLeft(s)|
        ensures IsSpace(s[i])
      {
        assert s[i] == s[1..][i - 1];
      }
    }
  }

  function TrimRight(s: string): (r: string)
    ensures |r| <= |s| && r == s[..|r|]
    ensures r == [] || !IsSpace(r[|r| - 1])
  {
    if s != [] && IsSpace(s[|s| - 1]) then TrimRight(s[..|s| - 1]) else s
  }

  /** Only white space is trimmed from the back. */
  lemma {:induction false} TrimRightDropsSpaces(s: string)
    ensures forall i :: |TrimRight(s)| <= i < |s| ==> IsSpace(s[i])
  {
    if s != [] && IsSpace(s[|s| - 1]) {
      TrimRightDropsSpaces(s[..|s| - 1]);
      forall i | |TrimRight(s)| <= i < |s| - 1
        ensures IsSpace(s[i])
      {
        assert s[i] == s[..|s| - 1][i];
      }
    }
  }

  /** What TrimRight drops is white space. */
  lemma TrimRightTail(l: string)
    ensures Spaces(l[|TrimRight(l)|..])
  {
    var k := |TrimRight(l)|;
    TrimRightDropsSpaces(l);
    forall i | 0 <= i < |l| - k
      ensures IsSpace(l[k..][i])
    {
      assert l[k..][i] == l[k + i];
    }
  }

  /** A string of digits has no white space to trim. */
  lemma DigitsUntrimmed(s: string)
    ensures AllDigits(s) ==> Trim(s) == s
  {
    if AllDigits(s) {
      assert !IsSpace(s[0]) && !IsSpace(s[|s| - 1]);
      assert TrimLeft(s) == s;
    }
  }

  /** All of `s` is white space. */
  predicate Spaces(s: string) {
    forall i :: 0 <= i < |s| ==> IsSpace(s[i])
  }

  /** The length of the white space `s` starts with. */
  function LeadingSpaces(s: string): (n: nat)
    ensures n <= |s| && Spaces(s[..n])
    ensures n < |s| ==> !IsSpace(s[n])
  {
    if s != [] && IsSpace(s[0]) then
      var m := LeadingSpaces(s[1..]);
      assert s[..m + 1] == [s[0]] + s[1..][..m];
      m + 1
    else 0
  }

  /**
   * `s` without leading and trailing white space: the slice of `s` after its
   * leading white space, with only white space after it, and starting and
   * ending with a non-space.
   */
  function Trim(s: string): (r: string)
    ensures LeadingSpaces(s) + |r| <= |s|
    ensures r == s[LeadingSpaces(s)..LeadingSpaces(s) + |r|]
    ensures Spaces(s[LeadingSpaces(s) + |r|..])
    ensures r == [] || (!IsSpace(r[0]) && !IsSpace(r[|r| - 1]))
  {
    var n := LeadingSpaces(s);
    var l := s[n..];
    var r := TrimRight(l);
    assert r == s[n..n + |r|];
    assert r != [] ==> r[0] == s[n];
    assert Spaces(s[n + |r|..]) by {
      TrimRightTail(l);
      assert s[n + |r|..] == l[|r|..];
    }
    r
  }

  lemma TrimIdempotent(s: string)
    ensures Trim(Trim(s)) == Trim(s)
  {
    var t := Trim(s);
    if t != [] {
      assert !IsSpace(t[0]) && !IsSpace(t[|t| - 1]);
    }
  }

  // ---------------------------------------------------------------------------
  // Decimal numbers
  // ---------------------------------------------------------------------------

  function DigitChar(d: nat): (c: char)
    requires d < 10
    ensures IsDigit(c)
  {
    "0123456789"[d]
  }

  function DigitValue(c: char): (d: nat)
    requires IsDigit(c)
    ensures d < 10 && DigitChar(d) == c
  {
    c as int - '0' as int
  }

  /** The value of a string of decimal digits. */
  function DigitsValue(s: string): (v: nat)
    requires forall i :: 0 <= i < |s| ==> IsDigit(s[i])
  {
    if s == [] then 0 else 10 * DigitsValue(s[..|s| - 1]) + DigitValue(s[|s| - 1])
  }

  /** Decimal representation of `n`, as `%d`, `String(n)` and `str(n)` print it. */
  function NatToString(n: nat): (s: string)
    ensures AllDigits(s)
    ensures |s| > 1 ==> s[0] != '0'
  {
    if n < 10 then [DigitChar(n)] else NatToString(n / 10) + [DigitChar(n % 10)]
  }

  /** Parsing what was printed gives the number back. */
  lemma {:induction false} DigitsValueOfNatToString(n: nat)
    ensures DigitsValue(NatToString(n)) == n
  {
    if n >= 10 {
      DigitsValueOfNatToString(n / 10);
      var s := NatToString(n);
      assert s[..|s| - 1] == NatToString(n / 10);
    }
  }

  lemma NatToStringInjective(a: nat, b: nat)
    requires NatToString(a) == NatToString(b)
    ensures a == b
  {
    DigitsValueOfNatToString(a);
    DigitsValueOfNatToString(b);
  }

  /** `n` copies of `c`. */
  function Repeat(c: char, n: nat): (s: string)
    ensures |s| == n && forall i :: 0 <= i < n ==> s[i] == c
  {
    seq(n, _ => c)
  }

  /** Leading zeros do not change the value of a digit string. */
  lemma {:induction false} LeadingZeros(z: nat, t: string)
    requires forall i :: 0 <= i < |t| ==> IsDigit(t[i])
    ensures DigitsValue(Repeat('0', z) + t) == DigitsValue(t)
  {
    var s := Repeat('0', z) + t;
    if t == [] {
      assert s == Repeat('0', z);
      if z > 0 {
        assert s[..|s| - 1] == Repeat('0', z - 1) + [];
        LeadingZeros(z - 1, []);
      }
    } else {
      var t' := t[..|t| - 1];
      assert s[..|s| - 1] == Repeat('0', z) + t';
      LeadingZeros(z, t');
    }
  }

  /** The longest prefix of `s` made of digits. */
  function LeadingDigits(s: string): (p: string)
    ensures |p| <= |s| && p == s[..|p|]
    ensures forall i :: 0 <= i < |p| ==> IsDigit(p[i])
    ensures |p| < |s| ==> !IsDigit(s[|p|])
  {
    if s != [] && IsDigit(s[0]) then
      var rest := LeadingDigits(s[1..]);
      [s[0]] + rest
    else []
  }

  /** Splits off one leading `+` or `-`; the boolean says whether it was `-`. */
  function SignOf(s: string): (r: (bool, string))
    ensures |r.1| <= |s| && r.1 == s[|s| - |r.1|..]
  {
    if s != [] && (s[0] == '-' || s[0] == '+') then (s[0] == '-', s[1..]) else (false, s)
  }

  function Signed(negative: bool, v: nat): int {
    if negative then -(v as int) else v
  }

  /** The range of Go's int64, which strconv.Atoi and strconv.ParseInt(s, 10, 64) enforce. */
  const Int64Min: int := -0x8000_0000_0000_0000
  const Int64Max: int := 0x7fff_ffff_ffff_ffff

  predicate InInt64(v: int) {
    Int64Min <= v <= Int64Max
  }

  /**
   * Go's strconv.Atoi / ParseInt(s, 10, 64): an optional sign followed by at
   * least one digit and nothing else, within the int64 range; anything else
   * is an error (a syntax error, or ErrRange past the range).
   */
  function GoParseInt(s: string): (r: Option<int>)
    ensures r.Some? ==> |s| > 0 && InInt64(r.value)
    ensures !AllDigits(SignOf(s).1) ==> r.None?
    ensures AllDigits(s) && DigitsValue(s) <= Int64Max ==> r == Some(DigitsValue(s))
    ensures AllDigits(s) && DigitsValue(s) > Int64Max ==> r.None?
  {
    var (neg, body) := SignOf(s);
    DigitsPassThrough(s);
    if AllDigits(body) && InInt64(Signed(neg, DigitsValue(body))) then Some(Signed(neg, DigitsValue(body))) else None
  }

  /** A printed number past the int64 range is refused by Go, as ErrRange. */
  lemma GoRefusesPastInt64(n: nat)
    requires n > Int64Max
    ensures GoParseInt(NatToString(n)).None?
  {
    DigitsValueOfNatToString(n);
  }

  lemma SuffixOfSuffix(s: string, t: string, u: string)
    requires |t| <= |s| && t == s[|s| - |t|..]
    requires |u| <= |t| && u == t[|t| - |u|..]
    ensures u == s[|s| - |u|..]
  {
  }

  /** A string of digits has nothing to trim, no sign and only leading digits. */
  lemma DigitsPassThrough(s: string)
    ensures AllDigits(s) ==> TrimLeft(s) == s && SignOf(s) == (false, s) && LeadingDigits(s) == s
  {
    if AllDigits(s) {
      assert !IsSpace(s[0]) && s[0] != '-' && s[0] != '+';
      assert |LeadingDigits(s)| == |s|;
    }
  }

  /**
   * Leading white space skipped, an optional sign, and the longest run of
   * decimal digits after it; None when there is no digit. This is how
   * JavaScript's parseInt reads a string without a `0x` prefix.
   */
  function DecimalPrefix(s: string): (r: Option<int>)
    ensures AllDigits(s) ==> r == Some(DigitsValue(s))
    ensures r.Some? ==> exists i :: 0 <= i < |s| && IsDigit(s[i])
  {
    var t := TrimLeft(s);
    var (neg, body) := SignOf(t);
    var d := LeadingDigits(body);
    DigitsPassThrough(s);
    if d == [] then None
    else
      SuffixOfSuffix(s, t, body);
      assert IsDigit(s[|s| - |body|]) by { assert d[0] == body[0]; }
      Some(Signed(neg, DigitsValue(d)))
  }

  predicate IsHexDigit(c: char) {
    IsDigit(c) || 'a' <= c <= 'f' || 'A' <= c <= 'F'
  }

  function HexValue(c: char): (d: nat)
    requires IsHexDigit(c)
    ensures d < 16
    ensures IsDigit(c) ==> d == DigitValue(c)
  {
    if IsDigit(c) then DigitValue(c)
    else if 'a' <= c <= 'f' then c as int - 'a' as int + 10
    else c as int - 'A' as int + 10
  }

  /** The value of a string of hexadecimal digits. */
  function HexDigitsValue(s: string): nat
    requires forall i :: 0 <= i < |s| ==> IsHexDigit(s[i])
  {
    if s == [] then 0 else 16 * HexDigitsValue(s[..|s| - 1]) + HexValue(s[|s| - 1])
  }

  /** The longest prefix of `s` made of hexadecimal digits. */
  function LeadingHexDigits(s: string): (p: string)
    ensures |p| <= |s| && p == s[..|p|]
    ensures forall i :: 0 <= i < |p| ==> IsHexDigit(p[i])
    ensures |p| < |s| ==> !IsHexDigit(s[|p|])
  {
    if s != [] && IsHexDigit(s[0]) then
      var rest := LeadingHexDigits(s[1..]);
      [s[0]] + rest
    else []
  }

  /** "0x" or "0X": the prefix that makes parseInt read hexadecimal. */
  predicate HexPrefixed(s: string) {
    |s| >= 2 && s[0] == '0' && (s[1] == 'x' || s[1] == 'X')
  }

  /**
   * JavaScript's parseInt(s) without a radix: leading white space skipped,
   * an optional sign, then the longest run of hexadecimal digits after a
   * "0x" or "0X", or else of decimal digits; NaN (None) when there is no
   * digit to read.
   */
  function JsParseInt(s: string): (r: Option<int>)
    ensures AllDigits(s) ==> r == Some(DigitsValue(s))
    ensures !HexPrefixed(SignOf(TrimLeft(s)).1) ==> r == DecimalPrefix(s)
    ensures r.Some? ==> exists i :: 0 <= i < |s| && IsDigit(s[i])
  {
    var t := TrimLeft(s);
    var (neg, body) := SignOf(t);
    DigitsPassThrough(s);
    if HexPrefixed(body) then
      var d := LeadingHexDigits(body[2..]);
      if d == [] then None
      else
        SuffixOfSuffix(s, t, body);
        assert IsDigit(s[|s| - |body|]);
        Some(Signed(neg, HexDigitsValue(d)))
    else DecimalPrefix(s)
  }

  /** A string starting with a digit has nothing to trim in front and no sign. */
  lemma StartsWithDigit(s: string)
    requires s != [] && IsDigit(s[0])
    ensures SignOf(TrimLeft(s)) == (false, s)
  {
    assert TrimLeft(s) == s by { assert !IsSpace(s[0]); }
  }

  /** A string starting and ending with a digit has nothing to trim. */
  lemma BetweenDigits(s: string)
    requires s != [] && IsDigit(s[0]) && IsDigit(s[|s| - 1])
    ensures Trim(s) == s && SignOf(Trim(s)) == (false, s) && SignOf(TrimLeft(s)) == (false, s)
  {
    StartsWithDigit(s);
    assert TrimRight(s) == s by { assert !IsSpace(s[|s| - 1]); }
  }

  lemma HexDigitsLeading(h: string)
    requires forall i :: 0 <= i < |h| ==> IsHexDigit(h[i])
    ensures LeadingHexDigits(h) == h
  {
  }

  lemma OneDigit(a: char)
    requires IsDigit(a)
    ensures DigitsValue([a]) == DigitValue(a) && HexDigitsValue([a]) == DigitValue(a)
  {
    assert [a][..0] == [];
  }

  /** A digit followed by a non-digit reads as that digit. */
  lemma DigitThenOther(s: string)
    requires |s| >= 2 && IsDigit(s[0]) && !IsDigit(s[1])
    ensures DecimalPrefix(s) == Some(DigitValue(s[0]))
  {
    StartsWithDigit(s);
    assert LeadingDigits(s) == [s[0]] by {
      assert LeadingDigits(s[1..]) == [] by { assert !IsDigit(s[1..][0]); }
    }
    OneDigit(s[0]);
  }

  /** parseInt reads "0x" followed by hexadecimal digits as a hexadecimal number. */
  lemma JsParseIntHex(h: string)
    requires h != [] && forall i :: 0 <= i < |h| ==> IsHexDigit(h[i])
    ensures JsParseInt("0x" + h) == Some(HexDigitsValue(h))
  {
    var s := "0x" + h;
    assert SignOf(TrimLeft(s)) == (false, s) && HexPrefixed(s) by { StartsWithDigit(s); }
    assert LeadingHexDigits(s[2..]) == h by {
      assert s[2..] == h;
      HexDigitsLeading(h);
    }
  }

  /**
   * "0" "x" and a decimal digit: parseInt reads the digit in hexadecimal,
   * where MySQL stops at the "x" and reads 0.
   */
  lemma JsParseIntHexDigit(d: char)
    requires IsDigit(d)
    ensures JsParseInt("0x" + [d]) == Some(DigitValue(d))
    ensures DecimalPrefix("0x" + [d]) == Some(0)
  {
    JsParseIntHex([d]);
    OneDigit(d);
    DigitThenOther("0x" + [d]);
  }

  /**
   * Digits with single underscores between them, as Ruby's String#to_i and
   * Python's int() read them: the digits of the longest such prefix of `s`,
   * and how many characters that prefix has.
   */
  function DigitRun(s: string): (r: (string, nat))
    ensures r.1 <= |s| && |r.0| <= r.1
    ensures forall i :: 0 <= i < |r.0| ==> IsDigit(r.0[i])
    ensures r.1 == 0 <==> r.0 == []
    ensures r.0 == [] <==> s == [] || !IsDigit(s[0])
    ensures r.1 < |s| && r.1 > 0 ==> !IsDigit(s[r.1]) && !(s[r.1] == '_' && r.1 + 1 < |s| && IsDigit(s[r.1 + 1]))
    decreases |s|
  {
    if s == [] || !IsDigit(s[0]) then ([], 0)
    else if |s| >= 3 && s[1] == '_' && IsDigit(s[2]) then
      var rest := DigitRun(s[2..]);
      ([s[0]] + rest.0, rest.1 + 2)
    else
      var rest := DigitRun(s[1..]);
      ([s[0]] + rest.0, rest.1 + 1)
  }

  /** A plain run of digits is read whole. */
  lemma {:induction false} DigitRunOfDigits(s: string)
    ensures AllDigits(s) ==> DigitRun(s) == (s, |s|)
    decreases |s|
  {
    if AllDigits(s) {
      if |s| > 1 {
        assert AllDigits(s[1..]) by { assert forall i :: 0 <= i < |s| - 1 ==> s[1..][i] == s[i + 1]; }
        DigitRunOfDigits(s[1..]);
        assert !(s[1] == '_');
        assert [s[0]] + s[1..] == s;
      } else {
        assert s[1..] == [];
        assert DigitRun(s[1..]) == ([], 0);
        assert DigitRun(s) == ([s[0]] + [], 0 + 1);
        assert [s[0]] + [] == s;
      }
    }
  }

  /**
   * Ruby's String#to_i: leading white space skipped, an optional sign, then
   * digits with single underscores between them; 0 when there is no digit.
   */
  function RubyToI(s: string): (v: int)
    ensures AllDigits(s) ==> v == DigitsValue(s)
    ensures DigitRun(SignOf(TrimLeft(s)).1).0 == [] ==> v == 0
  {
    var (neg, body) := SignOf(TrimLeft(s));
    var run := DigitRun(body);
    DigitsPassThrough(s);
    DigitRunOfDigits(s);
    if run.0 == [] then 0 else Signed(neg, DigitsValue(run.0))
  }

  /**
   * Python's int(s): surrounding white space, an optional sign and at least
   * one digit, with single underscores allowed between digits; anything
   * else raises ValueError (None).
   */
  function PyInt(s: string): (r: Option<int>)
    ensures AllDigits(s) ==> r == Some(DigitsValue(s))
    ensures r.Some? ==> DigitRun(SignOf(Trim(s)).1).1 == |SignOf(Trim(s)).1| > 0
  {
    var (neg, body) := SignOf(Trim(s));
    var run := DigitRun(body);
    DigitsPassThrough(s);
    DigitsUntrimmed(s);
    DigitRunOfDigits(s);
    if body != [] && run.1 == |body| then Some(Signed(neg, DigitsValue(run.0))) else None
  }

  lemma DigitRunUnderscored(a: char, b: char)
    requires IsDigit(a) && IsDigit(b)
    ensures DigitRun([a, '_', b]) == ([a, b], 3)
  {
    var s := [a, '_', b];
    assert s[2..] == [b];
    DigitRunOfDigits([b]);
    assert DigitRun(s) == ([a] + DigitRun([b]).0, DigitRun([b]).1 + 2);
    assert [a] + [b] == [a, b];
  }

  /** A digit followed by neither a digit nor an underscore and a digit is a run of one. */
  lemma DigitRunStops(s: string)
    requires |s| >= 2 && IsDigit(s[0]) && !IsDigit(s[1])
    requires !(|s| >= 3 && s[1] == '_' && IsDigit(s[2]))
    ensures DigitRun(s) == ([s[0]], 1)
  {
    assert DigitRun(s[1..]) == ([], 0) by { assert !IsDigit(s[1..][0]); }
    assert [s[0]] + [] == [s[0]];
  }

  lemma TwoDigits(a: char, b: char)
    requires IsDigit(a) && IsDigit(b)
    ensures DigitsValue([a, b]) == 10 * DigitValue(a) + DigitValue(b)
  {
    OneDigit(a);
    assert [a, b][..1] == [a];
  }

  /**
   * Two digits with an underscore between them: Ruby's to_i and Python's
   * int() read them as one number, where JavaScript's parseInt stops at the
   * underscore.
   */
  lemma UnderscoreBetweenDigits(a: char, b: char)
    requires IsDigit(a) && IsDigit(b)
    ensures RubyToI([a, '_', b]) == 10 * DigitValue(a) + DigitValue(b)
    ensures PyInt([a, '_', b]) == Some(10 * DigitValue(a) + DigitValue(b))
    ensures JsParseInt([a, '_', b]) == Some(DigitValue(a))
  {
    StartsWithDigit([a, '_', b]);
    BetweenDigits([a, '_', b]);
    DigitRunUnderscored(a, b);
    TwoDigits(a, b);
    DigitThenOther([a, '_', b]);
  }

  /** Two underscores in a row end the number: an error to int(), the first digit to to_i. */
  lemma DoubleUnderscoreEndsDigits(a: char, b: char)
    requires IsDigit(a) && IsDigit(b)
    ensures PyInt([a, '_', '_', b]).None?
    ensures RubyToI([a, '_', '_', b]) == DigitValue(a)
  {
    BetweenDigits([a, '_', '_', b]);
    DigitRunStops([a, '_', '_', b]);
    OneDigit(a);
  }

  /** Ruby's `s =~ /\A\d+\Z/`: digits, optionally followed by one final newline. */
  predicate RubyAllDigits(s: string) {
    AllDigits(s) || (|s| >= 2 && s[|s| - 1] == '\n' && AllDigits(s[..|s| - 1]))
  }

  /** Printing a page number and reading it back with any of these parsers gives it back. */
  lemma {:induction false} ParsersReadPrintedNumbers(n: nat)
    ensures n <= Int64Max ==> GoParseInt(NatToString(n)) == Some(n)
    ensures JsParseInt(NatToString(n)) == Some(n)
    ensures RubyToI(NatToString(n)) == n && PyInt(NatToString(n)) == Some(n)
    ensures RubyAllDigits(NatToString(n))
  {
    var s := NatToString(n);
    DigitsValueOfNatToString(n);
    assert SignOf(s) == (false, s);
    DigitsPassThrough(s);
  }

  // ---------------------------------------------------------------------------
  // Random strings
  // ---------------------------------------------------------------------------

  /** Go's and Python's alphabet: lower-case letters, upper-case letters, digits. */
  const LettersDigits: string := "abcdefghijklmnopqrstuvwxyzABCDEFGHIJKLMNOPQRSTUVWXYZ0123456789"

  /** The Node and PHP seed: digits first, then the letters. */
  const DigitsLetters: string := "1234567890abcdefghijklmnopqrstuvwxyzABCDEFGHIJKLMNOPQRSTUVWXYZ"

  /** Every draw picks a character of the alphabet. */
  predicate ValidDraws(alphabet: string, draws: seq<nat>) {
    forall i :: 0 <= i < |draws| ==> draws[i] < |alphabet|
  }

  /** The string of `n` characters chosen by the random draws. */
  function Drawn(alphabet: string, n: nat, draws: seq<nat>): (s: string)
    requires |draws| >= n && ValidDraws(alphabet, draws)
    ensures |s| == n
    ensures forall i :: 0 <= i < n ==> s[i] in alphabet
  {
    seq(n, i requires 0 <= i < n => alphabet[draws[i]])
  }

  // ---------------------------------------------------------------------------
  // File names
  // ---------------------------------------------------------------------------

  predicate AllDots(s: string) {
    forall i :: 0 <= i < |s| ==> s[i] == '.'
  }

  /**
   * The extension of a bare file name as Python's os.path.splitext and Ruby's
   * File.extname find it: from the last '.', unless only dots precede it.
   */
  function SplitExt(name: string): (ext: string)
    ensures ext != "" ==> ext[0] == '.' && '.' !in ext[1..] && HasSuffix(name, ext)
    ensures '.' !in name ==> ext == ""
  {
    match LastIndexOf(name, '.')
    case None => ""
    case Some(i) => if AllDots(name[..i]) then "" else name[i..]
  }

  /** The last '.' of a stem followed by '.' and a dot-free rest is the one after the stem. */
  lemma LastDot(stem: string, ext: string)
    requires |ext| >= 1 && ext[0] == '.' && '.' !in ext[1..]
    ensures LastIndexOf(stem + ext, '.') == Some(|stem|)
  {
    var n := stem + ext;
    var d := |stem|;
    assert n[d] == '.';
    var r := LastIndexOf(n, '.');
    assert r.Some?;
  }

  /**
   * A name whose stem is not all dots, followed by an extension, has that
   * extension; with SplitExt's own contract, the extension is exactly what
   * follows the last '.' whenever something other than dots precedes it.
   */
  lemma SplitExtOfStem(stem: string, ext: string)
    requires !AllDots(stem)
    requires |ext| >= 1 && ext[0] == '.' && '.' !in ext[1..]
    ensures SplitExt(stem + ext) == ext
  {
    var n := stem + ext;
    LastDot(stem, ext);
    assert n[..|stem|] == stem && n[|stem|..] == ext;
  }
}
