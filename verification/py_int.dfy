/** Python's `int(s)` on a string, restricted to the ASCII forms the page-range
    parser can meet: surrounding whitespace, an optional sign, and a non-empty
    run of the digits `0` to `9`. */
module PyInt {
  import opened Maybe
  import PyStr

  predicate IsDigit(c: char) {
    '0' <= c <= '9'
  }

  predicate AllDigits(s: string) {
    forall i :: 0 <= i < |s| ==> IsDigit(s[i])
  }

  function DigitValue(c: char): nat
    requires IsDigit(c)
  {
    c as int - '0' as int
  }

  /** The value of a run of decimal digits, most significant first; leading
      zeros are allowed, as `int("007") == 7`. */
  function DigitsValue(s: string): nat
    requires AllDigits(s)
  {
    if |s| == 0 then 0 else DigitsValue(s[..|s| - 1]) * 10 + DigitValue(s[|s| - 1])
  }

  /** `int(s)` on an ASCII string, or `None` where Python raises `ValueError`.
      Non-ASCII forms Python accepts are rejected here, and Python's limit on
      the number of digits is not modelled. Only whitespace, digits and a sign
      can appear in an accepted string, it holds at least one digit, and a
      negative value needs a `-`. `ParseIntAccepts` and
      `ParseIntShape` give the exact language and value. */
  function ParseInt(s: string): (r: Option<int>)
    ensures r.Some? ==> exists i :: 0 <= i < |s| && IsDigit(s[i])
    ensures r.Some? ==> forall i :: 0 <= i < |s| ==>
              PyStr.IsSpace(s[i]) || IsDigit(s[i]) || s[i] == '+' || s[i] == '-'
    ensures r.Some? && r.value < 0 ==> '-' in s
  {
    var t := PyStr.Strip(s);
    var r := ParseSigned(t);
    assert r.Some? ==> exists c :: c in t && IsDigit(c);
    r
  }

  /** The number once the surrounding whitespace is gone: an optional sign and
      then digits only. */
  function ParseSigned(t: string): (r: Option<int>)
    ensures r.Some? ==> exists c :: c in t && IsDigit(c)
    ensures r.Some? ==> forall c :: c in t ==> IsDigit(c) || c == '+' || c == '-'
    ensures r.Some? && r.value < 0 ==> '-' in t
  {
    if |t| == 0 then None
    else
      var signed := t[0] == '+' || t[0] == '-';
      var digits := if signed then t[1..] else t;
      if |digits| == 0 || !AllDigits(digits) then None
      else
        assert digits[0] in t;
        assert t == [t[0]] + t[1..];
        var magnitude: int := DigitsValue(digits);
        Some(if t[0] == '-' then -magnitude else magnitude)
  }

  /** The decimal rendering of a natural number, as Python's `str(n)`: digits
      only, never empty, and without a leading zero unless it is `"0"`. */
  function FormatNat(n: nat): (r: string)
    ensures |r| > 0 && AllDigits(r)
    ensures |r| > 1 ==> r[0] != '0'
  {
    var last := ['0' + (n % 10) as char];
    if n < 10 then last else FormatNat(n / 10) + last
  }

  /** The decimal rendering of any integer, with `-` for a negative one. */
  function FormatInt(n: int): (r: string)
    ensures |r| > 0 && !PyStr.IsSpace(r[0]) && !PyStr.IsSpace(r[|r| - 1])
  {
    if n < 0 then ['-'] + FormatNat(-n) else FormatNat(n)
  }

  /** Reading back the digits of `FormatNat(n)` gives `n`. */
  lemma {:induction false} DigitsValueFormatNat(n: nat)
    ensures DigitsValue(FormatNat(n)) == n
  {
    var s := FormatNat(n);
    if n >= 10 {
      DigitsValueFormatNat(n / 10);
      assert s[..|s| - 1] == FormatNat(n / 10);
    }
  }

  /** `int()` inverts `str()` on every integer, whatever whitespace surrounds it. */
  lemma {:induction false} ParseFormatInt(lead: string, n: int, trail: string)
    requires PyStr.AllSpace(lead) && PyStr.AllSpace(trail)
    ensures ParseInt(lead + FormatInt(n) + trail) == Some(n)
  {
    PyStr.StripPadded(lead, FormatInt(n), trail);
    SignedFormatInt(n);
  }

  lemma {:induction false} SignedFormatInt(n: int)
    ensures ParseSigned(FormatInt(n)) == Some(n)
  {
    var t := FormatInt(n);
    if n < 0 {
      DigitsValueFormatNat(-n);
      assert t[1..] == FormatNat(-n);
      assert t[0] == '-';
    } else {
      DigitsValueFormatNat(n);
      assert t == FormatNat(n);
      assert t[0] != '+' && t[0] != '-';
    }
  }

  /** An explicit `+` in front of the digits is accepted and changes nothing. */
  lemma {:induction false} ParsePlusFormatNat(lead: string, n: nat, trail: string)
    requires PyStr.AllSpace(lead) && PyStr.AllSpace(trail)
    ensures ParseInt(lead + ['+'] + FormatNat(n) + trail) == Some(n)
  {
    var t := ['+'] + FormatNat(n);
    assert lead + ['+'] + FormatNat(n) + trail == lead + t + trail;
    PyStr.StripPadded(lead, t, trail);
    SignedPlusFormatNat(n);
  }

  lemma {:induction false} SignedPlusFormatNat(n: nat)
    ensures ParseSigned(['+'] + FormatNat(n)) == Some(n)
  {
    var t := ['+'] + FormatNat(n);
    DigitsValueFormatNat(n);
    assert t[0] == '+';
    assert t[1..] == FormatNat(n);
  }

  /** The bare digits of `str(n)` read back as `n`. */
  lemma {:induction false} ParseFormatNat(n: nat)
    ensures ParseInt(FormatNat(n)) == Some(n)
  {
    ParseFormatInt([], n, []);
    assert [] + FormatInt(n) + [] == FormatNat(n);
  }

  /** The value a sign and a run of digits stand for. */
  function SignedValue(sign: string, d: string): int
    requires AllDigits(d)
  {
    var magnitude: int := DigitsValue(d);
    if sign == "-" then -magnitude else magnitude
  }

  /** Whitespace, an optional sign, a non-empty run of digits and whitespace
      is always accepted, with the value the digits spell under that sign;
      leading zeros and a `+` change nothing, as `int(" +007 ") == 7`. */
  lemma {:induction false} ParseIntAccepts(lead: string, sign: string, d: string, trail: string)
    requires PyStr.AllSpace(lead) && PyStr.AllSpace(trail)
    requires sign == "" || sign == "+" || sign == "-"
    requires |d| > 0 && AllDigits(d)
    ensures ParseInt(lead + sign + d + trail) == Some(SignedValue(sign, d))
  {
    var t := sign + d;
    assert lead + sign + d + trail == lead + t + trail;
    assert t[|t| - 1] == d[|d| - 1];
    PyStr.StripPadded(lead, t, trail);
    SignedAccepts(sign, d);
  }

  lemma {:induction false} SignedAccepts(sign: string, d: string)
    requires sign == "" || sign == "+" || sign == "-"
    requires |d| > 0 && AllDigits(d)
    ensures ParseSigned(sign + d) == Some(SignedValue(sign, d))
  {
    var t := sign + d;
    if |sign| == 1 {
      assert t[0] == sign[0] && t[1..] == d;
    } else {
      assert t == d && IsDigit(d[0]);
    }
  }

  /** Every string `int()` accepts has that form, and its value is the one the
      form gives: nothing else, such as `"1 2"`, `"3+"` or `"+-1"`, is read. */
  lemma {:induction false} ParseIntShape(s: string) returns (lead: string, sign: string, d: string, trail: string)
    requires ParseInt(s).Some?
    ensures s == lead + sign + d + trail
    ensures PyStr.AllSpace(lead) && PyStr.AllSpace(trail)
    ensures sign == "" || sign == "+" || sign == "-"
    ensures |d| > 0 && AllDigits(d)
    ensures ParseInt(s) == Some(SignedValue(sign, d))
  {
    var lo, hi := PyStr.StripBounds(s);
    var t := s[lo..hi];
    assert ParseInt(s) == ParseSigned(t);
    lead, trail := s[..lo], s[hi..];
    sign, d := SignedShape(t);
    SliceAround(s, lo, hi);
    Regroup(lead, sign, d, trail);
  }

  lemma {:induction false} SliceAround(s: string, lo: nat, hi: nat)
    requires lo <= hi <= |s|
    ensures s == s[..lo] + s[lo..hi] + s[hi..]
  {
  }

  lemma {:induction false} Regroup(a: string, b: string, c: string, e: string)
    ensures a + (b + c) + e == a + b + c + e
  {
  }

  lemma {:induction false} SignedShape(t: string) returns (sign: string, d: string)
    requires ParseSigned(t).Some?
    ensures t == sign + d
    ensures sign == "" || sign == "+" || sign == "-"
    ensures |d| > 0 && AllDigits(d)
    ensures ParseSigned(t) == Some(SignedValue(sign, d))
  {
    sign := if t[0] == '+' || t[0] == '-' then [t[0]] else [];
    d := t[|sign|..];
    assert t == sign + d;
  }

  /** A run of digits holds no other character. */
  lemma DigitsExclude(s: string, c: char)
    requires AllDigits(s) && !IsDigit(c)
    ensures c !in s && multiset(s)[c] == 0
  {
  }
}
