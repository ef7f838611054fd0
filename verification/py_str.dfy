/** The pieces of Python's `str` that the page-range parser relies on:
    `str.split` with a one-character separator, and the whitespace that
    `int()` ignores around a number. */
module PyStr {

  /** Python's `sep.join(parts)` for a one-character separator. */
  function Join(parts: seq<string>, sep: char): string
    requires |parts| >= 1
  {
    if |parts| == 1 then parts[0] else parts[0] + [sep] + Join(parts[1..], sep)
  }

  /** Python's `s.split(sep)` for a one-character separator: the pieces between
      separators, empty ones included, so that `"".split(",") == [""]` and
      `"1,,3".split(",") == ["1", "", "3"]`. */
  function Split(s: string, sep: char): (parts: seq<string>)
    ensures |parts| == multiset(s)[sep] + 1
    ensures forall i :: 0 <= i < |parts| ==> sep !in parts[i]
  {
    if |s| == 0 then [""]
    else
      assert s == [s[0]] + s[1..];
      var rest := Split(s[1..], sep);
      if s[0] == sep then [""] + rest
      else [[s[0]] + rest[0]] + rest[1..]
  }

  /** Joining the pieces of a split gives back the original string. */
  lemma {:induction false} JoinSplit(s: string, sep: char)
    ensures Join(Split(s, sep), sep) == s
  {
    if |s| > 0 {
      JoinSplit(s[1..], sep);
      JoinSplitStep(s, sep);
    }
  }

  /** The step of `JoinSplit`: what holds for `s[1..]` holds for `s`. */
  lemma {:induction false} JoinSplitStep(s: string, sep: char)
    requires |s| > 0 && Join(Split(s[1..], sep), sep) == s[1..]
    ensures Join(Split(s, sep), sep) == s
  {
    var rest := Split(s[1..], sep);
    assert s == [s[0]] + s[1..];
    if s[0] == sep {
      var parts := [""] + rest;
      assert Split(s, sep) == parts;
      JoinAfterEmpty(rest, sep);
    } else {
      var parts := [[s[0]] + rest[0]] + rest[1..];
      assert Split(s, sep) == parts;
      JoinExtendFirst(s[0], rest, sep);
    }
  }

  lemma {:induction false} JoinAfterEmpty(rest: seq<string>, sep: char)
    requires |rest| >= 1
    ensures Join([""] + rest, sep) == [sep] + Join(rest, sep)
  {
    var parts := [""] + rest;
    assert parts[1..] == rest;
  }

  lemma {:induction false} JoinExtendFirst(c: char, rest: seq<string>, sep: char)
    requires |rest| >= 1
    ensures Join([[c] + rest[0]] + rest[1..], sep) == [c] + Join(rest, sep)
  {
    var parts := [[c] + rest[0]] + rest[1..];
    if |rest| > 1 {
      assert parts[1..] == rest[1..];
    }
  }

  /** A string without a separator splits into itself alone. */
  lemma {:induction false} SplitNoSeparator(s: string, sep: char)
    requires sep !in s
    ensures Split(s, sep) == [s]
  {
    if |s| > 0 {
      SplitNoSeparator(s[1..], sep);
      assert [s[0]] + s[1..] == s;
    }
  }

  /** A separator-free piece followed by a separator is split off as the first piece. */
  lemma {:induction false} SplitFirstPiece(a: string, sep: char, b: string)
    requires sep !in a
    ensures Split(a + [sep] + b, sep) == [a] + Split(b, sep)
  {
    if |a| == 0 {
      assert a + [sep] + b == [sep] + b;
      assert ([sep] + b)[1..] == b;
    } else {
      SplitFirstPiece(a[1..], sep, b);
      assert (a + [sep] + b)[1..] == a[1..] + [sep] + b;
      assert [a[0]] + a[1..] == a;
    }
  }

  /** Splitting a join of separator-free pieces gives back the pieces, so the
      pieces `Split` returns are the only ones that join to its input. */
  lemma {:induction false} SplitJoin(parts: seq<string>, sep: char)
    requires |parts| >= 1
    requires forall i :: 0 <= i < |parts| ==> sep !in parts[i]
    ensures Split(Join(parts, sep), sep) == parts
  {
    if |parts| == 1 {
      SplitNoSeparator(parts[0], sep);
    } else {
      SplitJoin(parts[1..], sep);
      SplitFirstPiece(parts[0], sep, Join(parts[1..], sep));
      assert [parts[0]] + parts[1..] == parts;
    }
  }

  /** The characters Python's `int()` skips around the digits of an ASCII
      string: the C-locale white space of tab, line feed, vertical tab, form
      feed, carriage return (codes 9 to 13) and space (32). This is narrower
      than `str.isspace()`, which also counts codes 28 to 31. */
  predicate IsSpace(c: char) {
    9 <= c as int <= 13 || c as int == 32
  }

  predicate AllSpace(s: string) {
    forall i :: 0 <= i < |s| ==> IsSpace(s[i])
  }

  /** `s` without its leading whitespace. */
  function TrimLeft(s: string): (r: string)
    ensures |r| <= |s| && r == s[|s| - |r|..]
    ensures AllSpace(s[..|s| - |r|])
    ensures |r| > 0 ==> !IsSpace(r[0])
  {
    if |s| > 0 && IsSpace(s[0]) then TrimLeft(s[1..]) else s
  }

  /** `s` without its trailing whitespace. */
  function TrimRight(s: string): (r: string)
    ensures |r| <= |s| && r == s[..|r|]
    ensures AllSpace(s[|r|..])
    ensures |r| > 0 ==> !IsSpace(r[|r| - 1])
  {
    if |s| > 0 && IsSpace(s[|s| - 1]) then TrimRight(s[..|s| - 1]) else s
  }

  /** The padding `int()` skips: `s` without C-locale whitespace at either end.
      Every character of `s` is either whitespace or kept. */
  function Strip(s: string): (r: string)
    ensures |r| > 0 ==> !IsSpace(r[0]) && !IsSpace(r[|r| - 1])
    ensures forall i :: 0 <= i < |s| && !IsSpace(s[i]) ==> s[i] in r
    ensures forall c :: c in r ==> c in s
  {
    StripKeeps(s);
    TrimRight(TrimLeft(s))
  }

  lemma {:induction false} StripKeeps(s: string)
    ensures forall i :: 0 <= i < |s| && !IsSpace(s[i]) ==> s[i] in TrimRight(TrimLeft(s))
    ensures forall c :: c in TrimRight(TrimLeft(s)) ==> c in s
  {
    var lo, hi := StripBounds(s);
    SliceKeeps(s, lo, hi);
  }

  /** `TrimRight(TrimLeft(s))` is the slice of `s` between two whitespace-only ends. */
  lemma {:induction false} StripBounds(s: string) returns (lo: nat, hi: nat)
    ensures lo <= hi <= |s| && TrimRight(TrimLeft(s)) == s[lo..hi]
    ensures AllSpace(s[..lo]) && AllSpace(s[hi..])
  {
    lo, hi := InnerSlice(s, TrimLeft(s), TrimRight(TrimLeft(s)));
  }

  /** A prefix `r` of a suffix `t` of `s` is a slice of `s`; whitespace cut
      off around them is whitespace cut off `s`. */
  lemma {:induction false} InnerSlice(s: string, t: string, r: string) returns (lo: nat, hi: nat)
    requires |t| <= |s| && t == s[|s| - |t|..] && AllSpace(s[..|s| - |t|])
    requires |r| <= |t| && r == t[..|r|] && AllSpace(t[|r|..])
    ensures lo == |s| - |t| && hi == lo + |r|
    ensures lo <= hi <= |s| && r == s[lo..hi]
    ensures AllSpace(s[..lo]) && AllSpace(s[hi..])
  {
    lo, hi := |s| - |t|, |s| - |t| + |r|;
    assert t[|r|..] == s[hi..];
  }

  /** Cutting whitespace-only ends off `s` keeps every other character. */
  lemma {:induction false} SliceKeeps(s: string, lo: nat, hi: nat)
    requires lo <= hi <= |s|
    requires AllSpace(s[..lo]) && AllSpace(s[hi..])
    ensures forall i :: 0 <= i < |s| && !IsSpace(s[i]) ==> s[i] in s[lo..hi]
    ensures forall c :: c in s[lo..hi] ==> c in s
  {
    forall i | 0 <= i < |s| && !IsSpace(s[i]) ensures s[i] in s[lo..hi] {
      assert s[lo..hi][i - lo] == s[i];
    }
  }

  /** Whitespace added at either end of a string that neither starts nor ends
      with whitespace is exactly what `Strip` removes. */
  lemma {:induction false} StripPadded(lead: string, t: string, trail: string)
    requires AllSpace(lead) && AllSpace(trail)
    requires |t| > 0 ==> !IsSpace(t[0]) && !IsSpace(t[|t| - 1])
    ensures Strip(lead + t + trail) == t
  {
    assert lead + t + trail == lead + (t + trail);
    if |t| == 0 {
      assert t + trail == trail;
      TrimLeftAllSpace(lead + trail);
      TrimRightPadded(t, t);
    } else {
      TrimLeftPadded(lead, t + trail);
      TrimRightPadded(t, trail);
    }
  }

  lemma {:induction false} TrimLeftAllSpace(s: string)
    requires AllSpace(s)
    ensures TrimLeft(s) == []
  {
    if |s| > 0 {
      TrimLeftAllSpace(s[1..]);
    }
  }

  lemma {:induction false} TrimLeftPadded(lead: string, u: string)
    requires AllSpace(lead)
    requires |u| > 0 ==> !IsSpace(u[0])
    ensures TrimLeft(lead + u) == u
  {
    if |lead| > 0 {
      TrimLeftPadded(lead[1..], u);
      assert (lead + u)[1..] == lead[1..] + u;
    }
  }

  lemma {:induction false} TrimRightPadded(u: string, trail: string)
    requires AllSpace(trail)
    requires |u| > 0 ==> !IsSpace(u[|u| - 1])
    ensures TrimRight(u + trail) == u
  {
    if |trail| > 0 {
      TrimRightPadded(u, trail[..|trail| - 1]);
      assert (u + trail)[..|u + trail| - 1] == u + trail[..|trail| - 1];
    } else {
      assert u + trail == u;
    }
  }
}
