/** String helpers shared by the models: Python's str() of integers,
    POSIX os.path.join of two components, and splitting at a separator. */
module Text {

  /** The decimal digit character for d. */
  function DigitChar(d: nat): (c: char)
    requires d < 10
    ensures '0' <= c <= '9'
    ensures c as int - '0' as int == d
  {
    ('0' as int + d) as char
  }

  /** str(n) for a non-negative Python int: its decimal digits, most significant first. */
  function NatToString(n: nat): (s: string)
    ensures |s| >= 1
    ensures forall i :: 0 <= i < |s| ==> '0' <= s[i] <= '9'
    decreases n
  {
    if n < 10 then [DigitChar(n)] else NatToString(n / 10) + [DigitChar(n % 10)]
  }

  /** The value of a string of decimal digits (the inverse of NatToString). */
  function DigitsValue(s: string): int
  {
    if s == [] then 0 else DigitsValue(s[..|s| - 1]) * 10 + (s[|s| - 1] as int - '0' as int)
  }

  lemma {:induction false} NatToStringRoundTrip(n: nat)
    ensures DigitsValue(NatToString(n)) == n
    decreases n
  {
    if n >= 10 {
      var s := NatToString(n / 10);
      assert (s + [DigitChar(n % 10)])[..|s|] == s;
      NatToStringRoundTrip(n / 10);
    }
  }

  /** str(i) for a Python int: a minus sign before the digits of a negative number. */
  function IntToString(i: int): (s: string)
    ensures |s| >= 1
    ensures forall k :: 0 <= k < |s| ==> s[k] == '-' || '0' <= s[k] <= '9'
  {
    if i < 0 then "-" + NatToString(-i) else NatToString(i)
  }

  /** int(s) for the strings IntToString produces. */
  function ParseInt(s: string): int
  {
    if |s| > 0 && s[0] == '-' then -DigitsValue(s[1..]) else DigitsValue(s)
  }

  lemma IntToStringRoundTrip(i: int)
    ensures ParseInt(IntToString(i)) == i
  {
    if i < 0 {
      assert ("-" + NatToString(-i))[1..] == NatToString(-i);
      NatToStringRoundTrip(-i);
    } else {
      NatToStringRoundTrip(i);
    }
  }

  lemma IntToStringInjective(a: int, b: int)
    ensures IntToString(a) == IntToString(b) ==> a == b
  {
    IntToStringRoundTrip(a);
    IntToStringRoundTrip(b);
  }

  lemma NatToStringInjective(a: nat, b: nat)
    ensures NatToString(a) == NatToString(b) ==> a == b
  {
    NatToStringRoundTrip(a);
    NatToStringRoundTrip(b);
  }

  /** c does not occur in s. */
  predicate Free(s: string, c: char)
  {
    forall i :: 0 <= i < |s| ==> s[i] != c
  }

  /** The length of the longest prefix of s with no character from stops. */
  function UpTo(s: string, stops: set<char>): (k: nat)
    ensures k <= |s| && (forall i :: 0 <= i < k ==> s[i] !in stops) && (k < |s| ==> s[k] in stops)
  {
    if s == [] then 0
    else if s[0] in stops then 0
    else 1 + UpTo(s[1..], stops)
  }

  /** The first stop is the only position with no stop before it and one at it. */
  lemma {:induction false} UpToFirst(s: string, stops: set<char>, j: nat)
    requires j <= |s| && (forall i :: 0 <= i < j ==> s[i] !in stops) && (j < |s| ==> s[j] in stops)
    ensures UpTo(s, stops) == j
  {
    if j > 0 {
      UpToFirst(s[1..], stops, j - 1);
    }
  }

  /** s starts with p. */
  predicate StartsWith(s: string, p: string)
  {
    |p| <= |s| && s[..|p|] == p
  }

  /** s ends with p. */
  predicate EndsWith(s: string, p: string)
  {
    |p| <= |s| && s[|s| - |p|..] == p
  }

  /** A string joined as a + sep + b with sep absent from a splits back into a and b. */
  lemma SplitAtSeparator(a: string, b: string, c: string, d: string, sep: char)
    requires Free(a, sep) && Free(c, sep)
    requires a + ([sep] + b) == c + ([sep] + d)
    ensures a == c && b == d
  {
    var s := a + ([sep] + b);
    SepsAt(a, b, c, d, sep);
    if |a| < |c| {
      assert false;
    } else if |c| < |a| {
      assert false;
    }
    assert a == s[..|a|] == c;
    assert b == s[|a| + 1..] == d;
  }

  lemma SepsAt(a: string, b: string, c: string, d: string, sep: char)
    ensures (a + ([sep] + b))[|a|] == sep
    ensures |a| < |c| ==> (c + ([sep] + d))[|a|] == c[|a|]
    ensures |c| < |a| ==> (a + ([sep] + b))[|c|] == a[|c|]
    ensures (c + ([sep] + d))[|c|] == sep
  {
  }

  /** The tail after a common prefix is determined by the whole. */
  lemma SamePrefix(p: string, a: string, b: string)
    requires p + a == p + b
    ensures a == b
  {
    assert a == (p + a)[|p|..];
    assert b == (p + b)[|p|..];
  }

  /** os.path.join(a, b) on POSIX: an absolute b replaces a; otherwise a '/'
      is put between them unless a is empty or already ends with one. */
  function Join(a: string, b: string): (r: string)
    ensures StartsWith(b, "/") ==> r == b
    ensures !StartsWith(b, "/") ==> EndsWith(r, b) && StartsWith(r, a)
    ensures !StartsWith(b, "/") && (a == "" || EndsWith(a, "/")) ==> r == a + b
    ensures !StartsWith(b, "/") && a != "" && !EndsWith(a, "/") ==> |r| == |a| + 1 + |b| && r[|a|] == '/'
  {
    if StartsWith(b, "/") then b
    else if a == "" || EndsWith(a, "/") then a + b
    else a + "/" + b
  }
}
