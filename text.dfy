/**
 * The Python string primitives the pipeline relies on: `str.strip()`,
 * `str.lower()` (ASCII part), slicing `s[:n]`, `str.replace` and the decimal
 * rendering of an integer inside an f-string.
 */
module Text {

  /** Python's `str.isspace()`: the characters `str.strip()` removes. */
  predicate IsSpace(c: char)
  {
    || ('\t' <= c <= '\r')
    || ('\U{1C}' <= c <= '\U{1F}')
    || c == ' '
    || c == '\U{85}'
    || c == '\U{A0}'
    || c == '\U{1680}'
    || ('\U{2000}' <= c <= '\U{200A}')
    || c == '\U{2028}'
    || c == '\U{2029}'
    || c == '\U{202F}'
    || c == '\U{205F}'
    || c == '\U{3000}'
  }

  predicate AllSpace(s: string)
  {
    forall k :: 0 <= k < |s| ==> IsSpace(s[k])
  }

  /** `s.lstrip()`: drops the leading whitespace, keeping a suffix of `s`. */
  function TrimStart(s: string): (r: string)
    ensures |r| <= |s| && r == s[|s| - |r|..]
    ensures AllSpace(s[..|s| - |r|])
    ensures r != [] ==> !IsSpace(r[0])
  {
    if s != [] && IsSpace(s[0]) then TrimStart(s[1..]) else s
  }

  /** `s.rstrip()`: drops the trailing whitespace, keeping a prefix of `s`. */
  function TrimEnd(s: string): (r: string)
    ensures |r| <= |s| && r == s[..|r|]
    ensures AllSpace(s[|r|..])
    ensures r != [] ==> !IsSpace(r[|r| - 1])
  {
    if s != [] && IsSpace(s[|s| - 1]) then
      var r := TrimEnd(s[..|s| - 1]);
      assert s[|r|..] == s[..|s| - 1][|r|..] + [s[|s| - 1]];
      r
    else s
  }

  /**
   * `s.strip()`: the slice of `s` left once the whitespace at both ends is
   * removed; everything cut off is whitespace and the result neither starts
   * nor ends with whitespace.
   */
  function Strip(s: string): (r: string)
    ensures StripOffset(s) + |r| <= |s|
    ensures r == s[StripOffset(s)..StripOffset(s) + |r|]
    ensures AllSpace(s[..StripOffset(s)]) && AllSpace(s[StripOffset(s) + |r|..])
    ensures r != [] ==> !IsSpace(r[0]) && !IsSpace(r[|r| - 1])
  {
    var t := TrimStart(s);
    var r := TrimEnd(t);
    var o := StripOffset(s);
    assert o == |s| - |t|;
    TrimBoth(s, o, t, r);
    r
  }

  /** Cutting whitespace off the front of `s` and then off the back of the rest. */
  lemma TrimBoth(s: string, o: nat, t: string, r: string)
    requires o <= |s| && t == s[o..] && AllSpace(s[..o])
    requires t != [] ==> !IsSpace(t[0])
    requires |r| <= |t| && r == t[..|r|] && AllSpace(t[|r|..])
    ensures o + |r| <= |s| && r == s[o..o + |r|]
    ensures AllSpace(s[o + |r|..])
    ensures r != [] ==> !IsSpace(r[0])
  {
    assert s[o + |r|..] == t[|r|..];
    if r != [] {
      assert r[0] == t[0];
    }
  }

  /** Where the stripped text starts inside the original one. */
  function StripOffset(s: string): nat
  {
    |s| - |TrimStart(s)|
  }

  /** A stripped text is empty exactly when the text is whitespace only. */
  lemma StripEmptyIff(s: string)
    ensures Strip(s) == [] <==> AllSpace(s)
  {
    var i := StripOffset(s);
    if Strip(s) == [] {
      assert s == s[..i] + s[i..];
    } else {
      var r := Strip(s);
      assert s[i] == r[0];
    }
  }

  function LowerChar(c: char): char
  {
    if 'A' <= c <= 'Z' then (c as int + 32) as char else c
  }

  /** `s.lower()` restricted to the ASCII letters. */
  function Lower(s: string): string
  {
    seq(|s|, k requires 0 <= k < |s| => LowerChar(s[k]))
  }

  /**
   * A text lowers to "yes" exactly when it is "yes" in any mix of upper and
   * lower case.
   */
  lemma LowerIsYesIff(s: string)
    ensures Lower(s) == "yes" <==>
      |s| == 3 && s[0] in "yY" && s[1] in "eE" && s[2] in "sS"
  {
    if |s| == 3 {
      LowerCharIs(s[0], 'y');
      LowerCharIs(s[1], 'e');
      LowerCharIs(s[2], 's');
      assert Lower(s) == [LowerChar(s[0]), LowerChar(s[1]), LowerChar(s[2])];
    }
  }

  lemma LowerCharIs(c: char, l: char)
    requires 'a' <= l <= 'z'
    ensures LowerChar(c) == l <==> c == l || c as int == l as int - 32
  {
  }

  /** Python's slice `s[:n]`: the first `n` characters, or all of `s` when shorter. */
  function Prefix(s: string, n: nat): (r: string)
    ensures r <= s
    ensures |s| <= n ==> r == s
    ensures n < |s| ==> |r| == n
  {
    if |s| <= n then s else s[..n]
  }

  /** `pat` occurs somewhere in `s`. */
  ghost predicate Contains(s: string, pat: string)
  {
    exists i :: OccursAt(s, pat, i)
  }

  /** `pat` occurs in `s` starting at index `i`. */
  predicate OccursAt(s: string, pat: string, i: int)
  {
    0 <= i && i + |pat| <= |s| && s[i..i + |pat|] == pat
  }

  /**
   * `s.replace(pat, rep)`: scanning left to right, every occurrence of `pat`
   * that does not overlap an earlier replaced one becomes `rep`.
   */
  function ReplaceAll(s: string, pat: string, rep: string): string
    requires pat != []
    decreases |s|
  {
    if |s| < |pat| then s
    else if s[..|pat|] == pat then rep + ReplaceAll(s[|pat|..], pat, rep)
    else [s[0]] + ReplaceAll(s[1..], pat, rep)
  }

  /** The number of occurrences `ReplaceAll` rewrites. */
  function Occurrences(s: string, pat: string): nat
    requires pat != []
    decreases |s|
  {
    if |s| < |pat| then 0
    else if s[..|pat|] == pat then 1 + Occurrences(s[|pat|..], pat)
    else Occurrences(s[1..], pat)
  }

  /** A text without the pattern comes back unchanged. */
  lemma {:induction false} ReplaceAbsent(s: string, pat: string, rep: string)
    requires pat != []
    requires !Contains(s, pat)
    ensures ReplaceAll(s, pat, rep) == s
    decreases |s|
  {
    if |s| >= |pat| {
      assert !OccursAt(s, pat, 0);
      forall i | OccursAt(s[1..], pat, i) ensures OccursAt(s, pat, i + 1) {
        assert s[1..][i..i + |pat|] == s[i + 1..i + 1 + |pat|];
      }
      ReplaceAbsent(s[1..], pat, rep);
    }
  }

  /** No occurrence is rewritten exactly when the pattern does not occur. */
  lemma {:induction false} OccurrencesZeroIff(s: string, pat: string)
    requires pat != []
    ensures Occurrences(s, pat) == 0 <==> !Contains(s, pat)
    decreases |s|
  {
    if |s| < |pat| {
      forall i | 0 <= i ensures !OccursAt(s, pat, i) { }
    } else if s[..|pat|] == pat {
      assert OccursAt(s, pat, 0);
    } else {
      OccurrencesZeroIff(s[1..], pat);
      ContainsTail(s, pat);
    }
  }

  /** Without an occurrence at the front, the pattern occurs in `s` exactly when it occurs past the first character. */
  lemma ContainsTail(s: string, pat: string)
    requires s != [] && !OccursAt(s, pat, 0)
    ensures Contains(s, pat) <==> Contains(s[1..], pat)
  {
    if Contains(s, pat) {
      var i :| OccursAt(s, pat, i);
      assert s[1..][i - 1..i - 1 + |pat|] == s[i..i + |pat|];
      assert OccursAt(s[1..], pat, i - 1);
    }
    if Contains(s[1..], pat) {
      var i :| OccursAt(s[1..], pat, i);
      assert s[1..][i..i + |pat|] == s[i + 1..i + 1 + |pat|];
      assert OccursAt(s, pat, i + 1);
    }
  }

  /**
   * The first occurrence is rewritten in place: when `pat` first occurs in
   * `a + pat + b` at the end of `a` (no occurrence starts earlier), the
   * result is `a` unchanged, then `rep`, then the rewritten rest.
   */
  lemma {:induction false} ReplaceFirst(a: string, pat: string, rep: string, b: string)
    requires pat != []
    requires !Contains(a + pat[..|pat| - 1], pat)
    ensures ReplaceAll(a + pat + b, pat, rep) == a + rep + ReplaceAll(b, pat, rep)
    decreases |a|
  {
    var s := a + pat + b;
    if a == [] {
      assert s[..|pat|] == pat && s[|pat|..] == b;
    } else {
      NoOccurrenceInRest(a, pat, b);
      assert s[0] == a[0] && s[1..] == a[1..] + pat + b;
      ReplaceFirst(a[1..], pat, rep, b);
      var rb := ReplaceAll(b, pat, rep);
      assert a + rep + rb == [a[0]] + (a[1..] + rep + rb);
    }
  }

  /** Past a first character where no occurrence starts, none starts before `pat` either. */
  lemma NoOccurrenceInRest(a: string, pat: string, b: string)
    requires pat != [] && a != []
    requires !Contains(a + pat[..|pat| - 1], pat)
    ensures (a + pat + b)[..|pat|] != pat
    ensures !Contains(a[1..] + pat[..|pat| - 1], pat)
  {
    var c := a + pat[..|pat| - 1];
    assert c[..|pat|] == (a + pat + b)[..|pat|];
    assert !OccursAt(c, pat, 0);
    ContainsTail(c, pat);
    assert c[1..] == a[1..] + pat[..|pat| - 1];
  }

  /**
   * A text holding the pattern (at `i`, say) splits at its first
   * occurrence: before it, no occurrence starts.
   */
  lemma {:induction false} FirstOccurrence(s: string, pat: string, i: nat) returns (a: string, b: string)
    requires pat != [] && OccursAt(s, pat, i)
    ensures s == a + pat + b && !Contains(a + pat[..|pat| - 1], pat)
    decreases i
  {
    if s[..|pat|] == pat {
      a, b := [], s[|pat|..];
      ShorterThanPattern(a + pat[..|pat| - 1], pat);
    } else {
      assert i > 0;
      assert s[1..][i - 1..i - 1 + |pat|] == s[i..i + |pat|];
      var a', b' := FirstOccurrence(s[1..], pat, i - 1);
      NoEarlierOccurrence(s[0], a', pat, b');
      a, b := [s[0]] + a', b';
      assert s == [s[0]] + s[1..];
    }
  }

  /** A text shorter than the pattern does not contain it. */
  lemma ShorterThanPattern(s: string, pat: string)
    requires |s| < |pat|
    ensures !Contains(s, pat)
  {
  }

  /** One more character in front creates no occurrence before the first one, unless the pattern starts there. */
  lemma NoEarlierOccurrence(x: char, a: string, pat: string, b: string)
    requires pat != [] && !Contains(a + pat[..|pat| - 1], pat)
    requires !OccursAt([x] + a + pat + b, pat, 0)
    ensures !Contains([x] + a + pat[..|pat| - 1], pat)
  {
    var short := pat[..|pat| - 1];
    var tail := a + short;
    var c := [x] + tail;
    assert c == [x] + a + short;
    assert c[..|pat|] == ([x] + a + pat + b)[..|pat|];
    ContainsTail(c, pat);
    assert c[1..] == tail;
  }

  /**
   * Counting only: each rewritten occurrence changes the length by
   * `|rep| - |pat|`. `ReplaceFirst` says where the replacements go.
   */
  lemma {:induction false} ReplaceLength(s: string, pat: string, rep: string)
    requires pat != []
    ensures |ReplaceAll(s, pat, rep)| + Occurrences(s, pat) * |pat| == |s| + Occurrences(s, pat) * |rep|
    decreases |s|
  {
    if |s| >= |pat| {
      if s[..|pat|] == pat {
        var tail := s[|pat|..];
        var k := Occurrences(tail, pat);
        ReplaceLength(tail, pat, rep);
        assert Occurrences(s, pat) == 1 + k;
        assert |ReplaceAll(s, pat, rep)| == |rep| + |ReplaceAll(tail, pat, rep)|;
        MulSucc(k, |pat|);
        MulSucc(k, |rep|);
      } else {
        ReplaceLength(s[1..], pat, rep);
        assert Occurrences(s, pat) == Occurrences(s[1..], pat);
        assert |ReplaceAll(s, pat, rep)| == 1 + |ReplaceAll(s[1..], pat, rep)|;
      }
    }
  }

  lemma MulSucc(k: nat, n: nat)
    ensures (1 + k) * n == n + k * n
  {
  }

  predicate IsDigit(c: char)
  {
    '0' <= c <= '9'
  }

  predicate AllDigits(s: string)
  {
    forall k :: 0 <= k < |s| ==> IsDigit(s[k])
  }

  function DigitChar(d: nat): (c: char)
    requires d < 10
    ensures IsDigit(c) && c as int - '0' as int == d
  {
    ('0' as int + d) as char
  }

  /** `str(n)` for a non-negative integer: its decimal digits, without leading zeros. */
  function Decimal(n: nat): (r: string)
    ensures r != [] && AllDigits(r)
    ensures |r| > 1 ==> r[0] != '0'
  {
    if n < 10 then [DigitChar(n)] else Decimal(n / 10) + [DigitChar(n % 10)]
  }

  /** The value of a string of decimal digits. */
  function DigitsValue(s: string): nat
    requires AllDigits(s)
  {
    if s == [] then 0
    else DigitsValue(s[..|s| - 1]) * 10 + (s[|s| - 1] as int - '0' as int)
  }

  /** Reading back the decimal rendering of `n` gives `n`. */
  lemma {:induction false} DecimalRoundTrip(n: nat)
    ensures DigitsValue(Decimal(n)) == n
  {
    if n >= 10 {
      DecimalRoundTrip(n / 10);
      var r := Decimal(n);
      assert r[..|r| - 1] == Decimal(n / 10);
    }
  }
}
