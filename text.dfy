/**
 * The .NET string operations the client relies on: integer formatting in string
 * interpolation, `String.Replace`, `StartsWith`, `ToLowerInvariant` on ASCII text.
 */
module Text {

  function DigitChar(d: nat): char
    requires d < 10
  {
    "0123456789"[d]
  }

  function DigitValue(c: char): nat
  {
    if '0' <= c <= '9' then (c as int - '0' as int) else 0
  }

  /** Decimal digits of a natural number, most significant first, no leading zeros. */
  function NatToString(n: nat): (s: string)
    ensures |s| > 0
    ensures forall i :: 0 <= i < |s| ==> '0' <= s[i] <= '9'
    decreases n
  {
    if n < 10 then [DigitChar(n)] else NatToString(n / 10) + [DigitChar(n % 10)]
  }

  /** Reads decimal digits back (the inverse of NatToString). */
  function ParseNat(s: string): nat
    decreases |s|
  {
    if |s| == 0 then 0 else ParseNat(s[..|s| - 1]) * 10 + DigitValue(s[|s| - 1])
  }

  lemma {:induction false} ParseNatToString(n: nat)
    ensures ParseNat(NatToString(n)) == n
    decreases n
  {
    var s := NatToString(n);
    if n >= 10 {
      ParseNatToString(n / 10);
      assert s[..|s| - 1] == NatToString(n / 10);
    }
  }

  /** An `int` formatted by string interpolation: an optional '-' and decimal digits. */
  function IntToString(n: int): (s: string)
    ensures |s| > 0
    ensures s[0] == '-' <==> n < 0
  {
    if n < 0 then "-" + NatToString(-n) else NatToString(n)
  }

  lemma NatToStringInjective(a: nat, b: nat)
    requires NatToString(a) == NatToString(b)
    ensures a == b
  {
    ParseNatToString(a);
    ParseNatToString(b);
  }

  /** Different integers are formatted differently. */
  lemma IntToStringInjective(m: int, n: int)
    requires IntToString(m) == IntToString(n)
    ensures m == n
  {
    var s := IntToString(m);
    if m < 0 {
      assert n < 0;
      assert NatToString(-m) == s[1..];
      assert NatToString(-n) == s[1..];
      NatToStringInjective(-m, -n);
    } else {
      assert n >= 0;
      NatToStringInjective(m, n);
    }
  }

  /** `String.StartsWith` on ASCII text compared ordinally. */
  predicate StartsWith(s: string, prefix: string)
  {
    prefix <= s
  }

  /**
   * `s.Replace(pattern, replacement)`: a single left-to-right pass that replaces
   * non-overlapping occurrences of a non-empty pattern.
   */
  function ReplaceAll(s: string, pattern: string, replacement: string): (r: string)
    requires |pattern| > 0
    ensures replacement == "" ==> |r| <= |s|
    decreases |s|
  {
    if |s| < |pattern| then s
    else if s[..|pattern|] == pattern then replacement + ReplaceAll(s[|pattern|..], pattern, replacement)
    else [s[0]] + ReplaceAll(s[1..], pattern, replacement)
  }

  /** Deleting every occurrence of a pattern only ever keeps characters of the input. */
  lemma {:induction false} DeleteKeepsOnlyInputChars(s: string, pattern: string, c: char)
    requires |pattern| > 0
    requires c in ReplaceAll(s, pattern, "")
    ensures c in s
    decreases |s|
  {
    if |s| < |pattern| {
    } else if s[..|pattern|] == pattern {
      DeleteKeepsOnlyInputChars(s[|pattern|..], pattern, c);
    } else if c != s[0] {
      DeleteKeepsOnlyInputChars(s[1..], pattern, c);
    }
  }

  /** Deleting a one-character pattern leaves no occurrence of that character. */
  lemma {:induction false} DeleteCharRemovesIt(s: string, c: char)
    ensures c !in ReplaceAll(s, [c], "")
    decreases |s|
  {
    if |s| >= 1 {
      DeleteCharRemovesIt(s[1..], c);
    }
  }

  /** A prefix that cannot start an occurrence of the pattern passes through unchanged. */
  lemma {:induction false} ReplacePassesThrough(a: string, t: string, pattern: string, replacement: string)
    requires |pattern| > 0
    requires pattern[0] !in a
    ensures ReplaceAll(a + t, pattern, replacement) == a + ReplaceAll(t, pattern, replacement)
    decreases |a|
  {
    if |a| > 0 {
      var s := a + t;
      if |s| < |pattern| {
        assert ReplaceAll(t, pattern, replacement) == t;
      } else {
        assert s[..|pattern|][0] == a[0] != pattern[0];
        assert ReplaceAll(s, pattern, replacement) == [s[0]] + ReplaceAll(s[1..], pattern, replacement);
        assert s[1..] == a[1..] + t;
        ReplacePassesThrough(a[1..], t, pattern, replacement);
        assert a == [a[0]] + a[1..];
      }
    } else {
      assert a + t == t;
    }
  }

  /** A text in which the pattern cannot start is left unchanged. */
  lemma ReplaceAbsent(s: string, pattern: string, replacement: string)
    requires |pattern| > 0
    ensures pattern[0] !in s ==> ReplaceAll(s, pattern, replacement) == s
  {
    if pattern[0] !in s {
      ReplacePassesThrough(s, "", pattern, replacement);
      assert s + "" == s;
    }
  }

  /** An occurrence at the front is replaced and the pass continues after it. */
  lemma ReplaceAtFront(t: string, pattern: string, replacement: string)
    requires |pattern| > 0
    ensures ReplaceAll(pattern + t, pattern, replacement) == replacement + ReplaceAll(t, pattern, replacement)
  {
    var s := pattern + t;
    assert s[..|pattern|] == pattern;
    assert s[|pattern|..] == t;
  }

  /** `Char.ToLowerInvariant` on the ASCII letters; every other character is kept. */
  function LowerChar(c: char): char
  {
    if 'A' <= c <= 'Z' then (c as int + 32) as char else c
  }

  /** `String.ToLowerInvariant`, character by character. */
  function ToLowerInvariant(s: string): (r: string)
    ensures |r| == |s|
  {
    seq(|s|, i requires 0 <= i < |s| => LowerChar(s[i]))
  }

  lemma ToLowerConcat(a: string, b: string)
    ensures ToLowerInvariant(a + b) == ToLowerInvariant(a) + ToLowerInvariant(b)
  {
  }
}
