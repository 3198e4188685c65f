/**
 * String helpers shared by the gateway and the template helpers: Python's
 * str.split, ASCII lower-casing and the decimal rendering of str(int).
 */
module Text {
  import opened Wrappers

  /** `s` cut at every `sep`, as Python's `s.split(sep)` (never empty). */
  function Split(s: string, sep: char): (parts: seq<string>)
    ensures |parts| >= 1
    ensures sep in s ==> |parts| >= 2
    ensures forall i :: 0 <= i < |parts| ==> sep !in parts[i]
    decreases |s|
  {
    if s == [] then [""]
    else
      assert s == s[..|s| - 1] + [s[|s| - 1]];
      var init := Split(s[..|s| - 1], sep);
      if s[|s| - 1] == sep then init + [""]
      else init[..|init| - 1] + [init[|init| - 1] + [s[|s| - 1]]]
  }

  /** The last field of `Split(s, sep)`, i.e. `s.rsplit(sep, 1)[-1]`. */
  function LastField(s: string, sep: char): string
  {
    var parts := Split(s, sep);
    parts[|parts| - 1]
  }

  /** A string free of `sep` splits into itself. */
  lemma {:induction false} SplitWithoutSep(b: string, sep: char)
    requires sep !in b
    ensures Split(b, sep) == [b]
    decreases |b|
  {
    if b != [] {
      var b' := b[..|b| - 1];
      assert sep !in b' by { assert forall i :: 0 <= i < |b'| ==> b'[i] == b[i]; }
      SplitWithoutSep(b', sep);
      assert b[|b| - 1] in b;
      assert b' + [b[|b| - 1]] == b;
    }
  }

  /** Appending `sep + b`, with `b` free of `sep`, adds exactly the field `b`. */
  lemma {:induction false} SplitAppend(a: string, sep: char, b: string)
    requires sep !in b
    ensures Split(a + [sep] + b, sep) == Split(a, sep) + [b]
    decreases |b|
  {
    var s := a + [sep] + b;
    if b == [] {
      assert s[..|s| - 1] == a;
    } else {
      var b' := b[..|b| - 1];
      assert s[..|s| - 1] == a + [sep] + b';
      assert s[|s| - 1] == b[|b| - 1];
      SplitAppend(a, sep, b');
      assert b' + [b[|b| - 1]] == b;
    }
  }

  /** Splitting three separator-free fields joined by the separator gives back the three fields. */
  lemma SplitThree(a: string, sep: char, b: string, c: string)
    requires sep !in a && sep !in b && sep !in c
    ensures Split(a + [sep] + b + [sep] + c, sep) == [a, b, c]
  {
    SplitWithoutSep(a, sep);
    SplitAppend(a, sep, b);
    SplitAppend(a + [sep] + b, sep, c);
  }

  /** The field after the last `sep` is everything after the last `sep`. */
  lemma LastFieldAfter(a: string, sep: char, b: string)
    requires sep !in b
    ensures LastField(a + [sep] + b, sep) == b
  {
    SplitAppend(a, sep, b);
  }

  /** Index of the last occurrence of `c` in `s`. */
  function LastIndexOf(s: string, c: char): (k: Option<nat>)
    ensures k.None? <==> c !in s
    ensures k.Some? ==> k.value < |s| && s[k.value] == c && c !in s[k.value + 1..]
    decreases |s|
  {
    if s == [] then None
    else if s[|s| - 1] == c then Some(|s| - 1)
    else
      var k := LastIndexOf(s[..|s| - 1], c);
      assert s == s[..|s| - 1] + [s[|s| - 1]];
      if k.None? then None
      else
        assert s[k.value + 1..] == s[..|s| - 1][k.value + 1..] + [s[|s| - 1]];
        k
  }

  function LowerChar(c: char): char
  {
    if 'A' <= c <= 'Z' then (c as int - 'A' as int + 'a' as int) as char else c
  }

  /** Python's `str.lower()` on the ASCII range; other characters are kept. */
  function Lower(s: string): (r: string)
    ensures |r| == |s|
    ensures forall i :: 0 <= i < |s| ==> r[i] == LowerChar(s[i])
  {
    seq(|s|, i requires 0 <= i < |s| => LowerChar(s[i]))
  }

  predicate IsDigit(c: char)
  {
    '0' <= c <= '9'
  }

  function DigitChar(d: nat): (c: char)
    requires d < 10
    ensures IsDigit(c) && c as int - '0' as int == d
  {
    ('0' as int + d) as char
  }

  /** `str(n)` for a non-negative integer: decimal, no leading zeros. */
  function NatToString(n: nat): (s: string)
    ensures |s| >= 1
    ensures forall i :: 0 <= i < |s| ==> IsDigit(s[i])
    ensures s[0] == '0' ==> n == 0
  {
    if n < 10 then [DigitChar(n)] else NatToString(n / 10) + [DigitChar(n % 10)]
  }

  function DigitsValue(s: string): nat
    requires forall i :: 0 <= i < |s| ==> IsDigit(s[i])
  {
    if s == [] then 0
    else
      assert IsDigit(s[|s| - 1]);
      DigitsValue(s[..|s| - 1]) * 10 + (s[|s| - 1] as int - '0' as int)
  }

  /** Reads back a decimal numeral; anything else (or nothing) is None. */
  function ParseNat(s: string): Option<nat>
  {
    if s != [] && forall i :: 0 <= i < |s| ==> IsDigit(s[i]) then Some(DigitsValue(s)) else None
  }

  /** `str(n)` is read back as `n`. */
  lemma {:induction false} NatToStringRoundTrip(n: nat)
    ensures ParseNat(NatToString(n)) == Some(n)
  {
    var s := NatToString(n);
    if n >= 10 {
      NatToStringRoundTrip(n / 10);
      assert s[..|s| - 1] == NatToString(n / 10);
      assert DigitsValue(s) == (n / 10) * 10 + n % 10;
    } else {
      assert s[..|s| - 1] == [];
    }
  }
}
