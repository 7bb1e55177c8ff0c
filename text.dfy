/** Text helpers used by the event code template: the decimal rendering of an
    unsigned index (the `ToString` the template calls on the condition index),
    joining with a separator, counting characters, and the brace nesting depth
    of generated code. */
module Text {

  /** The character of a decimal digit. */
  function DigitChar(d: nat): (c: char)
    requires d < 10
    ensures '0' <= c <= '9'
  {
    ('0' as int + d) as char
  }

  /** The value of a decimal digit character; the inverse of DigitChar. */
  function DigitValue(c: char): (d: nat)
    requires '0' <= c <= '9'
    ensures d < 10 && DigitChar(d) == c
  {
    c as int - '0' as int
  }

  predicate IsDigits(s: string) {
    forall i :: 0 <= i < |s| ==> '0' <= s[i] <= '9'
  }

  /** Decimal rendering of n, most significant digit first and without
      leading zeros (the only rendering that starts with '0' is "0"). */
  function NatToString(n: nat): (s: string)
    ensures |s| > 0 && IsDigits(s)
    ensures s[0] == '0' <==> n == 0
    decreases n
  {
    if n < 10 then [DigitChar(n)] else NatToString(n / 10) + [DigitChar(n % 10)]
  }

  /** Reads a string of decimal digits back as a number. */
  function ParseDigits(s: string): nat
    requires IsDigits(s)
  {
    if s == [] then 0 else ParseDigits(s[..|s| - 1]) * 10 + DigitValue(s[|s| - 1])
  }

  /** Reading the rendering of n gives n back. */
  lemma {:induction false} ParseNatToString(n: nat)
    ensures ParseDigits(NatToString(n)) == n
  {
    var s := NatToString(n);
    if n >= 10 {
      assert s[..|s| - 1] == NatToString(n / 10);
      ParseNatToString(n / 10);
    } else {
      assert s[..|s| - 1] == [];
    }
  }

  /** Different numbers have different renderings. */
  lemma NatToStringInjective(m: nat, n: nat)
    ensures NatToString(m) == NatToString(n) ==> m == n
  {
    ParseNatToString(m);
    ParseNatToString(n);
  }

  predicate IsPrefix(a: string, b: string) {
    |a| <= |b| && b[..|a|] == a
  }

  predicate IsSuffix(a: string, b: string) {
    |a| <= |b| && b[|b| - |a|..] == a
  }

  lemma PrefixOfAppend(a: string, b: string)
    ensures IsPrefix(a, a + b)
  {
  }

  lemma SuffixOfAppend(a: string, b: string)
    ensures IsSuffix(b, a + b)
  {
  }

  lemma PrefixTransitive(a: string, b: string, c: string)
    requires IsPrefix(a, b) && IsPrefix(b, c)
    ensures IsPrefix(a, c)
  {
    assert c[..|a|] == c[..|b|][..|a|];
  }

  /** parts joined with sep between each two neighbours, in order. */
  function JoinWith(sep: string, parts: seq<string>): string
    decreases |parts|
  {
    if |parts| == 0 then ""
    else if |parts| == 1 then parts[0]
    else parts[0] + sep + JoinWith(sep, parts[1..])
  }

  /** Appending a part to a non-empty join adds one separator and the part at
      the end: this is how an accumulating loop builds the join. */
  lemma {:induction false} JoinWithAppend(sep: string, parts: seq<string>, p: string)
    requires |parts| > 0
    ensures JoinWith(sep, parts + [p]) == JoinWith(sep, parts) + sep + p
    decreases |parts|
  {
    var all := parts + [p];
    if |parts| == 1 {
      assert all[1..] == [p];
    } else {
      assert all[1..] == parts[1..] + [p];
      JoinWithAppend(sep, parts[1..], p);
    }
  }

  /** The number of occurrences of c in s. */
  function Count(c: char, s: string): (k: nat)
    ensures k <= |s|
  {
    if s == [] then 0 else Count(c, s[..|s| - 1]) + (if s[|s| - 1] == c then 1 else 0)
  }

  lemma {:induction false} CountConcat(c: char, a: string, b: string)
    ensures Count(c, a + b) == Count(c, a) + Count(c, b)
    decreases |b|
  {
    if b != [] {
      assert (a + b)[..|a + b| - 1] == a + b[..|b| - 1];
      CountConcat(c, a, b[..|b| - 1]);
    } else {
      assert a + b == a;
    }
  }

  lemma {:induction false} CountAbsent(c: char, s: string)
    requires c !in s
    ensures Count(c, s) == 0
    decreases |s|
  {
    if s != [] {
      assert s[..|s| - 1] + [s[|s| - 1]] == s;
      CountAbsent(c, s[..|s| - 1]);
    }
  }

  /** Opening minus closing braces: the nesting depth at the end of s. */
  function Balance(s: string): int {
    Count('{', s) - Count('}', s)
  }

  /** Every brace s closes was opened in s, and s closes all it opens. */
  predicate WellNested(s: string) {
    Balance(s) == 0 && forall k :: 0 <= k <= |s| ==> Balance(s[..k]) >= 0
  }

  predicate BraceFree(s: string) {
    '{' !in s && '}' !in s
  }

  lemma BalanceConcat(a: string, b: string)
    ensures Balance(a + b) == Balance(a) + Balance(b)
  {
    CountConcat('{', a, b);
    CountConcat('}', a, b);
  }

  lemma BraceFreeBalance(s: string)
    requires BraceFree(s)
    ensures Balance(s) == 0
  {
    CountAbsent('{', s);
    CountAbsent('}', s);
  }

  lemma BraceFreeWellNested(s: string)
    requires BraceFree(s)
    ensures WellNested(s)
  {
    BraceFreeBalance(s);
    forall k | 0 <= k <= |s| ensures Balance(s[..k]) >= 0 {
      assert BraceFree(s[..k]) by {
        assert forall x :: x in s[..k] ==> x in s;
      }
      BraceFreeBalance(s[..k]);
    }
  }

  /** Putting two well-nested texts side by side keeps them well nested. */
  lemma WellNestedConcat(a: string, b: string)
    requires WellNested(a) && WellNested(b)
    ensures WellNested(a + b)
  {
    BalanceConcat(a, b);
    forall k | 0 <= k <= |a + b| ensures Balance((a + b)[..k]) >= 0 {
      if k <= |a| {
        assert (a + b)[..k] == a[..k];
      } else {
        assert (a + b)[..k] == a + b[..k - |a|];
        BalanceConcat(a, b[..k - |a|]);
      }
    }
  }

  /** Wrapping a well-nested text in a pair of braces keeps it well nested. */
  lemma WellNestedEnclosed(s: string)
    requires WellNested(s)
    ensures WellNested("{" + s + "}")
  {
    var w := "{" + s + "}";
    BalanceConcat("{" + s, "}");
    BalanceConcat("{", s);
    assert Balance("{") == 1 && Balance("}") == -1;
    forall k | 0 <= k <= |w| ensures Balance(w[..k]) >= 0 {
      if k == 0 {
        assert w[..k] == [];
      } else if k <= |s| + 1 {
        assert w[..k] == "{" + s[..k - 1];
        BalanceConcat("{", s[..k - 1]);
      } else {
        assert w[..k] == w;
      }
    }
  }

  /** Between the opening brace and its partner, a well-nested text wrapped in
      braces after pre keeps one block more open than pre does. */
  lemma EnclosedStaysOpen(pre: string, inner: string, post: string)
    requires WellNested(inner)
    ensures var out := pre + "{" + inner + "}" + post;
      && |out| == |pre| + |inner| + 2 + |post|
      && forall j :: |pre| < j <= |pre| + 1 + |inner| ==> Balance(out[..j]) >= Balance(pre) + 1
  {
    var out := pre + "{" + inner + "}" + post;
    assert Balance("{") == 1;
    BalanceConcat(pre, "{");
    forall j | |pre| < j <= |pre| + 1 + |inner| ensures Balance(out[..j]) >= Balance(pre) + 1 {
      var k := j - |pre| - 1;
      assert out[..j] == pre + "{" + inner[..k];
      BalanceConcat(pre + "{", inner[..k]);
    }
  }
}
