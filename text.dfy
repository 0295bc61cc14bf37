/** Text helpers: decimal printing of integer literals, separator joining,
    and parenthesis depth, used to state what the generated GLSL looks like. */
module Text {

  function DigitChar(d: nat): (c: char)
    requires d < 10
    ensures '0' <= c <= '9'
  {
    "0123456789"[d]
  }

  function DigitValue(c: char): nat {
    if '0' <= c <= '9' then (c as int - '0' as int) as nat else 0
  }

  /** `format!("{}", n)` for an unsigned integer. */
  function DecimalText(n: nat): (s: string)
    ensures |s| > 0
    ensures forall i :: 0 <= i < |s| ==> '0' <= s[i] <= '9'
    ensures s[0] == '0' ==> s == "0"
  {
    if n < 10 then [DigitChar(n)] else DecimalText(n / 10) + [DigitChar(n % 10)]
  }

  /** The value of a string of decimal digits, read left to right. */
  function DecimalValue(s: string): nat {
    if s == [] then 0 else 10 * DecimalValue(s[..|s| - 1]) + DigitValue(s[|s| - 1])
  }

  lemma {:induction false} DecimalRoundTrip(n: nat)
    ensures DecimalValue(DecimalText(n)) == n
  {
    if n >= 10 {
      var s := DecimalText(n);
      assert s[..|s| - 1] == DecimalText(n / 10);
      DecimalRoundTrip(n / 10);
    }
  }

  lemma ConcatAssoc(a: string, b: string, c: string)
    ensures a + (b + c) == a + b + c
  {
  }

  /** `xs[0] + sep + xs[1] + sep + … + xs[|xs|-1]`. */
  function Join(xs: seq<string>, sep: string): string {
    if |xs| == 0 then ""
    else if |xs| == 1 then xs[0]
    else xs[0] + sep + Join(xs[1..], sep)
  }

  /** Appending one more element to a non-empty join adds one separator. */
  lemma {:induction false} JoinSnoc(xs: seq<string>, x: string, sep: string)
    requires |xs| > 0
    ensures Join(xs + [x], sep) == Join(xs, sep) + sep + x
  {
    if |xs| == 1 {
    } else {
      assert (xs + [x])[1..] == xs[1..] + [x];
      JoinSnoc(xs[1..], x, sep);
    }
  }

  function Delta(c: char): int {
    if c == '(' then 1 else if c == ')' then -1 else 0
  }

  /** Opening minus closing parentheses in `s`. */
  function Depth(s: string): int {
    if s == [] then 0 else Depth(s[..|s| - 1]) + Delta(s[|s| - 1])
  }

  function Min(a: int, b: int): int {
    if a <= b then a else b
  }

  /** The lowest depth reached by a prefix of `s`, the empty prefix included. */
  function LowPoint(s: string): (r: int)
    ensures r <= 0 && r <= Depth(s)
  {
    if s == [] then 0 else Min(LowPoint(s[..|s| - 1]), Depth(s))
  }

  /** Every `)` closes an earlier `(` and every `(` is closed. */
  predicate Balanced(s: string) {
    Depth(s) == 0 && LowPoint(s) == 0
  }

  /** `s` is one parenthesised group: a `(`, a balanced string, and the `)`
      that closes it, so no surrounding operator can split it. */
  predicate Grouped(s: string) {
    |s| >= 2 && s[0] == '(' && s[|s| - 1] == ')' && Balanced(s[1..|s| - 1])
  }

  predicate ParenFree(s: string) {
    forall i :: 0 <= i < |s| ==> s[i] != '(' && s[i] != ')'
  }

  lemma {:induction false} DepthConcat(a: string, b: string)
    ensures Depth(a + b) == Depth(a) + Depth(b)
  {
    if b != [] {
      assert (a + b)[..|a + b| - 1] == a + b[..|b| - 1];
      DepthConcat(a, b[..|b| - 1]);
    } else {
      assert a + b == a;
    }
  }

  lemma {:induction false} LowPointConcat(a: string, b: string)
    ensures LowPoint(a + b) == Min(LowPoint(a), Depth(a) + LowPoint(b))
  {
    if b != [] {
      assert (a + b)[..|a + b| - 1] == a + b[..|b| - 1];
      LowPointConcat(a, b[..|b| - 1]);
      DepthConcat(a, b);
    } else {
      assert a + b == a;
    }
  }

  /** No prefix of `s` goes below its low point. */
  lemma {:induction false} LowPointBound(s: string, k: nat)
    requires k <= |s|
    ensures LowPoint(s) <= Depth(s[..k])
  {
    if k < |s| {
      assert s[..|s| - 1][..k] == s[..k];
      LowPointBound(s[..|s| - 1], k);
    } else {
      assert s[..k] == s;
    }
  }

  /** Some prefix of `s` reaches its low point. */
  lemma {:induction false} LowPointReached(s: string) returns (k: nat)
    ensures k <= |s| && LowPoint(s) == Depth(s[..k])
  {
    if s == [] {
      k := 0;
    } else if LowPoint(s[..|s| - 1]) <= Depth(s) {
      k := LowPointReached(s[..|s| - 1]);
      assert s[..|s| - 1][..k] == s[..k];
    } else {
      k := |s|;
      assert s[..k] == s;
    }
  }

  /** `Balanced` says what its comment says: the depth ends at zero and no
      prefix goes below it. */
  lemma BalancedMeaning(s: string)
    ensures Balanced(s) <==> Depth(s) == 0 && forall k :: 0 <= k <= |s| ==> Depth(s[..k]) >= 0
  {
    if Balanced(s) {
      forall k | 0 <= k <= |s| ensures Depth(s[..k]) >= 0 {
        LowPointBound(s, k);
      }
    }
    var k := LowPointReached(s);
  }

  /** `Grouped` says what its comment says: it is balanced, and its first `(`
      stays open until the last character. */
  lemma GroupedMeaning(s: string)
    requires Grouped(s)
    ensures Balanced(s)
    ensures forall k :: 1 <= k < |s| ==> Depth(s[..k]) >= 1
  {
    var x := s[1..|s| - 1];
    assert s == "(" + x + ")";
    GroupedBalanced(s);
    forall k | 1 <= k < |s| ensures Depth(s[..k]) >= 1 {
      assert s[..k] == "(" + x[..k - 1];
      DepthConcat("(", x[..k - 1]);
      LowPointBound(x, k - 1);
    }
  }

  lemma {:induction false} ParenFreeDepth(s: string)
    requires ParenFree(s)
    ensures Depth(s) == 0 && LowPoint(s) == 0
  {
    if s != [] {
      ParenFreeDepth(s[..|s| - 1]);
    }
  }

  lemma ParenFreeBalanced(s: string)
    requires ParenFree(s)
    ensures Balanced(s)
  {
    ParenFreeDepth(s);
  }

  lemma BalancedConcat(a: string, b: string)
    requires Balanced(a) && Balanced(b)
    ensures Balanced(a + b)
  {
    DepthConcat(a, b);
    LowPointConcat(a, b);
  }

  /** Wrapping a balanced string in one pair of parentheses gives a group. */
  lemma Wrap(x: string)
    requires Balanced(x)
    ensures Grouped("(" + x + ")")
  {
    var s := "(" + x + ")";
    assert s[1..|s| - 1] == x;
  }

  lemma GroupedBalanced(s: string)
    requires Grouped(s)
    ensures Balanced(s)
  {
    var x := s[1..|s| - 1];
    assert s == "(" + x + ")";
    DepthConcat("(", x);
    DepthConcat("(" + x, ")");
    LowPointConcat("(", x);
    LowPointConcat("(" + x, ")");
    assert LowPoint("(") == 0 && Depth("(") == 1;
    assert LowPoint(")") == -1 && Depth(")") == -1;
  }
}
