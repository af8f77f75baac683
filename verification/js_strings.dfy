/** The String.prototype operations the endpoint and the form use (section 22.1.3 of
    ECMA-262), on strings taken as sequences of characters, plus the decimal form
    Number::toString gives a non-negative integer. */
module JsStrings {

  /** WhiteSpace and LineTerminator code points (sections 12.2 and 12.3 of ECMA-262):
      the characters String.prototype.trim removes */
  predicate IsWhiteSpace(c: char) {
    || c == '\U{9}' || c == '\U{A}' || c == '\U{B}' || c == '\U{C}' || c == '\U{D}'
    || c == ' ' || c == '\U{A0}' || c == '\U{1680}'
    || ('\U{2000}' <= c <= '\U{200A}')
    || c == '\U{2028}' || c == '\U{2029}' || c == '\U{202F}' || c == '\U{205F}'
    || c == '\U{3000}' || c == '\U{FEFF}'
  }

  predicate AllWhiteSpace(s: string) {
    forall k :: 0 <= k < |s| ==> IsWhiteSpace(s[k])
  }

  /** Neither end of `s` is white space */
  predicate Tight(s: string) {
    s == [] || (!IsWhiteSpace(s[0]) && !IsWhiteSpace(s[|s| - 1]))
  }

  /** `s` with its leading white space removed: a suffix of `s` */
  function TrimStart(s: string): (r: string)
    ensures |r| <= |s| && r == s[|s| - |r|..]
    ensures AllWhiteSpace(s[..|s| - |r|])
    ensures r == [] || !IsWhiteSpace(r[0])
  {
    if |s| > 0 && IsWhiteSpace(s[0]) then
      var r := TrimStart(s[1..]);
      assert s[..|s| - |r|] == [s[0]] + s[1..][..|s| - 1 - |r|];
      AllWhiteSpaceConcat([s[0]], s[1..][..|s| - 1 - |r|]);
      r
    else
      s
  }

  /** `s` with its trailing white space removed: a prefix of `s` */
  function TrimEnd(s: string): (r: string)
    ensures |r| <= |s| && r == s[..|r|]
    ensures AllWhiteSpace(s[|r|..])
    ensures r == [] || !IsWhiteSpace(r[|r| - 1])
  {
    if |s| > 0 && IsWhiteSpace(s[|s| - 1]) then
      var r := TrimEnd(s[..|s| - 1]);
      assert s[|r|..] == s[..|s| - 1][|r|..] + [s[|s| - 1]];
      AllWhiteSpaceConcat(s[..|s| - 1][|r|..], [s[|s| - 1]]);
      r
    else
      s
  }

  /** String.prototype.trim: `s` is the result with white space added at both ends, and the
      result is empty exactly when `s` is all white space */
  function Trim(s: string): (r: string)
    ensures Tight(r)
    ensures exists pre, post :: s == pre + r + post && AllWhiteSpace(pre) && AllWhiteSpace(post)
    ensures r == [] <==> AllWhiteSpace(s)
  {
    var t := TrimStart(s);
    var r := TrimEnd(t);
    TrimSplits(s, t, r);
    r
  }

  /** `t` is `s` without its leading white space and `r` is `t` without its trailing white
      space: the facts `Trim` promises */
  lemma TrimSplits(s: string, t: string, r: string)
    requires |t| <= |s| && t == s[|s| - |t|..] && AllWhiteSpace(s[..|s| - |t|])
    requires t == [] || !IsWhiteSpace(t[0])
    requires |r| <= |t| && r == t[..|r|] && AllWhiteSpace(t[|r|..])
    requires r == [] || !IsWhiteSpace(r[|r| - 1])
    ensures Tight(r)
    ensures exists pre, post :: s == pre + r + post && AllWhiteSpace(pre) && AllWhiteSpace(post)
    ensures r == [] <==> AllWhiteSpace(s)
  {
    var pre := s[..|s| - |t|];
    var post := t[|r|..];
    assert s == pre + t;
    assert t == r + post;
    assert s == pre + r + post;
    if r == [] {
      AllWhiteSpaceConcat(pre, post);
      assert s == pre + post;
    } else {
      assert r[0] == t[0];
      assert s[|pre|] == r[0];
    }
  }

  lemma AllWhiteSpaceConcat(a: string, b: string)
    requires AllWhiteSpace(a) && AllWhiteSpace(b)
    ensures AllWhiteSpace(a + b)
  {
    forall k | 0 <= k < |a + b| ensures IsWhiteSpace((a + b)[k]) {
      if k >= |a| {
        assert (a + b)[k] == b[k - |a|];
      }
    }
  }

  lemma {:induction false} TrimStartSkips(pre: string, t: string)
    requires AllWhiteSpace(pre)
    requires t == [] || !IsWhiteSpace(t[0])
    ensures TrimStart(pre + t) == t
  {
    if pre == [] {
      assert pre + t == t;
    } else {
      assert (pre + t)[1..] == pre[1..] + t;
      TrimStartSkips(pre[1..], t);
    }
  }

  lemma {:induction false} TrimEndSkips(t: string, post: string)
    requires AllWhiteSpace(post)
    requires t == [] || !IsWhiteSpace(t[|t| - 1])
    ensures TrimEnd(t + post) == t
  {
    if post == [] {
      assert t + post == t;
    } else {
      assert (t + post)[..|t + post| - 1] == t + post[..|post| - 1];
      TrimEndSkips(t, post[..|post| - 1]);
    }
  }

  /** Trim is determined by the decomposition it promises: whatever white space surrounds a
      string with no white space at its ends, trimming gives back that string */
  lemma TrimUnique(pre: string, m: string, post: string)
    requires AllWhiteSpace(pre) && AllWhiteSpace(post)
    requires m != [] && Tight(m)
    ensures Trim(pre + m + post) == m
  {
    assert pre + m + post == pre + (m + post);
    TrimStartSkips(pre, m + post);
    TrimEndSkips(m, post);
  }

  /** Extra white space around a string does not change its trim */
  lemma TrimPadded(left: string, s: string, right: string)
    requires AllWhiteSpace(left) && AllWhiteSpace(right)
    ensures Trim(left + s + right) == Trim(s)
  {
    var m := Trim(s);
    var pre, post :| s == pre + m + post && AllWhiteSpace(pre) && AllWhiteSpace(post);
    TrimRegroup(left, pre, m, post, right);
  }

  /** The padded string splits around the trim of the unpadded one */
  lemma TrimRegroup(left: string, pre: string, m: string, post: string, right: string)
    requires AllWhiteSpace(left) && AllWhiteSpace(pre) && AllWhiteSpace(post) && AllWhiteSpace(right)
    requires m == Trim(pre + m + post)
    ensures Trim(left + (pre + m + post) + right) == m
  {
    AllWhiteSpaceConcat(left, pre);
    AllWhiteSpaceConcat(post, right);
    var l, r := left + pre, post + right;
    Regroup(left, pre, m, post, right);
    if m == [] {
      AllWhiteSpaceConcat(l, r);
      assert l + m + r == l + r;
      assert Trim(l + r) == [];
    } else {
      TrimUnique(l, m, r);
    }
  }

  lemma Regroup<T>(a: seq<T>, b: seq<T>, c: seq<T>, d: seq<T>, e: seq<T>)
    ensures a + (b + c + d) + e == (a + b) + c + (d + e)
  {
  }

  /** Trimming twice is trimming once */
  lemma TrimIdempotent(s: string)
    ensures Trim(Trim(s)) == Trim(s)
  {
    TrimTight(Trim(s));
  }

  /** A string with no white space at its ends is its own trim */
  lemma TrimTight(s: string)
    requires Tight(s)
    ensures Trim(s) == s
  {
    assert TrimStart(s) == s;
    assert TrimEnd(s) == s;
  }

  /** String.prototype.startsWith */
  predicate StartsWith(s: string, prefix: string) {
    |prefix| <= |s| && s[..|prefix|] == prefix
  }

  /** `sub` occurs in `s` at position `i` */
  predicate OccursAt(s: string, sub: string, i: int) {
    0 <= i <= |s| - |sub| && s[i..i + |sub|] == sub
  }

  /** String.prototype.includes */
  predicate Includes(s: string, sub: string) {
    exists i | 0 <= i <= |s| :: OccursAt(s, sub, i)
  }

  /** String.prototype.indexOf for one character: the first position of `c`, or -1 */
  function IndexOf(s: string, c: char): (i: int)
    ensures -1 <= i < |s|
    ensures i == -1 <==> c !in s
    ensures 0 <= i ==> s[i] == c && c !in s[..i]
  {
    if |s| == 0 then -1
    else if s[0] == c then 0
    else
      var k := IndexOf(s[1..], c);
      IndexOfStep(s, c, k);
      if k == -1 then -1 else k + 1
  }

  /** One step of `IndexOf`: the first character is not `c`, and `k` is the answer on the rest */
  lemma IndexOfStep(s: string, c: char, k: int)
    requires |s| > 0 && s[0] != c
    requires -1 <= k < |s| - 1
    requires k == -1 <==> c !in s[1..]
    requires 0 <= k ==> s[1..][k] == c && c !in s[1..][..k]
    ensures k == -1 <==> c !in s
    ensures 0 <= k ==> s[k + 1] == c && c !in s[..k + 1]
  {
    assert s == [s[0]] + s[1..];
    if 0 <= k {
      assert s[..k + 1] == [s[0]] + s[1..][..k];
    }
  }

  /** String.prototype.lastIndexOf for one character: the last position of `c`, or -1 */
  function LastIndexOf(s: string, c: char): (i: int)
    ensures -1 <= i < |s|
    ensures i == -1 <==> c !in s
    ensures 0 <= i ==> s[i] == c && c !in s[i + 1..]
  {
    if |s| == 0 then -1
    else if s[|s| - 1] == c then |s| - 1
    else
      var k := LastIndexOf(s[..|s| - 1], c);
      LastIndexOfStep(s, c, k);
      k
  }

  /** One step of `LastIndexOf`: the last character is not `c`, and `k` is the answer on the
      rest */
  lemma LastIndexOfStep(s: string, c: char, k: int)
    requires |s| > 0 && s[|s| - 1] != c
    requires -1 <= k < |s| - 1
    requires k == -1 <==> c !in s[..|s| - 1]
    requires 0 <= k ==> s[..|s| - 1][k] == c && c !in s[..|s| - 1][k + 1..]
    ensures k == -1 <==> c !in s
    ensures 0 <= k ==> s[k] == c && c !in s[k + 1..]
  {
    var init := s[..|s| - 1];
    assert s == init + [s[|s| - 1]];
    if 0 <= k {
      assert s[k + 1..] == init[k + 1..] + [s[|s| - 1]];
    }
  }

  predicate IsDigit(c: char) {
    '0' <= c <= '9'
  }

  predicate AllDigits(s: string) {
    forall k :: 0 <= k < |s| ==> IsDigit(s[k])
  }

  function DigitChar(d: nat): (c: char)
    requires d < 10
    ensures IsDigit(c)
  {
    (48 + d) as char
  }

  function DigitValue(c: char): nat
    requires IsDigit(c)
  {
    (c as int) - 48
  }

  /** The decimal digits of `n` as Number::toString writes a non-negative integer below
      10^21: at least one digit and no leading zero */
  function NatToDecimal(n: nat): (r: string)
    ensures |r| >= 1 && AllDigits(r)
    ensures r[0] == '0' ==> n == 0
    decreases n
  {
    if n < 10 then [DigitChar(n)] else NatToDecimal(n / 10) + [DigitChar(n % 10)]
  }

  /** The value of a string of decimal digits */
  function DecimalToNat(s: string): nat
    requires AllDigits(s)
  {
    if s == [] then 0 else DecimalToNat(s[..|s| - 1]) * 10 + DigitValue(s[|s| - 1])
  }

  /** Reading back the digits of `n` gives `n` */
  lemma {:induction false} DecimalRoundTrip(n: nat)
    ensures DecimalToNat(NatToDecimal(n)) == n
    decreases n
  {
    var r := NatToDecimal(n);
    if n >= 10 {
      DecimalRoundTrip(n / 10);
      assert r[..|r| - 1] == NatToDecimal(n / 10);
    }
  }

  /** Distinct numbers have distinct decimal forms */
  lemma DecimalInjective()
    ensures forall m: nat, n: nat :: NatToDecimal(m) == NatToDecimal(n) ==> m == n
  {
    forall m: nat, n: nat | NatToDecimal(m) == NatToDecimal(n) ensures m == n {
      DecimalRoundTrip(m);
      DecimalRoundTrip(n);
    }
  }
}
