/** Small text utilities shared by the renderers and their decoders:
    an Option type, decimal rendering of sizes, and scanning helpers. */
module Text {

  datatype Option<+T> = None | Some(value: T)

  predicate IsDigit(c: char) { '0' <= c <= '9' }

  predicate AllDigits(s: string) { forall i :: 0 <= i < |s| ==> IsDigit(s[i]) }

  function DigitChar(d: nat): (c: char)
    requires d < 10
    ensures IsDigit(c) && (c as int) - ('0' as int) == d
  {
    (('0' as int) + d) as char
  }

  function DigitValue(c: char): (d: nat)
    requires IsDigit(c)
    ensures d < 10 && DigitChar(d) == c
  {
    (c as int) - ('0' as int)
  }

  /** Decimal text of an unsigned value, as `operator<<` writes a `size_t`:
      most significant digit first, no sign, no leading zeros. */
  function NatToString(n: nat): (s: string)
    ensures |s| > 0 && AllDigits(s)
    ensures |s| > 1 ==> s[0] != '0'
    decreases n
  {
    if n < 10 then [DigitChar(n)] else NatToString(n / 10) + [DigitChar(n % 10)]
  }

  /** The value of a digit string read most significant digit first. */
  function DigitsValue(ds: string): (v: nat)
    requires AllDigits(ds)
  {
    if ds == [] then 0 else DigitsValue(ds[..|ds| - 1]) * 10 + DigitValue(ds[|ds| - 1])
  }

  lemma {:induction false} DigitsValueOfNatToString(n: nat)
    ensures DigitsValue(NatToString(n)) == n
    decreases n
  {
    var s := NatToString(n);
    if n >= 10 {
      assert s[..|s| - 1] == NatToString(n / 10);
      DigitsValueOfNatToString(n / 10);
    }
  }

  /** Length of the longest prefix of `s` made of digits. */
  function DigitRun(s: string): (k: nat)
    ensures k <= |s| && AllDigits(s[..k])
    ensures k < |s| ==> !IsDigit(s[k])
  {
    if s != [] && IsDigit(s[0]) then
      var k := 1 + DigitRun(s[1..]);
      assert s[..k] == [s[0]] + s[1..][..k - 1];
      k
    else 0
  }

  /** Reads a non-empty maximal run of decimal digits and returns its value
      and the text after it. */
  function ParseNat(s: string): (r: Option<(nat, string)>)
    ensures r.Some? ==> |r.value.1| < |s|
  {
    var k := DigitRun(s);
    if k == 0 then None else Some((DigitsValue(s[..k]), s[k..]))
  }

  lemma ParseNatToString(n: nat, rest: string)
    requires rest == [] || !IsDigit(rest[0])
    ensures ParseNat(NatToString(n) + rest) == Some((n, rest))
  {
    var ds := NatToString(n);
    var s := ds + rest;
    var k := DigitRun(s);
    assert AllDigits(s[..|ds|]) by { assert s[..|ds|] == ds; }
    assert k == |ds|;
    assert s[..k] == ds && s[k..] == rest;
    DigitsValueOfNatToString(n);
  }

  /** Index of the first `d` in `s`, or `|s|` when there is none. */
  function Find(s: string, d: char): (k: nat)
    ensures k <= |s| && d !in s[..k]
    ensures k < |s| ==> s[k] == d
    ensures k < |s| <==> d in s
  {
    if s == [] || s[0] == d then 0
    else
      var k := 1 + Find(s[1..], d);
      assert s[..k] == [s[0]] + s[1..][..k - 1];
      k
  }

  /** The three facts in Find's contract pin its result down. */
  lemma FindUnique(s: string, d: char, n: nat)
    requires n <= |s| && d !in s[..n]
    requires n < |s| ==> s[n] == d
    ensures Find(s, d) == n
  {
  }

  /** Searching a concatenation: the first part is searched first. */
  lemma FindConcat(a: string, b: string, d: char)
    ensures Find(a + b, d) == if d in a then Find(a, d) else |a| + Find(b, d)
  {
    var s := a + b;
    if d in a {
      var k := Find(a, d);
      assert s[..k] == a[..k];
      FindUnique(s, d, k);
    } else {
      var k := Find(b, d);
      assert s[..|a| + k] == a + b[..k];
      FindUnique(s, d, |a| + k);
    }
  }

  /** Splits `s` in front of its first `d`, or at its end when it holds none. */
  function Span(s: string, d: char): (r: (string, string))
    ensures |r.0| + |r.1| == |s|
    decreases |s|
  {
    if s == [] || s[0] == d then ([], s)
    else
      var r := Span(s[1..], d);
      ([s[0]] + r.0, r.1)
  }

  /** Splitting `x + (close + v)` at the first character of `close`, when
      `x` does not hold it, gives back `x` and `close + v`. */
  lemma {:induction false} SpanConcat(x: string, close: string, v: string)
    requires |close| > 0 && close[0] !in x
    ensures Span(x + (close + v), close[0]) == (x, close + v)
    decreases |x|
  {
    if x == [] {
      assert x + (close + v) == close + v;
    } else {
      assert (x + (close + v))[1..] == x[1..] + (close + v);
      SpanConcat(x[1..], close, v);
      HeadTail(x);
    }
  }

  predicate StartsWith(s: string, p: string) { |p| <= |s| && s[..|p|] == p }

  lemma StartsWithConcat(p: string, x: string)
    ensures StartsWith(p + x, p) && (p + x)[|p|..] == x
  {
    assert (p + x)[..|p|] == p;
  }

  lemma Regroup(a: string, b: string, c: string)
    ensures a + b + c == a + (b + c)
  {
  }

  lemma HeadTail<T>(s: seq<T>)
    requires |s| > 0
    ensures [s[0]] + s[1..] == s
  {
  }

  lemma SliceCons<T>(s: seq<T>, i: nat)
    requires i < |s|
    ensures s[i..] == [s[i]] + s[i + 1..]
  {
  }

  /** A text that differs from `q` at position `i` does not start with `q`. */
  lemma NotStartsWith(p: string, x: string, q: string, i: nat)
    requires i < |p| && i < |q| && p[i] != q[i]
    ensures !StartsWith(p + x, q)
  {
    if |q| <= |p + x| {
      assert (p + x)[..|q|][i] == p[i];
    }
  }

  /** The text after `p`, when `s` starts with `p`. */
  function Expect(s: string, p: string): (r: Option<string>)
    ensures r.Some? ==> |r.value| == |s| - |p|
  {
    if StartsWith(s, p) then Some(s[|p|..]) else None
  }

  lemma ExpectConcat(p: string, x: string)
    ensures Expect(p + x, p) == Some(x)
  {
    StartsWithConcat(p, x);
  }

  /** No string of `ss` holds the character `d`. */
  predicate AllAvoid(ss: seq<string>, d: char)
  {
    forall j :: 0 <= j < |ss| ==> d !in ss[j]
  }
}
