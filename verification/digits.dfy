/** Decimal digit strings: what the program gets from `str.isdigit`,
    `int(...)`, `str(...)` and `str.zfill` on ASCII digits. */
module Digits {

  predicate IsDigit(c: char) { '0' <= c <= '9' }

  predicate AllDigits(s: string) { forall i :: 0 <= i < |s| ==> IsDigit(s[i]) }

  function DigitValue(c: char): (d: nat)
    requires IsDigit(c)
    ensures d < 10
  { c as int - '0' as int }

  function DigitChar(d: nat): (c: char)
    requires d < 10
    ensures IsDigit(c) && DigitValue(c) == d
  { ('0' as int + d) as char }

  function Pow10(k: nat): (p: nat)
    ensures p >= 1
  { if k == 0 then 1 else 10 * Pow10(k - 1) }

  /** `int(s)` for a string of digits, read most significant digit first;
      the empty string reads as 0. */
  function Value(s: string): nat
    requires AllDigits(s)
  {
    if |s| == 0 then 0 else Value(s[..|s| - 1]) * 10 + DigitValue(s[|s| - 1])
  }

  /** `str(n)`: the shortest decimal spelling of `n`. */
  function Show(n: nat): (s: string)
    ensures 1 <= |s| && AllDigits(s)
  {
    if n < 10 then [DigitChar(n)] else Show(n / 10) + [DigitChar(n % 10)]
  }

  /** `int(str(n)) == n`, and `str` writes no superfluous leading zero. */
  lemma {:induction false} ValueShow(n: nat)
    ensures Value(Show(n)) == n
    ensures |Show(n)| > 1 ==> Show(n)[0] != '0'
    decreases n
  {
    if n >= 10 {
      var p := Show(n / 10);
      var s := Show(n);
      ValueShow(n / 10);
      assert s == p + [DigitChar(n % 10)];
      assert s[..|s| - 1] == p;
      assert |p| == 1 ==> Value(p) == DigitValue(p[0]);
      assert s[0] == p[0];
    }
  }

  function Zeros(k: nat): (z: string)
    ensures |z| == k && AllDigits(z)
  {
    seq(k, i => '0')
  }

  /** `s.zfill(w)` for a digit string: pad on the left with '0' up to width `w`. */
  function Zfill(s: string, w: nat): (r: string)
    requires AllDigits(s)
    ensures AllDigits(r)
    ensures |s| >= w ==> r == s
    ensures |s| < w ==> |r| == w
  {
    if |s| >= w then s else Zeros(w - |s|) + s
  }

  /** Reading a concatenation: the left part is shifted by the right part's width. */
  lemma {:induction false} ValueConcat(a: string, b: string)
    requires AllDigits(a) && AllDigits(b)
    ensures AllDigits(a + b)
    ensures Value(a + b) == Value(a) * Pow10(|b|) + Value(b)
    decreases |b|
  {
    if |b| == 0 {
      assert a + b == a;
    } else {
      var b' := b[..|b| - 1];
      var d := DigitValue(b[|b| - 1]);
      assert (a + b)[..|a + b| - 1] == a + b';
      ValueConcat(a, b');
      var va, vb, p := Value(a), Value(b'), Pow10(|b'|);
      assert Value(a + b) == Value(a + b') * 10 + d;
      assert Value(a + b') == va * p + vb;
      assert Value(b) == vb * 10 + d;
      assert Pow10(|b|) == p * 10;
      ShiftDigit(va, p, vb, d);
    }
  }

  lemma {:induction false} ShiftDigit(va: nat, p: nat, vb: nat, d: nat)
    ensures (va * p + vb) * 10 + d == va * (p * 10) + (vb * 10 + d)
  {}

  lemma {:induction false} ValueZeros(k: nat)
    ensures Value(Zeros(k)) == 0
  {
    if k > 0 {
      assert Zeros(k)[..k - 1] == Zeros(k - 1);
      ValueZeros(k - 1);
    }
  }

  /** Left padding with zeros never changes the number a digit string denotes. */
  lemma {:induction false} ValueZfill(s: string, w: nat)
    requires AllDigits(s)
    ensures Value(Zfill(s, w)) == Value(s)
  {
    if |s| < w {
      ValueConcat(Zeros(w - |s|), s);
      ValueZeros(w - |s|);
    }
  }

  /** A string of `k` digits denotes a number below `10^k`. */
  lemma {:induction false} ValueBound(s: string)
    requires AllDigits(s)
    ensures Value(s) < Pow10(|s|)
    decreases |s|
  {
    if |s| > 0 {
      ValueBound(s[..|s| - 1]);
    }
  }

  /** A digit string that starts with a non-zero digit denotes a positive number. */
  lemma {:induction false} LeadingDigitPositive(s: string)
    requires AllDigits(s) && 1 <= |s| && s[0] != '0'
    ensures Value(s) >= 1
  {
    assert s == [s[0]] + s[1..];
    ValueConcat([s[0]], s[1..]);
    assert Value([s[0]]) == DigitValue(s[0]);
  }

  /** A digit string with no superfluous leading zero is exactly `str` of its value. */
  lemma {:induction false} ShowValue(s: string)
    requires AllDigits(s) && 1 <= |s|
    requires |s| > 1 ==> s[0] != '0'
    ensures Show(Value(s)) == s
    decreases |s|
  {
    if |s| > 1 {
      var p := s[..|s| - 1];
      var c := s[|s| - 1];
      assert p[0] == s[0];
      LeadingDigitPositive(p);
      DivModTen(Value(p), DigitValue(c));
      ShowValue(p);
      assert s == p + [c];
    }
  }

  lemma {:induction false} DivModTen(a: nat, d: nat)
    requires d < 10
    ensures (a * 10 + d) / 10 == a && (a * 10 + d) % 10 == d
  {}

  /** A number below `10^k` needs at most `k` digits. */
  lemma {:induction false} ShowLength(n: nat, k: nat)
    requires 1 <= k && n < Pow10(k)
    ensures |Show(n)| <= k
    decreases k
  {
    if n >= 10 {
      assert Show(n) == Show(n / 10) + [DigitChar(n % 10)];
      assert k >= 2;
      ShowLength(n / 10, k - 1);
    }
  }

  /** `str(int(g)).zfill(len(g))` gives `g` back for any non-empty digit string. */
  lemma {:induction false} ZfillShowValue(g: string, w: nat)
    requires AllDigits(g) && |g| == w && w >= 1
    ensures Zfill(Show(Value(g)), w) == g
    decreases w
  {
    if w == 1 || g[0] != '0' {
      ShowValue(g);
    } else {
      var t := g[1..];
      LeadingZero(t);
      assert g == ['0'] + t;
      ZfillShowValue(t, w - 1);
      ValueBound(t);
      ShowLength(Value(t), w - 1);
      ZfillOneMore(Show(Value(t)), w - 1);
    }
  }

  lemma {:induction false} LeadingZero(t: string)
    requires AllDigits(t)
    ensures AllDigits(['0'] + t) && Value(['0'] + t) == Value(t)
  {
    ValueConcat(['0'], t);
    assert Value(['0']) == 0;
  }

  lemma {:induction false} ZfillOneMore(x: string, w: nat)
    requires AllDigits(x) && |x| <= w
    ensures Zfill(x, w + 1) == ['0'] + Zfill(x, w)
  {
    var k := w - |x|;
    assert Zeros(k + 1) == ['0'] + Zeros(k);
    assert Zeros(k + 1) + x == ['0'] + (Zeros(k) + x);
  }

  /** `str(r).zfill(w)` for `r` below `10^w`: exactly `w` digits denoting `r`. */
  lemma {:induction false} ZfillShowWidth(r: nat, w: nat)
    requires 1 <= w && r < Pow10(w)
    ensures |Zfill(Show(r), w)| == w
    ensures Value(Zfill(Show(r), w)) == r
  {
    ShowLength(r, w);
    ValueShow(r);
    ValueZfill(Show(r), w);
  }
}
