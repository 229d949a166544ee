/** Character-level text operations shared by the value parser and the
    summary: `str.replace` of one character by another. */
module Text {
  import opened Digits

  /** `s` holds no `c`. */
  predicate Lacks(s: string, c: char)
  {
    forall i :: 0 <= i < |s| ==> s[i] != c
  }

  /** `s.replace(a, b)` for single characters `a` and `b`. */
  function ReplaceChar(s: string, a: char, b: char): (r: string)
    ensures |r| == |s|
  {
    if |s| == 0 then [] else [if s[0] == a then b else s[0]] + ReplaceChar(s[1..], a, b)
  }

  lemma {:induction false} ReplaceCharConcat(s: string, t: string, a: char, b: char)
    ensures ReplaceChar(s + t, a, b) == ReplaceChar(s, a, b) + ReplaceChar(t, a, b)
    decreases |s|
  {
    if |s| > 0 {
      assert (s + t)[0] == s[0];
      assert (s + t)[1..] == s[1..] + t;
      ReplaceCharConcat(s[1..], t, a, b);
    } else {
      assert s + t == t;
    }
  }

  /** Replacing a character the text does not hold leaves it unchanged. */
  lemma {:induction false} ReplaceCharAbsent(s: string, a: char, b: char)
    requires Lacks(s, a)
    ensures ReplaceChar(s, a, b) == s
    decreases |s|
  {
    if |s| > 0 {
      ReplaceCharAbsent(s[1..], a, b);
      assert s == [s[0]] + s[1..];
    }
  }

  /** Digit strings hold no separator. */
  lemma {:induction false} DigitsLack(s: string, c: char)
    requires AllDigits(s) && !IsDigit(c)
    ensures Lacks(s, c)
  {}

  /** After replacing `a` by another character, no `a` is left. */
  lemma {:induction false} ReplaceCharRemoves(s: string, a: char, b: char)
    requires a != b
    ensures Lacks(ReplaceChar(s, a, b), a)
    decreases |s|
  {
    if |s| > 0 {
      ReplaceCharRemoves(s[1..], a, b);
      var h := [if s[0] == a then b else s[0]];
      assert ReplaceChar(s, a, b) == h + ReplaceChar(s[1..], a, b);
      LacksConcat(h, ReplaceChar(s[1..], a, b), a);
    }
  }

  lemma {:induction false} LacksConcat(s: string, t: string, c: char)
    requires Lacks(s, c) && Lacks(t, c)
    ensures Lacks(s + t, c)
  {
    forall i | 0 <= i < |s + t|
      ensures (s + t)[i] != c
    {
      if i >= |s| {
        assert (s + t)[i] == t[i - |s|];
      }
    }
  }
}
