/** The competence cell of a document row. The program takes the first
    "MM/YYYY" it finds in the cell's text (`re.search(r'(\d{2})/(\d{4})')`)
    and keeps the month as its two digits of text and the year as a number. */
module Competence {
  import opened Wrappers
  import opened Digits

  /** A competence: the month as the two matched digits, the year as `int`
      of the four matched digits. */
  datatype Period = Period(month: string, year: nat)

  /** Two digits, '/', four digits start at position `i` of `s`. */
  predicate MatchAt(s: string, i: nat)
  {
    i + 7 <= |s|
    && IsDigit(s[i]) && IsDigit(s[i + 1]) && s[i + 2] == '/'
    && AllDigits(s[i + 3..i + 7])
  }

  /** The leftmost match at or after `i`. */
  function SearchFrom(s: string, i: nat): (r: Option<nat>)
    ensures r.Some? ==> i <= r.value && MatchAt(s, r.value)
    ensures forall j :: i <= j && (r.None? || j < r.value) ==> !MatchAt(s, j)
    decreases |s| - i
  {
    if i + 7 > |s| then None
    else if MatchAt(s, i) then Some(i)
    else SearchFrom(s, i + 1)
  }

  /** The competence named by a cell's text, or `None` when the text holds
      no "MM/YYYY". When several are present the leftmost one wins. */
  function FindPeriod(text: string): (r: Option<Period>)
    ensures r.None? <==> forall i :: !MatchAt(text, i)
    ensures r.Some? ==> |r.value.month| == 2 && AllDigits(r.value.month)
    ensures r.Some? ==> r.value.year < 10000
  {
    match SearchFrom(text, 0)
    case None => None
    case Some(i) =>
      ValueBound(text[i + 3..i + 7]);
      assert Pow10(4) == 10000 by { assert Pow10(2) == 100; }
      Some(Period(text[i..i + 2], Value(text[i + 3..i + 7])))
  }

  /** A competence found is the two groups of the leftmost "DD/DDDD" in the
      cell: the month as its two digits of text, the year as `int` of its four. */
  lemma {:induction false} FindPeriodLeftmost(text: string)
    requires FindPeriod(text).Some?
    ensures exists i: nat ::
      && MatchAt(text, i) && (forall j: nat :: j < i ==> !MatchAt(text, j))
      && FindPeriod(text).value == Period(text[i..i + 2], Value(text[i + 3..i + 7]))
  {
    var i := SearchFrom(text, 0).value;
    assert MatchAt(text, i) && (forall j: nat :: j < i ==> !MatchAt(text, j));
  }

  /** A cell holding exactly "MM/YYYY" names that month and year. */
  lemma {:induction false} FindPeriodExact(m: string, y: string)
    requires |m| == 2 && AllDigits(m) && |y| == 4 && AllDigits(y)
    ensures FindPeriod(m + "/" + y) == Some(Period(m, Value(y)))
  {
    var s := m + "/" + y;
    assert s[3..7] == y;
    assert MatchAt(s, 0);
    assert SearchFrom(s, 0) == Some(0);
    assert s[0..2] == m;
  }
}
