/** One page of the issued-documents listing (`processar_pagina`): classify
    the rows of the table body in order, add up the counted ones, and stop
    at the first row of an earlier year. */
module Pages {
  import opened Wrappers
  import opened Rows

  /** The page's contribution and whether the scan may go on to the next page. */
  datatype PageResult = PageResult(total: int, count: nat, more: bool)

  /** Position of the first row that stops the scan, or `|rows|`. */
  function StopIndex(rows: seq<Row>, f: PeriodFilter): (k: nat)
    ensures k <= |rows|
    ensures forall j :: 0 <= j < k ==> !Classify(rows[j], f).Stop?
    ensures k < |rows| ==> Classify(rows[k], f).Stop?
  {
    if |rows| == 0 then 0
    else if Classify(rows[0], f).Stop? then 0
    else 1 + StopIndex(rows[1..], f)
  }

  /** The values of the counted rows, in table order. */
  function CountedValues(rows: seq<Row>, f: PeriodFilter): seq<int>
  {
    if |rows| == 0 then []
    else
      var last := Classify(rows[|rows| - 1], f);
      CountedValues(rows[..|rows| - 1], f) + (if last.Counted? then [last.cents] else [])
  }

  function Sum(xs: seq<int>): int
  {
    if |xs| == 0 then 0 else Sum(xs[..|xs| - 1]) + xs[|xs| - 1]
  }

  /** What a page yields, stated without the loop: no table body or no rows
      gives (0, 0, false); otherwise the counted rows before the first
      stopping row are summed and counted, and the scan may go on exactly
      when no row stopped it. */
  function Expected(tbody: Option<seq<Row>>, f: PeriodFilter): PageResult
  {
    if tbody.None? || |tbody.value| == 0 then PageResult(0, 0, false)
    else
      var rows := tbody.value;
      var k := StopIndex(rows, f);
      var vs := CountedValues(rows[..k], f);
      PageResult(Sum(vs), |vs|, k == |rows|)
  }

  /** The row loop as the program runs it: accumulate, and break at the
      first row of an earlier year. */
  method ProcessPage(tbody: Option<seq<Row>>, f: PeriodFilter) returns (r: PageResult)
    ensures r == Expected(tbody, f)
    ensures tbody.None? || tbody == Some([]) ==> r == PageResult(0, 0, false)
  {
    if tbody.None? || |tbody.value| == 0 {
      return PageResult(0, 0, false);
    }
    var rows := tbody.value;
    var total, count, more := 0, 0, true;
    var i := 0;
    while i < |rows|
      invariant 0 <= i <= |rows|
      invariant forall j :: 0 <= j < i ==> !Classify(rows[j], f).Stop?
      invariant total == Sum(CountedValues(rows[..i], f))
      invariant count == |CountedValues(rows[..i], f)|
      invariant more
    {
      var v := Classify(rows[i], f);
      if v.Stop? {
        more := false;
        break;
      }
      CountedStep(rows, i, f);
      if v.Counted? {
        SumAppend(CountedValues(rows[..i], f), v.cents);
        total := total + v.cents;
        count := count + 1;
      }
      i := i + 1;
    }
    if more {
      assert rows[..i] == rows;
    }
    return PageResult(total, count, more);
  }

  /** Extending the prefix by one row extends the counted values by that
      row's value, if it is counted. */
  lemma {:induction false} CountedStep(rows: seq<Row>, i: nat, f: PeriodFilter)
    requires i < |rows|
    ensures Classify(rows[i], f).Counted? ==>
      CountedValues(rows[..i + 1], f) == CountedValues(rows[..i], f) + [Classify(rows[i], f).cents]
    ensures !Classify(rows[i], f).Counted? ==>
      CountedValues(rows[..i + 1], f) == CountedValues(rows[..i], f)
  {
    assert rows[..i + 1][..i] == rows[..i];
    assert CountedValues(rows[..i], f) + [] == CountedValues(rows[..i], f);
  }

  lemma {:induction false} SumAppend(xs: seq<int>, x: int)
    ensures Sum(xs + [x]) == Sum(xs) + x
  {
    assert (xs + [x])[..|xs|] == xs;
  }

  /** The contract of `StopIndex` pins it down. */
  lemma {:induction false} StopIndexUnique(rows: seq<Row>, f: PeriodFilter, k: nat)
    requires k <= |rows|
    requires forall j :: 0 <= j < k ==> !Classify(rows[j], f).Stop?
    requires k < |rows| ==> Classify(rows[k], f).Stop?
    ensures StopIndex(rows, f) == k
  {
  }

  lemma {:induction false} CountedValuesConcat(a: seq<Row>, b: seq<Row>, f: PeriodFilter)
    ensures CountedValues(a + b, f) == CountedValues(a, f) + CountedValues(b, f)
    decreases |b|
  {
    if |b| == 0 {
      assert a + b == a;
    } else {
      var b' := b[..|b| - 1];
      assert (a + b)[..|a + b| - 1] == a + b';
      assert (a + b)[|a + b| - 1] == b[|b| - 1];
      CountedValuesConcat(a, b', f);
    }
  }

  lemma {:induction false} SumConcat(xs: seq<int>, ys: seq<int>)
    ensures Sum(xs + ys) == Sum(xs) + Sum(ys)
    decreases |ys|
  {
    if |ys| == 0 {
      assert xs + ys == xs;
    } else {
      var ys' := ys[..|ys| - 1];
      assert (xs + ys)[..|xs + ys| - 1] == xs + ys';
      SumConcat(xs, ys');
    }
  }

  lemma {:induction false} CountedValuesBound(rows: seq<Row>, f: PeriodFilter)
    ensures |CountedValues(rows, f)| <= |rows|
    decreases |rows|
  {
    if |rows| > 0 {
      CountedValuesBound(rows[..|rows| - 1], f);
    }
  }

  /** A page never counts more documents than its table has rows. */
  lemma {:induction false} PageCountBound(rows: seq<Row>, f: PeriodFilter)
    ensures Expected(Some(rows), f).count <= |rows|
    ensures Expected(Some(rows), f).count <= StopIndex(rows, f)
  {
    if |rows| > 0 {
      CountedValuesBound(rows[..StopIndex(rows, f)], f);
    }
  }

  /** The scan goes on past a page exactly when the page has rows and none
      of them is of an earlier year. */
  lemma {:induction false} PageMoreIff(tbody: Option<seq<Row>>, f: PeriodFilter)
    ensures Expected(tbody, f).more <==>
      && tbody.Some? && |tbody.value| > 0
      && forall j :: 0 <= j < |tbody.value| ==> !Classify(tbody.value[j], f).Stop?
  {
    if tbody.Some? && |tbody.value| > 0 {
      var k := StopIndex(tbody.value, f);
      if k < |tbody.value| {
        assert Classify(tbody.value[k], f).Stop?;
      }
    }
  }

  /** Rows below the first row of an earlier year are never looked at. */
  lemma {:induction false} RowsAfterStopIgnored(a: seq<Row>, b: seq<Row>, f: PeriodFilter)
    requires exists j :: 0 <= j < |a| && Classify(a[j], f).Stop?
    ensures Expected(Some(a + b), f) == Expected(Some(a), f)
    ensures !Expected(Some(a), f).more
  {
    var k := StopIndex(a, f);
    assert forall j :: 0 <= j < k ==> (a + b)[j] == a[j];
    StopIndexUnique(a + b, f, k);
    assert (a + b)[..k] == a[..k];
  }

  /** Splitting a table in two where no row of the first part stops the scan:
      the two parts' totals and counts add up to the whole table's, and the
      scan goes on after the whole exactly when it goes on after the second
      part. This is why the driver may add up page results. */
  lemma {:induction false} PageSplit(a: seq<Row>, b: seq<Row>, f: PeriodFilter)
    requires |a| > 0 && |b| > 0
    requires Expected(Some(a), f).more
    ensures Expected(Some(a + b), f).total == Expected(Some(a), f).total + Expected(Some(b), f).total
    ensures Expected(Some(a + b), f).count == Expected(Some(a), f).count + Expected(Some(b), f).count
    ensures Expected(Some(a + b), f).more == Expected(Some(b), f).more
  {
    var kb := StopIndex(b, f);
    assert StopIndex(a, f) == |a|;
    assert a[..|a|] == a;
    forall j | 0 <= j < |a| + kb
      ensures !Classify((a + b)[j], f).Stop?
    {
      if j >= |a| {
        assert (a + b)[j] == b[j - |a|];
      }
    }
    if kb < |b| {
      assert (a + b)[|a| + kb] == b[kb];
    }
    StopIndexUnique(a + b, f, |a| + kb);
    assert (a + b)[..|a| + kb] == a + b[..kb];
    CountedValuesConcat(a, b[..kb], f);
    SumConcat(CountedValues(a, f), CountedValues(b[..kb], f));
  }

  /** Narrowing the filter to one month never counts more documents on a page
      than asking for the whole year. */
  lemma {:induction false} MonthNarrowing(tbody: Option<seq<Row>>, f: PeriodFilter)
    ensures Expected(tbody, f).count <= Expected(tbody, f.(month := "")).count
    ensures Expected(tbody, f).more == Expected(tbody, f.(month := "")).more
    ensures tbody.Some? ==> StopIndex(tbody.value, f) == StopIndex(tbody.value, f.(month := ""))
  {
    if tbody.Some? && |tbody.value| > 0 {
      var rows := tbody.value;
      var g := f.(month := "");
      var k := StopIndex(rows, f);
      forall j | 0 <= j < |rows|
        ensures Classify(rows[j], f).Stop? == Classify(rows[j], g).Stop?
      {
        StopIgnoresMonthAndValue(rows[j], f, "", rows[j].value);
      }
      StopIndexUnique(rows, g, k);
      CountedNarrows(rows[..k], f);
    }
  }

  lemma {:induction false} CountedNarrows(rows: seq<Row>, f: PeriodFilter)
    ensures |CountedValues(rows, f)| <= |CountedValues(rows, f.(month := ""))|
    decreases |rows|
  {
    if |rows| > 0 {
      var last := rows[|rows| - 1];
      CountedNarrows(rows[..|rows| - 1], f);
      if Classify(last, f).Counted? {
        MonthNarrows(last, f);
      }
    }
  }
}
