/** Classifying one row of the issued-documents table against the
    requested period (the body of the row loop of `processar_pagina`). */
module Rows {
  import opened Wrappers
  import opened Competence
  import opened Amounts

  /** What the program reads from a table row: whether the "issued" icon is
      present, the stripped text of the competence cell and of the value
      cell, each `None` when the row has no such cell. */
  datatype Row = Row(issued: bool, competence: Option<string>, value: Option<string>)

  /** The requested period: `year` is `int` of the validated four-digit
      year; `month` is the zero-padded month text, or "" for the whole year. */
  datatype PeriodFilter = PeriodFilter(year: nat, month: string)

  /** Why a row was passed over without stopping the scan. */
  datatype SkipReason =
    | NotIssued
    | NoCompetenceCell
    | NoCompetenceMatch
    | LaterYear
    | OtherMonth
    | NoValueCell
    | BadValue

  /** The fate of a row: passed over, end of the scan, or counted with its
      value in cents. */
  datatype Verdict = Skip(reason: SkipReason) | Stop | Counted(cents: int)

  /** The competence of an issued row whose competence cell names one. */
  function Dated(row: Row): Option<Period>
  {
    if row.issued && row.competence.Some? then FindPeriod(row.competence.value) else None
  }

  /** The competence of a row falls in the requested period. */
  predicate InPeriod(p: Period, f: PeriodFilter)
  {
    p.year == f.year && (f.month == "" || p.month == f.month)
  }

  /** The rules of the row loop, first applicable rule wins: no issued icon,
      no competence cell, no "MM/YYYY" in it -> skip; an earlier year -> stop;
      a later year -> skip; another month when one was asked for -> skip; no
      value cell or a value `float` rejects -> skip; otherwise count it. */
  function Classify(row: Row, f: PeriodFilter): (v: Verdict)
    ensures v.Stop? <==> Dated(row).Some? && Dated(row).value.year < f.year
    ensures v.Counted? <==>
      && Dated(row).Some? && InPeriod(Dated(row).value, f)
      && row.value.Some? && ParseAmount(row.value.value).Some?
    ensures v.Counted? ==> v.cents == ParseAmount(row.value.value).value
    ensures v == Skip(NotIssued) <==> !row.issued
    ensures v == Skip(LaterYear) <==> Dated(row).Some? && Dated(row).value.year > f.year
  {
    if !row.issued then Skip(NotIssued)
    else if row.competence.None? then Skip(NoCompetenceCell)
    else
      match FindPeriod(row.competence.value)
      case None => Skip(NoCompetenceMatch)
      case Some(p) =>
        if p.year < f.year then Stop
        else if p.year > f.year then Skip(LaterYear)
        else if f.month != "" && p.month != f.month then Skip(OtherMonth)
        else if row.value.None? then Skip(NoValueCell)
        else
          match ParseAmount(row.value.value)
          case None => Skip(BadValue)
          case Some(c) => Counted(c)
  }

  /** Whether a row stops the scan depends neither on the month asked for nor
      on the row's value cell: the year test comes before both. */
  lemma {:induction false} StopIgnoresMonthAndValue(row: Row, f: PeriodFilter, month: string, value: Option<string>)
    ensures Classify(row, f).Stop?
        <==> Classify(row.(value := value), f.(month := month)).Stop?
  {
  }

  /** Narrowing the filter from the whole year to one month never turns a
      skipped row into a counted one, and keeps the value of counted rows. */
  lemma {:induction false} MonthNarrows(row: Row, f: PeriodFilter)
    requires Classify(row, f).Counted?
    ensures Classify(row, f.(month := "")) == Classify(row, f)
  {
  }
}
