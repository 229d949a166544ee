/** The result record `main` prints and saves: the CNPJ punctuated as
    XX.XXX.XXX/XXXX-XX, the revenue as "R$ " and a localised amount, the
    number of documents, the period and the month label; and the name of the
    file it is saved under. */
module Summary {
  import opened Wrappers
  import opened Digits
  import opened Amounts
  import opened Competence
  import opened Driver
  import opened Inputs
  import opened Text

  /** `re.sub(r'\D', '', s)`: the digits of `s`, in order. */
  function KeepDigits(s: string): (r: string)
    ensures AllDigits(r) && |r| <= |s|
  {
    if |s| == 0 then []
    else (if IsDigit(s[0]) then [s[0]] else []) + KeepDigits(s[1..])
  }

  /** The CNPJ as the summary shows it: its 14 digits punctuated, or the
      answer unchanged when it does not hold exactly 14 digits. */
  function FormatCnpj(cnpj: string): (r: string)
    ensures |KeepDigits(cnpj)| != 14 ==> r == cnpj
    ensures |KeepDigits(cnpj)| == 14 ==>
      |r| == 18 && r[2] == '.' && r[6] == '.' && r[10] == '/' && r[15] == '-'
  {
    var d := KeepDigits(cnpj);
    if |d| == 14 then d[..2] + "." + d[2..5] + "." + d[5..8] + "/" + d[8..12] + "-" + d[12..]
    else cnpj
  }

  /** The period: "MM/YYYY" with a month, the year alone without. */
  function PeriodLabel(ano: string, mes: string): string
  {
    if mes != "" then mes + "/" + ano else ano
  }

  /** The month label: the month, or "Ano todo" (the whole year). */
  function MonthLabel(mes: string): string
  {
    if mes != "" then mes else "Ano todo"
  }

  /** The name of the file the result is saved under. */
  function FileName(cnpj: string, period: string): string
  {
    "faturamento_" + KeepDigits(cnpj) + "_" + ReplaceChar(period, '/', '-') + ".json"
  }

  /** The printed and saved record. */
  datatype Report = Report(cnpj: string, revenue: string, documents: nat, period: string, month: string)

  /** The record for accepted answers and the driver's result. */
  function BuildReport(i: Input, e: Extraction): (r: Report)
    ensures r.documents == e.count
    ensures |r.revenue| > 3 && r.revenue[..3] == "R$ "
    ensures r.cnpj == FormatCnpj(i.cnpj)
    ensures i.mes == "" ==> r.period == i.ano && r.month == "Ano todo"
    ensures i.mes != "" ==> r.period == i.mes + "/" + i.ano && r.month == i.mes
  {
    Report(FormatCnpj(i.cnpj), "R$ " + FormatAmount(e.total), e.count,
           PeriodLabel(i.ano, i.mes), MonthLabel(i.mes))
  }

  /** One round of answers, with the portal's answers given as `rs`. An
      `Err` is a round `validar_entrada` sends back to be asked again (the
      program never stops on it); otherwise the scan runs and the record is
      built. */
  function Extract(cnpj: string, senha: string, ano: string, mes: string, rs: seq<Response>)
    : (r: Result<Report, InputError>)
    ensures r.Err? <==> Validate(cnpj, senha, ano, mes).Err?
    ensures r.Err? ==> r.error == Validate(cnpj, senha, ano, mes).error
    ensures r.Ok? ==>
      var i := Validate(cnpj, senha, ano, mes).value;
      && r.value.cnpj == FormatCnpj(i.cnpj)
      && r.value.documents == Crawl(rs, FilterOf(i)).count
      && |r.value.revenue| > 3 && r.value.revenue[..3] == "R$ "
  {
    match Validate(cnpj, senha, ano, mes)
    case Err(err) => Err(err)
    case Ok(i) => Ok(BuildReport(i, Crawl(rs, FilterOf(i))))
  }

  // ---------------------------------------------------------------------
  // Properties

  lemma {:induction false} KeepDigitsConcat(a: string, b: string)
    ensures KeepDigits(a + b) == KeepDigits(a) + KeepDigits(b)
    decreases |a|
  {
    if |a| > 0 {
      assert (a + b)[0] == a[0];
      assert (a + b)[1..] == a[1..] + b;
      KeepDigitsConcat(a[1..], b);
    } else {
      assert a + b == b;
    }
  }

  lemma {:induction false} KeepDigitsOfDigits(s: string)
    requires AllDigits(s)
    ensures KeepDigits(s) == s
    decreases |s|
  {
    if |s| > 0 {
      KeepDigitsOfDigits(s[1..]);
    }
  }

  lemma {:induction false} KeepDigitsSeparator(c: char)
    requires !IsDigit(c)
    ensures KeepDigits([c]) == []
  {}

  /** A separator between two pieces drops out of the digits. */
  lemma {:induction false} KeepDigitsJoin(x: string, c: char, y: string)
    requires !IsDigit(c) && AllDigits(y)
    ensures KeepDigits(x + [c] + y) == KeepDigits(x) + y
  {
    KeepDigitsConcat(x + [c], y);
    KeepDigitsConcat(x, [c]);
    KeepDigitsOfDigits(y);
    KeepDigitsSeparator(c);
    assert KeepDigits(x) + [] == KeepDigits(x);
  }

  /** Punctuating a CNPJ keeps its digits, in order. */
  lemma {:induction false} FormatCnpjKeepsDigits(cnpj: string)
    ensures KeepDigits(FormatCnpj(cnpj)) == KeepDigits(cnpj)
  {
    var d := KeepDigits(cnpj);
    if |d| == 14 {
      var a, b, c, e, g := d[..2], d[2..5], d[5..8], d[8..12], d[12..];
      KeepDigitsOfDigits(a);
      var s1 := a + "." + b;
      KeepDigitsJoin(a, '.', b);
      var s2 := s1 + "." + c;
      KeepDigitsJoin(s1, '.', c);
      var s3 := s2 + "/" + e;
      KeepDigitsJoin(s2, '/', e);
      var s4 := s3 + "-" + g;
      KeepDigitsJoin(s3, '-', g);
      assert FormatCnpj(cnpj) == s4;
      assert a + b + c + e + g == d;
    }
  }

  /** Formatting an already formatted CNPJ changes nothing. */
  lemma {:induction false} FormatCnpjIdempotent(cnpj: string)
    ensures FormatCnpj(FormatCnpj(cnpj)) == FormatCnpj(cnpj)
  {
    FormatCnpjKeepsDigits(cnpj);
  }

  /** `FormatCnpj` with the digit groups named, so that a concrete CNPJ
      can be formatted without unfolding the function on its whole text. */
  lemma {:induction false} FormatCnpjAt(cnpj: string, d: string, a: string, b: string,
                                        c: string, e: string, g: string)
    requires KeepDigits(cnpj) == d && |d| == 14
    requires d[..2] == a && d[2..5] == b && d[5..8] == c && d[8..12] == e && d[12..] == g
    ensures FormatCnpj(cnpj) == a + "." + b + "." + c + "/" + e + "-" + g
  {}

  /** A well-formed CNPJ answer is shown with its usual punctuation. */
  lemma {:induction false} CnpjExample()
    ensures FormatCnpj("12345678000199") == "12.345.678/0001-99"
  {
    CnpjDigits();
    CnpjSlices();
    CnpjJoined();
    FormatCnpjAt("12345678000199", "12345678000199", "12", "345", "678", "0001", "99");
  }

  lemma {:induction false} CnpjDigits()
    ensures KeepDigits("12345678000199") == "12345678000199"
  {
    assert AllDigits("12345678000199");
    KeepDigitsOfDigits("12345678000199");
  }

  lemma {:induction false} CnpjSlices()
    ensures var d := "12345678000199";
      d[..2] == "12" && d[2..5] == "345" && d[5..8] == "678" && d[8..12] == "0001" && d[12..] == "99"
  {}

  lemma {:induction false} CnpjJoined()
    ensures "12" + "." + "345" + "." + "678" + "/" + "0001" + "-" + "99" == "12.345.678/0001-99"
  {}

  /** The period label reads back, through the same "MM/YYYY" search the
      rows go through, as the period asked for; without a month it holds
      no competence at all. */
  lemma {:induction false} PeriodLabelCompetence(ano: string, mes: string)
    requires ValidYear(ano)
    requires mes == "" || (|mes| == 2 && AllDigits(mes))
    ensures mes != "" ==> FindPeriod(PeriodLabel(ano, mes)) == Some(Period(mes, Value(ano)))
    ensures mes == "" ==> FindPeriod(PeriodLabel(ano, mes)).None?
  {
    if mes != "" {
      FindPeriodExact(mes, ano);
    }
  }

  /** The saved file's name never holds a '/': whatever the answers, it is
      a plain name in the working directory. */
  lemma {:induction false} FileNamePlain(cnpj: string, period: string)
    ensures Lacks(FileName(cnpj, period), '/')
  {
    var d := KeepDigits(cnpj);
    var t := ReplaceChar(period, '/', '-');
    ReplaceCharRemoves(period, '/', '-');
    assert Lacks("faturamento_", '/') && Lacks("_", '/') && Lacks(".json", '/');
    DigitsLack(d, '/');
    LacksConcat("faturamento_", d, '/');
    LacksConcat("faturamento_" + d, "_", '/');
    LacksConcat("faturamento_" + d + "_", t, '/');
    LacksConcat("faturamento_" + d + "_" + t, ".json", '/');
  }

  /** With a month, the file name carries the period as "MM-YYYY". */
  lemma {:induction false} FilePeriod(ano: string, mes: string)
    requires ValidYear(ano) && |mes| == 2 && AllDigits(mes)
    ensures ReplaceChar(PeriodLabel(ano, mes), '/', '-') == mes + "-" + ano
  {
    ReplaceCharConcat(mes + "/", ano, '/', '-');
    ReplaceCharConcat(mes, "/", '/', '-');
    DigitsLack(mes, '/');
    DigitsLack(ano, '/');
    ReplaceCharAbsent(mes, '/', '-');
    ReplaceCharAbsent(ano, '/', '-');
  }

  /** The revenue shown reads back, through the parser the program applies
      to value cells, as the total in cents. */
  lemma {:induction false} RevenueReadsBack(i: Input, e: Extraction)
    ensures ParseAmount(BuildReport(i, e).revenue[3..]) == Some(e.total)
  {
    var r := BuildReport(i, e).revenue;
    assert r[3..] == FormatAmount(e.total);
    ParseFormat(e.total);
  }

  /** The revenue a run reports reads back, through the value-cell parser,
      as the total of the scan under the validated period. */
  lemma {:induction false} ExtractRevenue(cnpj: string, senha: string, ano: string, mes: string,
                                          rs: seq<Response>)
    requires Validate(cnpj, senha, ano, mes).Ok?
    ensures var i := Validate(cnpj, senha, ano, mes).value;
      ParseAmount(Extract(cnpj, senha, ano, mes, rs).value.revenue[3..])
        == Some(Crawl(rs, FilterOf(i)).total)
  {
    var i := Validate(cnpj, senha, ano, mes).value;
    var e := Crawl(rs, FilterOf(i));
    assert Extract(cnpj, senha, ano, mes, rs).value == BuildReport(i, e);
    RevenueReadsBack(i, e);
  }
}
