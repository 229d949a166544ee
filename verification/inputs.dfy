/** The checks `validar_entrada` applies to one round of answers: CNPJ and
    password must be non-empty once stripped, the year must be four digits,
    and the month, when given, must be a number from 1 to 12, which is then
    written with two digits. */
module Inputs {
  import opened Wrappers
  import opened Digits
  import opened Rows

  /** `str.isspace` for one character: the characters Python treats as
      whitespace. */
  predicate IsSpace(c: char)
  {
    || '\t' <= c <= '\r'
    || '\U{1c}' <= c <= ' '
    || c == '\U{85}' || c == '\U{a0}' || c == '\U{1680}'
    || '\U{2000}' <= c <= '\U{200a}'
    || c == '\U{2028}' || c == '\U{2029}' || c == '\U{202f}' || c == '\U{205f}' || c == '\U{3000}'
  }

  /** `s` with its leading whitespace removed. */
  function TrimStart(s: string): (r: string)
    ensures |r| <= |s| && r == s[|s| - |r|..]
    ensures forall i :: 0 <= i < |s| - |r| ==> IsSpace(s[i])
    ensures |r| > 0 ==> !IsSpace(r[0])
    decreases |s|
  {
    if |s| > 0 && IsSpace(s[0]) then TrimStart(s[1..]) else s
  }

  /** `s` with its trailing whitespace removed. */
  function TrimEnd(s: string): (r: string)
    ensures |r| <= |s| && r == s[..|r|]
    ensures forall i :: |r| <= i < |s| ==> IsSpace(s[i])
    ensures |r| > 0 ==> !IsSpace(r[|r| - 1])
    decreases |s|
  {
    if |s| > 0 && IsSpace(s[|s| - 1]) then TrimEnd(s[..|s| - 1]) else s
  }

  /** `s.strip()`. */
  function Strip(s: string): string
  {
    TrimEnd(TrimStart(s))
  }

  /** `s.isdigit()` on ASCII text: non-empty and digits only. */
  predicate IsDigitText(s: string)
  {
    |s| > 0 && AllDigits(s)
  }

  /** The year check: present, digits only, exactly four of them. */
  predicate ValidYear(ano: string)
  {
    IsDigitText(ano) && |ano| == 4
  }

  /** The month answer as the program keeps it: "" for the whole year, or
      `str(int(mes)).zfill(2)` for a number from 1 to 12; `None` when the
      answer is rejected. */
  function NormalizeMonth(mes: string): (r: Option<string>)
    ensures mes == "" ==> r == Some("")
    ensures r.None? <==> mes != "" && (!IsDigitText(mes) || Value(mes) < 1 || 12 < Value(mes))
    ensures r.Some? && mes != "" ==>
      |r.value| == 2 && AllDigits(r.value) && Value(r.value) == Value(mes)
  {
    if mes == "" then Some("")
    else if !IsDigitText(mes) || Value(mes) < 1 || 12 < Value(mes) then None
    else
      var v := Value(mes);
      assert Pow10(2) == 100 by { assert Pow10(1) == 10; }
      ZfillShowWidth(v, 2);
      Some(Zfill(Show(v), 2))
  }

  /** Why a round of answers is rejected, in the order the checks run. */
  datatype InputError = MissingCnpj | MissingPassword | BadYear | BadMonth

  /** Accepted answers: stripped CNPJ and password, the year text, and the
      month as `NormalizeMonth` leaves it. */
  datatype Input = Input(cnpj: string, senha: string, ano: string, mes: string)

  /** One round of `validar_entrada`, the first failing check deciding. */
  function Validate(cnpj: string, senha: string, ano: string, mes: string): (r: Result<Input, InputError>)
    ensures r == Err(MissingCnpj) <==> Strip(cnpj) == ""
    ensures r == Err(MissingPassword) <==> Strip(cnpj) != "" && Strip(senha) == ""
    ensures r == Err(BadYear) <==>
      Strip(cnpj) != "" && Strip(senha) != "" && !ValidYear(Strip(ano))
    ensures r.Ok? <==>
      && Strip(cnpj) != "" && Strip(senha) != "" && ValidYear(Strip(ano))
      && NormalizeMonth(Strip(mes)).Some?
    ensures r.Ok? ==>
      && r.value.cnpj == Strip(cnpj) && r.value.senha == Strip(senha)
      && r.value.ano == Strip(ano) && r.value.mes == NormalizeMonth(Strip(mes)).value
  {
    var c, s, a, m := Strip(cnpj), Strip(senha), Strip(ano), Strip(mes);
    if c == "" then Err(MissingCnpj)
    else if s == "" then Err(MissingPassword)
    else if !ValidYear(a) then Err(BadYear)
    else
      match NormalizeMonth(m)
      case None => Err(BadMonth)
      case Some(mm) => Ok(Input(c, s, a, mm))
  }

  /** The period the scan compares rows against: `int(ano)` and the month text. */
  function FilterOf(i: Input): (f: PeriodFilter)
    requires ValidYear(i.ano)
    ensures f.year == Value(i.ano) && f.month == i.mes && f.year < 10000
  {
    ValueBound(i.ano);
    assert Pow10(4) == 10000 by { assert Pow10(2) == 100 by { assert Pow10(1) == 10; } }
    PeriodFilter(Value(i.ano), i.mes)
  }

  // ---------------------------------------------------------------------
  // Properties

  /** Stripping twice is stripping once. */
  lemma {:induction false} StripIdempotent(s: string)
    ensures Strip(Strip(s)) == Strip(s)
  {
    var u := TrimStart(s);
    var t := TrimEnd(u);
    if |t| > 0 {
      assert t[0] == u[0];
      TrimStartFixed(t);
      TrimEndFixed(t);
    }
  }

  lemma {:induction false} TrimStartFixed(t: string)
    requires |t| > 0 && !IsSpace(t[0])
    ensures TrimStart(t) == t
  {}

  lemma {:induction false} TrimEndFixed(t: string)
    requires |t| > 0 && !IsSpace(t[|t| - 1])
    ensures TrimEnd(t) == t
  {}

  /** A normalised month is accepted as it stands. */
  lemma {:induction false} NormalizeMonthIdempotent(mes: string)
    requires NormalizeMonth(mes).Some?
    ensures NormalizeMonth(NormalizeMonth(mes).value) == NormalizeMonth(mes)
  {
    var n := NormalizeMonth(mes).value;
    if mes != "" {
      ZfillShowValue(n, 2);
    }
  }

  /** Two digit strings of the same length are equal exactly when they
      denote the same number. */
  lemma {:induction false} ValueInjective(a: string, b: string)
    requires AllDigits(a) && AllDigits(b) && |a| == |b| >= 1
    ensures a == b <==> Value(a) == Value(b)
  {
    ZfillShowValue(a, |a|);
    ZfillShowValue(b, |b|);
  }

  /** The month filter compares text, but with the month normalised and
      the competence month being two digits, text equality is equality of
      the month numbers: "3", "03" and "003" all select competence "03". */
  lemma {:induction false} MonthFilterNumeric(mes: string, mm: string)
    requires NormalizeMonth(mes).Some? && mes != ""
    requires |mm| == 2 && AllDigits(mm)
    ensures mm == NormalizeMonth(mes).value <==> Value(mm) == Value(mes)
  {
    ValueInjective(mm, NormalizeMonth(mes).value);
  }

  /** A single-digit month gains a leading zero. */
  lemma {:induction false} MonthExamplePadded()
    ensures NormalizeMonth("3") == Some("03")
  {
    assert Value("3") == 3;
    assert Show(3) == "3";
    assert Zeros(1) == "0";
    assert Zfill("3", 2) == "03";
  }

  /** Superfluous leading zeros are dropped before padding. */
  lemma {:induction false} MonthExampleTrimmed()
    ensures NormalizeMonth("012") == Some("12")
  {
    assert "012"[..2] == "01" && "01"[..1] == "0";
    assert Value("012") == 12;
    assert Show(12) == Show(1) + [DigitChar(2)];
    assert Show(12) == "12";
  }

  /** Zero and thirteen are not months. */
  lemma {:induction false} MonthExamplesRejected()
    ensures NormalizeMonth("13") == None
    ensures NormalizeMonth("0") == None
  {
    assert "13"[..1] == "1";
    assert Value("13") == 13;
    assert Value("0") == 0;
  }
}
