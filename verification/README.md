# NFS-e revenue extractor, modelled in Dafny

The program logs into the Brazilian national NFS-e portal, walks the listing
of issued service invoices page by page, and adds up the value of every
invoice whose competence (the "MM/YYYY" accounting period printed on the row)
falls in the year, or year and month, the user asked for. The listing is
ordered from newest to oldest. So the first issued row whose competence is
of an earlier year ends the whole scan; a cancelled row (one without the
"issued" icon) is skipped whatever its competence. The program then prints
and saves a small summary: the CNPJ (company tax id) punctuated, the revenue
in Brazilian notation ("R$ 4.333,97"), the number of invoices, the period and
the month label.

This project models the core of that program:

- `validar_entrada` is modelled by `Inputs.Validate`. It strips each answer,
  requires a CNPJ and a password, a four-digit year, and an optional month
  from 1 to 12, which is re-written with two digits.
- `processar_pagina` is modelled by `Rows.Classify`, one rule per row, and
  `Pages.ProcessPage`, the row loop. `Pages.Expected` is a loop-free reference
  for the loop.
- `buscar_notas` is modelled by `Driver.Run`, the page loop. `Driver.Crawl`
  is its recursive reference.
- The value parse and the summary's amount formatting are modelled in
  `Amounts`. Money is exact integer cents.
- The competence search `re.search(r'(\d{2})/(\d{4})')` is modelled in
  `Competence`.
- The CNPJ, period, month and file-name labels of `main` are modelled in
  `Summary`. `Summary.Extract` ties one round of answers, the scan and the
  record together.

The parts the model cannot see are given to it as data:

- HTML is given as `Rows.Row` values: whether the row has the "issued" icon,
  and the stripped text of its competence and value cells.
- Each HTTP response is a `Driver.Response`: status, table body, pagination
  block and "Próxima" href.
- The portal's answers are a finite list, one response per page number.

Modules: `Wrappers` (Option, Result), `Digits` (decimal digit strings,
`str(int(..))`, `zfill`), `Text` (one-character `str.replace`), `Amounts`, `Competence`, `Rows`, `Pages`,
`Driver`, `Inputs`, `Summary`.

## Model

| member | source | states |
|---|---|---|
| Rows.Classify | api_nfse.py:111-164 | A row stops the scan exactly when it is issued and its competence cell holds a "MM/YYYY" of an earlier year. It is counted exactly when it is issued, its competence is in the asked-for year (and month, if one was given), and its value cell parses. Its cents are then the parsed value. It is skipped as not issued exactly when the icon is missing, and as a later year exactly when it is issued and its competence cell holds a "MM/YYYY" of a later year. |
| Rows.StopIgnoresMonthAndValue | api_nfse.py:133-151 | Whether a row stops the scan does not depend on the month asked for or on the value cell, because the year test runs before both. |
| Rows.MonthNarrows | api_nfse.py:139-146 | A row counted under a month filter is counted, with the same value, under the whole-year filter. |
| Competence.FindPeriod | api_nfse.py:125-131 | The cell yields no competence exactly when no "DD/DDDD" occurs anywhere in it. Otherwise the month is two digits and the year is below 10000. |
| Competence.FindPeriodLeftmost | api_nfse.py:126-131 | A competence found is the groups of the leftmost "DD/DDDD" in the cell: the month is its two digits of text, and the year is int of its four digits. |
| Competence.FindPeriodExact | api_nfse.py:123-131 | A cell holding exactly "MM/YYYY" yields month MM and year int(YYYY). |
| Pages.ProcessPage | api_nfse.py:94-166 | The row loop returns the loop-free `Expected` result. A missing or empty table body gives (0, 0, False). |
| Pages.PageCountBound | api_nfse.py:159-160 | A page counts at most as many invoices as it has rows, and none after the first stopping row. |
| Pages.PageMoreIff | api_nfse.py:98-109 | The page says "go on" exactly when it has rows and none of them is an issued row whose competence cell holds a "MM/YYYY" of an earlier year. A cancelled row of an earlier year does not stop it. |
| Pages.RowsAfterStopIgnored | api_nfse.py:133-137 | Rows after the first stopping row (an issued row whose competence is of an earlier year) change nothing, and the page then says "stop". |
| Pages.PageSplit | api_nfse.py:111-166 | When a table is split into two parts and the first part does not stop, the totals and counts of the parts add up to the whole table's. The whole says "go on" exactly when the second part does. |
| Pages.MonthNarrowing | api_nfse.py:139-146 | On any page, a month filter counts no more invoices than the whole year does, and it stops the scan at the same row. |
| Driver.Run | api_nfse.py:168-223 | The page loop returns the recursive `Crawl` result: revenue, invoice count, pages requested and the reason it stopped. |
| Driver.CrawlPages | api_nfse.py:179-219 | After requesting n pages, the totals are the sums of the results of pages 1..n, and the driver moved on from every page but the last. It stopped for the reason the last page gives (failed fetch, scan ended, no pagination, no live "Próxima" link) or because no further response was given. |
| Driver.FetchFailedAddsNothing | api_nfse.py:191-193 | When the run ends on a failed fetch, that page's status is not 200, and the totals are those of the pages before it. |
| Driver.LaterResponsesIgnored | api_nfse.py:206-219 | Once the driver has stopped for a reason of its own, responses for later pages make no difference. |
| Driver.PageUrlInjective | api_nfse.py:182-186 | Different page numbers are requested at different URLs. |
| Driver.FirstPageUrl | api_nfse.py:177-186 | Page 1 is the bare listing URL, and no other page is. |
| Amounts.ParseFormat | api_nfse.py:153-157 | Every amount of cents the summary prints after "R$ " is read back as that same amount by the value-cell parser, negative amounts included. |
| Amounts.FormatParse | api_nfse.py:153-157 | Every text spelled the way the summary spells amounts parses, and formatting the result gives the text back. |
| Amounts.ParseIgnoresDots | api_nfse.py:156-157 | Every '.' in a value cell is ignored wherever it stands: inserting one anywhere leaves the parse unchanged. |
| Amounts.ParseExampleThousands | api_nfse.py:153-157 | The value cell "4.333,97" from the program's comment reads as 433397 cents. |
| Amounts.ParseExampleCents | api_nfse.py:153-157 | The value cell "51,60" reads as 5160 cents. |
| Amounts.FormatZero | api_nfse.py:274 | A zero total is shown as "0,00". |
| Inputs.Validate | api_nfse.py:14-40 | Answers are rejected for the first failing check, in order: empty CNPJ, empty password, a year that is not four digits, a bad month. Each error occurs exactly when its check is the first to fail. Accepted answers are the stripped texts, with the month normalised. |
| Inputs.NormalizeMonth | api_nfse.py:30-38 | An empty month means the whole year. A month is rejected exactly when it is not all digits or its number is outside 1..12. An accepted month is two digits with the same number. |
| Inputs.NormalizeMonthIdempotent | api_nfse.py:37-38 | A normalised month is accepted and left unchanged by a second normalisation. |
| Inputs.MonthFilterNumeric | api_nfse.py:145 | The month filter compares text, but a two-digit competence month equals the normalised month exactly when the numbers agree. So "3", "03" and "003" all select competence "03". |
| Inputs.MonthExamplePadded | api_nfse.py:37-38 | Month "3" becomes "03". |
| Inputs.MonthExampleTrimmed | api_nfse.py:38 | Month "012" becomes "12". |
| Inputs.MonthExamplesRejected | api_nfse.py:34-36 | Months "13" and "0" are rejected. |
| Inputs.StripIdempotent | api_nfse.py:15 | Stripping an answer twice is stripping it once. |
| Inputs.FilterOf | api_nfse.py:134-145 | The scan compares rows against int(year), which is below 10000, and the month text as validated. |
| Summary.FormatCnpj | api_nfse.py:234-239 | A CNPJ without exactly 14 digits is shown as typed. Otherwise it is 18 characters with '.', '.', '/', '-' at positions 2, 6, 10 and 15. |
| Summary.FormatCnpjKeepsDigits | api_nfse.py:235-237 | Punctuating keeps the CNPJ's digits, in order. |
| Summary.FormatCnpjIdempotent | api_nfse.py:235-239 | Punctuating an already punctuated CNPJ changes nothing. |
| Summary.CnpjExample | api_nfse.py:234-237 | "12345678000199" is shown as "12.345.678/0001-99". |
| Summary.KeepDigits | api_nfse.py:235 | `re.sub(r'\D', '', s)` keeps only digits and never lengthens the text. |
| Summary.PeriodLabelCompetence | api_nfse.py:241-247 | The period label "MM/YYYY" reads back, through the same competence search the rows go through, as the period asked for. A whole-year label holds no competence. |
| Summary.FileNamePlain | api_nfse.py:288 | The saved file's name never holds a '/', whatever the answers. |
| Text.ReplaceCharRemoves | api_nfse.py:288 | After `replace('/', '-')` no '/' is left in the text. |
| Summary.FilePeriod | api_nfse.py:288 | With a month, the file name carries the period as "MM-YYYY". |
| Summary.BuildReport | api_nfse.py:235-278 | The record holds the punctuated CNPJ and the driver's invoice count, and its revenue starts with "R$ ". With a month, the period is "MM/YYYY" and the month label is the month. For the whole year, the period is the year alone and the month label is "Ano todo". |
| Summary.RevenueReadsBack | api_nfse.py:274 | The revenue shown after "R$ " reads back, through the value-cell parser, as the total in cents. |
| Summary.Extract | api_nfse.py:232-278 | A round of answers that `validar_entrada` would send back gives the error of the first failing check. Accepted answers give a record with the punctuated CNPJ, the number of invoices the driver counts under the validated period, and a revenue that starts with "R$ ". |
| Summary.ExtractRevenue | api_nfse.py:269-274 | The revenue a run reports reads back after "R$ ", through the value-cell parser, as the driver's total in cents under the validated period. |

## Left out

- `fazer_login`: the login exchange is HTTP and HTML work. The model assumes the session is logged in. In the program a failed login raises, and `main` then prints an error and returns 1 with no summary; the model has no such outcome.
- HTML parsing with BeautifulSoup is not modelled. Rows and responses are given already read.
- Network, timeouts and session headers are left out. Each response is data.
- Driver.Run: a page request that raises (a timeout or a lost connection) is not modelled. `buscar_notas` does not catch it, so in the program the whole run aborts: the totals of the earlier pages are lost and no summary is printed or saved. Every modelled response has a status.
- `input`, `print`, the JSON dump, the file write and the traceback in `main` are left out. The file name and the record's fields are modelled; the writing is not.
- The prompt loop of `validar_entrada` is not modelled. `Validate` models one round of answers and says which check sent the user back.
- Driver.Run: the program loops for as long as the portal offers a live next page. The model is given a finite list of responses. When the list runs out while the program would request another page, the model stops with `OutOfResponses`, a reason of the model's own.
- Driver.Run: it does not return the URLs it requests. Page `n` is the response at index `n - 1`, and `Driver.PageUrl` gives its URL.
- Amounts: the program adds values as binary floating point and rounds once, in `f"{x:,.2f}"`. The model adds exact cents. Rounding drift over many invoices is not modelled.
- Amounts.ParseFormat: a total printed as "-0,00" (a float sum slightly below zero) cannot arise from exact cents and is not modelled.
- Amounts.ParseAmount: the model of `float` accepts an optional sign and digits with at most two decimals. Texts that `float` accepts but a portal value never is (three or more decimals, exponents, underscores, "inf", "nan", surrounding blanks) read as a failed parse. Such a row would be skipped by the model but counted by the program.
- Digits: `str.isdigit`, `\d` and `int` also accept non-ASCII digits. The model's digits are the ASCII '0'..'9' only. `str.isdigit` also accepts characters that `int` rejects, such as "²". A month "²" makes `int(mes)` raise outside any handler. A year "²²²²" passes the year check, and then `int(ano_filtro)` raises on every dated row; the row handler swallows it, so nothing is counted and the scan never stops on an earlier year. The model has neither outcome.
- Rows.Classify: the catch-all `except` around a row is modelled only for what can fail there, the value parse (`Skip(BadValue)`). With ASCII digits the year comparisons cannot raise.
- Summary: `MonthLabel` and `PeriodLabel` carry no contracts of their own. They are stated through the ensures of `Summary.BuildReport`, and through `Summary.PeriodLabelCompetence` and `Summary.FilePeriod`.
