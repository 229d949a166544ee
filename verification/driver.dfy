/** The pagination driver (`buscar_notas`): request listing pages 1, 2, ...
    in turn, add up each page's result, and stop at the first page that
    fails, ends the scan, or offers no live "Próxima" link. The portal's
    answers are given up front as a finite list of responses, one per page
    number. */
module Driver {
  import opened Wrappers
  import opened Digits
  import opened Rows
  import opened Pages

  /** What the program reads from the response for one listing page: the
      HTTP status, the table body, whether there is a pagination block, and
      the href of its "Próxima" link (`None` when there is no such link; a
      link without an href reads as ""). */
  datatype Response = Response(
    status: int,
    tbody: Option<seq<Row>>,
    pagination: bool,
    nextHref: Option<string>)

  /** Why the driver stopped requesting pages. `OutOfResponses` is the
      model's own: the list of responses ran out while the program would
      have requested another page. */
  datatype StopReason =
    | FetchFailed(status: int)
    | ScanEnded
    | NoPagination
    | NoNextLink
    | OutOfResponses

  /** The accumulated revenue in cents, the number of documents counted,
      the number of pages requested, and why the driver stopped. */
  datatype Extraction = Extraction(total: int, count: nat, pages: nat, reason: StopReason)

  const BaseUrl: string := "https://www.nfse.gov.br/EmissorNacional/Notas/Emitidas"

  /** The URL of listing page `n`: the bare listing for page 1, `?pg=<n>`
      after it for the others. */
  function PageUrl(n: nat): string
    requires n >= 1
  {
    if n == 1 then BaseUrl else BaseUrl + "?pg=" + Show(n)
  }

  /** `t in s` for strings: `t` occurs in `s` at some position. */
  predicate Contains(s: string, t: string)
    decreases |s|
  {
    |t| <= |s| && (s[..|t|] == t || Contains(s[1..], t))
  }

  /** The "Próxima" link leads somewhere: it exists and its href does not
      contain "javascript:". */
  predicate LiveNext(r: Response)
  {
    r.nextHref.Some? && !Contains(r.nextHref.value, "javascript:")
  }

  /** The driver moves on from a response whose page gave `p`: it was
      fetched, the page did not end the scan, and it offers a live link to
      the next page. */
  predicate Advances(r: Response, p: PageResult)
  {
    r.status == 200 && p.more && r.pagination && LiveNext(r)
  }

  /** Why the driver stops at a response it does not move on from. */
  function Halt(r: Response, p: PageResult): StopReason
  {
    if r.status != 200 then FetchFailed(r.status)
    else if !p.more then ScanEnded
    else if !r.pagination then NoPagination
    else NoNextLink
  }

  /** What the program makes of a response: the page's result when it was
      fetched, nothing when it was not. */
  function Gain(r: Response, f: PeriodFilter): PageResult
  {
    if r.status == 200 then Expected(r.tbody, f) else PageResult(0, 0, false)
  }

  /** The result of every response, in page order. */
  function Results(rs: seq<Response>, f: PeriodFilter): (ps: seq<PageResult>)
    ensures |ps| == |rs|
  {
    seq(|rs|, i requires 0 <= i < |rs| => Gain(rs[i], f))
  }

  /** `e` preceded by pages that added `total` and `count`. */
  function Prepend(total: int, count: nat, pages: nat, e: Extraction): Extraction
  {
    Extraction(total + e.total, count + e.count, pages + e.pages, e.reason)
  }

  /** The driver from page `i + 1` on, over responses whose pages gave
      `ps`: each fetched page adds its result, a failed fetch adds nothing,
      and the driver goes on exactly while it `Advances`. */
  function CrawlAt(rs: seq<Response>, ps: seq<PageResult>, i: nat): (e: Extraction)
    requires |ps| == |rs| && i <= |rs|
    ensures e.pages <= |rs| - i
    ensures e.reason == OutOfResponses ==> e.pages == |rs| - i
    ensures e.reason != OutOfResponses ==> 1 <= e.pages
    decreases |rs| - i
  {
    if i == |rs| then Extraction(0, 0, 0, OutOfResponses)
    else if Advances(rs[i], ps[i]) then Prepend(ps[i].total, ps[i].count, 1, CrawlAt(rs, ps, i + 1))
    else Extraction(ps[i].total, ps[i].count, 1, Halt(rs[i], ps[i]))
  }

  /** The driver stated without the loop. */
  function Crawl(rs: seq<Response>, f: PeriodFilter): Extraction
  {
    CrawlAt(rs, Results(rs, f), 0)
  }

  /** The `while continuar` loop of `buscar_notas`. Page `page` is the
      response at index `page - 1`. */
  method Run(rs: seq<Response>, f: PeriodFilter) returns (e: Extraction)
    ensures e == Crawl(rs, f)
  {
    ghost var ps := Results(rs, f);
    var total: int, count: nat := 0, 0;
    var page := 1;
    while page <= |rs|
      invariant 1 <= page <= |rs| + 1
      invariant Crawl(rs, f) == Prepend(total, count, page - 1, CrawlAt(rs, ps, page - 1))
    {
      var r := rs[page - 1];
      var p := Visit(r, f);
      assert ps[page - 1] == p;
      PrependTwice(total, count, page - 1, p.total, p.count, CrawlAt(rs, ps, page));
      total := total + p.total;
      count := count + p.count;
      if !Advances(r, p) {
        return Extraction(total, count, page, Halt(r, p));
      }
      page := page + 1;
    }
    e := Extraction(total, count, page - 1, OutOfResponses);
  }

  /** One page request: a response other than 200 adds nothing, any other
      response is processed as a page. */
  method Visit(r: Response, f: PeriodFilter) returns (p: PageResult)
    ensures p == Gain(r, f)
    ensures r.status != 200 ==> p == PageResult(0, 0, false)
  {
    if r.status != 200 {
      return PageResult(0, 0, false);
    }
    p := ProcessPage(r.tbody, f);
  }

  lemma {:induction false} PrependTwice(t: int, c: nat, n: nat, t': int, c': nat, e: Extraction)
    ensures Prepend(t, c, n, Prepend(t', c', 1, e)) == Prepend(t + t', c + c', n + 1, e)
  {}

  /** Sum of the totals of a run of page results. */
  function Totals(ps: seq<PageResult>): int
  {
    if |ps| == 0 then 0 else ps[0].total + Totals(ps[1..])
  }

  /** Sum of the counts of a run of page results. */
  function Counts(ps: seq<PageResult>): nat
  {
    if |ps| == 0 then 0 else ps[0].count + Counts(ps[1..])
  }

  /** What the driver yields from page `i + 1` on, stated page by page: it
      requests `n` pages, moves on from all but the last, adds up exactly
      their results, and stops for the reason the last one gives, or because
      the responses ran out after moving on from every one of them. */
  lemma {:induction false} CrawlAtPages(rs: seq<Response>, ps: seq<PageResult>, i: nat)
    requires |ps| == |rs| && i <= |rs|
    ensures var e := CrawlAt(rs, ps, i);
      && i + e.pages <= |rs|
      && e.total == Totals(ps[i..i + e.pages])
      && e.count == Counts(ps[i..i + e.pages])
      && (forall j :: i <= j < i + e.pages - 1 ==> Advances(rs[j], ps[j]))
      && (e.reason == OutOfResponses ==> forall j :: i <= j < |rs| ==> Advances(rs[j], ps[j]))
      && (e.reason != OutOfResponses ==>
            !Advances(rs[i + e.pages - 1], ps[i + e.pages - 1])
            && e.reason == Halt(rs[i + e.pages - 1], ps[i + e.pages - 1]))
    decreases |rs| - i
  {
    var e := CrawlAt(rs, ps, i);
    if i < |rs| {
      if Advances(rs[i], ps[i]) {
        CrawlAtPages(rs, ps, i + 1);
        var n := CrawlAt(rs, ps, i + 1).pages;
        assert ps[i..i + 1 + n][0] == ps[i];
        assert ps[i..i + 1 + n][1..] == ps[i + 1..i + 1 + n];
      } else {
        assert ps[i..i + 1][1..] == [];
      }
    }
  }

  /** The driver's result, page by page: after requesting `n` pages its
      totals are the sums of the results of pages 1..n in order; it moved
      on from every page but the last; and it stopped for the reason the
      last page gives, or because the responses ran out. */
  lemma {:induction false} CrawlPages(rs: seq<Response>, f: PeriodFilter)
    ensures var e := Crawl(rs, f);
      var ps := Results(rs, f);
      && e.pages <= |rs|
      && e.total == Totals(ps[..e.pages])
      && e.count == Counts(ps[..e.pages])
      && (forall j :: 0 <= j < e.pages - 1 ==> Advances(rs[j], ps[j]))
      && (e.reason == OutOfResponses ==> forall j :: 0 <= j < |rs| ==> Advances(rs[j], ps[j]))
      && (e.reason != OutOfResponses ==>
            !Advances(rs[e.pages - 1], ps[e.pages - 1]) && e.reason == Halt(rs[e.pages - 1], ps[e.pages - 1]))
  {
    var ps := Results(rs, f);
    CrawlAtPages(rs, ps, 0);
    assert ps[0..Crawl(rs, f).pages] == ps[..Crawl(rs, f).pages];
  }

  /** A page that could not be fetched ends the run and adds nothing. */
  lemma {:induction false} FetchFailedAddsNothing(rs: seq<Response>, f: PeriodFilter)
    requires Crawl(rs, f).reason.FetchFailed?
    ensures var e := Crawl(rs, f);
      && rs[e.pages - 1].status == e.reason.status && e.reason.status != 200
      && e.total == Totals(Results(rs, f)[..e.pages - 1])
      && e.count == Counts(Results(rs, f)[..e.pages - 1])
  {
    var e := Crawl(rs, f);
    var ps := Results(rs, f);
    CrawlPages(rs, f);
    TotalsSnoc(ps[..e.pages - 1], ps[e.pages - 1]);
    assert ps[..e.pages - 1] + [ps[e.pages - 1]] == ps[..e.pages];
  }

  lemma {:induction false} TotalsSnoc(ps: seq<PageResult>, p: PageResult)
    ensures Totals(ps + [p]) == Totals(ps) + p.total
    ensures Counts(ps + [p]) == Counts(ps) + p.count
    decreases |ps|
  {
    if |ps| > 0 {
      assert (ps + [p])[1..] == ps[1..] + [p];
      TotalsSnoc(ps[1..], p);
    } else {
      assert ps + [p] == [p];
    }
  }

  /** Once the driver has stopped for a reason of its own, responses for
      later pages make no difference: they are never requested. */
  lemma {:induction false} LaterResponsesIgnored(rs: seq<Response>, more: seq<Response>, f: PeriodFilter)
    requires Crawl(rs, f).reason != OutOfResponses
    ensures Crawl(rs + more, f) == Crawl(rs, f)
  {
    var ps := Results(rs, f);
    var qs := Results(rs + more, f);
    assert forall j :: 0 <= j < |rs| ==> (rs + more)[j] == rs[j] && qs[j] == ps[j];
    CrawlAtPrefix(rs, ps, rs + more, qs, 0);
  }

  lemma {:induction false} CrawlAtPrefix(rs: seq<Response>, ps: seq<PageResult>,
                                         qs: seq<Response>, ps': seq<PageResult>, i: nat)
    requires |ps| == |rs| && |ps'| == |qs| && |rs| <= |qs| && i <= |rs|
    requires forall j :: 0 <= j < |rs| ==> qs[j] == rs[j] && ps'[j] == ps[j]
    requires CrawlAt(rs, ps, i).reason != OutOfResponses
    ensures CrawlAt(qs, ps', i) == CrawlAt(rs, ps, i)
    decreases |rs| - i
  {
    if i < |rs| && Advances(rs[i], ps[i]) {
      CrawlAtPrefix(rs, ps, qs, ps', i + 1);
    }
  }

  /** Page 1 is the bare listing. */
  lemma {:induction false} FirstPageUrl()
    ensures PageUrl(1) == BaseUrl
    ensures forall n :: n >= 2 ==> PageUrl(n) != BaseUrl
  {
    forall n | n >= 2
      ensures PageUrl(n) != BaseUrl
    {
      assert |PageUrl(n)| > |BaseUrl|;
    }
  }

  /** Different pages are requested at different URLs. */
  lemma {:induction false} PageUrlInjective(m: nat, n: nat)
    requires m >= 1 && n >= 1 && PageUrl(m) == PageUrl(n)
    ensures m == n
  {
    FirstPageUrl();
    if m >= 2 && n >= 2 {
      var k := |BaseUrl + "?pg="|;
      assert PageUrl(m)[k..] == Show(m);
      assert PageUrl(n)[k..] == Show(n);
      ValueShow(m);
      ValueShow(n);
    }
  }
}
