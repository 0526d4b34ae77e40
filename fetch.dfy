/** scrap(año, mes, tipo_cotizacion): choose the page URL from the market
    type, then post the month's days 1, 2, ..., 6 in turn and keep the first
    page that comes back without an exception. The network is a parameter:
    `respond(url, fecha)` is None when requests.post or BeautifulSoup raises,
    and otherwise the text of every `td style="padding: 1%"` of the page. */
module Fetch {
  import opened Results
  import opened Text
  import opened Dates

  /** One form submission: the page URL and its `fecha` field. */
  datatype Request = Request(url: string, fecha: string)

  type Responder = (string, string) -> Option<seq<string>>

  const BluePrefix := "https://www.cotizacion-dolar.com.ar/dolar-blue-historico-"
  const OficialPrefix := "https://www.cotizacion-dolar.com.ar/dolar-historico-"

  /** The two market types the script knows. */
  predicate KnownType(tipo: string) {
    tipo == "blue" || tipo == "oficial"
  }

  /** The page for a market type and year; any other type raises ValueError. */
  function PageUrl(tipo: string, year: int): (r: Result<string>)
    ensures r.Ok? <==> KnownType(tipo)
    ensures r.Err? ==> r.error == UnknownType
  {
    if tipo == "blue" then Ok(BluePrefix + IntToString(year) + ".php")
    else if tipo == "oficial" then Ok(OficialPrefix + IntToString(year) + ".php")
    else Err(UnknownType)
  }

  /** Distinct (type, year) pairs never share a page. */
  lemma PageUrlInjective(t1: string, y1: int, t2: string, y2: int)
    requires PageUrl(t1, y1).Ok? && PageUrl(t1, y1) == PageUrl(t2, y2)
    ensures t1 == t2 && y1 == y2
  {
    var u := PageUrl(t1, y1).value;
    var n := |"https://www.cotizacion-dolar.com.ar/dolar-"|;
    assert BluePrefix[n] == 'b' && OficialPrefix[n] == 'h';
    var p1 := if t1 == "blue" then BluePrefix else OficialPrefix;
    var p2 := if t2 == "blue" then BluePrefix else OficialPrefix;
    assert u[n] == p1[n] && u[n] == p2[n];
    assert t1 == t2;
    var s1, s2 := IntToString(y1), IntToString(y2);
    assert u == p1 + s1 + ".php" == p1 + s2 + ".php";
    assert |s1| == |s2|;
    assert s1 == u[|p1|..|p1| + |s1|] == s2;
    IntToStringInjective(y1, y2);
  }

  /** Probe day d does not raise: datetime.datetime accepts the date and the
      post and the HTML parse both succeed. */
  predicate AttemptOk(respond: Responder, url: string, y: int, m: int, d: int) {
    ValidDate(y, m, d) && respond(url, FormatFecha(y, m, d)).Some?
  }

  /** The first probe day in d .. 6 whose attempt does not raise; 7 if none. */
  function FirstOk(respond: Responder, url: string, y: int, m: int, d: int): (k: int)
    requires 1 <= d <= 7
    ensures d <= k <= 7
    ensures k < 7 ==> AttemptOk(respond, url, y, m, k)
    ensures forall j :: d <= j < k ==> !AttemptOk(respond, url, y, m, j)
    decreases 7 - d
  {
    if d == 7 then 7
    else if AttemptOk(respond, url, y, m, d) then d
    else FirstOk(respond, url, y, m, d + 1)
  }

  /** The requests for probe days 1 .. n of month m, in that order. */
  function Posted(url: string, y: int, m: int, n: int): (rs: seq<Request>)
    requires ValidDate(y, m, 1) && 0 <= n <= 6
    ensures |rs| == n
    ensures forall i :: 0 <= i < n ==> rs[i] == Request(url, FormatFecha(y, m, i + 1))
  {
    if n == 0 then [] else Posted(url, y, m, n - 1) + [Request(url, FormatFecha(y, m, n))]
  }

  /** What one call of scrap ends with, and the requests it posted. */
  datatype Fetched = Fetched(cells: Result<seq<string>>, sent: seq<Request>)

  /** scrap as a function of the network's answers. A type check failure
      raises before any request; a date datetime refuses (year outside
      1 .. 9999) raises inside the loop before the post, for every day. */
  function ScrapSpec(respond: Responder, year: int, month: int, tipo: string): Fetched {
    match PageUrl(tipo, year)
    case Err(e) => Fetched(Err(e), [])
    case Ok(url) =>
      if !ValidDate(year, month, 1) then Fetched(Err(SoupUnbound), [])
      else
        var k := FirstOk(respond, url, year, month, 1);
        if k == 7 then Fetched(Err(SoupUnbound), Posted(url, year, month, 6))
        else Fetched(Ok(respond(url, FormatFecha(year, month, k)).value), Posted(url, year, month, k))
  }

  /** The probe loop of scrap: `soup` stays unbound (None) until an attempt
      completes, and reading it unbound after the loop is SoupUnbound. */
  method Scrap(respond: Responder, year: int, month: int, tipo: string)
    returns (cells: Result<seq<string>>, sent: seq<Request>)
    ensures Fetched(cells, sent) == ScrapSpec(respond, year, month, tipo)
    ensures |sent| <= 6
    ensures !KnownType(tipo) ==> cells == Err(UnknownType) && sent == []
  {
    sent := [];
    var page := PageUrl(tipo, year);
    if page.Err? {
      cells := Err(page.error);
      return;
    }
    var url := page.value;
    var soup: Option<seq<string>> := None;
    var day := 1;
    while day < 7
      invariant 1 <= day <= 7
      invariant soup == None
      invariant !ValidDate(year, month, 1) ==> sent == []
      invariant ValidDate(year, month, 1) ==>
        sent == Posted(url, year, month, day - 1) &&
        FirstOk(respond, url, year, month, 1) == FirstOk(respond, url, year, month, day)
    {
      if ValidDate(year, month, day) {
        var fecha := FormatFecha(year, month, day);
        sent := sent + [Request(url, fecha)];
        var answer := respond(url, fecha);
        if answer.Some? {
          soup := answer;
          break;
        }
      }
      day := day + 1;
    }
    if soup == None {
      cells := Err(SoupUnbound);
    } else {
      cells := Ok(soup.value);
    }
  }

  /** scrap returns cells exactly when the type is known and some probe day in
      1 .. 6 does not raise; the cells are those of the first such day. */
  lemma ScrapSucceedsIff(respond: Responder, year: int, month: int, tipo: string)
    ensures var f := ScrapSpec(respond, year, month, tipo);
      f.cells.Ok? <==>
        PageUrl(tipo, year).Ok? &&
        exists d :: 1 <= d <= 6 && AttemptOk(respond, PageUrl(tipo, year).value, year, month, d)
    ensures var f := ScrapSpec(respond, year, month, tipo);
      f.cells.Ok? ==>
        exists d :: 1 <= d <= 6 &&
          AttemptOk(respond, PageUrl(tipo, year).value, year, month, d) &&
          (forall j :: 1 <= j < d ==> !AttemptOk(respond, PageUrl(tipo, year).value, year, month, j)) &&
          Some(f.cells.value) == respond(PageUrl(tipo, year).value, FormatFecha(year, month, d))
  {
    if PageUrl(tipo, year).Ok? {
      var url := PageUrl(tipo, year).value;
      var k := FirstOk(respond, url, year, month, 1);
      if !ValidDate(year, month, 1) {
        forall d | 1 <= d <= 6 ensures !AttemptOk(respond, url, year, month, d) {
        }
      } else if k < 7 {
        assert AttemptOk(respond, url, year, month, k);
      }
    }
  }

  /** When every probe day raises, scrap fails with `soup` unbound after six
      posts (none if datetime refused the date); no cells are returned. */
  lemma ScrapExhausted(respond: Responder, year: int, month: int, tipo: string)
    requires PageUrl(tipo, year).Ok?
    requires forall d :: 1 <= d <= 6 ==> !AttemptOk(respond, PageUrl(tipo, year).value, year, month, d)
    ensures ScrapSpec(respond, year, month, tipo).cells == Err(SoupUnbound)
    ensures |ScrapSpec(respond, year, month, tipo).sent| == if ValidDate(year, month, 1) then 6 else 0
  {
  }

  /** The probes go out for days 1, 2, ... of the month in order, at most six. */
  lemma ScrapProbesInOrder(respond: Responder, year: int, month: int, tipo: string, url: string, f: Fetched)
    requires PageUrl(tipo, year) == Ok(url)
    requires f == ScrapSpec(respond, year, month, tipo)
    ensures |f.sent| <= 6
    ensures forall i :: 0 <= i < |f.sent| ==>
      ValidDate(year, month, i + 1) && f.sent[i] == Request(url, FormatFecha(year, month, i + 1))
  {
    if ValidDate(year, month, 1) {
      var k := FirstOk(respond, url, year, month, 1);
      assert f.sent == Posted(url, year, month, if k == 7 then 6 else k);
    }
  }

  /** Every probe before the last one raised, and cells that come back are
      the answer to the last probe: the loop stops at the first success. */
  lemma ScrapStopsAtFirstSuccess(respond: Responder, year: int, month: int, tipo: string, url: string, f: Fetched)
    requires PageUrl(tipo, year) == Ok(url)
    requires f == ScrapSpec(respond, year, month, tipo)
    ensures forall i :: 0 <= i < |f.sent| - 1 ==> respond(f.sent[i].url, f.sent[i].fecha).None?
    ensures f.cells.Ok? ==> |f.sent| > 0 && respond(url, f.sent[|f.sent| - 1].fecha) == Some(f.cells.value)
  {
    if ValidDate(year, month, 1) {
      var k := FirstOk(respond, url, year, month, 1);
      var n := if k == 7 then 6 else k;
      assert f.sent == Posted(url, year, month, n);
      forall i | 0 <= i < n - 1 ensures respond(f.sent[i].url, f.sent[i].fecha).None? {
        assert !AttemptOk(respond, url, year, month, i + 1);
      }
    }
  }
}
