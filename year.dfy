/** downloadAño(año, num_cotizaciones, tipo_cotizacion): scrap and parsear
    each month 1 .. 12 in turn, append each monthly table to the yearly one,
    then hand the year to mostrar_grafico. There is no per-month recovery:
    the first exception ends the whole download. */
module Year {
  import opened Results
  import opened Dates
  import opened Fetch
  import opened Parse
  import opened Chart

  /** A table (or the exception that ended it) and the requests posted. */
  datatype Download = Download(table: Result<seq<Record>>, sent: seq<Request>)

  /** One month: scrap(año, mes=month), then parsear with '%d-%m-%y '. */
  function MonthSpec(respond: Responder, year: int, tipo: string, month: int): Download {
    var f := ScrapSpec(respond, year, month, tipo);
    match f.cells
    case Err(e) => Download(Err(e), f.sent)
    case Ok(cells) => Download(ParseTable(ParseCellDate, cells), f.sent)
  }

  /** What months 1 .. n would each give on their own, in month order. */
  function Months(respond: Responder, year: int, tipo: string, n: nat): (ms: seq<Download>)
    ensures |ms| == n
  {
    seq(n, i => MonthSpec(respond, year, tipo, i + 1))
  }

  /** downloadAño's loop run over the given monthly results in order:
      `tablaAnual` grows by each month's table until a month raises. */
  function Accumulate(months: seq<Download>): Download {
    if months == [] then Download(Ok([]), [])
    else
      var before := Accumulate(months[..|months| - 1]);
      var month := months[|months| - 1];
      if before.table.Err? then before
      else
        match month.table
        case Err(e) => Download(Err(e), before.sent + month.sent)
        case Ok(t) => Download(Ok(before.table.value + t), before.sent + month.sent)
  }

  /** downloadAño's yearly table and every request it posted. */
  function YearSpec(respond: Responder, year: int, tipo: string): Download {
    Accumulate(Months(respond, year, tipo, 12))
  }

  /** What downloadAño ends with: the exception of the first failing month,
      or mostrar_grafico's chart (or KeyError) for the yearly table. */
  function YearChart(respond: Responder, year: int, count: int, tipo: string): Result<Chart> {
    match YearSpec(respond, year, tipo).table
    case Err(e) => Err(e)
    case Ok(t) => ShowChart(t, count, year, tipo)
  }

  /** downloadAño: the loop over the months, then the chart of the year. */
  method DownloadYear(respond: Responder, year: int, count: int, tipo: string)
    returns (chart: Result<Chart>, sent: seq<Request>)
    ensures sent == YearSpec(respond, year, tipo).sent
    ensures chart == YearChart(respond, year, count, tipo)
  {
    ghost var months := Months(respond, year, tipo, 12);
    var tablaAnual: seq<Record> := [];
    sent := [];
    for i := 1 to 13
      invariant Accumulate(months[..i - 1]) == Download(Ok(tablaAnual), sent)
    {
      var cells, posted := Scrap(respond, year, i, tipo);
      var tabla: Result<seq<Record>>;
      if cells.Err? {
        tabla := Err(cells.error);
      } else {
        tabla := Parsear(ParseCellDate, cells.value);
      }
      assert months[i - 1] == MonthSpec(respond, year, tipo, i) == Download(tabla, posted);
      AccumulateNext(months, i, tablaAnual, sent);
      sent := sent + posted;
      if tabla.Err? {
        AccumulateErrorSticks(months, i);
        return Err(tabla.error), sent;
      }
      tablaAnual := tablaAnual + tabla.value;
    }
    assert months[..12] == months;
    chart := ShowChart(tablaAnual, count, year, tipo);
  }

  /** One more turn of the loop: month i's table is appended, or its
      exception ends the year. */
  lemma AccumulateNext(months: seq<Download>, i: nat, table: seq<Record>, sent: seq<Request>)
    requires 1 <= i <= |months|
    requires Accumulate(months[..i - 1]) == Download(Ok(table), sent)
    ensures Accumulate(months[..i]) == match months[i - 1].table
      case Err(e) => Download(Err(e), sent + months[i - 1].sent)
      case Ok(t) => Download(Ok(table + t), sent + months[i - 1].sent)
  {
    assert months[..i][..i - 1] == months[..i - 1];
  }

  /** After a failing month no later month changes the result. */
  lemma {:induction false} AccumulateErrorSticks(months: seq<Download>, i: nat)
    requires i <= |months| && Accumulate(months[..i]).table.Err?
    ensures Accumulate(months) == Accumulate(months[..i])
    decreases |months| - i
  {
    if i < |months| {
      assert months[..|months|][..i] == months[..i];
      var shorter := months[..|months| - 1];
      assert shorter[..i] == months[..i];
      AccumulateErrorSticks(shorter, i);
    } else {
      assert months[..i] == months;
    }
  }

  function Flatten<T>(xs: seq<seq<T>>): seq<T> {
    if xs == [] then [] else Flatten(xs[..|xs| - 1]) + xs[|xs| - 1]
  }

  predicate AllOk(months: seq<Download>) {
    forall i :: 0 <= i < |months| ==> months[i].table.Ok?
  }

  function Tables(months: seq<Download>): (ts: seq<seq<Record>>)
    requires AllOk(months)
    ensures |ts| == |months|
  {
    seq(|months|, i requires 0 <= i < |months| => months[i].table.value)
  }

  function Requests(months: seq<Download>): (rs: seq<seq<Request>>)
    ensures |rs| == |months|
  {
    seq(|months|, i requires 0 <= i < |months| => months[i].sent)
  }

  /** The loop ends with a table exactly when every month gave one; the
      table is then the monthly tables joined in month order, and the
      requests are every month's requests in month order. */
  lemma {:induction false} AccumulateAllOk(months: seq<Download>)
    ensures Accumulate(months).table.Ok? <==> AllOk(months)
    ensures AllOk(months) ==>
      Accumulate(months) == Download(Ok(Flatten(Tables(months))), Flatten(Requests(months)))
  {
    if months != [] {
      var n := |months|;
      var shorter := months[..n - 1];
      AccumulateAllOk(shorter);
      if AllOk(months) {
        assert AllOk(shorter);
        assert Tables(months)[..n - 1] == Tables(shorter);
        assert Requests(months)[..n - 1] == Requests(shorter);
      }
      if AllOk(shorter) && months[n - 1].table.Ok? {
        assert AllOk(months);
      }
    }
  }

  /** The first month that raises ends the loop with its exception; its
      requests are the last ones posted. */
  lemma AccumulateStopsAtFirstError(months: seq<Download>, k: nat)
    requires k < |months| && AllOk(months[..k]) && months[k].table.Err?
    ensures Accumulate(months) == Download(months[k].table, Flatten(Requests(months[..k + 1])))
  {
    var prefix := months[..k + 1];
    assert prefix[..k] == months[..k];
    AccumulateAllOk(months[..k]);
    assert Requests(prefix)[..k] == Requests(months[..k]);
    AccumulateErrorSticks(months, k + 1);
  }

  /** The loop ends with an empty table exactly when every month gave an
      empty one (a page with no data triple). */
  lemma {:induction false} AccumulateEmptyIff(months: seq<Download>)
    ensures Accumulate(months).table == Ok([]) <==>
      forall i :: 0 <= i < |months| ==> months[i].table == Ok([])
  {
    if months != [] {
      var n := |months|;
      var shorter := months[..n - 1];
      AccumulateEmptyIff(shorter);
      if forall i :: 0 <= i < n ==> months[i].table == Ok([]) {
        assert forall i :: 0 <= i < n - 1 ==> shorter[i].table == Ok([]);
        assert months[..n - 1] == shorter;
        assert Accumulate(shorter).table.value + months[n - 1].table.value == [];
      }
      if Accumulate(months).table == Ok([]) {
        var before := Accumulate(shorter);
        assert months[..n - 1] == shorter;
        assert before.table.Ok? && months[n - 1].table.Ok?;
        assert before.table.value + months[n - 1].table.value == [];
        assert before.table == Ok([]) && months[n - 1].table == Ok([]);
        forall i | 0 <= i < n ensures months[i].table == Ok([]) {
          if i < n - 1 {
            assert shorter[i] == months[i];
          }
        }
      }
    }
  }

  /** A year in which no month page has a single data row does not chart:
      every request is still posted, then mostrar_grafico raises KeyError
      on the column-less table. */
  lemma EmptyYearRaises(respond: Responder, year: int, count: int, tipo: string)
    requires forall m :: 1 <= m <= 12 ==> MonthSpec(respond, year, tipo, m).table == Ok([])
    ensures YearChart(respond, year, count, tipo) == Err(MissingColumn("bid"))
  {
    var months := Months(respond, year, tipo, 12);
    forall i | 0 <= i < 12 ensures months[i].table == Ok([]) {
      assert months[i] == MonthSpec(respond, year, tipo, i + 1);
    }
    AccumulateEmptyIff(months);
    assert YearSpec(respond, year, tipo).table == Ok([]);
  }

  /** Every request of month m posts a date of month m to the page of the
      requested type and year: scrap is called with mes = m. */
  lemma MonthProbesItsMonth(respond: Responder, year: int, tipo: string, month: int)
    requires KnownType(tipo) && 1 <= month <= 12
    ensures forall r :: r in MonthSpec(respond, year, tipo, month).sent ==>
      r.url == PageUrl(tipo, year).value && r.fecha[3..5] == Pad2(month)
  {
    var url := PageUrl(tipo, year).value;
    var f := ScrapSpec(respond, year, month, tipo);
    ScrapProbesInOrder(respond, year, month, tipo, url, f);
    forall i | 0 <= i < |f.sent| ensures f.sent[i].url == url && f.sent[i].fecha[3..5] == Pad2(month) {
      var s := FormatFecha(year, month, i + 1);
      assert s[3..5] == Pad2(month);
    }
  }
}
