# Dollar-quote scraper: a Dafny model of its data-shaping core

`webScrapingDolarFinal.py` downloads a year of Argentine dollar quotes (bid and
ask per day, for the "blue" or the "oficial" market) from
cotizacion-dolar.com.ar and plots the last N of them in a Tk window. This
project models the deterministic logic of that script and proves what it
does:

- **scrap** (`fetch.dfy`, module `Fetch`). The market type selects one of two
  page URLs, or raises `ValueError`. Then days 1 to 6 of the month are posted
  in order, with `fecha` written as `dd-mm-yy`. The first day whose post and
  HTML parse both complete is kept. If none completes, `soup` is read unbound
  and the call raises. The network is the parameter
  `respond(url, fecha): Option<seq<string>>`. `None` means the post or
  BeautifulSoup raised. `Some(cells)` is the text of every
  `td style="padding: 1%"` on the page. The method `Scrap` keeps the source's
  loop with its early `break`. It also returns the requests it posted, so
  "no request before the type check" can be stated.
- **parsear** (`parse.dfy`, module `Parse`). The cell list is read as triples
  `3i, 3i+1, 3i+2` for `i` in `1 .. floor(len/3) - 1`. Triple 0 is the header.
  Trailing cells that do not fill a triple are dropped without an error. Each
  date cell goes through `pd.to_datetime(..., format='%d-%m-%y ')`. The first
  cell that does not parse raises, and nothing catches it. Bid and ask stay
  text. The date parser is a parameter of `Parsear`. The year download
  passes the concrete `Dates.ParseCellDate`.
- **date formats** (`dates.dfy`, module `Dates`). `strftime('%d-%m-%y')` for
  the request. For the cells, strptime's `'%d-%m-%y '` pattern:
  - day field `3[01]|[12]\d|0[1-9]|[1-9]| [1-9]`;
  - month field `1[0-2]|0[1-9]|[1-9]`;
  - year field of two digits, read as 1969..2068;
  - the format's space matches one or more whitespace characters;
  - the whole cell must match, and it must name a real calendar day.
- **downloadAño** (`year.dfy`, module `Year`). Months 1 to 12 are scraped and
  parsed in order, and the monthly tables are concatenated. There is no
  per-month recovery: the first exception ends the year. The year is then
  handed to the chart.
- **mostrar_grafico** (`chart.dfy`, module `Chart`). `DataFrame.tail(n)`,
  with pandas' `iloc[-n:]` slice semantics, and the chart title. An unknown
  type gets the fallback title and does not raise. A year without a single
  row is the column-less `pd.DataFrame()` that parsear starts from, so
  `tablaAnual['bid']` raises `KeyError`.
- **obtener_datos** (`form.dfy`, module `Form`). The checks run in this
  order: empty fields, `int()` of the year, `int()` of the count, the market
  type, `2015 <= year <= currentYear`, then `count > 0`. The download runs
  only when all of them pass. The current year is a parameter.
- `text.dfy` (module `Text`) holds Python's `str(int)`, `int(str)` with
  CPython's 4300-digit limit, and two whitespace classes. `IsSpace` is
  `str.isspace` and the `\s` of `re`. `IntSpace` is what `int()` strips,
  which leaves out the separators U+001C..U+001F. `results.dfy`
  (module `Results`) holds `Option`, `Result` and the four exceptions that
  escape the pipeline: unknown type, unbound `soup`, a date cell that does
  not parse, and the missing `bid` column.

Some consequences of the code as written:

- parsear does not check that the cell count is a multiple of 3. Cells
  after the last full triple are ignored.
- A date cell that does not parse is not skipped. It raises, which ends the
  month and with it the whole download.
- A failing month ends the whole download. Months already fetched are not
  charted.
- When all six probes fail, scrap raises by reading the unbound local
  `soup`. No page from an earlier call can be reused, because `soup` is
  local to each call.
- A date cell `"05-03-24"` with no trailing whitespace does not match
  `'%d-%m-%y '` and raises. Followed by whitespace it gives the record
  (`Parse.OneRowExample`, `Parse.OneRowWithoutGapExample`).
- The loop starts at triple 1, so triple 0 is treated as the table header.
- A year in which no month page has a data row raises `KeyError` in
  mostrar_grafico, after all twelve months have been posted.

## Model

| member | source | states |
|---|---|---|
| `Dates.ValidDate` | webScrapingDolarFinal.py:23 | the dates datetime.datetime accepts: years 1..9999, at most 31 days, days 1..28 of every month, and 29 February only in leap years |
| `Fetch.PageUrl` | webScrapingDolarFinal.py:13-18 | a URL is produced exactly for "blue" and "oficial"; any other type is the ValueError |
| `Fetch.PageUrlInjective` | webScrapingDolarFinal.py:13-18 | two (type, year) pairs that give the same URL are equal: the blue and oficial pages never coincide, and each year has its own page |
| `Fetch.FirstOk` | webScrapingDolarFinal.py:21-27 | the day the loop stops on is the least day from d to 6 whose attempt does not raise, or 7 when every attempt raises |
| `Fetch.Posted` | webScrapingDolarFinal.py:21-25 | the requests for probe days 1..n are n posts whose i-th `fecha` is the date of day i+1 |
| `Fetch.Scrap` | webScrapingDolarFinal.py:11-33 | the loop's cells and posted requests equal `ScrapSpec`; at most 6 posts; an unknown type raises with no post at all |
| `Fetch.ScrapSucceedsIff` | webScrapingDolarFinal.py:21-33 | cells come back iff the type is known and some day in 1..6 does not raise; they are the answer for the least such day |
| `Fetch.ScrapExhausted` | webScrapingDolarFinal.py:21-33 | when all six attempts raise, the call fails with `soup` unbound after 6 posts (none if datetime rejects the date); no cells are returned |
| `Fetch.ScrapProbesInOrder` | webScrapingDolarFinal.py:21-25 | the posts go out for days 1, 2, ... in order, at most six, each to the selected URL with `fecha` = `%d-%m-%y` of that day |
| `Fetch.ScrapStopsAtFirstSuccess` | webScrapingDolarFinal.py:21-29 | every post before the last one raised, and returned cells are the answer to the last post |
| `Dates.FormatFecha` | webScrapingDolarFinal.py:23-24 | the `fecha` value is 8 characters: two digits, '-', two digits, '-', two digits |
| `Dates.ParseCellDate` | webScrapingDolarFinal.py:45 | an accepted cell names a real calendar day in 1969..2068 |
| `Dates.FormatThenParse` | webScrapingDolarFinal.py:45 | a date in 1969..2068 written in the request format and followed by whitespace parses back to the same date |
| `Dates.FormatWithoutGapRejected` | webScrapingDolarFinal.py:45 | a cell in the request format with no trailing whitespace makes to_datetime raise |
| `Parse.RowAt` | webScrapingDolarFinal.py:41-45 | triple k gives a record exactly when its date cell parses |
| `Parse.Parsear` | webScrapingDolarFinal.py:36-47 | the loop over range(1, int(len/3)) returns `ParseTable`: the records of every data triple in order, or the first date failure |
| `Parse.RowsShape` | webScrapingDolarFinal.py:38-46 | after triples 1..n-1 the table exists iff every date cell parsed; it then has n-1 records, record j built from triple j+1 |
| `Parse.ParseTableShape` | webScrapingDolarFinal.py:38-46 | parsear gives max(0, floor(len/3)-1) records; record j has the parsed date of cell 3j+3, bid cell 3j+4 and ask cell 3j+5, in input order |
| `Parse.RowsErrorSticks` | webScrapingDolarFinal.py:45 | after a date cell raises, later triples do not change the outcome |
| `Parse.RowsFirstError` | webScrapingDolarFinal.py:45 | a failure names the date cell of the first data triple whose date does not parse; every earlier triple parsed |
| `Parse.RowsReadOnlyData` | webScrapingDolarFinal.py:38-43 | the outcome depends only on cells 3..3n-1 |
| `Parse.ParseIgnoresHeaderAndTrailing` | webScrapingDolarFinal.py:38-43 | two cell lists with as many full triples and the same data cells parse alike: cells 0-2 and leftover cells are never read |
| `Parse.ParseDropsPartialTriple` | webScrapingDolarFinal.py:38 | appending fewer than three cells to a whole number of triples changes nothing and raises nothing |
| `Parse.HeaderOnlyIsEmpty` | webScrapingDolarFinal.py:38 | a header triple alone gives an empty table, not an error |
| `Parse.OneRowExample` | webScrapingDolarFinal.py:41-46 | header plus ("05-03-24" + whitespace, "1000", "1050") gives the single record 2024-03-05 / "1000" / "1050" |
| `Parse.OneRowWithoutGapExample` | webScrapingDolarFinal.py:45 | the same page with "05-03-24" and no trailing whitespace raises for that cell |
| `Year.DownloadYear` | webScrapingDolarFinal.py:50-61 | the month loop posts exactly `YearSpec`'s requests and ends in `YearChart`: the first month's exception, or mostrar_grafico's chart or KeyError for the yearly table |
| `Year.AccumulateNext` | webScrapingDolarFinal.py:52-57 | one loop turn appends month i's table after the accumulated one, or ends the year with month i's exception |
| `Year.AccumulateErrorSticks` | webScrapingDolarFinal.py:52-57 | once a month has raised, later months change nothing |
| `Year.AccumulateAllOk` | webScrapingDolarFinal.py:51-57 | the year has a table iff every month does; it is then the month tables joined in month order, and the requests are each month's requests in month order |
| `Year.AccumulateStopsAtFirstError` | webScrapingDolarFinal.py:52-57 | the first failing month ends the year with its exception, and no later month is requested |
| `Year.AccumulateEmptyIff` | webScrapingDolarFinal.py:52-57 | the yearly table is empty exactly when every month gave an empty table |
| `Year.EmptyYearRaises` | webScrapingDolarFinal.py:50-69 | when no month page has a data row, downloadAño ends in KeyError 'bid' instead of a chart |
| `Year.MonthProbesItsMonth` | webScrapingDolarFinal.py:54 | every request of month m goes to the selected page and posts a date of month m (scrap is called with mes = m) |
| `Chart.Tail` | webScrapingDolarFinal.py:65 | for n >= 0, tail keeps the last min(n, len) rows, and n >= len keeps the whole table; for n < 0 it drops the first -n rows |
| `Chart.SeriesName` | webScrapingDolarFinal.py:73-78 | the fallback "Cotización Desconocida" is chosen exactly for the types scrap rejects; known types get "Dólar ..." |
| `Chart.Title` | webScrapingDolarFinal.py:80 | the title starts with "Últimas ", then the count's str(), and ends with the year's str() in parentheses |
| `Chart.TitleCarriesCount` | webScrapingDolarFinal.py:80 | the count written in the title reads back through int() as the requested count, for every count within the digit limit |
| `Chart.ShowChart` | webScrapingDolarFinal.py:64-80 | an empty year raises KeyError 'bid' and only an empty year does; otherwise, for a positive count, the chart gets the last min(count, len) rows, a suffix of the table, under the f-string title |
| `Form.Validate` | webScrapingDolarFinal.py:101-120 | each verdict holds exactly when every earlier check passed and its own failed; the download verdict holds iff all checks pass and carries the converted year and count; int() here includes the 4300-digit limit |
| `Form.IntConversionBeforeTypeCheck` | webScrapingDolarFinal.py:102-107 | a year field of blanks passes the empty check and then fails in int(), whatever the type field holds |
| `Form.OverlongFieldIsNotAnInteger` | webScrapingDolarFinal.py:106-107 | a year or count field of more than 4300 digits fails in int(), before any range check or download |
| `Form.ObtainData` | webScrapingDolarFinal.py:95-124 | no request is posted unless validation passes; then the requests and the outcome (exception, KeyError or chart) are downloadAño's |
| `Text.NatToString` | webScrapingDolarFinal.py:14 | str(n) is a non-empty run of digits with no leading zero |
| `Text.IntToString` | webScrapingDolarFinal.py:14-16 | str(i) has a minus sign exactly for negative i, then the decimal digits of the absolute value with no leading zero |
| `Text.ParseInt` | webScrapingDolarFinal.py:106-107 | int() of a run of ASCII digits is its decimal value when there are at most 4300 digits, and raises otherwise |
| `Text.IntToStringRoundTrip` | webScrapingDolarFinal.py:106-107 | int() reads back str(i) as i within the 4300-digit limit, and raises past it |
| `Text.IntToStringInjective` | webScrapingDolarFinal.py:14-16 | different years give different str() forms in the URL |
| `Text.ParseIntKeepsSeparator` | webScrapingDolarFinal.py:106-107 | int() does not strip the separators U+001C..U+001F: digits behind one of them raise ValueError |
| `Text.ParseIntRejectsBlank` | webScrapingDolarFinal.py:106 | int() of a whitespace-only field raises |

## Left out

- HTTP transport (`requests.post`) and HTML parsing (BeautifulSoup, `find_all`). Both are replaced by the `respond` parameter, which is deterministic. Within one year download no (url, fecha) pair is posted twice, so this loses nothing there.
- pandas DataFrames. A table is a `seq<Record>` in row order. The `fecha` index is a `Date`. Duplicate dates are kept, as `pd.concat` keeps them.
- The float division in `int(len(list(filas))/3)` is modelled as integer floor division. The two agree for every list shorter than 2^53 cells.
- `ParseCellDate` accepts only ASCII digits and whitespace from Python's `str.isspace` set. Python's `\d` also accepts other Unicode decimal digits, which the model rejects.
- `ParseCellDate` raises for the empty cell and for the six spellings "NaT", "nat", "NAT", "nan", "NaN" and "NAN". pandas turns each of these into a missing date (NaT) instead of raising, so such a row would enter the table with no date.
- `ParseInt` accepts only ASCII digits. Python's `int()` also accepts other Unicode decimal digits.
- `IntToString` does not raise past 4300 digits as CPython's `str()` does. Every integer the script formats came from `int()` of a form field, so it never has more digits than that.
- matplotlib drawing, `FigureCanvasTkAgg`, the `app.canvas_widget` slot, the Tk window, widgets, `StringVar`s, message boxes and `mainloop`. They are UI only. Message boxes become the `Form.Verdict` values. `datetime.now().year` becomes the `currentYear` parameter.
- `print` progress messages. They are output only.
- Python's `int()` raising inside obtener_datos ends that Tk callback with an uncaught ValueError. It is modelled as the verdict `NotAnInteger`.
