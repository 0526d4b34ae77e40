/** parsear(filas): read the flat list of cell texts as triples (date, bid,
    ask), skip triple 0 (the header), turn each date cell into a date with
    '%d-%m-%y ' and append the record to the monthly table. Cells after the
    last full triple are never read; the first date cell that does not parse
    raises and nothing catches it. Bid and ask stay text. The date parser is
    a parameter `parse`; the monthly download passes Dates.ParseCellDate. */
module Parse {
  import opened Results
  import opened Text
  import opened Dates

  datatype Record = Record(date: Date, bid: string, ask: string)

  /** pd.to_datetime on one date cell: None where it raises. */
  type DateParser = string -> Option<Date>

  /** The number of full triples, int(len(filas) / 3). */
  function Triples(cells: seq<string>): nat {
    |cells| / 3
  }

  /** The record built from triple k, or None when its date cell raises. */
  function RowAt(parse: DateParser, cells: seq<string>, k: nat): (r: Option<Record>)
    requires 3 * k + 2 < |cells|
    ensures r.Some? <==> parse(cells[3 * k]).Some?
  {
    match parse(cells[3 * k])
    case None => None
    case Some(d) => Some(Record(d, cells[3 * k + 1], cells[3 * k + 2]))
  }

  /** The monthly table after triples 1 .. n - 1 have been appended in turn. */
  function Rows(parse: DateParser, cells: seq<string>, n: nat): Result<seq<Record>>
    requires n <= Triples(cells)
  {
    if n <= 1 then Ok([])
    else
      match Rows(parse, cells, n - 1)
      case Err(e) => Err(e)
      case Ok(done) =>
        match RowAt(parse, cells, n - 1)
        case None => Err(DateMismatch(cells[3 * (n - 1)]))
        case Some(row) => Ok(done + [row])
  }

  /** What parsear returns for a list of cells. */
  function ParseTable(parse: DateParser, cells: seq<string>): Result<seq<Record>> {
    Rows(parse, cells, Triples(cells))
  }

  /** parsear's loop over i in range(1, int(len(filas) / 3)). */
  method Parsear(parse: DateParser, cells: seq<string>) returns (table: Result<seq<Record>>)
    ensures table == ParseTable(parse, cells)
  {
    var mensual: seq<Record> := [];
    var n := |cells| / 3;
    var i := 1;
    while i < n
      invariant 1 <= i && (n >= 1 ==> i <= n)
      invariant Rows(parse, cells, if n == 0 then 0 else i) == Ok(mensual)
    {
      var date := parse(cells[3 * i]);
      if date.None? {
        RowsErrorSticks(parse, cells, i + 1, n);
        return Err(DateMismatch(cells[3 * i]));
      }
      mensual := mensual + [Record(date.value, cells[3 * i + 1], cells[3 * i + 2])];
      i := i + 1;
    }
    table := Ok(mensual);
  }

  /** Once a date cell has raised, later triples are never reached. */
  lemma {:induction false} RowsErrorSticks(parse: DateParser, cells: seq<string>, i: nat, n: nat)
    requires i <= n <= Triples(cells) && Rows(parse, cells, i).Err?
    ensures Rows(parse, cells, n) == Rows(parse, cells, i)
    decreases n - i
  {
    if i < n {
      RowsErrorSticks(parse, cells, i, n - 1);
    }
  }

  /** Rows(cells, n) succeeds exactly when the date cells of triples 1 .. n - 1
      all parse; it then holds one record per such triple, record j taken
      from cells 3(j+1), 3(j+1)+1 and 3(j+1)+2. */
  lemma {:induction false} RowsShape(parse: DateParser, cells: seq<string>, n: nat)
    requires n <= Triples(cells)
    ensures Rows(parse, cells, n).Ok? <==> forall k :: 1 <= k < n ==> RowAt(parse, cells, k).Some?
    ensures Rows(parse, cells, n).Ok? ==>
      |Rows(parse, cells, n).value| == (if n == 0 then 0 else n - 1) &&
      forall j :: 0 <= j < |Rows(parse, cells, n).value| ==> RowAt(parse, cells, j + 1) == Some(Rows(parse, cells, n).value[j])
  {
    if n > 1 {
      RowsShape(parse, cells, n - 1);
    }
  }

  /** parsear yields max(0, floor(len / 3) - 1) records, record j from triple
      j + 1 with its date parsed and bid and ask copied, in input order; it
      fails only if some data triple's date cell does not parse. */
  lemma ParseTableShape(parse: DateParser, cells: seq<string>)
    ensures ParseTable(parse, cells).Ok? <==> forall k :: 1 <= k < Triples(cells) ==> RowAt(parse, cells, k).Some?
    ensures ParseTable(parse, cells).Ok? ==>
      var rs := ParseTable(parse, cells).value;
      |rs| == (if Triples(cells) == 0 then 0 else Triples(cells) - 1) &&
      forall j :: 0 <= j < |rs| ==>
        Some(rs[j].date) == parse(cells[3 * j + 3]) &&
        rs[j].bid == cells[3 * j + 4] && rs[j].ask == cells[3 * j + 5]
  {
    RowsShape(parse, cells, Triples(cells));
  }

  /** A failure names the date cell of the first data triple whose date does
      not parse; every triple before it parsed. */
  lemma {:induction false} RowsFirstError(parse: DateParser, cells: seq<string>, n: nat)
    requires n <= Triples(cells) && Rows(parse, cells, n).Err?
    ensures exists k :: (1 <= k < n && RowAt(parse, cells, k).None? &&
      Rows(parse, cells, n).error == DateMismatch(cells[3 * k]) &&
      forall j :: 1 <= j < k ==> RowAt(parse, cells, j).Some?)
  {
    if Rows(parse, cells, n - 1).Err? {
      RowsFirstError(parse, cells, n - 1);
    } else {
      RowsShape(parse, cells, n - 1);
      assert RowAt(parse, cells, n - 1).None?;
    }
  }

  /** Only cells 3 .. 3 * floor(len / 3) - 1 are read: the header triple and
      the cells after the last full triple may hold anything. */
  lemma {:induction false} RowsReadOnlyData(parse: DateParser, cells: seq<string>, other: seq<string>, n: nat)
    requires n <= Triples(cells) && n <= Triples(other)
    requires n >= 1 ==> cells[3..3 * n] == other[3..3 * n]
    ensures Rows(parse, cells, n) == Rows(parse, other, n)
  {
    if n > 1 {
      assert cells[3..3 * (n - 1)] == cells[3..3 * n][..3 * (n - 2)];
      assert other[3..3 * (n - 1)] == other[3..3 * n][..3 * (n - 2)];
      RowsReadOnlyData(parse, cells, other, n - 1);
      var k := n - 1;
      assert cells[3 * k] == cells[3..3 * n][3 * k - 3] == other[3 * k];
      assert cells[3 * k + 1] == cells[3..3 * n][3 * k - 2] == other[3 * k + 1];
      assert cells[3 * k + 2] == cells[3..3 * n][3 * k - 1] == other[3 * k + 2];
    }
  }

  /** Two cell lists with as many full triples and the same data triples
      parse alike: the header and any trailing partial triple are ignored. */
  lemma ParseIgnoresHeaderAndTrailing(parse: DateParser, cells: seq<string>, other: seq<string>)
    requires Triples(cells) == Triples(other)
    requires Triples(cells) >= 1 ==> cells[3..3 * Triples(cells)] == other[3..3 * Triples(cells)]
    ensures ParseTable(parse, cells) == ParseTable(parse, other)
  {
    RowsReadOnlyData(parse, cells, other, Triples(cells));
  }

  /** Appending fewer than three cells to a whole number of triples changes
      nothing: the leftover cells are dropped without an error. */
  lemma ParseDropsPartialTriple(parse: DateParser, cells: seq<string>, extra: seq<string>)
    requires |cells| % 3 == 0 && |extra| < 3
    ensures ParseTable(parse, cells + extra) == ParseTable(parse, cells)
  {
    var n := Triples(cells);
    assert Triples(cells + extra) == n;
    if n >= 1 {
      assert (cells + extra)[3..3 * n] == cells[3..3 * n];
    }
    RowsReadOnlyData(parse, cells + extra, cells, n);
  }

  /** A header triple alone gives an empty table, not an error. */
  lemma HeaderOnlyIsEmpty(parse: DateParser, h0: string, h1: string, h2: string)
    ensures ParseTable(parse, [h0, h1, h2]) == Ok([])
  {
  }

  /** strftime('%d-%m-%y') of 5 March 2024. */
  lemma ExampleFecha()
    ensures FormatFecha(2024, 3, 5) == "05-03-24"
  {
    assert Pad2(5) == "05" && Pad2(3) == "03" && Pad2(24) == "24";
  }

  /** With the '%d-%m-%y ' parser, a date cell "05-03-24" followed by
      whitespace gives one record. */
  lemma OneRowExample(gap: string)
    requires |gap| > 0 && AllSpace(gap)
    ensures FormatFecha(2024, 3, 5) == "05-03-24"
    ensures ParseTable(ParseCellDate, ["hdr", "-", "-", FormatFecha(2024, 3, 5) + gap, "1000", "1050"])
      == Ok([Record(Date(2024, 3, 5), "1000", "1050")])
  {
    ExampleFecha();
    var cells := ["hdr", "-", "-", FormatFecha(2024, 3, 5) + gap, "1000", "1050"];
    var row := Record(Date(2024, 3, 5), "1000", "1050");
    FormatThenParse(2024, 3, 5, gap);
    assert RowAt(ParseCellDate, cells, 1) == Some(row);
    assert Rows(ParseCellDate, cells, 1) == Ok([]);
    assert [] + [row] == [row];
  }

  /** The same cell without trailing whitespace raises for the whole page. */
  lemma OneRowWithoutGapExample()
    ensures ParseTable(ParseCellDate, ["hdr", "-", "-", "05-03-24", "1000", "1050"])
      == Err(DateMismatch("05-03-24"))
  {
    var cells := ["hdr", "-", "-", "05-03-24", "1000", "1050"];
    ExampleFecha();
    assert FormatFecha(2024, 3, 5) == cells[3];
    FormatWithoutGapRejected(2024, 3, 5);
    assert RowAt(ParseCellDate, cells, 1) == None;
    assert Rows(ParseCellDate, cells, 1) == Ok([]);
  }
}
