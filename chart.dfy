/** The data side of mostrar_grafico: the rows kept by
    tablaAnual.tail(num_cotizaciones) and the chart title. Drawing, the
    canvas and the Tk widget are not modelled. */
module Chart {
  import opened Results
  import opened Text
  import opened Fetch
  import opened Parse

  function Min(a: int, b: int): int {
    if a < b then a else b
  }

  /** Where a Python slice `[start:]` begins in a sequence of length `len`. */
  function SliceStart(len: nat, start: int): (k: nat)
    ensures k <= len
  {
    if start < 0 then (if start + len < 0 then 0 else start + len)
    else if start > len then len
    else start
  }

  /** DataFrame.tail(n): `iloc[0:0]` when n is 0, `iloc[-n:]` otherwise. */
  function Tail<T>(rows: seq<T>, n: int): (r: seq<T>)
    ensures n >= 0 ==> |r| == Min(n, |rows|) && r == rows[|rows| - |r|..]
    ensures n >= |rows| ==> r == rows
    ensures n < 0 ==> r == rows[Min(-n, |rows|)..]
  {
    if n == 0 then [] else rows[SliceStart(|rows|, -n)..]
  }

  const UnknownSeries := "Cotización Desconocida"

  /** The series named in the title; an unknown type gets a fallback name
      instead of an exception. */
  function SeriesName(tipo: string): (name: string)
    ensures name == UnknownSeries <==> !KnownType(tipo)
    ensures KnownType(tipo) ==> |name| > 6 && name[..6] == "Dólar "
  {
    if tipo == "blue" then "Dólar Blue"
    else if tipo == "oficial" then "Dólar Oficial"
    else UnknownSeries
  }

  /** f'Últimas {num_cotizaciones} Cotizaciones del {titulo} en Argentina ({año})':
      the count's str() right after "Últimas ", the series name, and the
      year's str() in parentheses at the end. */
  function Title(count: int, year: int, tipo: string): (t: string)
    ensures var c := IntToString(count);
      |t| > 8 + |c| && t[..8] == "Últimas " && t[8..8 + |c|] == c
    ensures var y := IntToString(year);
      |t| > |y| + 1 && t[|t| - |y| - 2..] == "(" + y + ")"
  {
    var head := "Últimas " + IntToString(count);
    var tail := "(" + IntToString(year) + ")";
    var t := head + " Cotizaciones del " + SeriesName(tipo) + " en Argentina " + tail;
    assert t[..|head|] == head && t[|t| - |tail|..] == tail;
    t
  }

  /** The count written into the title reads back as the count asked for
      (int() raises on it only past the digit limit, which no count that
      itself came from int() reaches). */
  lemma TitleCarriesCount(count: int, year: int, tipo: string)
    ensures var digits := |IntToString(count)|;
      ParseInt(Title(count, year, tipo)[8..8 + digits]) ==
        if |NatToString(if count < 0 then -count else count)| <= MaxStrDigits then Some(count) else None
  {
    IntToStringRoundTrip(count);
  }

  /** What is handed to the plot: the last rows of the table and the title. */
  datatype Chart = Chart(rows: seq<Record>, title: string)

  /** mostrar_grafico. A year without a single row is the column-less
      DataFrame() that parsear starts from, so tablaAnual['bid'] raises
      KeyError; otherwise the chart gets the last rows and the title. */
  function ShowChart(table: seq<Record>, count: int, year: int, tipo: string): (c: Result<Chart>)
    ensures c.Err? <==> table == []
    ensures c.Err? ==> c.error == MissingColumn("bid")
    ensures c.Ok? && count > 0 ==>
      |c.value.rows| == Min(count, |table|) && table == table[..|table| - |c.value.rows|] + c.value.rows
    ensures c.Ok? ==> c.value.title == Title(count, year, tipo)
  {
    if table == [] then Err(MissingColumn("bid"))
    else Ok(Chart(Tail(table, count), Title(count, year, tipo)))
  }
}
