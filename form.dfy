/** obtener_datos: read the three form fields, check them in a fixed order,
    and only when every check passes download the year and show the chart.
    The current year (datetime.now().year) is a parameter; the message boxes
    become the verdict. */
module Form {
  import opened Results
  import opened Text
  import opened Fetch
  import opened Chart
  import opened Year

  datatype Verdict =
    /** "Por favor, complete todos los campos." */
    | IncompleteFields
    /** int() raises ValueError on this field; nothing catches it. */
    | NotAnInteger(field: string)
    /** "Por favor, seleccione un tipo de cotización válido." */
    | InvalidType
    /** "Por favor, ingrese un año válido." */
    | InvalidYear
    /** "Por favor, ingrese una cantidad de fechas válida." */
    | InvalidCount
    /** Every check passed: downloadAño(año, num_cotizaciones, tipo). */
    | Proceed(year: int, count: int, tipo: string)

  /** The checks of obtener_datos in the order the code runs them: empty
      fields, int() of the year then of the count, the market type, the year
      range [2015, currentYear], then a positive count. */
  function Validate(inputYear: string, inputCount: string, tipo: string, currentYear: int): (v: Verdict)
    ensures v == IncompleteFields <==> inputYear == "" || inputCount == "" || tipo == ""
    ensures v.NotAnInteger? ==>
      inputYear != "" && inputCount != "" && tipo != "" &&
      (if ParseInt(inputYear).None? then v.field == inputYear
       else ParseInt(inputCount).None? && v.field == inputCount)
    ensures v == InvalidType ==>
      inputYear != "" && inputCount != "" && tipo != "" &&
      ParseInt(inputYear).Some? && ParseInt(inputCount).Some? && !KnownType(tipo)
    ensures v == InvalidYear ==>
      inputYear != "" && inputCount != "" &&
      ParseInt(inputCount).Some? && KnownType(tipo) &&
      ParseInt(inputYear).Some? && (ParseInt(inputYear).value < 2015 || ParseInt(inputYear).value > currentYear)
    ensures v == InvalidCount ==>
      inputYear != "" && inputCount != "" && KnownType(tipo) &&
      ParseInt(inputYear).Some? && 2015 <= ParseInt(inputYear).value <= currentYear &&
      ParseInt(inputCount).Some? && ParseInt(inputCount).value <= 0
    ensures v.Proceed? <==>
      inputYear != "" && inputCount != "" && KnownType(tipo) &&
      ParseInt(inputYear).Some? && 2015 <= ParseInt(inputYear).value <= currentYear &&
      ParseInt(inputCount).Some? && ParseInt(inputCount).value > 0
    ensures v.Proceed? ==>
      v == Proceed(ParseInt(inputYear).value, ParseInt(inputCount).value, tipo)
  {
    if inputYear == "" || inputCount == "" || tipo == "" then IncompleteFields
    else
      match ParseInt(inputYear)
      case None => NotAnInteger(inputYear)
      case Some(year) =>
        match ParseInt(inputCount)
        case None => NotAnInteger(inputCount)
        case Some(count) =>
          if !KnownType(tipo) then InvalidType
          else if year < 2015 || year > currentYear then InvalidYear
          else if count <= 0 then InvalidCount
          else Proceed(year, count, tipo)
  }

  /** int() runs before the type check: a non-numeric year is reported as an
      int() failure even when the type is also wrong, and a field of blanks
      passes the empty check only to fail in int(). */
  lemma IntConversionBeforeTypeCheck(inputYear: string, inputCount: string, tipo: string, currentYear: int)
    requires inputYear != "" && AllSpace(inputYear) && inputCount != "" && tipo != ""
    ensures Validate(inputYear, inputCount, tipo, currentYear) == NotAnInteger(inputYear)
  {
    ParseIntRejectsBlank(inputYear);
  }

  /** int() refuses a field of more than MaxStrDigits digits, so such a
      year or count ends in the int() failure, never in a range message or
      a download. */
  lemma OverlongFieldIsNotAnInteger(inputYear: string, inputCount: string, tipo: string, currentYear: int)
    requires inputYear != "" && inputCount != "" && tipo != ""
    ensures AllDigits(inputYear) && |inputYear| > MaxStrDigits ==>
      Validate(inputYear, inputCount, tipo, currentYear) == NotAnInteger(inputYear)
    ensures ParseInt(inputYear).Some? && AllDigits(inputCount) && |inputCount| > MaxStrDigits ==>
      Validate(inputYear, inputCount, tipo, currentYear) == NotAnInteger(inputCount)
  {
  }

  /** What one press of "Obtener Datos" ends with. */
  datatype Outcome =
    | Rejected(verdict: Verdict)
    | Raised(error: Error)
    | Shown(chart: Chart)

  /** obtener_datos: no request is posted unless every check passes; then
      the outcome is downloadAño's. */
  method ObtainData(respond: Responder, inputYear: string, inputCount: string, tipo: string, currentYear: int)
    returns (outcome: Outcome, sent: seq<Request>)
    ensures !Validate(inputYear, inputCount, tipo, currentYear).Proceed? ==>
      outcome == Rejected(Validate(inputYear, inputCount, tipo, currentYear)) && sent == []
    ensures Validate(inputYear, inputCount, tipo, currentYear).Proceed? ==>
      var v := Validate(inputYear, inputCount, tipo, currentYear);
      var download := YearSpec(respond, v.year, tipo);
      sent == download.sent &&
      outcome == match YearChart(respond, v.year, v.count, tipo)
        case Err(e) => Raised(e)
        case Ok(c) => Shown(c)
  {
    var verdict := Validate(inputYear, inputCount, tipo, currentYear);
    if !verdict.Proceed? {
      return Rejected(verdict), [];
    }
    var chart;
    chart, sent := DownloadYear(respond, verdict.year, verdict.count, tipo);
    if chart.Err? {
      outcome := Raised(chart.error);
    } else {
      outcome := Shown(chart.value);
    }
  }
}
