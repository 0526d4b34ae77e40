/** Values shared by every stage of the scraper: optional values and the
    exceptions that escape it. Nothing in webScrapingDolarFinal.py catches an
    exception outside scrap's probe loop, so each of these ends the call. */
module Results {

  datatype Option<+T> = None | Some(value: T)

  datatype Error =
    /** scrap: ValueError for a market type other than "blue" or "oficial". */
    | UnknownType
    /** scrap: every probe day raised, so `soup` is read before assignment. */
    | SoupUnbound
    /** parsear: pd.to_datetime rejects this date cell under '%d-%m-%y '. */
    | DateMismatch(cell: string)
    /** mostrar_grafico: KeyError for a column the yearly table lacks, which
        happens when no month gave a single row. */
    | MissingColumn(column: string)

  datatype Result<+T> = Ok(value: T) | Err(error: Error)
}
