/** The two pages the gateway renders, as the values their templates are
    filled from: the listing (one row per stored call) and the detail view
    of one stored call. Fragments the source builds with its own helpers
    (the message, choice and usage tables) are carried as the exact HTML
    text those helpers produce. */
module Views {
  import opened GoText
  import opened Decimal

  /** One `<tr>` of the listing. */
  datatype ListRow =
    | Entry(
        id: int, timestamp: int, urlPath: GoString, durationMs: int,
        requestBytes: nat, requestPreview: GoString,
        responseBytes: nat, responsePreview: GoString)
    | NoResults

  /** The `<dl>` describing the stored request: escaped model, the message
      table, and the temperature. */
  datatype RequestView = RequestView(model: GoString, messages: GoString, temperature: real)

  /** The `<dl>` describing the stored response. */
  datatype ResponseView = ResponseView(
    id: GoString, objectKind: GoString, created: Int64, model: GoString,
    choices: GoString, usage: GoString)

  /** The detail page of one record. */
  datatype Detail = Detail(
    id: Int64, timestamp: int, urlPath: GoString, durationMs: int,
    requestBytes: nat, request: RequestView,
    responseBytes: nat, response: ResponseView)

  datatype Page = ListPage(rows: seq<ListRow>) | DetailPage(detail: Detail)
}
