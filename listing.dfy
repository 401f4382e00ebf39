/** The `/_list` view: the newest stored calls, one table row each, with
    the stored response shown decompressed when it carries a gzip member
    header, replaced by a marker when it is not valid UTF-8, and both
    bodies cut to a short escaped preview. */
module Listing {
  import opened GoText
  import opened Utf8
  import opened Html
  import opened Storage
  import opened Views
  import Http

  /** The first eight bytes of a gzip member (section 2.3.1 of RFC 1952)
      as compress/gzip writes them by default: ID1 ID2, CM = 8 (deflate),
      FLG = 0 and MTIME = 0. */
  const GzipMagic: GoString := [0x1f as char, 0x8b as char, 0x08 as char, 0 as char, 0 as char, 0 as char, 0 as char, 0 as char]

  const InvalidUtf8: GoString := "(invalid utf8)"

  const RequestPreviewLen: nat := 600
  const ResponsePreviewLen: nat := 400

  /** The response column as the listing shows it, or None when it had to
      be decompressed and could not be. */
  function Classified(response: GoString, gunzip: GoString -> Option<GoString>): Option<GoString>
  {
    if HasPrefix(response, GzipMagic) then gunzip(response)
    else if WellFormed(response) then Some(response)
    else Some(InvalidUtf8)
  }

  /** A stored response without the gzip header is always shown as valid
      UTF-8: itself when it is valid, the "(invalid utf8)" marker otherwise. Only a
      decompressed response can be shown without that check. */
  lemma ClassifiedIsText(response: GoString, gunzip: GoString -> Option<GoString>)
    requires !HasPrefix(response, GzipMagic)
    ensures Classified(response, gunzip).Some?
    ensures WellFormed(Classified(response, gunzip).value)
    ensures WellFormed(response) <==> Classified(response, gunzip) == Some(response)
    ensures !WellFormed(response) ==> Classified(response, gunzip) == Some(InvalidUtf8)
  {
    AsciiWellFormed(InvalidUtf8);
    if !WellFormed(response) {
      assert Classified(response, gunzip).value == InvalidUtf8;
    }
  }

  /** Showing a shown uncompressed response again changes nothing. */
  lemma ClassifiedIdempotent(response: GoString, gunzip: GoString -> Option<GoString>)
    requires !HasPrefix(response, GzipMagic)
    ensures Classified(Classified(response, gunzip).value, gunzip) == Classified(response, gunzip)
  {
    ClassifiedIsText(response, gunzip);
    var shown := Classified(response, gunzip).value;
    if shown == InvalidUtf8 {
      assert shown[0] != GzipMagic[0];
    }
  }

  /** The row for one record, given its classified response. */
  function RowOf(rec: Record, shown: GoString): (row: ListRow)
    ensures row.Entry? && row.id == rec.id && row.urlPath == rec.urlPath
    ensures row.requestBytes == |rec.request| && row.responseBytes == |shown|
  {
    Entry(rec.id, rec.timestamp, rec.urlPath, rec.durationMs,
          |rec.request|, Escape(Truncate(rec.request, RequestPreviewLen)),
          |shown|, Escape(Truncate(shown, ResponsePreviewLen)))
  }

  /** The previews read back as the first 600 bytes of the request and the
      first 400 of the response shown, and cannot open or close a tag. */
  lemma RowPreviews(rec: Record, shown: GoString)
    ensures var row := RowOf(rec, shown);
      && Unescape(row.requestPreview) == rec.request[..Min(|rec.request|, RequestPreviewLen)]
      && Unescape(row.responsePreview) == shown[..Min(|shown|, ResponsePreviewLen)]
      && NoMarkup(row.requestPreview) && NoMarkup(row.responsePreview)
  {
    UnescapeEscape(Truncate(rec.request, RequestPreviewLen));
    UnescapeEscape(Truncate(shown, ResponsePreviewLen));
    EscapeHasNoMarkup(Truncate(rec.request, RequestPreviewLen));
    EscapeHasNoMarkup(Truncate(shown, ResponsePreviewLen));
  }

  /** How the row loop ends: every row built, a row that could not be
      scanned (500), or a response that could not be decompressed (the
      handler returns without writing anything). */
  datatype Listed = Rows(rows: seq<ListRow>) | ScanFailed | Aborted

  /** Row `i` neither fails to scan nor to decompress. */
  predicate RowOk(rows: seq<Record>, badScan: set<nat>, gunzip: GoString -> Option<GoString>, i: nat)
    requires i < |rows|
  {
    i !in badScan && Classified(rows[i].response, gunzip).Some?
  }

  /** The loop from row `i` on; ListFrom(.., 0) is the whole loop. */
  function ListFrom(rows: seq<Record>, badScan: set<nat>, gunzip: GoString -> Option<GoString>, i: nat): Listed
    requires i <= |rows|
    decreases |rows| - i
  {
    if i == |rows| then Rows([])
    else if i in badScan then ScanFailed
    else match Classified(rows[i].response, gunzip)
      case None => Aborted
      case Some(shown) =>
        match ListFrom(rows, badScan, gunzip, i + 1)
        case Rows(rest) => Rows([RowOf(rows[i], shown)] + rest)
        case other => other
  }

  /** Every row from `i` on succeeds. */
  predicate AllOkFrom(rows: seq<Record>, badScan: set<nat>, gunzip: GoString -> Option<GoString>, i: nat)
  {
    forall j :: i <= j < |rows| ==> RowOk(rows, badScan, gunzip, j)
  }

  /** Row `j`, the first failure at or after `i`, fails to scan. */
  predicate ScanFailsFirst(rows: seq<Record>, badScan: set<nat>, gunzip: GoString -> Option<GoString>, i: nat, j: nat)
  {
    i <= j < |rows| && j in badScan && (forall m :: i <= m < j ==> RowOk(rows, badScan, gunzip, m))
  }

  /** Row `j`, the first failure at or after `i`, fails to decompress. */
  predicate UnzipFailsFirst(rows: seq<Record>, badScan: set<nat>, gunzip: GoString -> Option<GoString>, i: nat, j: nat)
  {
    && i <= j < |rows| && j !in badScan && Classified(rows[j].response, gunzip).None?
    && (forall m :: i <= m < j ==> RowOk(rows, badScan, gunzip, m))
  }

  /** The rows built for records `i` onwards, one per record and in order. */
  predicate RowsFrom(rows: seq<Record>, gunzip: GoString -> Option<GoString>, i: nat, built: seq<ListRow>)
    requires i <= |rows|
  {
    && |built| == |rows| - i
    && forall k :: 0 <= k < |built| ==> RowBuilt(rows[i + k], gunzip, built[k])
  }

  /** The loop's outcome in closed form: all rows (one per record, in
      order) exactly when every row succeeds; otherwise the first failing
      row decides between a scan error and an abort. */
  lemma {:induction false} ListFromSpec(rows: seq<Record>, badScan: set<nat>, gunzip: GoString -> Option<GoString>, i: nat)
    requires i <= |rows|
    decreases |rows| - i
    ensures ListFrom(rows, badScan, gunzip, i).Rows? <==> AllOkFrom(rows, badScan, gunzip, i)
    ensures ListFrom(rows, badScan, gunzip, i).Rows? ==> RowsFrom(rows, gunzip, i, ListFrom(rows, badScan, gunzip, i).rows)
    ensures ListFrom(rows, badScan, gunzip, i).ScanFailed? <==> exists j :: ScanFailsFirst(rows, badScan, gunzip, i, j)
    ensures ListFrom(rows, badScan, gunzip, i).Aborted? <==> exists j :: UnzipFailsFirst(rows, badScan, gunzip, i, j)
  {
    if i < |rows| {
      if i in badScan {
        FailsAt(rows, badScan, gunzip, i);
      } else if Classified(rows[i].response, gunzip).None? {
        FailsAt(rows, badScan, gunzip, i);
      } else {
        ListFromSpec(rows, badScan, gunzip, i + 1);
        ShiftFirstFailure(rows, badScan, gunzip, i, i + 1);
        var rest := ListFrom(rows, badScan, gunzip, i + 1);
        if rest.Rows? {
          ConsRows(rows, gunzip, i, RowOf(rows[i], Classified(rows[i].response, gunzip).value), rest.rows);
        }
      }
    }
  }

  /** A failing row `i` is the first failure at or after `i`. */
  lemma FailsAt(rows: seq<Record>, badScan: set<nat>, gunzip: GoString -> Option<GoString>, i: nat)
    requires i < |rows| && !RowOk(rows, badScan, gunzip, i)
    ensures !AllOkFrom(rows, badScan, gunzip, i)
    ensures (exists j :: ScanFailsFirst(rows, badScan, gunzip, i, j)) <==> i in badScan
    ensures (exists j :: UnzipFailsFirst(rows, badScan, gunzip, i, j)) <==> i !in badScan
  {
    assert forall j :: ScanFailsFirst(rows, badScan, gunzip, i, j) ==> j == i;
    assert forall j :: UnzipFailsFirst(rows, badScan, gunzip, i, j) ==> j == i;
    if i in badScan {
      assert ScanFailsFirst(rows, badScan, gunzip, i, i);
    } else {
      assert UnzipFailsFirst(rows, badScan, gunzip, i, i);
    }
  }

  lemma ConsRows(rows: seq<Record>, gunzip: GoString -> Option<GoString>, i: nat, row: ListRow, rest: seq<ListRow>)
    requires i < |rows| && RowBuilt(rows[i], gunzip, row)
    requires RowsFrom(rows, gunzip, i + 1, rest)
    ensures RowsFrom(rows, gunzip, i, [row] + rest)
  {
    var built := [row] + rest;
    forall k | 0 <= k < |built|
      ensures RowBuilt(rows[i + k], gunzip, built[k])
    {
      if k > 0 {
        assert built[k] == rest[k - 1] && rows[i + k] == rows[(i + 1) + (k - 1)];
      }
    }
  }

  /** When row `i` succeeds, the first failure at or after `i` is the first at or after `i + 1`. */
  lemma ShiftFirstFailure(rows: seq<Record>, badScan: set<nat>, gunzip: GoString -> Option<GoString>, i: nat, next: nat)
    requires i < |rows| && next == i + 1 && RowOk(rows, badScan, gunzip, i)
    ensures (exists j :: ScanFailsFirst(rows, badScan, gunzip, i, j)) <==> (exists j :: ScanFailsFirst(rows, badScan, gunzip, next, j))
    ensures (exists j :: UnzipFailsFirst(rows, badScan, gunzip, i, j)) <==> (exists j :: UnzipFailsFirst(rows, badScan, gunzip, next, j))
    ensures AllOkFrom(rows, badScan, gunzip, i) <==> AllOkFrom(rows, badScan, gunzip, next)
  {
    assert forall j :: ScanFailsFirst(rows, badScan, gunzip, i, j) <==> ScanFailsFirst(rows, badScan, gunzip, next, j);
    assert forall j :: UnzipFailsFirst(rows, badScan, gunzip, i, j) <==> UnzipFailsFirst(rows, badScan, gunzip, next, j);
  }

  /** `row` is the listing row of `rec`. */
  predicate RowBuilt(rec: Record, gunzip: GoString -> Option<GoString>, row: ListRow)
  {
    Classified(rec.response, gunzip).Some? && row == RowOf(rec, Classified(rec.response, gunzip).value)
  }

  /** `acc` holds the rows of the first |acc| records. */
  predicate Built(rows: seq<Record>, gunzip: GoString -> Option<GoString>, acc: seq<ListRow>)
  {
    |acc| <= |rows| && forall j :: 0 <= j < |acc| ==> RowBuilt(rows[j], gunzip, acc[j])
  }

  /** Appending the next row keeps the accumulated rows in step with the records. */
  lemma BuiltStep(rows: seq<Record>, gunzip: GoString -> Option<GoString>, acc: seq<ListRow>, row: ListRow)
    requires Built(rows, gunzip, acc) && |acc| < |rows|
    requires RowBuilt(rows[|acc|], gunzip, row)
    ensures Built(rows, gunzip, acc + [row])
  {
    var next := acc + [row];
    forall j | 0 <= j < |next|
      ensures RowBuilt(rows[j], gunzip, next[j])
    {
      if j < |acc| {
        assert next[j] == acc[j];
      }
    }
  }

  /** One more round of the loop: row `|acc|` scanned and classified. */
  lemma Advance(rows: seq<Record>, badScan: set<nat>, gunzip: GoString -> Option<GoString>, acc: seq<ListRow>, row: ListRow)
    requires Built(rows, gunzip, acc) && |acc| < |rows|
    requires forall j :: 0 <= j < |acc| ==> RowOk(rows, badScan, gunzip, j)
    requires |acc| !in badScan && Classified(rows[|acc|].response, gunzip).Some?
    requires row == RowOf(rows[|acc|], Classified(rows[|acc|].response, gunzip).value)
    ensures Built(rows, gunzip, acc + [row])
    ensures forall j :: 0 <= j < |acc| + 1 ==> RowOk(rows, badScan, gunzip, j)
  {
    BuiltStep(rows, gunzip, acc, row);
  }

  /** The loop stops at its first failing row. */
  lemma StopsAt(rows: seq<Record>, badScan: set<nat>, gunzip: GoString -> Option<GoString>, i: nat)
    requires i < |rows| && !RowOk(rows, badScan, gunzip, i)
    requires forall j :: 0 <= j < i ==> RowOk(rows, badScan, gunzip, j)
    ensures ListFrom(rows, badScan, gunzip, 0) == if i in badScan then ScanFailed else Aborted
  {
    ListFromSpec(rows, badScan, gunzip, 0);
    if i in badScan {
      assert ScanFailsFirst(rows, badScan, gunzip, 0, i);
    } else {
      assert UnzipFailsFirst(rows, badScan, gunzip, 0, i);
    }
  }

  /** A loop in which no row fails builds every row. */
  lemma BuildsAll(rows: seq<Record>, badScan: set<nat>, gunzip: GoString -> Option<GoString>, acc: seq<ListRow>)
    requires forall j :: 0 <= j < |rows| ==> RowOk(rows, badScan, gunzip, j)
    requires Built(rows, gunzip, acc) && |acc| == |rows|
    ensures ListFrom(rows, badScan, gunzip, 0) == Rows(acc)
  {
    ListFromSpec(rows, badScan, gunzip, 0);
    assert AllOkFrom(rows, badScan, gunzip, 0);
    var l := ListFrom(rows, badScan, gunzip, 0);
    assert RowsFrom(rows, gunzip, 0, l.rows);
    assert l.rows == acc;
  }

  /** The response column the loop shows: unzipped, checked, or the marker. */
  method Classify(response: GoString, gunzip: GoString -> Option<GoString>) returns (shown: Option<GoString>)
    ensures shown == Classified(response, gunzip)
  {
    if HasPrefix(response, GzipMagic) {
      shown := gunzip(response);
    } else {
      var valid := Valid(response);
      shown := if valid then Some(response) else Some(InvalidUtf8);
    }
  }

  /** The `for rows.Next()` loop: scan, classify, format, append. */
  method BuildRows(rows: seq<Record>, badScan: set<nat>, gunzip: GoString -> Option<GoString>) returns (res: Listed)
    ensures res == ListFrom(rows, badScan, gunzip, 0)
  {
    var acc: seq<ListRow> := [];
    var i := 0;
    while i < |rows|
      invariant 0 <= i <= |rows| && |acc| == i
      invariant forall j :: 0 <= j < i ==> RowOk(rows, badScan, gunzip, j)
      invariant Built(rows, gunzip, acc)
    {
      if i in badScan {
        StopsAt(rows, badScan, gunzip, i);
        return ScanFailed;
      }
      var shown := Classify(rows[i].response, gunzip);
      if shown.None? {
        StopsAt(rows, badScan, gunzip, i);
        return Aborted;
      }
      var row := RowOf(rows[i], shown.value);
      Advance(rows, badScan, gunzip, acc, row);
      acc := acc + [row];
      i := i + 1;
    }
    BuildsAll(rows, badScan, gunzip, acc);
    return Rows(acc);
  }

  /** The rows the page shows: the built rows, or the single "No results" row. */
  function PageRows(rows: seq<ListRow>): (r: seq<ListRow>)
    ensures rows == [] ==> r == [NoResults]
    ensures rows != [] ==> r == rows
  {
    if rows == [] then [NoResults] else rows
  }

  /** The whole handler on a writer in state `w`: the query result is
      `Recent(records)`; `queryOk` is whether db.Query succeeded and
      `badScan` the positions whose rows.Scan fails. */
  function ListReply(w: Http.Reply, records: seq<Record>, queryOk: bool, badScan: set<nat>,
                     gunzip: GoString -> Option<GoString>, connected: bool): Http.Reply
  {
    if !queryOk then w.Error(Http.InternalServerError, Http.StatusInternalServerError, connected)
    else match ListFrom(Recent(records), badScan, gunzip, 0)
      case ScanFailed => w.Error(Http.InternalServerError, Http.StatusInternalServerError, connected)
      case Aborted => w
      case Rows(rows) => Http.PageReply(w, ListPage(PageRows(rows)), connected)
  }

  /** What the handler does: a 500 when the query or a scan fails, nothing
      at all when a response cannot be decompressed, and otherwise one
      text/html page with a row per listed record, in query order (the
      newest 1000), or the "No results" row when there is none. */
  lemma ListReplyOutcome(w: Http.Reply, records: seq<Record>, queryOk: bool, badScan: set<nat>,
                         gunzip: GoString -> Option<GoString>, connected: bool)
    ensures !queryOk ==> ListReply(w, records, queryOk, badScan, gunzip, connected) ==
                           w.Error(Http.InternalServerError, Http.StatusInternalServerError, connected)
    ensures queryOk && (exists j :: ScanFailsFirst(Recent(records), badScan, gunzip, 0, j)) ==>
              ListReply(w, records, queryOk, badScan, gunzip, connected) ==
                w.Error(Http.InternalServerError, Http.StatusInternalServerError, connected)
    ensures queryOk && (exists j :: UnzipFailsFirst(Recent(records), badScan, gunzip, 0, j)) ==>
              ListReply(w, records, queryOk, badScan, gunzip, connected) == w
    ensures queryOk && records == [] ==>
              ListReply(w, records, queryOk, badScan, gunzip, connected) == Http.PageReply(w, ListPage([NoResults]), connected)
    ensures queryOk && AllOkFrom(Recent(records), badScan, gunzip, 0) ==>
              exists rows :: RowsFrom(Recent(records), gunzip, 0, rows) &&
                ListReply(w, records, queryOk, badScan, gunzip, connected) == Http.PageReply(w, ListPage(PageRows(rows)), connected)
  {
    var l := ListFrom(Recent(records), badScan, gunzip, 0);
    ListFromSpec(Recent(records), badScan, gunzip, 0);
    RecentCorrect(records);
    if queryOk && AllOkFrom(Recent(records), badScan, gunzip, 0) {
      assert RowsFrom(Recent(records), gunzip, 0, l.rows);
    }
  }

  /** ListHandler */
  method ListHandler(w: Http.ResponseWriter, store: Store, queryOk: bool, badScan: set<nat>,
                     gunzip: GoString -> Option<GoString>)
    modifies w
    ensures w.State() == ListReply(old(w.State()), store.records, queryOk, badScan, gunzip, w.connected)
  {
    if !queryOk {
      w.Error(Http.InternalServerError, Http.StatusInternalServerError);
      return;
    }
    var result := BuildRows(Recent(store.records), badScan, gunzip);
    match result
    case ScanFailed =>
      w.Error(Http.InternalServerError, Http.StatusInternalServerError);
    case Aborted =>
    case Rows(rows) =>
      w.WritePage(ListPage(PageRows(rows)));
  }
}
