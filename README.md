# sfgateway, modelled in Dafny

sfgateway is a logging reverse proxy for an OpenAI-style chat API. A single
handler serves every path:

- `GET /_show/<id>` renders one stored call.
- `GET /_list` renders the newest 1000 stored calls.
- `/favicon.ico` gets an empty icon.
- Every other request is forwarded to the configured backend. The handler
  sets credentials, times the call, copies the backend's headers back and
  stores the call in SQLite. Only after the row is stored does it write
  the backend's body to the client.

The model follows the handler's control flow step by step. Every fallible
step becomes an explicit input: reading a body, building the request, the
backend call, preparing and executing the SQL statement, decompressing,
scanning a row, JSON decoding, and writing to the client.

The modules:

- `GoText`: Go byte strings as `seq<Byte>`; `strings.HasPrefix`, `strings.TrimPrefix`, `truncateString`.
- `Utf8`: `utf8.Valid` as RFC 3629's grammar, plus an encoder and decoder for scalar values.
- `Html`: `html.EscapeString`, and an unescaper that reads its output back.
- `Decimal`: `strconv.Atoi` with int64 range checks, and `%d` formatting.
- `Headers`: `http.Header` as a map from canonical names to value lists; `CanonicalMIMEHeaderKey`, `Add`, `Set`, `Del`, `Get`; the header-copy loops.
- `Chat`: the JSON record types of show.go, and the abstract decoders (gzip, JSON).
- `Storage`: the `requests` table as a class; the id-assigning insert, lookup by id, and the `ORDER BY timestamp DESC LIMIT 1000` query.
- `Views`: the data that fills the listing and detail templates.
- `Http`: the `ResponseWriter` as a class, with `http.Error`. Its state is a `Reply` value: the header map, the status sent once, the header as sent, and the body parts written.
- `Listing`: `ListHandler`.
- `Showing`: `ShowHandler`, `renderMessages`, `renderChoices`, `renderUsage`.
- `Gateway`: the router, the forwarding path, and the favicon.

Two behaviours of the handler are easy to miss:

- The backend's status code is never passed on. Once the backend answers, the client always gets 200. The first `Write` sends that status before any byte can fail to arrive. When the write fails, the client still has status 200, and the `http.Error(…, 500)` that follows adds nothing the client receives: its status is ignored, and a client that is gone also loses its message.
- When storing the call fails, the handler returns without writing the backend's body. The client then gets the backend's headers (including any Content-Length the backend declared), status 200 and no body bytes.

## Model

| member | source | states |
|---|---|---|
| GoText.TrimPrefix | show.go:48 | with the prefix present, prefix followed by the result is the input; otherwise the input is returned unchanged |
| GoText.Truncate | main.go:196-201 | the result is the first min(len, n) bytes of the input, and it is the whole input exactly when the input has at most n bytes |
| GoText.TruncateIdempotent | main.go:196-201 | truncating twice to the same length is the same as truncating once |
| Utf8.Valid | list.go:59 | the byte loop returns true exactly when the bytes are a well-formed UTF-8 sequence |
| Utf8.EncodeWellFormed | list.go:59 | encoding any sequence of Unicode scalar values gives well-formed UTF-8, which decodes back to those values |
| Utf8.DecodeEncodes | list.go:59 | decoding well-formed UTF-8 gives scalar values whose encoding is the original bytes |
| Utf8.WellFormedIffEncoding | list.go:59 | bytes are valid UTF-8 if and only if they encode some sequence of scalar values |
| Utf8.AsciiWellFormed | list.go:59-60 | ASCII text is valid UTF-8, so the "(invalid utf8)" placeholder is itself valid |
| Html.UnescapeEscape | list.go:69-71 | unescaping html.EscapeString's output gives back the original text |
| Html.EscapeHasNoMarkup | list.go:69-71 | escaped text contains no '<', '>', '"' or '\'', so it cannot open or close a tag or an attribute |
| Decimal.Atoi | show.go:48 | a string is accepted exactly when it is an optional sign and one or more digits whose signed value fits in a 64-bit int, and the result is that signed value |
| Decimal.AtoiOutOfRange | show.go:48-51 | the decimal text of a number outside the 64-bit range is refused |
| Decimal.AtoiAcceptsPlusAndZeros | show.go:48 | a leading "+" and a leading zero are accepted and do not change the value |
| Decimal.AtoiItoa | show.go:48 | Atoi parses the decimal text of every int64 back to that int64 |
| Decimal.ItoaLacksAngle | show.go:151-152 | decimal text never contains '<' |
| Headers.CanonicalIsCanonical | main.go:94-98 | canonicalising a header name twice changes nothing more |
| Headers.Add | main.go:94-98 | Header.Add appends the value under the canonical name and leaves every other name alone |
| Headers.Set | main.go:100-113 | Header.Set replaces the values under the canonical name with the one value and leaves every other name alone |
| Headers.Del | show.go:50 | Header.Del (used by http.Error) removes the canonical name and leaves every other name alone |
| Headers.Get | main.go:152 | Header.Get returns the first value under the canonical name, or "" when there is none |
| Headers.MergedAt | main.go:127-132 | after the copy, each name holds the destination's values followed by the source's, and is present when either side holds values |
| Headers.MergedIntoEmpty | main.go:94-98 | copying into an empty header keeps every name's values in order, and copies a header without empty lists exactly |
| Headers.IsMerged | main.go:94-98 | the copy result is determined by its per-name values and its key set |
| Headers.AddAll | main.go:95-97 | the inner loop appends the values in order under one name and leaves other names alone |
| Headers.CopyHeader | main.go:94-98 | the nested copy loops return exactly the merge of source into destination |
| Storage.Store.Insert | main.go:168-172 | an accepted insert appends the call with the next id and the insert time, and keeps the ids increasing; a failed one changes nothing |
| Storage.Find | show.go:53-62 | a found row has the requested id; nothing is found exactly when no row has it |
| Storage.InsertByTimeContents | list.go:18 | inserting into newest-first order adds exactly that row |
| Storage.SortNewestFirstCorrect | list.go:18 | the query order is timestamp-descending and a permutation of the table |
| Storage.RecentCorrect | list.go:18 | the listing returns min(rows, 1000) rows, newest first, all from the table, and every row left out is no newer than every row returned |
| Listing.ClassifiedIsText | list.go:44-61 | a stored response without the gzip magic is shown as itself exactly when it is valid UTF-8, and otherwise as the placeholder "(invalid utf8)"; either way the text shown is valid UTF-8 |
| Listing.ClassifiedIdempotent | list.go:44-61 | for a stored response without the gzip magic, classifying the text shown again changes nothing |
| Listing.Classify | list.go:44-61 | the branch on the gzip magic, the decompression and the UTF-8 check give the classified text, or None when decompression fails |
| Listing.RowOf | list.go:62-71 | a listing row carries the record's id and path and the byte lengths of the stored request and of the response text shown |
| Listing.RowPreviews | list.go:62-71 | the previews read back as the first 600 bytes of the request and the first 400 of the response shown, and contain no character that can open or close markup |
| Listing.ListFromSpec | list.go:36-73 | the scan loop yields rows exactly when every row scans and decompresses, and then one row per record in query order; it is a scan failure or an abort exactly when the first failing row fails in that way |
| Listing.BuildRows | list.go:36-73 | the while loop computes the same outcome as the recursive reading of the loop |
| Listing.PageRows | list.go:75-77 | an empty listing is the single "No results" row; otherwise the rows are kept |
| Listing.ListReplyOutcome | list.go:17-99 | a failed query or scan is a 500, a failed decompression returns having written nothing, an empty table gives the "No results" page, and otherwise the text/html page holds the rows of the newest records |
| Listing.ListHandler | list.go:17-99 | the handler leaves the writer in the state the reply function gives for the stored records |
| Showing.RenderMessages | show.go:133-144 | the builder loop returns the message table |
| Showing.MessagesTableReadsBack | show.go:133-144 | the message table can be parsed back into exactly the roles and contents it was built from, in order |
| Showing.RenderChoices | show.go:146-158 | the builder loop returns the choice table |
| Showing.ChoicesTableReadsBack | show.go:146-158 | the choice table can be parsed back into each choice's index, role and content, in order |
| Showing.UsageReadsBack | show.go:160-166 | the usage list can be parsed back into the three token counts |
| Showing.Field | show.go:137-140 | splitting at the first '<' gives a prefix without '<' and a rest that is empty or starts with '<' |
| Showing.ParseIdOfLink | show.go:48 | the listing's link "/_show/" + id leads back to that id |
| Showing.ParseIdRejects | show.go:48-51 | a path names no id (and gets 400) exactly when what follows "/_show/" is empty, has a non-digit after the optional sign, or is outside the 64-bit range |
| Showing.ParseIdOutOfRange | show.go:48-51 | a "/_show/" link to a number outside the 64-bit range names no id |
| Showing.BadRequestFirst | show.go:48-52 | the handler answers 400 exactly when the path names no id, and does so without reading the store |
| Showing.ChecksInOrder | show.go:53-83 | after the id come the row lookup (a missing row fails too), then the stored request's JSON, then the stored response's JSON; the first failure decides |
| Showing.ShownRecord | show.go:85-123 | a shown page has the id parsed from the path and describes the stored row with that id: its byte lengths, path, duration, and the escaped and rendered decoded JSON |
| Showing.ShowHandler | show.go:47-131 | the handler leaves the writer in the state the reply function gives for the decision |
| Http.FirstStatusWins | show.go:124-130 | only the first status a handler sends reaches the client, and a handler that wrote nothing ends with 200 |
| Http.ErrorReply | show.go:50 | http.Error before anything was sent gives the code, plain text with no sniffing and no Content-Length, and the message with a newline; after something was sent, only the message is added |
| Http.PageReplyOnUntouched | show.go:124-130 | a page written to an untouched writer is status 200 text/html, with the page delivered when the client is connected |
| Http.ResponseWriter.Write | list.go:94 | Write sends the pending header with status 200 first, fails only when bytes cannot reach the client, and appends the part otherwise |
| Http.ResponseWriter.Error | show.go:50 | the method leaves the writer as http.Error's reply function describes |
| Http.ResponseWriter.AddHeaders | main.go:127-132 | the copy loops on the writer's header merge the backend's header into it |
| Http.ResponseWriter.WritePage | list.go:93-99 | Content-Type text/html, then the page, then http.Error when that write fails |
| Http.ErrorAfterFailedWrite | list.go:94-98 | after a failed write the status already sent stays (200 on a fresh writer), and the http.Error that follows changes neither the status, the header sent nor the body delivered |
| Gateway.RouteOf | main.go:53-73 | a path goes to the show view exactly for GET with the "/_show/" prefix, to the listing exactly for GET /_list, and to the favicon exactly for /favicon.ico with any method |
| Gateway.ForwardedPaths | main.go:53-73 | a request is forwarded exactly when it is not for the favicon and is not a GET of a view |
| Gateway.FaviconIsEmptyIcon | main.go:63-73 | the favicon is always status 200, Content-Type image/x-icon and an empty body |
| Gateway.Favicon | main.go:63-73 | the favicon branch leaves the writer as the favicon reply describes |
| Gateway.WithCredentials | main.go:100-113 | Authorization is "Bearer " with the configured key, else with OPENAI_API_KEY, else the client's own; OpenAI-Organization is the configured one, else the client's; every other header is untouched |
| Gateway.ClientHeadersPassThrough | main.go:94-113 | every client header other than the two credential headers reaches the backend with the same values in the same order, and so does Authorization when no key is configured |
| Gateway.OutgoingRequest | main.go:77-91 | a backend request exists exactly when the body was read and NewRequest succeeded; it has the client's method, the backend address followed by the path, and the client's body |
| Gateway.Milliseconds | main.go:115-118 | the duration is the whole number of milliseconds, truncated toward zero |
| Gateway.RowFor | main.go:134-172 | a row is produced exactly when the statement is prepared, the body is read, decompression (where the answer says gzip) succeeds and the insert succeeds |
| Gateway.FailureBeforeAnswer | main.go:77-124 | a failure to read the body, to build the request or to reach the backend is a 500 that stores nothing |
| Gateway.StoredIffAllSucceed | main.go:77-172 | a call is stored exactly when every step from reading the body to the insert succeeds |
| Gateway.StoredRow | main.go:150-168 | the stored row holds the raw request body, the path, the response decompressed exactly when Content-Encoding is "gzip", and the duration of the backend call |
| Gateway.DeliverOnUncommitted | main.go:174-180 | writing the body on a fresh reply sends 200 with the current header and appends the body unless the client is gone |
| Gateway.AnswerPassesThrough | main.go:127-180 | once the backend answers, the client gets its headers and status 200; the raw body follows only when the row was stored |
| Gateway.BodyOnlyAfterStore | main.go:134-180 | the backend's body reaches the client only when the call was stored |
| Gateway.StatusIsNotForwarded | main.go:115-180 | the backend's status code does not affect the reply, the stored row or the request sent |
| Gateway.BuildHeader | main.go:94-113 | the copy loop and the credential steps build exactly the backend request's header |
| Gateway.Persist | main.go:134-172 | the persistence steps store exactly the row RowFor gives, with the next id, and advance the id counter by one; when a step fails, neither the table nor the counter changes |
| Gateway.WriteBody | main.go:174-180 | the write of the raw body, then http.Error when it fails, as the delivery function describes |
| Gateway.Forward | main.go:77-180 | the forwarding path sends the request ForwardSpec gives, stores exactly its row, advances the id counter only when it stores one, and leaves the writer as ForwardSpec says |
| Gateway.Serve | main.go:52-180 | each route leaves the writer as its view function or ForwardSpec says; only forwarding changes the table or the id counter |

## Left out

- net/http internals: connection handling and content sniffing. When storing fails and the copied backend header declares a Content-Length, net/http sends that length with no body bytes and closes the connection, so the client sees a truncated response; the model records only the headers, the status and the empty list of parts. The `Transport`'s transparent gzip handling is not modelled; a response is treated as compressed exactly when its header says `Content-Encoding: gzip`.
- gzip/DEFLATE and `encoding/json`: abstract decoders that either fail or return a value. Parsing JSON and decompressing bytes are not modelled.
- The SQL engine, the statement text and `CREATE TABLE`: the table is a sequence of records with the next id. The `timestamp` column's default is an input to the insert.
- `convertTimestamp` and time formatting: timestamps are carried as raw integers.
- The `%f` formatting of the temperature: the view carries the number itself.
- The exact page templates and CSS: pages are structured values holding the escaped fields and the exact HTML of `renderMessages`, `renderChoices` and `renderUsage`.
- The `/tmp/gateway-response-body.json` debug file, logging, `fmt.Println`, flag parsing and `ListenAndServe`: I/O with no effect on the reply or the table.
- Concurrency between requests: each request is modelled on its own.
- `http.NewRequest`'s validation (method and URL syntax): an input that says whether it fails.
- Gateway.Milliseconds: does not model `time.Since` saturating at the int64 range.
- `rows.Err()` after the scan loop: the source never checks it, so an error while iterating ends the loop early and the listing silently shows fewer rows (or "No results"). The model has no iteration errors: every queried row is offered to the loop.
- Storage.RecentCorrect: the order of rows with equal timestamps is a fixed choice of the model; SQLite leaves it unspecified.
- The URL path on the listing and detail pages is written without escaping; the views carry it as stored.
- Http.ResponseWriter.WriteHeader: requires a code from 100 to 999 instead of modelling the panic outside that range.
- The favicon's error branch: writing zero bytes cannot fail, so the branch is unreachable and not modelled.
