/** The `/_show/<id>` view: the id parsed from the path, the checks made
    in order before anything is shown, and the HTML fragments for the
    stored request's messages and the stored response's choices and
    token usage, each proved to read back as what it shows. */
module Showing {
  import opened GoText
  import opened Decimal
  import opened Html
  import opened Chat
  import opened Storage
  import opened Views
  import Http

  const ShowPrefix: GoString := "/_show/"

  /** The body text http.Error writes for a 400. */
  const BadRequestText: GoString := "Bad Request"

  // ---- Fragments of the table builders' templates.

  const TableOpen: GoString := "<table>"
  const TableClose: GoString := "</table>"
  const RowOpen: GoString := "<tr><td><pre>"
  const CellSep: GoString := "</pre></td><td><pre>"
  const RowClose: GoString := "</pre></td></tr>"
  const PromptLabel: GoString := "<dl><dt>Prompt Tokens:</dt><dd>"
  const CompletionLabel: GoString := "</dd><dt>Completion Tokens:</dt><dd>"
  const TotalLabel: GoString := "</dd><dt>Total Tokens:</dt><dd>"
  const UsageClose: GoString := "</dd></dl>"

  // ---- renderMessages

  function MessageRow(m: Message): GoString
  {
    RowOpen + (Escape(m.role) + (CellSep + (Escape(m.content) + RowClose)))
  }

  function MessageRows(msgs: seq<Message>): GoString
  {
    if msgs == [] then [] else MessageRow(msgs[0]) + MessageRows(msgs[1..])
  }

  /** The HTML renderMessages returns. */
  function MessagesTable(msgs: seq<Message>): GoString
  {
    TableOpen + MessageRows(msgs) + TableClose
  }

  lemma {:induction false} MessageRowsSnoc(msgs: seq<Message>, m: Message)
    ensures MessageRows(msgs + [m]) == MessageRows(msgs) + MessageRow(m)
  {
    if msgs == [] {
      assert msgs + [m] == [m];
    } else {
      assert (msgs + [m])[1..] == msgs[1..] + [m];
      MessageRowsSnoc(msgs[1..], m);
      AppendAssoc(MessageRow(msgs[0]), MessageRows(msgs[1..]), MessageRow(m));
    }
  }

  /** One more row appended after the table's opening tag. */
  lemma Extend(open: GoString, done: GoString, row: GoString, next: GoString)
    requires next == done + row
    ensures open + done + row == open + next
  {
    AppendAssoc(open, done, row);
  }

  lemma MessageStep(msgs: seq<Message>, i: nat)
    requires i < |msgs|
    ensures TableOpen + MessageRows(msgs[..i]) + MessageRow(msgs[i]) == TableOpen + MessageRows(msgs[..i + 1])
  {
    assert msgs[..i + 1] == msgs[..i] + [msgs[i]];
    MessageRowsSnoc(msgs[..i], msgs[i]);
    Extend(TableOpen, MessageRows(msgs[..i]), MessageRow(msgs[i]), MessageRows(msgs[..i + 1]));
  }

  /** renderMessages: a strings.Builder filled in a loop. */
  method RenderMessages(msgs: seq<Message>) returns (html: GoString)
    ensures html == MessagesTable(msgs)
  {
    var sb := TableOpen;
    var i := 0;
    while i < |msgs|
      invariant 0 <= i <= |msgs|
      invariant sb == TableOpen + MessageRows(msgs[..i])
    {
      MessageStep(msgs, i);
      sb := sb + MessageRow(msgs[i]);
      i := i + 1;
    }
    assert msgs[..i] == msgs;
    html := sb + TableClose;
  }

  // ---- renderChoices

  function ChoiceRow(c: Choice): GoString
  {
    RowOpen + (Itoa(c.index) + (CellSep + (Escape(c.message.role) + (CellSep + (Escape(c.message.content) + RowClose)))))
  }

  function ChoiceRows(cs: seq<Choice>): GoString
  {
    if cs == [] then [] else ChoiceRow(cs[0]) + ChoiceRows(cs[1..])
  }

  /** The HTML renderChoices returns. */
  function ChoicesTable(cs: seq<Choice>): GoString
  {
    TableOpen + ChoiceRows(cs) + TableClose
  }

  lemma {:induction false} ChoiceRowsSnoc(cs: seq<Choice>, c: Choice)
    ensures ChoiceRows(cs + [c]) == ChoiceRows(cs) + ChoiceRow(c)
  {
    if cs == [] {
      assert cs + [c] == [c];
    } else {
      assert (cs + [c])[1..] == cs[1..] + [c];
      ChoiceRowsSnoc(cs[1..], c);
      AppendAssoc(ChoiceRow(cs[0]), ChoiceRows(cs[1..]), ChoiceRow(c));
    }
  }

  lemma ChoiceStep(cs: seq<Choice>, i: nat)
    requires i < |cs|
    ensures TableOpen + ChoiceRows(cs[..i]) + ChoiceRow(cs[i]) == TableOpen + ChoiceRows(cs[..i + 1])
  {
    assert cs[..i + 1] == cs[..i] + [cs[i]];
    ChoiceRowsSnoc(cs[..i], cs[i]);
    Extend(TableOpen, ChoiceRows(cs[..i]), ChoiceRow(cs[i]), ChoiceRows(cs[..i + 1]));
  }

  /** renderChoices: a strings.Builder filled in a loop. */
  method RenderChoices(cs: seq<Choice>) returns (html: GoString)
    ensures html == ChoicesTable(cs)
  {
    var sb := TableOpen;
    var i := 0;
    while i < |cs|
      invariant 0 <= i <= |cs|
      invariant sb == TableOpen + ChoiceRows(cs[..i])
    {
      ChoiceStep(cs, i);
      sb := sb + ChoiceRow(cs[i]);
      i := i + 1;
    }
    assert cs[..i] == cs;
    html := sb + TableClose;
  }

  // ---- renderUsage

  /** The HTML renderUsage returns. */
  function UsageHtml(u: Usage): GoString
  {
    PromptLabel + (Itoa(u.promptTokens) + (CompletionLabel + (Itoa(u.completionTokens)
      + (TotalLabel + (Itoa(u.totalTokens) + UsageClose)))))
  }

  // ---- Reading the fragments back: what a reader of the page recovers.

  /** `s` after the literal `lit`, when it starts with it. */
  function Expect(s: GoString, lit: GoString): (r: Option<GoString>)
    ensures r.Some? <==> HasPrefix(s, lit)
    ensures r.Some? ==> lit + r.value == s
  {
    if HasPrefix(s, lit) then Some(s[|lit|..]) else None
  }

  /** The text of a cell: `s` split before its first '<'. */
  function Field(s: GoString): (r: (GoString, GoString))
    ensures r.0 + r.1 == s && Lacks(r.0, '<')
    ensures r.1 == [] || r.1[0] == '<'
  {
    if s == [] || s[0] == '<' then ([], s)
    else
      var (f, rest) := Field(s[1..]);
      Reattach(s, f, rest);
      ([s[0]] + f, rest)
  }

  /** The byte put back in front of a split of the rest of `s`. */
  lemma Reattach(s: GoString, f: GoString, rest: GoString)
    requires s != [] && s[0] != '<' && f + rest == s[1..] && Lacks(f, '<')
    ensures ([s[0]] + f) + rest == s && Lacks([s[0]] + f, '<')
  {
    AppendAssoc([s[0]], f, rest);
    assert s == [s[0]] + s[1..];
    var g := [s[0]] + f;
    forall i | 0 <= i < |g|
      ensures g[i] != '<'
    {
      if i > 0 {
        assert g[i] == f[i - 1];
      }
    }
  }

  lemma ExpectLit(lit: GoString, rest: GoString)
    ensures Expect(lit + rest, lit) == Some(rest)
  {
    assert (lit + rest)[..|lit|] == lit;
  }

  lemma {:induction false} FieldOf(x: GoString, rest: GoString)
    requires Lacks(x, '<') && rest != [] && rest[0] == '<'
    ensures Field(x + rest) == (x, rest)
  {
    if x != [] {
      assert (x + rest)[1..] == x[1..] + rest;
      FieldOf(x[1..], rest);
      assert [x[0]] + x[1..] == x;
    } else {
      assert x + rest == rest;
    }
  }

  lemma EscapeLacksAngle(s: GoString)
    ensures Lacks(Escape(s), '<')
  {
    EscapeHasNoMarkup(s);
  }

  /** One escaped cell followed by markup reads back as the cell's text. */
  lemma ReadCell(text: GoString, rest: GoString)
    requires rest != [] && rest[0] == '<'
    ensures Field(Escape(text) + rest) == (Escape(text), rest)
    ensures Unescape(Escape(text)) == text
  {
    EscapeLacksAngle(text);
    FieldOf(Escape(text), rest);
    UnescapeEscape(text);
  }

  /** One printed number followed by markup reads back as the number. */
  lemma ReadNumber(n: Int64, rest: GoString)
    requires rest != [] && rest[0] == '<'
    ensures Field(Itoa(n) + rest) == (Itoa(n), rest)
    ensures Atoi(Itoa(n)) == Some(n)
  {
    ItoaLacksAngle(n);
    FieldOf(Itoa(n), rest);
    AtoiItoa(n);
  }

  /** The rows of a message table, up to and including "</table>". */
  function ParseMessageRows(s: GoString): Option<seq<Message>>
    decreases |s|
  {
    if s == TableClose then Some([])
    else match Expect(s, RowOpen)
      case None => None
      case Some(s1) =>
        var (role, s2) := Field(s1);
        match Expect(s2, CellSep)
        case None => None
        case Some(s3) =>
          var (content, s4) := Field(s3);
          match Expect(s4, RowClose)
          case None => None
          case Some(s5) =>
            match ParseMessageRows(s5)
            case None => None
            case Some(ms) => Some([Message(Unescape(role), Unescape(content))] + ms)
  }

  function ParseMessages(s: GoString): Option<seq<Message>>
  {
    match Expect(s, TableOpen)
    case None => None
    case Some(rest) => ParseMessageRows(rest)
  }

  /** A row's opening differs from the table's closing tag. */
  lemma RowIsNotClose(row: GoString, rest: GoString)
    requires HasPrefix(row, RowOpen)
    ensures row + rest != TableClose
  {
    assert (row + rest)[1] == RowOpen[1];
  }

  /** A message row followed by more text, with the concatenations grouped to the right. */
  lemma MessageRowThen(m: Message, tail: GoString)
    ensures MessageRow(m) + tail ==
      RowOpen + (Escape(m.role) + (CellSep + (Escape(m.content) + (RowClose + tail))))
  {
    var e1, e2 := Escape(m.role), Escape(m.content);
    AppendAssoc(e2, RowClose, tail);
    AppendAssoc(CellSep, e2 + RowClose, tail);
    AppendAssoc(e1, CellSep + (e2 + RowClose), tail);
    AppendAssoc(RowOpen, e1 + (CellSep + (e2 + RowClose)), tail);
  }

  lemma {:induction false} ParseMessageRowsInverse(msgs: seq<Message>)
    ensures ParseMessageRows(MessageRows(msgs) + TableClose) == Some(msgs)
  {
    if msgs != [] {
      var m := msgs[0];
      var tail := MessageRows(msgs[1..]) + TableClose;
      var t5 := RowClose + tail;
      var t4 := Escape(m.content) + t5;
      var t3 := CellSep + t4;
      var t2 := Escape(m.role) + t3;
      AppendAssoc(MessageRow(m), MessageRows(msgs[1..]), TableClose);
      MessageRowThen(m, tail);
      assert MessageRows(msgs) + TableClose == RowOpen + t2;
      RowIsNotClose(RowOpen, t2);
      ExpectLit(RowOpen, t2);
      ReadCell(m.role, t3);
      ExpectLit(CellSep, t4);
      ReadCell(m.content, t5);
      ExpectLit(RowClose, tail);
      ParseMessageRowsInverse(msgs[1..]);
      assert [m] + msgs[1..] == msgs;
    }
  }

  /** The message table shows every message, in order, with role and
      content recoverable exactly: reading it back gives the messages. */
  lemma MessagesTableReadsBack(msgs: seq<Message>)
    ensures ParseMessages(MessagesTable(msgs)) == Some(msgs)
    ensures MessagesTable([]) == TableOpen + TableClose
  {
    var rest := MessageRows(msgs) + TableClose;
    AppendAssoc(TableOpen, MessageRows(msgs), TableClose);
    ExpectLit(TableOpen, rest);
    ParseMessageRowsInverse(msgs);
  }

  /** What a choice row shows: the index and the message, not the finish reason. */
  datatype ShownChoice = ShownChoice(index: Int64, message: Message)

  function ShownChoices(cs: seq<Choice>): (r: seq<ShownChoice>)
    ensures |r| == |cs|
    ensures forall i :: 0 <= i < |cs| ==> r[i] == ShownChoice(cs[i].index, cs[i].message)
  {
    if cs == [] then [] else [ShownChoice(cs[0].index, cs[0].message)] + ShownChoices(cs[1..])
  }

  function ParseChoiceRows(s: GoString): Option<seq<ShownChoice>>
    decreases |s|
  {
    if s == TableClose then Some([])
    else match Expect(s, RowOpen)
      case None => None
      case Some(s1) =>
        var (index, s2) := Field(s1);
        match (Atoi(index), Expect(s2, CellSep))
        case (Some(n), Some(s3)) =>
          (var (role, s4) := Field(s3);
          match Expect(s4, CellSep)
          case None => None
          case Some(s5) =>
            var (content, s6) := Field(s5);
            match Expect(s6, RowClose)
            case None => None
            case Some(s7) =>
              match ParseChoiceRows(s7)
              case None => None
              case Some(rest) => Some([ShownChoice(n, Message(Unescape(role), Unescape(content)))] + rest))
        case _ => None
  }

  function ParseChoices(s: GoString): Option<seq<ShownChoice>>
  {
    match Expect(s, TableOpen)
    case None => None
    case Some(rest) => ParseChoiceRows(rest)
  }

  /** A choice row followed by more text, with the concatenations grouped to the right. */
  lemma ChoiceRowThen(c: Choice, tail: GoString)
    ensures ChoiceRow(c) + tail ==
      RowOpen + (Itoa(c.index) + (CellSep + (Escape(c.message.role) + (CellSep +
        (Escape(c.message.content) + (RowClose + tail))))))
  {
    var n, e1, e2 := Itoa(c.index), Escape(c.message.role), Escape(c.message.content);
    AppendAssoc(e2, RowClose, tail);
    AppendAssoc(CellSep, e2 + RowClose, tail);
    AppendAssoc(e1, CellSep + (e2 + RowClose), tail);
    AppendAssoc(CellSep, e1 + (CellSep + (e2 + RowClose)), tail);
    AppendAssoc(n, CellSep + (e1 + (CellSep + (e2 + RowClose))), tail);
    AppendAssoc(RowOpen, n + (CellSep + (e1 + (CellSep + (e2 + RowClose)))), tail);
  }

  lemma {:induction false} ParseChoiceRowsInverse(cs: seq<Choice>)
    ensures ParseChoiceRows(ChoiceRows(cs) + TableClose) == Some(ShownChoices(cs))
  {
    if cs != [] {
      var c := cs[0];
      var tail := ChoiceRows(cs[1..]) + TableClose;
      var t7 := RowClose + tail;
      var t6 := Escape(c.message.content) + t7;
      var t5 := CellSep + t6;
      var t4 := Escape(c.message.role) + t5;
      var t3 := CellSep + t4;
      var t2 := Itoa(c.index) + t3;
      AppendAssoc(ChoiceRow(c), ChoiceRows(cs[1..]), TableClose);
      ChoiceRowThen(c, tail);
      assert ChoiceRows(cs) + TableClose == RowOpen + t2;
      RowIsNotClose(RowOpen, t2);
      ExpectLit(RowOpen, t2);
      ReadNumber(c.index, t3);
      ExpectLit(CellSep, t4);
      ReadCell(c.message.role, t5);
      ExpectLit(CellSep, t6);
      ReadCell(c.message.content, t7);
      ExpectLit(RowClose, tail);
      ParseChoiceRowsInverse(cs[1..]);
    }
  }

  /** The choice table shows every choice, in order, with its index and
      message recoverable exactly. */
  lemma ChoicesTableReadsBack(cs: seq<Choice>)
    ensures ParseChoices(ChoicesTable(cs)) == Some(ShownChoices(cs))
  {
    var rest := ChoiceRows(cs) + TableClose;
    AppendAssoc(TableOpen, ChoiceRows(cs), TableClose);
    ExpectLit(TableOpen, rest);
    ParseChoiceRowsInverse(cs);
  }

  function ParseUsage(s: GoString): Option<Usage>
  {
    match Expect(s, PromptLabel)
    case None => None
    case Some(s1) =>
      var (p, s2) := Field(s1);
      match Expect(s2, CompletionLabel)
      case None => None
      case Some(s3) =>
        var (c, s4) := Field(s3);
        match Expect(s4, TotalLabel)
        case None => None
        case Some(s5) =>
          var (t, s6) := Field(s5);
          match (Atoi(p), Atoi(c), Atoi(t))
          case (Some(pn), Some(cn), Some(tn)) =>
            if s6 == UsageClose then Some(Usage(pn, cn, tn)) else None
          case _ => None
  }

  /** The usage fragment shows the three token counts unchanged. */
  lemma UsageReadsBack(u: Usage)
    ensures ParseUsage(UsageHtml(u)) == Some(u)
  {
    var t6 := UsageClose;
    var t5 := Itoa(u.totalTokens) + t6;
    var t4 := TotalLabel + t5;
    var t3 := Itoa(u.completionTokens) + t4;
    var t2 := CompletionLabel + t3;
    var t1 := Itoa(u.promptTokens) + t2;
    ExpectLit(PromptLabel, t1);
    ReadNumber(u.promptTokens, t2);
    ExpectLit(CompletionLabel, t3);
    ReadNumber(u.completionTokens, t4);
    ExpectLit(TotalLabel, t5);
    ReadNumber(u.totalTokens, t6);
  }

  // ---- ShowHandler

  /** The id in the path: strconv.Atoi of what follows "/_show/". */
  function ParseId(path: GoString): Option<Int64>
  {
    Atoi(TrimPrefix(path, ShowPrefix))
  }

  /** The links the listing writes ("/_show/" and the id in decimal) lead
      back to that id. */
  lemma ParseIdOfLink(id: Int64)
    ensures ParseId(ShowPrefix + Itoa(id)) == Some(id)
  {
    var p := ShowPrefix + Itoa(id);
    assert p[..|ShowPrefix|] == ShowPrefix && p[|ShowPrefix|..] == Itoa(id);
    AtoiItoa(id);
  }

  /** A path names no id exactly when what follows "/_show/" is empty, has
      something other than digits after the optional sign, or denotes a
      number outside `int`. */
  lemma ParseIdRejects(path: GoString)
    ensures var t := TrimPrefix(path, ShowPrefix);
      ParseId(path).None? <==> !Numeral(t) || Signed(t) < MinInt || MaxInt < Signed(t)
  {
  }

  /** A link to a number outside `int` names no id. */
  lemma ParseIdOutOfRange(n: int)
    requires n < MinInt || MaxInt < n
    ensures ParseId(ShowPrefix + Itoa(n)).None?
  {
    var p := ShowPrefix + Itoa(n);
    assert p[..|ShowPrefix|] == ShowPrefix && p[|ShowPrefix|..] == Itoa(n);
    AtoiOutOfRange(n);
  }

  function RequestViewOf(r: ChatRequest): RequestView
  {
    RequestView(Escape(r.model), MessagesTable(r.messages), r.temperature)
  }

  function ResponseViewOf(r: ChatResponse): ResponseView
  {
    ResponseView(Escape(r.id), Escape(r.objectKind), r.created, Escape(r.model),
                 ChoicesTable(r.choices), UsageHtml(r.usage))
  }

  /** Where the handler ends. */
  datatype Decision =
    | BadRequest
    | LookupFailed
    | BadStoredRequest
    | BadStoredResponse
    | Shown(detail: Detail)

  /** The checks in the handler's order. `rowOk` is whether row.Scan
      succeeds on a row that exists; a missing row fails the scan too. */
  function Decide(path: GoString, records: seq<Record>, rowOk: bool, codecs: Codecs): Decision
  {
    match ParseId(path)
    case None => BadRequest
    case Some(id) =>
      var found := Find(records, id);
      if found.None? || !rowOk then LookupFailed
      else
        var rec := found.value;
        match codecs.parseRequest(rec.request)
        case None => BadStoredRequest
        case Some(req) =>
          match codecs.parseResponse(rec.response)
          case None => BadStoredResponse
          case Some(resp) =>
            Shown(Detail(id, rec.timestamp, rec.urlPath, rec.durationMs,
                         |rec.request|, RequestViewOf(req), |rec.response|, ResponseViewOf(resp)))
  }

  /** A path that names no id is a 400, whatever the store holds: the
      store is not consulted. */
  lemma BadRequestFirst(path: GoString, records: seq<Record>, rowOk: bool, codecs: Codecs)
    ensures Decide(path, records, rowOk, codecs) == BadRequest <==> ParseId(path).None?
    ensures ParseId(path).None? ==> Decide(path, [], false, codecs) == Decide(path, records, rowOk, codecs)
  {
  }

  /** After the id: the lookup, then the stored request, then the stored
      response; the first that fails decides, and a missing row is an
      error rather than an empty record. */
  lemma ChecksInOrder(path: GoString, records: seq<Record>, rowOk: bool, codecs: Codecs)
    requires ParseId(path).Some?
    ensures var found := Find(records, ParseId(path).value);
      var d := Decide(path, records, rowOk, codecs);
      && (found.None? || !rowOk <==> d == LookupFailed)
      && (found.Some? && rowOk ==>
            && (codecs.parseRequest(found.value.request).None? <==> d == BadStoredRequest)
            && (codecs.parseRequest(found.value.request).Some? ==>
                  (codecs.parseResponse(found.value.response).None? <==> d == BadStoredResponse)))
  {
  }

  /** A shown record is the stored row with the requested id; the page
      reports the stored byte lengths and the decoded, escaped values. */
  lemma ShownRecord(path: GoString, records: seq<Record>, rowOk: bool, codecs: Codecs)
    requires Decide(path, records, rowOk, codecs).Shown?
    ensures ParseId(path).Some? && Decide(path, records, rowOk, codecs).detail.id == ParseId(path).value
    ensures var d := Decide(path, records, rowOk, codecs).detail;
      exists i :: 0 <= i < |records| && records[i].id == d.id
        && d.requestBytes == |records[i].request|
        && d.responseBytes == |records[i].response|
        && d.urlPath == records[i].urlPath
        && d.durationMs == records[i].durationMs
        && codecs.parseRequest(records[i].request).Some?
        && d.request == RequestViewOf(codecs.parseRequest(records[i].request).value)
        && codecs.parseResponse(records[i].response).Some?
        && d.response == ResponseViewOf(codecs.parseResponse(records[i].response).value)
  {
    var id := ParseId(path).value;
    var rec := Find(records, id).value;
    var i :| 0 <= i < |records| && records[i] == rec;
  }

  /** The handler's reply on a writer in state `w`. */
  function ShowReply(w: Http.Reply, d: Decision, connected: bool): Http.Reply
  {
    match d
    case BadRequest => w.Error(BadRequestText, Http.StatusBadRequest, connected)
    case Shown(detail) => Http.PageReply(w, DetailPage(detail), connected)
    case _ => w.Error(Http.InternalServerError, Http.StatusInternalServerError, connected)
  }

  /** ShowHandler */
  method ShowHandler(w: Http.ResponseWriter, path: GoString, store: Store, rowOk: bool, codecs: Codecs)
    modifies w
    ensures w.State() == ShowReply(old(w.State()), Decide(path, store.records, rowOk, codecs), w.connected)
  {
    var id := ParseId(path);
    if id.None? {
      w.Error(BadRequestText, Http.StatusBadRequest);
      return;
    }
    var found := Find(store.records, id.value);
    if found.None? || !rowOk {
      w.Error(Http.InternalServerError, Http.StatusInternalServerError);
      return;
    }
    var rec := found.value;
    var req := codecs.parseRequest(rec.request);
    if req.None? {
      w.Error(Http.InternalServerError, Http.StatusInternalServerError);
      return;
    }
    var resp := codecs.parseResponse(rec.response);
    if resp.None? {
      w.Error(Http.InternalServerError, Http.StatusInternalServerError);
      return;
    }
    var messages := RenderMessages(req.value.messages);
    var choices := RenderChoices(resp.value.choices);
    var r := resp.value;
    var requestView := RequestView(Escape(req.value.model), messages, req.value.temperature);
    var responseView := ResponseView(Escape(r.id), Escape(r.objectKind), r.created, Escape(r.model), choices, UsageHtml(r.usage));
    w.WritePage(DetailPage(Detail(id.value, rec.timestamp, rec.urlPath, rec.durationMs,
                                  |rec.request|, requestView, |rec.response|, responseView)));
  }
}
