/** The gateway's single handler: the router that sends GET /_show/... and
    GET /_list to the two views and answers /favicon.ico itself, and the
    forwarding path for everything else, which builds the backend request,
    times the backend call, passes the backend's headers back, stores the
    call and only then writes the backend's body. */
module Gateway {
  import opened GoText
  import opened Headers
  import opened Chat
  import opened Storage
  import opened Http
  import Listing
  import Showing

  // ---- Routing

  const ListPath: GoString := "/_list"
  const FaviconPath: GoString := "/favicon.ico"
  const MethodGet: GoString := "GET"

  /** The favicon path is neither the list path nor under the show prefix. */
  lemma FaviconIsNoView()
    ensures !HasPrefix(FaviconPath, Showing.ShowPrefix) && FaviconPath != ListPath
  {
    assert FaviconPath[1] == 'f' && Showing.ShowPrefix[1] == '_';
    assert |FaviconPath| != |ListPath|;
  }

  datatype Route = ToShow | ToList | ToFavicon | ToForward

  /** The order of the checks in the handler: the show prefix, then the
      list path (both for GET only), then the favicon for any method. */
  function RouteOf(verb: GoString, path: GoString): (r: Route)
    ensures r == ToShow <==> verb == MethodGet && HasPrefix(path, Showing.ShowPrefix)
    ensures r == ToList <==> verb == MethodGet && path == ListPath
    ensures r == ToFavicon <==> path == FaviconPath
  {
    FaviconIsNoView();
    if HasPrefix(path, Showing.ShowPrefix) && verb == MethodGet then ToShow
    else if path == ListPath && verb == MethodGet then ToList
    else if path == FaviconPath then ToFavicon
    else ToForward
  }

  /** What is not a GET of a view, and not the favicon, is forwarded:
      POST /_list and DELETE /_show/1 go to the backend. */
  lemma ForwardedPaths(verb: GoString, path: GoString)
    ensures RouteOf(verb, path) == ToForward <==>
      path != FaviconPath && (verb != MethodGet || (path != ListPath && !HasPrefix(path, Showing.ShowPrefix)))
  {
  }

  // ---- The favicon

  const IconType: GoString := "image/x-icon"

  /** An empty image/x-icon body. Writing no bytes cannot fail, so the
      handler's error branch after this write is never taken. */
  function FaviconReply(w: Reply, connected: bool): Reply
  {
    w.WithHeader(Set(w.header, ContentType, IconType)).Write(Bytes([]), connected)
  }

  /** The favicon is always a 200 with Content-Type image/x-icon and an empty body. */
  lemma FaviconIsEmptyIcon(connected: bool)
    ensures var r := FaviconReply(Untouched, connected);
      r.status == StatusOK && Get(r.sent, ContentType) == IconType && r.parts == [Bytes([])]
  {
  }

  // ---- The backend request

  /** The gateway's flags: -backend, -api_key, -openai_org. */
  datatype Config = Config(backend: GoString, apiKey: GoString, openaiOrg: GoString)

  /** The inbound request; `body` is None when reading it fails. */
  datatype Inbound = Inbound(verb: GoString, path: GoString, header: Header, body: Option<GoString>)

  /** The request handed to http.DefaultClient.Do. */
  datatype Outbound = Outbound(verb: GoString, url: GoString, header: Header, body: GoString)

  const Authorization: GoString := "Authorization"
  const OpenAIOrganization: GoString := "OpenAI-Organization"
  const BearerPrefix: GoString := "Bearer "

  /** The credentials step: a configured key wins over the OPENAI_API_KEY
      environment value; either replaces what the client sent; with
      neither, the client's Authorization passes through. The
      organization is set only when configured. */
  function WithCredentials(h: Header, cfg: Config, envKey: GoString): (r: Header)
    ensures Values(r, Canonical(Authorization)) ==
      if cfg.apiKey != "" then [BearerPrefix + cfg.apiKey]
      else if envKey != "" then [BearerPrefix + envKey]
      else Values(h, Canonical(Authorization))
    ensures Values(r, Canonical(OpenAIOrganization)) ==
      if cfg.openaiOrg != "" then [cfg.openaiOrg] else Values(h, Canonical(OpenAIOrganization))
    ensures forall k :: k != Canonical(Authorization) && k != Canonical(OpenAIOrganization) ==>
      Values(r, k) == Values(h, k)
  {
    CanonicalLength(Authorization);
    CanonicalLength(OpenAIOrganization);
    var withKey :=
      if cfg.apiKey != "" then Set(h, Authorization, BearerPrefix + cfg.apiKey)
      else if envKey != "" then Set(h, Authorization, BearerPrefix + envKey)
      else h;
    if cfg.openaiOrg != "" then Set(withKey, OpenAIOrganization, cfg.openaiOrg) else withKey
  }

  /** The header of the backend request: every client header copied with
      Add into an empty header, then the credentials. */
  function OutboundHeader(h: Header, cfg: Config, envKey: GoString): Header
  {
    WithCredentials(Merged(map[], h), cfg, envKey)
  }

  /** Every client header other than the two credential headers reaches
      the backend with the same values in the same order. */
  lemma ClientHeadersPassThrough(h: Header, cfg: Config, envKey: GoString)
    ensures forall k :: k != Canonical(Authorization) && k != Canonical(OpenAIOrganization) ==>
      Values(OutboundHeader(h, cfg, envKey), k) == Values(h, k)
    ensures cfg.apiKey == "" && envKey == "" ==>
      Values(OutboundHeader(h, cfg, envKey), Canonical(Authorization)) == Values(h, Canonical(Authorization))
  {
    MergedIntoEmpty(h);
  }

  /** The request sent to the backend, or None when the body cannot be
      read or http.NewRequest fails (`newRequestOk`). */
  function Outgoing(req: Inbound, cfg: Config, envKey: GoString, newRequestOk: bool): Option<Outbound>
  {
    if req.body.None? || !newRequestOk then None
    else Some(Outbound(req.verb, cfg.backend + req.path, OutboundHeader(req.header, cfg, envKey), req.body.value))
  }

  /** Same method, the backend address followed by the path (the query
      string is not carried over), and the body byte for byte. */
  lemma OutgoingRequest(req: Inbound, cfg: Config, envKey: GoString, newRequestOk: bool)
    ensures Outgoing(req, cfg, envKey, newRequestOk).Some? <==> req.body.Some? && newRequestOk
    ensures var o := Outgoing(req, cfg, envKey, newRequestOk);
      o.Some? ==>
        && o.value.verb == req.verb
        && o.value.url == cfg.backend + req.path
        && o.value.url[..|cfg.backend|] == cfg.backend
        && o.value.body == req.body.value
  {
    var o := Outgoing(req, cfg, envKey, newRequestOk);
    if o.Some? {
      assert (cfg.backend + req.path)[..|cfg.backend|] == cfg.backend;
    }
  }

  // ---- Timing

  const NanosPerMilli: int := 1_000_000

  /** Duration.Milliseconds: whole milliseconds, truncated toward zero. */
  function Milliseconds(ns: int): (ms: int)
    ensures ns >= 0 ==> 0 <= ms && ms * NanosPerMilli <= ns < (ms + 1) * NanosPerMilli
    ensures ns < 0 ==> ms <= 0 && (ms - 1) * NanosPerMilli < ns <= ms * NanosPerMilli
  {
    if ns >= 0 then ns / NanosPerMilli else -((-ns) / NanosPerMilli)
  }

  // ---- The backend's answer and the environment of one request

  /** What http.DefaultClient.Do returns: an error, or a response whose
      body may fail to read. */
  datatype BackendReply = Unreachable | Answered(status: int, header: Header, body: Option<GoString>)

  /** Everything else the handler depends on besides the request and the
      store: the environment value, the outcomes of the calls that can
      fail, the monotonic clock around the backend call, the insert time,
      and the decoders. */
  datatype World = World(
    envKey: GoString, newRequestOk: bool,
    callStartNs: int, callEndNs: int,
    prepareOk: bool, insertOk: bool, now: int, codecs: Codecs,
    listQueryOk: bool, listBadScan: set<nat>, showRowOk: bool)

  const ContentEncoding: GoString := "Content-Encoding"
  const Gzip: GoString := "gzip"

  /** The response column: decompressed exactly when the first
      Content-Encoding value is "gzip" (compared case-sensitively). */
  function StoredBody(h: Header, raw: GoString, codecs: Codecs): Option<GoString>
  {
    if Get(h, ContentEncoding) == Gzip then codecs.gunzip(raw) else Some(raw)
  }

  /** The persistence steps once the backend has answered: prepare the
      statement, read the body, decompress it where the answer says gzip,
      insert. The row, or None when any step fails. */
  function RowFor(requestBody: GoString, path: GoString, header: Header, body: Option<GoString>, world: World): (row: Option<Insertion>)
    ensures row.Some? <==>
      && world.prepareOk && body.Some?
      && StoredBody(header, body.value, world.codecs).Some? && world.insertOk
  {
    if !world.prepareOk || body.None? then None
    else
      var stored := StoredBody(header, body.value, world.codecs);
      if stored.None? || !world.insertOk then None
      else Some(Insertion(requestBody, stored.value, path, Milliseconds(world.callEndNs - world.callStartNs)))
  }

  /** The last step: the backend's raw body, then http.Error with 500 when
      writing it fails (which the client no longer receives). */
  function Deliver(w: Reply, raw: GoString, connected: bool): Reply
  {
    var written := w.Write(Bytes(raw), connected);
    if WriteOk(Bytes(raw), connected) then written
    else written.Error(InternalServerError, StatusInternalServerError, connected)
  }

  /** The outcome of forwarding: the request sent, the row stored, and the reply. */
  datatype Outcome = Outcome(sent: Option<Outbound>, stored: Option<Insertion>, reply: Reply)

  /** After the backend has answered with `header` and `body`: its headers
      are added to the reply, and a failed persistence step returns
      without writing anything. */
  function AfterAnswer(sent: Option<Outbound>, req: Inbound, world: World, header: Header, body: Option<GoString>, w: Reply, connected: bool): Outcome
    requires req.body.Some?
  {
    var passed := w.WithHeader(Merged(w.header, header));
    var row := RowFor(req.body.value, req.path, header, body, world);
    Outcome(sent, row, if row.Some? then Deliver(passed, body.value, connected) else passed)
  }

  /** Forwarding, step by step as the handler does it. */
  function ForwardSpec(req: Inbound, cfg: Config, world: World, backend: BackendReply, w: Reply, connected: bool): Outcome
  {
    var out := Outgoing(req, cfg, world.envKey, world.newRequestOk);
    if out.None? || backend.Unreachable? then
      Outcome(out, None, w.Error(InternalServerError, StatusInternalServerError, connected))
    else AfterAnswer(out, req, world, backend.header, backend.body, w, connected)
  }

  /** A failure before the backend answers is a 500 and stores nothing. */
  lemma FailureBeforeAnswer(req: Inbound, cfg: Config, world: World, backend: BackendReply, w: Reply, connected: bool)
    requires req.body.None? || !world.newRequestOk || backend.Unreachable?
    ensures ForwardSpec(req, cfg, world, backend, w, connected).stored.None?
    ensures ForwardSpec(req, cfg, world, backend, w, connected).reply ==
      w.Error(InternalServerError, StatusInternalServerError, connected)
  {
  }

  /** A row is stored exactly when every step succeeds: the body is read,
      the request built, the backend answers, the statement is prepared,
      the answer is read, decompressed where it says gzip, and inserted. */
  lemma StoredIffAllSucceed(req: Inbound, cfg: Config, world: World, backend: BackendReply, w: Reply, connected: bool)
    ensures ForwardSpec(req, cfg, world, backend, w, connected).stored.Some? <==>
      && req.body.Some? && world.newRequestOk && backend.Answered?
      && world.prepareOk && backend.body.Some?
      && StoredBody(backend.header, backend.body.value, world.codecs).Some?
      && world.insertOk
  {
  }

  /** The stored row: the raw request body, the path, the backend's body
      decompressed when Content-Encoding is "gzip" and raw otherwise, and
      the time of the backend call alone. */
  lemma StoredRow(req: Inbound, cfg: Config, world: World, backend: BackendReply, w: Reply, connected: bool)
    requires ForwardSpec(req, cfg, world, backend, w, connected).stored.Some?
    ensures var row := ForwardSpec(req, cfg, world, backend, w, connected).stored.value;
      var raw := backend.body.value;
      && row.request == req.body.value
      && row.urlPath == req.path
      && row.response == (if Get(backend.header, ContentEncoding) == Gzip
                          then world.codecs.gunzip(raw).value else raw)
      && row.durationMs == Milliseconds(world.callEndNs - world.callStartNs)
  {
  }

  /** Delivering on a reply that has sent nothing yet: status 200 with the
      header as it stands, and the body unless the client is gone. */
  lemma DeliverOnUncommitted(w: Reply, raw: GoString, connected: bool)
    requires !w.Committed()
    ensures var d := Deliver(w, raw, connected);
      && d.status == StatusOK && d.sent == w.header
      && d.parts == w.parts + (if WriteOk(Bytes(raw), connected) then [Bytes(raw)] else [])
  {
    var written := w.Write(Bytes(raw), connected);
    if !WriteOk(Bytes(raw), connected) {
      ErrorReply(written, InternalServerError, StatusInternalServerError, connected);
    }
  }

  /** Once the backend answers, its headers are added to the reply first.
      When a later step fails the handler returns having written no body,
      so the client gets those headers (with any Content-Length the backend
      declared), status 200 and no body bytes. When
      the row is stored, the raw (still compressed) body follows, with
      status 200 whatever the backend's status was. */
  lemma AnswerPassesThrough(req: Inbound, cfg: Config, world: World, backend: BackendReply, connected: bool)
    requires req.body.Some? && world.newRequestOk && backend.Answered?
    ensures var o := ForwardSpec(req, cfg, world, backend, Untouched, connected);
      var h := Merged(map[], backend.header);
      && (o.stored.None? ==> o.reply.Finished() == Reply(h, StatusOK, h, []))
      && (o.stored.Some? ==>
            && o.reply.status == StatusOK && o.reply.sent == h
            && o.reply.parts ==
                 if WriteOk(Bytes(backend.body.value), connected) then [Bytes(backend.body.value)] else [])
  {
    var h := Merged(map[], backend.header);
    var passed := Untouched.WithHeader(h);
    var row := RowFor(req.body.value, req.path, backend.header, backend.body, world);
    if row.Some? {
      DeliverOnUncommitted(passed, backend.body.value, connected);
    }
  }

  /** The backend's body reaches the client only when the row was stored
      (unless the body is the very text http.Error writes). */
  lemma BodyOnlyAfterStore(req: Inbound, cfg: Config, world: World, backend: BackendReply, connected: bool)
    requires backend.Answered? && backend.body.Some?
    requires Bytes(backend.body.value) in ForwardSpec(req, cfg, world, backend, Untouched, connected).reply.parts
    requires backend.body.value != InternalServerError + "\n"
    ensures ForwardSpec(req, cfg, world, backend, Untouched, connected).stored.Some?
  {
    var out := Outgoing(req, cfg, world.envKey, world.newRequestOk);
    if out.None? {
      ErrorReply(Untouched, InternalServerError, StatusInternalServerError, connected);
    }
  }

  /** The backend's status code plays no part in what the handler does. */
  lemma StatusIsNotForwarded(req: Inbound, cfg: Config, world: World, header: Header, body: Option<GoString>,
                             w: Reply, connected: bool, status: int, other: int)
    ensures ForwardSpec(req, cfg, world, Answered(status, header, body), w, connected) ==
            ForwardSpec(req, cfg, world, Answered(other, header, body), w, connected)
  {
  }

  // ---- The handler

  /** The copy loop and the credentials step, on the backend request's header. */
  method BuildHeader(h: Header, cfg: Config, envKey: GoString) returns (header: Header)
    ensures header == OutboundHeader(h, cfg, envKey)
  {
    header := CopyHeader(map[], h);
    if cfg.apiKey != "" {
      header := Set(header, Authorization, BearerPrefix + cfg.apiKey);
    } else {
      var apiKey := envKey;
      if apiKey != "" {
        header := Set(header, Authorization, BearerPrefix + apiKey);
      }
    }
    if cfg.openaiOrg != "" {
      header := Set(header, OpenAIOrganization, cfg.openaiOrg);
    }
  }

  /** Prepare, read, decompress and insert; the row stored, if any. */
  method Persist(store: Store, requestBody: GoString, path: GoString, header: Header, body: Option<GoString>, world: World)
    returns (row: Option<Insertion>)
    requires store.Valid()
    modifies store
    ensures store.Valid()
    ensures row == RowFor(requestBody, path, header, body, world)
    ensures store.records == old(store.records) +
      (if row.Some? then [Stamp(row.value, old(store.nextId), world.now)] else [])
    ensures store.nextId == old(store.nextId) + (if row.Some? then 1 else 0)
  {
    if !world.prepareOk || body.None? {
      return None;
    }
    var responseBody := body.value;
    var insertBody := responseBody;
    if Get(header, ContentEncoding) == Gzip {
      var uncompressed := world.codecs.gunzip(responseBody);
      if uncompressed.None? {
        return None;
      }
      insertBody := uncompressed.value;
    }
    var ins := Insertion(requestBody, insertBody, path, Milliseconds(world.callEndNs - world.callStartNs));
    var id := store.Insert(ins, world.now, world.insertOk);
    if id.None? {
      return None;
    }
    row := Some(ins);
  }

  /** Writing the backend's body, then http.Error when the write fails. */
  method WriteBody(w: ResponseWriter, raw: GoString)
    modifies w
    ensures w.State() == Deliver(old(w.State()), raw, w.connected)
  {
    var ok := w.Write(Bytes(raw));
    if !ok {
      w.Error(InternalServerError, StatusInternalServerError);
    }
  }

  /** The forwarding path of the handler. */
  method Forward(w: ResponseWriter, store: Store, cfg: Config, req: Inbound, world: World, backend: BackendReply)
    returns (sent: Option<Outbound>)
    requires store.Valid()
    modifies w, store
    ensures store.Valid()
    ensures var o := ForwardSpec(req, cfg, world, backend, old(w.State()), w.connected);
      && sent == o.sent
      && w.State() == o.reply
      && store.records == old(store.records) +
           (if o.stored.Some? then [Stamp(o.stored.value, old(store.nextId), world.now)] else [])
      && store.nextId == old(store.nextId) + (if o.stored.Some? then 1 else 0)
  {
    if req.body.None? || !world.newRequestOk {
      w.Error(InternalServerError, StatusInternalServerError);
      return None;
    }
    var header := BuildHeader(req.header, cfg, world.envKey);
    sent := Some(Outbound(req.verb, cfg.backend + req.path, header, req.body.value));
    if backend.Unreachable? {
      w.Error(InternalServerError, StatusInternalServerError);
      return;
    }
    w.AddHeaders(backend.header);
    var row := Persist(store, req.body.value, req.path, backend.header, backend.body, world);
    if row.Some? {
      WriteBody(w, backend.body.value);
    }
  }

  /** The favicon branch of the handler. */
  method Favicon(w: ResponseWriter)
    modifies w
    ensures w.State() == FaviconReply(old(w.State()), w.connected)
  {
    w.SetHeader(ContentType, IconType);
    var ok := w.Write(Bytes([]));
    assert ok;
  }

  /** The handler registered for "/": one request, start to finish. Only
      the forwarding path changes the store. */
  method Serve(w: ResponseWriter, store: Store, cfg: Config, req: Inbound, world: World, backend: BackendReply)
    requires store.Valid()
    modifies w, store
    ensures store.Valid()
    ensures match RouteOf(req.verb, req.path)
      case ToShow =>
        && w.State() == Showing.ShowReply(old(w.State()),
             Showing.Decide(req.path, old(store.records), world.showRowOk, world.codecs), w.connected)
        && store.records == old(store.records) && store.nextId == old(store.nextId)
      case ToList =>
        && w.State() == Listing.ListReply(old(w.State()), old(store.records), world.listQueryOk,
             world.listBadScan, world.codecs.gunzip, w.connected)
        && store.records == old(store.records) && store.nextId == old(store.nextId)
      case ToFavicon =>
        && w.State() == FaviconReply(old(w.State()), w.connected)
        && store.records == old(store.records) && store.nextId == old(store.nextId)
      case ToForward =>
        var o := ForwardSpec(req, cfg, world, backend, old(w.State()), w.connected);
        && w.State() == o.reply
        && store.records == old(store.records) +
             (if o.stored.Some? then [Stamp(o.stored.value, old(store.nextId), world.now)] else [])
        && store.nextId == old(store.nextId) + (if o.stored.Some? then 1 else 0)
  {
    match RouteOf(req.verb, req.path)
    case ToShow =>
      Showing.ShowHandler(w, req.path, store, world.showRowOk, world.codecs);
    case ToList =>
      Listing.ListHandler(w, store, world.listQueryOk, world.listBadScan, world.codecs.gunzip);
    case ToFavicon =>
      Favicon(w);
    case ToForward =>
      var _ := Forward(w, store, cfg, req, world, backend);
  }
}
