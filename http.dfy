/** The part of net/http's ResponseWriter and http.Error that the handlers
    rely on: a mutable header map, a status line sent at most once (the
    first WriteHeader or Write sends it, with the header as it is at that
    moment), and a body written in parts, each of which can fail when the
    client has gone away. */
module Http {
  import opened GoText
  import opened Headers
  import opened Views

  const StatusOK: int := 200
  const StatusBadRequest: int := 400
  const StatusInternalServerError: int := 500

  /** Header names, as the source spells them. */
  const ContentType: GoString := "Content-Type"
  const ContentLength: GoString := "Content-Length"
  const NoSniffHeader: GoString := "X-Content-Type-Options"

  /** Header values the handlers and http.Error set. */
  const PlainText: GoString := "text/plain; charset=utf-8"
  const NoSniff: GoString := "nosniff"
  const Html: GoString := "text/html"

  /** The body text http.Error writes for a 500. */
  const InternalServerError: GoString := "Internal Server Error"

  /** A piece of response body: raw bytes, or a page the handler rendered. */
  datatype Part = Bytes(data: GoString) | Rendered(page: Page)

  /** A write of no bytes never reaches the connection, so it cannot fail. */
  predicate WriteOk(p: Part, connected: bool)
  {
    connected || p == Bytes([])
  }

  /** What a handler has done to its ResponseWriter: the header map it
      edits, the status sent (0 while nothing has been sent), the header
      as it was when the status was sent, and the body parts delivered. */
  datatype Reply = Reply(header: Header, status: int, sent: Header, parts: seq<Part>)
  {
    predicate Committed() { status != 0 }

    function WithHeader(h: Header): Reply { this.(header := h) }

    /** WriteHeader: only the first call sends a status; later calls are ignored. */
    function WriteHeader(code: int): (r: Reply)
      requires 100 <= code <= 999
    {
      if Committed() then this else this.(status := code, sent := header)
    }

    /** Write: sends the status 200 first if nothing was sent yet, then the
        part, which is lost (and the write fails) when the client is gone. */
    function Write(p: Part, connected: bool): (r: Reply)
    {
      var c := WriteHeader(StatusOK);
      if WriteOk(p, connected) then c.(parts := parts + [p]) else c
    }

    /** http.Error: drops Content-Length, marks the reply as plain text that
        must not be sniffed, sends `code`, and writes `msg` and a newline. */
    function Error(msg: GoString, code: int, connected: bool): (r: Reply)
      requires 100 <= code <= 999
    {
      var h := Set(Set(Del(header, ContentLength), ContentType, PlainText),
                   NoSniffHeader, NoSniff);
      WithHeader(h).WriteHeader(code).Write(Bytes(msg + "\n"), connected)
    }

    /** What reaches the client once the handler returns: a handler that
        sent nothing gets an implicit 200 with its header map. */
    function Finished(): Reply { WriteHeader(StatusOK) }
  }

  /** A ResponseWriter nobody has touched. */
  const Untouched: Reply := Reply(map[], 0, map[], [])

  /** The status the client sees: the first one sent, and 200 when none was. */
  lemma FirstStatusWins(r: Reply, first: int, later: int)
    requires 100 <= first <= 999 && 100 <= later <= 999
    ensures r.WriteHeader(first).WriteHeader(later) == r.WriteHeader(first)
    ensures r.WriteHeader(first).Finished() == r.WriteHeader(first)
    ensures r.WriteHeader(first).status == if r.Committed() then r.status else first
  {
  }

  /** http.Error before anything was sent: the client gets `code`, a plain
      text header and the message; after something was sent, only the
      message is added to the body, and only if the client is still there. */
  lemma ErrorReply(r: Reply, msg: GoString, code: int, connected: bool)
    requires 100 <= code <= 999
    ensures var e := r.Error(msg, code, connected);
      && (!r.Committed() ==>
            && e.status == code
            && Get(e.sent, ContentType) == PlainText
            && Get(e.sent, NoSniffHeader) == NoSniff
            && Canonical(ContentLength) !in e.sent)
      && (r.Committed() ==> e.status == r.status && e.sent == r.sent)
      && e.parts == r.parts + (if connected then [Bytes(msg + "\n")] else [])
  {
    CanonicalLength(ContentType);
    CanonicalLength(NoSniffHeader);
    CanonicalLength(ContentLength);
    assert Bytes(msg + "\n") != Bytes([]) by { assert |msg + "\n"| > 0; }
  }

  /** The http.Error that follows a failed write changes nothing the
      client receives: the write already sent the status (200 when nothing
      had been sent), and the client that lost the part loses the message
      too. */
  lemma ErrorAfterFailedWrite(r: Reply, p: Part, msg: GoString, code: int, connected: bool)
    requires 100 <= code <= 999 && !WriteOk(p, connected)
    ensures var w := r.Write(p, connected);
      var e := w.Error(msg, code, connected);
      && w.status == (if r.Committed() then r.status else StatusOK)
      && e.status == w.status && e.sent == w.sent && e.parts == w.parts == r.parts
  {
    ErrorReply(r.Write(p, connected), msg, code, connected);
  }

  /** The way both views finish: Content-Type text/html, then the page; on
      a failed write the handler calls http.Error, which (see
      ErrorAfterFailedWrite) adds nothing the client receives. */
  function PageReply(r: Reply, page: Page, connected: bool): Reply
  {
    var w := r.WithHeader(Set(r.header, ContentType, Html)).Write(Rendered(page), connected);
    if WriteOk(Rendered(page), connected) then w else w.Error(InternalServerError, StatusInternalServerError, connected)
  }

  /** A page written to an untouched writer reaches a connected client with
      status 200 and Content-Type text/html; to a client that is gone,
      nothing is delivered and the status stays 200. */
  lemma PageReplyOnUntouched(page: Page, connected: bool)
    ensures var p := PageReply(Untouched, page, connected);
      && p.status == StatusOK
      && Get(p.sent, ContentType) == Html
      && p.parts == if connected then [Rendered(page)] else []
  {
    var c := Set(Untouched.header, ContentType, Html);
    var w := Untouched.WithHeader(c).Write(Rendered(page), connected);
    assert w.status == StatusOK && w.sent == c;
    if !connected {
      ErrorReply(w, InternalServerError, StatusInternalServerError, connected);
    }
  }

  class ResponseWriter {
    var header: Header
    var status: int
    var sent: Header
    var parts: seq<Part>
    /** Whether the client is still reading; a write fails once it is not. */
    const connected: bool

    function State(): Reply
      reads this
    {
      Reply(header, status, sent, parts)
    }

    constructor (connected: bool)
      ensures State() == Untouched && this.connected == connected
    {
      header := map[];
      status := 0;
      sent := map[];
      parts := [];
      this.connected := connected;
    }

    /** w.Header().Set */
    method SetHeader(key: GoString, value: GoString)
      modifies this
      ensures State() == old(State()).WithHeader(Set(old(header), key, value))
    {
      header := Set(header, key, value);
    }

    /** w.Header().Del */
    method DelHeader(key: GoString)
      modifies this
      ensures State() == old(State()).WithHeader(Del(old(header), key))
    {
      header := Del(header, key);
    }

    /** `for key, values := range src { for _, value := range values {
        w.Header().Add(key, value) } }` */
    method AddHeaders(src: Header)
      modifies this
      ensures State() == old(State()).WithHeader(Merged(old(header), src))
    {
      header := CopyHeader(header, src);
    }

    method WriteHeader(code: int)
      requires 100 <= code <= 999
      modifies this
      ensures State() == old(State()).WriteHeader(code)
    {
      if status == 0 {
        status := code;
        sent := header;
      }
    }

    method Write(p: Part) returns (ok: bool)
      modifies this
      ensures ok == WriteOk(p, connected)
      ensures State() == old(State()).Write(p, connected)
    {
      WriteHeader(StatusOK);
      ok := WriteOk(p, connected);
      if ok {
        parts := parts + [p];
      }
    }

    /** http.Error(w, msg, code) */
    method Error(msg: GoString, code: int)
      requires 100 <= code <= 999
      modifies this
      ensures State() == old(State()).Error(msg, code, connected)
    {
      DelHeader(ContentLength);
      SetHeader(ContentType, PlainText);
      SetHeader(NoSniffHeader, NoSniff);
      WriteHeader(code);
      var _ := Write(Bytes(msg + "\n"));
    }

    /** Content-Type text/html, then the page, then http.Error when the write fails. */
    method WritePage(page: Page)
      modifies this
      ensures State() == PageReply(old(State()), page, connected)
    {
      SetHeader(ContentType, Html);
      var ok := Write(Rendered(page));
      if !ok {
        Error(InternalServerError, StatusInternalServerError);
      }
    }
  }
}
