/** The two proxy adapters of the local administrative endpoint: the choice
    made once at startup between the TCP reverse proxy and the unix-socket
    handler, and what the unix-socket handler answers for each outcome of
    its exchange with the socket. Dialing, request framing and streaming are
    not modelled; their outcome is an input. */
module Handlers {
  import Text
  import Headers

  /** A constructed handler, represented by what it forwards to. */
  datatype Adapter = TcpProxy(target: string) | UnixSocket(path: string)

  /** What `os.Stat` reports for the endpoint path. */
  datatype StatResult = Exists | NotExist | StatError(message: string)

  /** What `url.Parse` reports for the endpoint string: success, or the text
      of its error. */
  datatype UrlParse = Parsed | ParseError(message: string)

  /** Startup either yields a handler or ends the process (`log.Fatal`). */
  datatype Startup = Ready(adapter: Adapter) | Fatal(reason: string)

  /** The text whose presence selects the TCP proxy. */
  const HttpMarker: string := "http"

  /** `createHandler`: an endpoint string containing "http" anywhere gets the
      TCP reverse proxy, which is fatal when the string is not a URL
      (the fatal message is then the parse error's text). Any other string is a
      socket path: it gets the unix-socket handler when the path exists, and
      is fatal otherwise. */
  function CreateHandler(e: string, parse: UrlParse, stat: StatResult): (r: Startup)
    ensures r.Ready? && r.adapter.TcpProxy? <==> parse == Parsed && exists i :: Text.OccursAt(e, HttpMarker, i)
    ensures r.Ready? && r.adapter.UnixSocket? <==> stat == Exists && !exists i :: Text.OccursAt(e, HttpMarker, i)
    ensures r.Ready? ==> (r.adapter.TcpProxy? && r.adapter.target == e) || (r.adapter.UnixSocket? && r.adapter.path == e)
    ensures !Text.Contains(e, HttpMarker) && stat == NotExist ==> r == Fatal("unix socket " + e + " does not exist")
    ensures Text.Contains(e, HttpMarker) && parse.ParseError? ==> r == Fatal(parse.message)
  {
    if Text.Contains(e, HttpMarker) then
      match parse
      case Parsed => Ready(TcpProxy(e))
      case ParseError(msg) => Fatal(msg)
    else
      match stat
      case Exists => Ready(UnixSocket(e))
      case NotExist => Fatal("unix socket " + e + " does not exist")
      case StatError(msg) => Fatal(msg)
  }

  /** When the endpoint's URL parses, "http" selects the TCP proxy wherever
      it occurs in the endpoint string, even inside a socket path that
      exists; the socket is never looked at. */
  lemma HttpAnywhereSelectsTcp(pre: string, post: string, stat: StatResult)
    ensures CreateHandler(pre + HttpMarker + post, Parsed, stat) == Ready(TcpProxy(pre + HttpMarker + post))
  {
    Text.ContainsInfix(pre, HttpMarker, post);
  }

  /** The default endpoint `/var/run/docker.sock` gets the unix-socket
      handler when the socket exists and ends startup when it does not. */
  lemma DefaultSocketSelection(parse: UrlParse)
    ensures CreateHandler("/var/run/docker.sock", parse, Exists) == Ready(UnixSocket("/var/run/docker.sock"))
    ensures CreateHandler("/var/run/docker.sock", parse, NotExist).Fatal?
  {
    Text.MissingFirstCharacter("/var/run/docker.sock", HttpMarker);
  }

  /** A byte of a response body. */
  newtype Byte = x: int | 0 <= x < 256

  /** How the exchange with the unix socket went. */
  datatype Exchange =
    | DialFailed
    | RoundTripFailed
    | Answered(status: int, header: Headers.Header, body: seq<Byte>)

  /** The response the client receives. */
  datatype Reply = Reply(status: int, header: Headers.Header, body: seq<Byte>)

  const StatusOK: int := 200
  const StatusInternalServerError: int := 500

  /** The status the unix-socket handler produces as written: 500 on a failed
      dial or exchange, and otherwise the status net/http sends when a
      handler writes without calling `WriteHeader`, which is 200. */
  function AsWrittenStatus(ex: Exchange): (r: int)
    ensures !ex.Answered? ==> r == StatusInternalServerError
    ensures ex.Answered? ==> r == StatusOK
  {
    if ex.Answered? then StatusOK else StatusInternalServerError
  }

  /** The status the handler is evidently meant to produce: 500 on a failure,
      the backend's own status otherwise. */
  function RelayedStatus(ex: Exchange): (r: int)
    ensures !ex.Answered? ==> r == StatusInternalServerError
    ensures ex.Answered? ==> r == ex.status
  {
    if ex.Answered? then ex.status else StatusInternalServerError
  }

  /** The two statuses differ exactly on an answer whose status is not 200:
      as written, every such backend status is lost. */
  lemma StatusLostIff(ex: Exchange)
    ensures AsWrittenStatus(ex) != RelayedStatus(ex) <==> ex.Answered? && ex.status != StatusOK
  {
  }

  /** The reply to the exchange `ex` with status `status`, starting from the
      response header `w`. A failed dial or exchange gives no body and leaves
      the header untouched. An answer has its headers merged into `w` without
      overwriting and its body passed through unchanged. */
  method Respond(w: Headers.Header, ex: Exchange, status: int) returns (reply: Reply)
    ensures reply.status == status
    ensures !ex.Answered? ==> reply.header == w && reply.body == []
    ensures ex.Answered? ==> reply.body == ex.body
    ensures ex.Answered? ==> forall k :: Headers.Values(reply.header, k) == Headers.Values(w, k) + Headers.Values(ex.header, k)
  {
    if !ex.Answered? {
      reply := Reply(status, w, []);
    } else {
      var h := Headers.CopyHeader(w, ex.header);
      reply := Reply(status, h, ex.body);
    }
  }

  /** `UnixHandler.ServeHTTP` as written, starting from the response header
      `w`. A failed dial or exchange gives 500 with no body and the header
      untouched. An answer has its headers merged into `w` without
      overwriting and its body passed through unchanged, but it always
      reaches the client as 200, whatever the backend's status. */
  method ServeUnix(w: Headers.Header, ex: Exchange) returns (reply: Reply)
    ensures !ex.Answered? ==> reply == Reply(StatusInternalServerError, w, [])
    ensures ex.Answered? ==> reply.status == StatusOK && reply.body == ex.body
    ensures ex.Answered? ==> forall k :: Headers.Values(reply.header, k) == Headers.Values(w, k) + Headers.Values(ex.header, k)
  {
    reply := Respond(w, ex, AsWrittenStatus(ex));
  }

  /** The unix-socket handler corrected to relay the backend's status: the
      same reply as `ServeUnix` except that an answer keeps its own status. */
  method ServeUnixRelayingStatus(w: Headers.Header, ex: Exchange) returns (reply: Reply)
    ensures !ex.Answered? ==> reply == Reply(StatusInternalServerError, w, [])
    ensures ex.Answered? ==> reply.status == ex.status && reply.body == ex.body
    ensures ex.Answered? ==> forall k :: Headers.Values(reply.header, k) == Headers.Values(w, k) + Headers.Values(ex.header, k)
  {
    reply := Respond(w, ex, RelayedStatus(ex));
  }
}
