/** The request the parser fills in: method, version, Request-URI and
    header list. Message.h is not part of this model; the declaration
    order of the method enumeration below is the one `use` relies on. */
module Message {
  import opened HttpChars

  /** `RequestMethod`, in declaration order; UNDETERMINED comes last. */
  datatype RequestMethod =
    GET | HEAD | POST | PUT | DELETE | CONNECT | OPTIONS | TRACE | PATCH | UNDETERMINED

  /** `method_count`: one routing table per enumerator. */
  const MethodCount: nat := 10

  /** `to_underlying_t` on a method. */
  function MethodIndex(m: RequestMethod): (i: nat)
    ensures i < MethodCount
    ensures i == MethodCount - 1 <==> m == UNDETERMINED
  {
    match m
    case GET => 0
    case HEAD => 1
    case POST => 2
    case PUT => 3
    case DELETE => 4
    case CONNECT => 5
    case OPTIONS => 6
    case TRACE => 7
    case PATCH => 8
    case UNDETERMINED => 9
  }

  /** `static_cast<RequestMethod>(i)`: the inverse of `MethodIndex`. */
  function MethodAt(i: nat): (m: RequestMethod)
    requires i < MethodCount
    ensures MethodIndex(m) == i
  {
    [GET, HEAD, POST, PUT, DELETE, CONNECT, OPTIONS, TRACE, PATCH, UNDETERMINED][i]
  }

  /** The index is one-to-one: casting it back gives the method. */
  lemma MethodAtIndex(m: RequestMethod)
    ensures MethodAt(MethodIndex(m)) == m
  {
  }

  /** The method names of section 5.1.1 of RFC 2616 (and PATCH, RFC 5789). */
  function MethodName(m: RequestMethod): (name: seq<Byte>)
    requires m != UNDETERMINED
    ensures |name| >= 3
  {
    match m
    case GET => "GET"
    case HEAD => "HEAD"
    case POST => "POST"
    case PUT => "PUT"
    case DELETE => "DELETE"
    case CONNECT => "CONNECT"
    case OPTIONS => "OPTIONS"
    case TRACE => "TRACE"
    case PATCH => "PATCH"
  }

  datatype HttpVersion = ZeroNine | OneZero | OneOne | TwoZero

  /** A header line; duplicates stay separate entries in arrival order. */
  datatype Header = Header(name: seq<Byte>, value: seq<Byte>)

  /** The text of the six fields of a `Uri`. */
  datatype UriFields = UriFields(
    scheme: seq<Byte>, host: seq<Byte>, port: seq<Byte>,
    absPath: seq<Byte>, query: seq<Byte>, fragment: seq<Byte>)

  const EmptyUri := UriFields([], [], [], [], [], [])

  /** Everything of a `Request` that the parser reads or writes. */
  datatype RequestHead = RequestHead(
    httpMethod: RequestMethod, version: HttpVersion, uri: UriFields, headers: seq<Header>)

  /** `Uri`: six strings the parser appends to in place. */
  class Uri {
    var scheme: seq<Byte>
    var host: seq<Byte>
    var port: seq<Byte>
    var absPath: seq<Byte>
    var query: seq<Byte>
    var fragment: seq<Byte>

    function Fields(): UriFields
      reads this
    {
      UriFields(scheme, host, port, absPath, query, fragment)
    }

    constructor ()
      ensures Fields() == EmptyUri
    {
      scheme, host, port := [], [], [];
      absPath, query, fragment := [], [], [];
    }
  }

  /** `Request`; the method and version it starts with are the caller's. */
  class Request {
    var httpMethod: RequestMethod
    var version: HttpVersion
    const uri: Uri
    var headers: seq<Header>

    function Head(): RequestHead
      reads this, uri
    {
      RequestHead(httpMethod, version, uri.Fields(), headers)
    }

    constructor (method0: RequestMethod, version0: HttpVersion)
      ensures Head() == RequestHead(method0, version0, EmptyUri, [])
      ensures fresh(uri)
    {
      httpMethod, version, headers := method0, version0, [];
      uri := new Uri();
    }
  }
}
