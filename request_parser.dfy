/** The incremental request-head parser: one byte per call, answering
    in progress, accept or reject. It follows the Request-Line of
    section 5.1 and the message headers of section 4.2 of RFC 2616, and
    takes the Request-URI in the abs_path or absoluteURI form of RFC 2396
    through a nested state machine.

    `UriStep` and `Step` are the transitions on values; the class
    `RequestParser` performs them in place on a `Request` and is proved
    to agree with them. */
module RequestParsing {
  import opened HttpChars
  import opened Message
  import Url

  datatype Option<T> = None | Some(value: T)

  datatype ParseStatus = InProgress | Accept | Reject

  datatype ParserState =
    | ReqStart | ReqStartLf | ReqMethod | ReqUri
    | ReqHttpH | ReqHttpHt | ReqHttpHtt | ReqHttpHttp | ReqHttpSlash
    | ReqHttpMajor | ReqHttpDot | ReqHttpMinor
    | ReqStartLineCr | ReqStartLineLf
    | ReqFieldNameStart | ReqFieldName | ReqFieldValue
    | ReqHeaderLf | ReqHeaderLws | ReqHeaderEnd

  datatype UriState =
    | UriStart | UriScheme | UriSlash | UriSlashSlash
    | UriHost | UriPort | UriAbsPath | UriQuery | UriFragment

  // The URI state machine

  datatype UriOutcome = UriOutcome(state: UriState, uri: UriFields, status: ParseStatus)

  /** `v` is `u` with at most the byte `c` appended to one field. */
  predicate AppendsAtMostOne(u: UriFields, v: UriFields, c: Byte) {
    || v == u
    || v == u.(scheme := u.scheme + [c])
    || v == u.(host := u.host + [c])
    || v == u.(port := u.port + [c])
    || v == u.(absPath := u.absPath + [c])
    || v == u.(query := u.query + [c])
    || v == u.(fragment := u.fragment + [c])
  }

  /** `consume(Uri&, char)`. */
  function UriStep(us: UriState, u: UriFields, c: Byte): (r: UriOutcome)
    ensures r.status != Accept
    ensures r.status == Reject ==> r.state == us && r.uri == u
    ensures AppendsAtMostOne(u, r.uri, c)
    // a leading '/' is the first byte of abs_path
    ensures us == UriStart && c == '/' ==>
              r == UriOutcome(UriAbsPath, u.(absPath := u.absPath + [c]), InProgress)
    // the absoluteURI form: letters, then ':', '/', '/'; nothing else there
    ensures us == UriStart ==> (r.status == InProgress <==> c == '/' || IsAlpha(c))
    ensures us == UriScheme ==> (r.status == InProgress <==> IsAlpha(c) || c == ':')
    ensures us == UriSlash || us == UriSlashSlash ==>
              (r.status == InProgress <==> c == '/') && r.uri == u
    ensures r.uri.scheme != u.scheme ==> IsAlpha(c)
    ensures r.uri.port != u.port ==> IsDigit(c)
    // from host or port, '/' starts abs_path without being stored
    ensures (us == UriHost || us == UriPort) && c == '/' ==> r == UriOutcome(UriAbsPath, u, InProgress)
    // '?' and '#' are delimiters, not text
    ensures us == UriAbsPath && (c == '?' || c == '#') ==> r.uri == u
    ensures us == UriQuery && c == '#' ==> r.uri == u
    // host, abs_path, query and fragment take every byte
    ensures us in {UriHost, UriAbsPath, UriQuery, UriFragment} ==> r.status == InProgress
  {
    match us
    case UriStart =>
      if c == '/' then UriOutcome(UriAbsPath, u.(absPath := u.absPath + [c]), InProgress)
      else if IsAlpha(c) then UriOutcome(UriScheme, u.(scheme := u.scheme + [c]), InProgress)
      else UriOutcome(us, u, Reject)
    case UriScheme =>
      if IsAlpha(c) then UriOutcome(us, u.(scheme := u.scheme + [c]), InProgress)
      else if c == ':' then UriOutcome(UriSlash, u, InProgress)
      else UriOutcome(us, u, Reject)
    case UriSlash =>
      if c == '/' then UriOutcome(UriSlashSlash, u, InProgress) else UriOutcome(us, u, Reject)
    case UriSlashSlash =>
      if c == '/' then UriOutcome(UriHost, u, InProgress) else UriOutcome(us, u, Reject)
    case UriHost =>
      if c == '/' then UriOutcome(UriAbsPath, u, InProgress)
      else if c == ':' then UriOutcome(UriPort, u, InProgress)
      else UriOutcome(us, u.(host := u.host + [c]), InProgress)
    case UriPort =>
      if IsDigit(c) then UriOutcome(us, u.(port := u.port + [c]), InProgress)
      else if c == '/' then UriOutcome(UriAbsPath, u, InProgress)
      else UriOutcome(us, u, Reject)
    case UriAbsPath =>
      if c == '?' then UriOutcome(UriQuery, u, InProgress)
      else if c == '#' then UriOutcome(UriFragment, u, InProgress)
      else UriOutcome(us, u.(absPath := u.absPath + [c]), InProgress)
    case UriQuery =>
      if c == '#' then UriOutcome(UriFragment, u, InProgress)
      else UriOutcome(us, u.(query := u.query + [c]), InProgress)
    case UriFragment =>
      UriOutcome(us, u.(fragment := u.fragment + [c]), InProgress)
  }

  // Percent-decoding of the captured URI

  /** The five fields `uri_decode` decodes (the port is left as it is). */
  predicate WellEscapedUri(u: UriFields) {
    && Url.WellEscaped(u.scheme) && Url.WellEscaped(u.host) && Url.WellEscaped(u.absPath)
    && Url.WellEscaped(u.query) && Url.WellEscaped(u.fragment)
  }

  /** `uri_decode` on values. */
  function DecodeUri(u: UriFields): (r: UriFields)
    requires WellEscapedUri(u)
    ensures r.port == u.port
  {
    u.(scheme := Url.Decode(u.scheme), host := Url.Decode(u.host), absPath := Url.Decode(u.absPath),
       query := Url.Decode(u.query), fragment := Url.Decode(u.fragment))
  }

  /** Fields that hold no '%' are left as they are by `uri_decode`. */
  lemma DecodeUriWithoutPercent(u: UriFields)
    requires '%' !in u.scheme && '%' !in u.host && '%' !in u.absPath
    requires '%' !in u.query && '%' !in u.fragment
    ensures WellEscapedUri(u) && DecodeUri(u) == u
  {
    Url.DecodeWithoutPercent(u.scheme);
    Url.DecodeWithoutPercent(u.host);
    Url.DecodeWithoutPercent(u.absPath);
    Url.DecodeWithoutPercent(u.query);
    Url.DecodeWithoutPercent(u.fragment);
  }

  // The request state machine

  datatype Config = Config(state: ParserState, uriState: UriState, head: RequestHead)

  datatype Outcome = Outcome(config: Config, status: ParseStatus)

  /** The one transition that decodes the URI needs well-formed escapes. */
  predicate DecodeDefined(cfg: Config) {
    cfg.state == ReqUri ==> WellEscapedUri(cfg.head.uri)
  }

  /** The method a first method byte selects, UNDETERMINED for 'P'. */
  function FirstMethod(c: Byte): (r: Option<RequestMethod>)
    ensures r.Some? ==> IsToken(c)
    // a method fixed by its first byte is the one whose name starts with it
    ensures r.Some? && r.value != UNDETERMINED ==> r.value !in {POST, PUT, PATCH} && MethodName(r.value)[0] == c
    // only 'P' is shared, by POST, PUT and PATCH
    ensures r == Some(UNDETERMINED) <==> c == MethodName(POST)[0] == MethodName(PUT)[0] == MethodName(PATCH)[0]
  {
    match c
    case 'G' => Some(GET)
    case 'H' => Some(HEAD)
    case 'P' => Some(UNDETERMINED)
    case 'D' => Some(DELETE)
    case 'C' => Some(CONNECT)
    case 'O' => Some(OPTIONS)
    case 'T' => Some(TRACE)
    case _ => None
  }

  /** After 'P', the second byte tells POST, PUT and PATCH apart. */
  function SecondMethod(c: Byte): (r: Option<RequestMethod>)
    ensures r.Some? ==> IsToken(c) && r.value in {POST, PUT, PATCH} && MethodName(r.value)[1] == c
  {
    match c
    case 'O' => Some(POST)
    case 'U' => Some(PUT)
    case 'A' => Some(PATCH)
    case _ => None
  }

  /** `set_version`: the four recognised (major, minor) pairs; any other
      pair leaves the version as it was. The parser always passes major 1,
      since `version_major` is re-initialised to 1 on every call
      (RequestParser.cpp:182), so the 0.9 and 2.0 branches are never
      reached from `consume`. */
  function VersionAfter(v: HttpVersion, major: int, minor: int): (r: HttpVersion)
    ensures major == 1 ==> r == (if minor == 0 then OneZero else if minor == 1 then OneOne else v)
  {
    if major == 0 && minor == 9 then ZeroNine
    else if major == 1 && minor == 0 then OneZero
    else if major == 1 && minor == 1 then OneOne
    else if major == 2 && minor == 0 then TwoZero
    else v
  }

  /** `build_header_name`: the byte goes to the name of the last header. */
  function AppendToName(hs: seq<Header>, c: Byte): (r: seq<Header>)
    requires hs != []
    ensures |r| == |hs| && r[..|hs| - 1] == hs[..|hs| - 1]
    ensures r[|hs| - 1] == Header(hs[|hs| - 1].name + [c], hs[|hs| - 1].value)
  {
    var last := hs[|hs| - 1];
    hs[..|hs| - 1] + [Header(last.name + [c], last.value)]
  }

  /** `build_header_value`: the byte goes to the value of the last header. */
  function AppendToValue(hs: seq<Header>, c: Byte): (r: seq<Header>)
    requires hs != []
    ensures |r| == |hs| && r[..|hs| - 1] == hs[..|hs| - 1]
    ensures r[|hs| - 1] == Header(hs[|hs| - 1].name, hs[|hs| - 1].value + [c])
  {
    var last := hs[|hs| - 1];
    hs[..|hs| - 1] + [Header(last.name, last.value + [c])]
  }

  /** `b` is `a` with the last header possibly grown and headers possibly
      appended: no header is dropped, reordered or shortened, and only the
      last one of `a` can change. */
  predicate HeadersExtend(a: seq<Header>, b: seq<Header>) {
    && |a| <= |b|
    && (forall i :: 0 <= i < |a| - 1 ==> b[i] == a[i])
    && (a != [] ==> a[|a| - 1].name <= b[|a| - 1].name && a[|a| - 1].value <= b[|a| - 1].value)
  }

  /** No header value holds SP or HT. */
  predicate NoBlanksInValues(hs: seq<Header>) {
    forall i, k :: 0 <= i < |hs| && 0 <= k < |hs[i].value| ==> !IsSp(hs[i].value[k]) && !IsHt(hs[i].value[k])
  }

  function Go(cfg: Config): Outcome { Outcome(cfg, InProgress) }
  function Rej(cfg: Config): Outcome { Outcome(cfg, Reject) }

  function Expect(cfg: Config, c: Byte, want: Byte, next: ParserState): Outcome {
    if c == want then Go(cfg.(state := next)) else Rej(cfg)
  }

  /** A token byte opens a new header holding that byte as its name. */
  function NewHeader(cfg: Config, c: Byte): Outcome {
    Go(cfg.(state := ReqFieldName,
            head := cfg.head.(headers := cfg.head.headers + [Header([c], [])])))
  }

  /** The `req_field_name` case, which `req_field_name_start` falls into. */
  function FieldNameStep(cfg: Config, c: Byte): Outcome {
    if IsToken(c) then
      if cfg.head.headers == [] then Rej(cfg)
      else Go(cfg.(head := cfg.head.(headers := AppendToName(cfg.head.headers, c))))
    else if c == ':' then Go(cfg.(state := ReqFieldValue))
    else Rej(cfg)
  }

  /** `consume(Request&, char)`. The `assert`s of the source (an
      UNDETERMINED method in the URI state, a header byte with no header)
      are rejects that change nothing. */
  function Step(cfg: Config, c: Byte): (r: Outcome)
    requires DecodeDefined(cfg)
    // accept comes only from req_header_end on LF, and changes nothing
    ensures r.status == Accept <==> cfg.state == ReqHeaderEnd && IsLf(c)
    ensures r.status != InProgress ==> r.config == cfg
    // req_header_end is entered only by a CR at a header-name start or
    // right after a header line's CRLF
    ensures r.status == InProgress && r.config.state == ReqHeaderEnd ==>
              IsCr(c) && (cfg.state == ReqFieldNameStart || cfg.state == ReqHeaderLws)
    // headers only grow, and only the last header's text changes
    ensures HeadersExtend(cfg.head.headers, r.config.head.headers)
    // a header is added only by a token byte at a name start, at the end
    ensures |r.config.head.headers| == |cfg.head.headers| ||
              (&& r.config.head.headers == cfg.head.headers + [Header([c], [])]
               && IsToken(c) && (cfg.state == ReqFieldNameStart || cfg.state == ReqHeaderLws))
    // SP and HT never enter a header value
    ensures NoBlanksInValues(cfg.head.headers) ==> NoBlanksInValues(r.config.head.headers)
    // the version changes only on the minor digit, to 1.0 or 1.1
    ensures r.config.head.version != cfg.head.version ==>
              && cfg.state == ReqHttpMinor
              && ((c == '0' && r.config.head.version == OneZero) || (c == '1' && r.config.head.version == OneOne))
    // the URI is captured and decoded only in req_uri
    ensures cfg.state != ReqUri ==> r.config.head.uri == cfg.head.uri
    // the method is set by the first method byte, or by the second after 'P'
    ensures r.config.head.httpMethod != cfg.head.httpMethod ==>
              cfg.state == ReqStart || (cfg.state == ReqMethod && cfg.head.httpMethod == UNDETERMINED)
  {
    var head := cfg.head;
    match cfg.state
    case ReqStart =>
      if IsCr(c) then Go(cfg.(state := ReqStartLf))
      else if IsToken(c) then
        match FirstMethod(c)
        case Some(m) => Go(cfg.(state := ReqMethod, head := head.(httpMethod := m)))
        case None => Rej(cfg)
      else Rej(cfg)
    case ReqStartLf =>
      if IsLf(c) then Go(cfg.(state := ReqStart)) else Rej(cfg)
    case ReqMethod =>
      if IsToken(c) then
        if head.httpMethod == UNDETERMINED then
          match SecondMethod(c)
          case Some(m) => Go(cfg.(head := head.(httpMethod := m)))
          case None => Rej(cfg)
        else Go(cfg)
      else if IsSp(c) then Go(cfg.(state := ReqUri))
      else Rej(cfg)
    case ReqUri =>
      if head.httpMethod == UNDETERMINED then Rej(cfg)
      else if Url.UriChar(c) then
        var u := UriStep(cfg.uriState, head.uri, c);
        Outcome(cfg.(uriState := u.state, head := head.(uri := u.uri)), u.status)
      else if IsSp(c) then Go(cfg.(state := ReqHttpH, head := head.(uri := DecodeUri(head.uri))))
      else Rej(cfg)
    case ReqHttpH => Expect(cfg, c, 'H', ReqHttpHt)
    case ReqHttpHt => Expect(cfg, c, 'T', ReqHttpHtt)
    case ReqHttpHtt => Expect(cfg, c, 'T', ReqHttpHttp)
    case ReqHttpHttp => Expect(cfg, c, 'P', ReqHttpSlash)
    case ReqHttpSlash => Expect(cfg, c, '/', ReqHttpMajor)
    case ReqHttpMajor =>
      // the major digit goes to a local that the next call re-initialises to 1
      if IsDigit(c) then Go(cfg.(state := ReqHttpDot)) else Rej(cfg)
    case ReqHttpDot => Expect(cfg, c, '.', ReqHttpMinor)
    case ReqHttpMinor =>
      if IsDigit(c) then
        Go(cfg.(state := ReqStartLineCr, head := head.(version := VersionAfter(head.version, 1, DigitValue(c)))))
      else Rej(cfg)
    case ReqStartLineCr =>
      if IsCr(c) then Go(cfg.(state := ReqStartLineLf)) else Rej(cfg)
    case ReqStartLineLf =>
      if IsLf(c) then Go(cfg.(state := ReqFieldNameStart)) else Rej(cfg)
    case ReqFieldNameStart =>
      if IsCr(c) then Go(cfg.(state := ReqHeaderEnd))
      else if IsToken(c) then NewHeader(cfg, c)
      else FieldNameStep(cfg, c)
    case ReqFieldName => FieldNameStep(cfg, c)
    case ReqFieldValue =>
      if IsSp(c) || IsHt(c) then Go(cfg)
      else if IsCr(c) then Go(cfg.(state := ReqHeaderLf))
      else if !IsCtl(c) then
        if head.headers == [] then Rej(cfg)
        else Go(cfg.(head := head.(headers := AppendToValue(head.headers, c))))
      else Rej(cfg)
    case ReqHeaderLf =>
      if IsLf(c) then Go(cfg.(state := ReqHeaderLws)) else Rej(cfg)
    case ReqHeaderLws =>
      if IsSp(c) || IsHt(c) then Go(cfg.(state := ReqFieldValue))
      else if IsCr(c) then Go(cfg.(state := ReqHeaderEnd))
      else if IsToken(c) then NewHeader(cfg, c)
      else Rej(cfg)
    case ReqHeaderEnd =>
      if IsLf(c) then Outcome(cfg, Accept) else Rej(cfg)
  }

  // The parser object

  class RequestParser {
    var state: ParserState
    var uriState: UriState

    constructor ()
      ensures state == ReqStart && uriState == UriStart
    {
      state, uriState := ReqStart, UriStart;
    }

    /** The parser's two fields together with the request it fills. */
    function Snapshot(req: Request): Config
      reads this, req, req.uri
    {
      Config(state, uriState, req.Head())
    }

    /** `consume(Uri&, char)` in place. */
    method ConsumeUri(uri: Uri, c: Byte) returns (st: ParseStatus)
      modifies this`uriState, uri
      ensures UriOutcome(uriState, uri.Fields(), st) == UriStep(old(uriState), old(uri.Fields()), c)
    {
      match uriState {
        case UriStart =>
          if c == '/' {
            uriState := UriAbsPath;
            uri.absPath := uri.absPath + [c];
            return InProgress;
          }
          if IsAlpha(c) {
            uri.scheme := uri.scheme + [c];
            uriState := UriScheme;
            return InProgress;
          }
        case UriScheme =>
          if IsAlpha(c) {
            uri.scheme := uri.scheme + [c];
            return InProgress;
          }
          if c == ':' {
            uriState := UriSlash;
            return InProgress;
          }
        case UriSlash =>
          if c == '/' {
            uriState := UriSlashSlash;
            return InProgress;
          }
        case UriSlashSlash =>
          if c == '/' {
            uriState := UriHost;
            return InProgress;
          }
        case UriHost =>
          if c == '/' {
            uriState := UriAbsPath;
            return InProgress;
          }
          if c == ':' {
            uriState := UriPort;
            return InProgress;
          }
          uri.host := uri.host + [c];
          return InProgress;
        case UriPort =>
          if IsDigit(c) {
            uri.port := uri.port + [c];
            return InProgress;
          }
          if c == '/' {
            uriState := UriAbsPath;
            return InProgress;
          }
        case UriAbsPath =>
          if c == '?' {
            uriState := UriQuery;
            return InProgress;
          }
          if c == '#' {
            uriState := UriFragment;
            return InProgress;
          }
          uri.absPath := uri.absPath + [c];
          return InProgress;
        case UriQuery =>
          if c == '#' {
            uriState := UriFragment;
            return InProgress;
          }
          uri.query := uri.query + [c];
          return InProgress;
        case UriFragment =>
          uri.fragment := uri.fragment + [c];
          return InProgress;
      }
      return Reject;
    }

    /** `uri_decode`: each field but the port replaced by its decoding. */
    method UriDecode(uri: Uri)
      requires WellEscapedUri(uri.Fields())
      modifies uri
      ensures uri.Fields() == DecodeUri(old(uri.Fields()))
    {
      uri.scheme := Url.UrlDecode(uri.scheme);
      uri.host := Url.UrlDecode(uri.host);
      uri.absPath := Url.UrlDecode(uri.absPath);
      uri.query := Url.UrlDecode(uri.query);
      uri.fragment := Url.UrlDecode(uri.fragment);
    }

    /** `set_version`. */
    method SetVersion(req: Request, major: int, minor: int)
      modifies req`version
      ensures req.version == VersionAfter(old(req.version), major, minor)
    {
      if major == 0 && minor == 9 { req.version := ZeroNine; }
      if major == 1 && minor == 0 { req.version := OneZero; }
      if major == 1 && minor == 1 { req.version := OneOne; }
      if major == 2 && minor == 0 { req.version := TwoZero; }
    }

    /** `build_header_name`; `ok` is false where the source's `assert`
        on an empty header list fails, and then nothing changes. */
    method BuildHeaderName(req: Request, c: Byte) returns (ok: bool)
      modifies req`headers
      ensures ok <==> old(req.headers) != []
      ensures req.headers == if ok then AppendToName(old(req.headers), c) else old(req.headers)
    {
      if |req.headers| == 0 {
        return false;
      }
      var last := req.headers[|req.headers| - 1];
      req.headers := req.headers[..|req.headers| - 1] + [Header(last.name + [c], last.value)];
      return true;
    }

    /** `build_header_value`, with the same reading of its `assert`. */
    method BuildHeaderValue(req: Request, c: Byte) returns (ok: bool)
      modifies req`headers
      ensures ok <==> old(req.headers) != []
      ensures req.headers == if ok then AppendToValue(old(req.headers), c) else old(req.headers)
    {
      if |req.headers| == 0 {
        return false;
      }
      var last := req.headers[|req.headers| - 1];
      req.headers := req.headers[..|req.headers| - 1] + [Header(last.name, last.value + [c])];
      return true;
    }

    /** A token byte opens a header: `emplace_back`, then its first byte. */
    method StartHeader(req: Request, c: Byte)
      modifies this`state, req`headers
      ensures Outcome(Snapshot(req), InProgress) == NewHeader(old(Snapshot(req)), c)
    {
      ghost var before := req.headers;
      req.headers := req.headers + [Header([], [])];
      assert req.headers[..|before|] == before;
      var ok := BuildHeaderName(req, c);
      assert ok && req.headers[..|before|] == before && req.headers[|before|] == Header([c], []);
      assert req.headers == req.headers[..|before|] + [req.headers[|before|]];
      state := ReqFieldName;
    }

    /** The `req_field_name` case. */
    method ConsumeFieldName(req: Request, c: Byte) returns (st: ParseStatus)
      modifies this`state, req`headers
      ensures Outcome(Snapshot(req), st) == FieldNameStep(old(Snapshot(req)), c)
    {
      if IsToken(c) {
        var ok := BuildHeaderName(req, c);
        if !ok {
          return Reject;
        }
        return InProgress;
      }
      if c == ':' {
        state := ReqFieldValue;
        return InProgress;
      }
      return Reject;
    }

    /** `consume(Request&, char)` in place: the new parser fields and the
        new request are exactly those `Step` gives. */
    method Consume(req: Request, c: Byte) returns (st: ParseStatus)
      requires DecodeDefined(Snapshot(req))
      modifies this, req, req.uri
      ensures Outcome(Snapshot(req), st) == Step(old(Snapshot(req)), c)
    {
      var versionMajor, versionMinor := 1, 0;
      match state {
        case ReqStart =>
          if IsCr(c) {
            state := ReqStartLf;
            return InProgress;
          }
          if IsToken(c) {
            match c {
              case 'G' => req.httpMethod := GET;
              case 'H' => req.httpMethod := HEAD;
              case 'P' => req.httpMethod := UNDETERMINED;
              case 'D' => req.httpMethod := DELETE;
              case 'C' => req.httpMethod := CONNECT;
              case 'O' => req.httpMethod := OPTIONS;
              case 'T' => req.httpMethod := TRACE;
              case _ => return Reject;
            }
            state := ReqMethod;
            return InProgress;
          }
          return Reject;
        case ReqStartLf =>
          if IsLf(c) {
            state := ReqStart;
            return InProgress;
          }
          return Reject;
        case ReqMethod =>
          if IsToken(c) {
            if req.httpMethod == UNDETERMINED {
              match c {
                case 'O' => req.httpMethod := POST; return InProgress;
                case 'U' => req.httpMethod := PUT; return InProgress;
                case 'A' => req.httpMethod := PATCH; return InProgress;
                case _ => return Reject;
              }
            }
            return InProgress;
          }
          if IsSp(c) {
            state := ReqUri;
            return InProgress;
          }
          return Reject;
        case ReqUri =>
          if req.httpMethod == UNDETERMINED {
            return Reject;
          }
          var uriChar := Url.IsUri(c);
          if uriChar {
            st := ConsumeUri(req.uri, c);
            return;
          }
          if IsSp(c) {
            UriDecode(req.uri);
            state := ReqHttpH;
            return InProgress;
          }
          return Reject;
        case ReqHttpH =>
          if c == 'H' {
            state := ReqHttpHt;
            return InProgress;
          }
          return Reject;
        case ReqHttpHt =>
          if c == 'T' {
            state := ReqHttpHtt;
            return InProgress;
          }
          return Reject;
        case ReqHttpHtt =>
          if c == 'T' {
            state := ReqHttpHttp;
            return InProgress;
          }
          return Reject;
        case ReqHttpHttp =>
          if c == 'P' {
            state := ReqHttpSlash;
            return InProgress;
          }
          return Reject;
        case ReqHttpSlash =>
          if c == '/' {
            state := ReqHttpMajor;
            return InProgress;
          }
          return Reject;
        case ReqHttpMajor =>
          if IsDigit(c) {
            versionMajor := DigitValue(c);
            state := ReqHttpDot;
            return InProgress;
          }
          return Reject;
        case ReqHttpDot =>
          if c == '.' {
            state := ReqHttpMinor;
            return InProgress;
          }
          return Reject;
        case ReqHttpMinor =>
          if IsDigit(c) {
            versionMinor := DigitValue(c);
            SetVersion(req, versionMajor, versionMinor);
            state := ReqStartLineCr;
            return InProgress;
          }
          return Reject;
        case ReqStartLineCr =>
          if IsCr(c) {
            state := ReqStartLineLf;
            return InProgress;
          }
          return Reject;
        case ReqStartLineLf =>
          if IsLf(c) {
            state := ReqFieldNameStart;
            return InProgress;
          }
          return Reject;
        case ReqFieldNameStart =>
          if IsCr(c) {
            state := ReqHeaderEnd;
            return InProgress;
          }
          if IsToken(c) {
            StartHeader(req, c);
            return InProgress;
          }
          // no `return` here in the source: control falls into `req_field_name`
          st := ConsumeFieldName(req, c);
        case ReqFieldName =>
          st := ConsumeFieldName(req, c);
        case ReqFieldValue =>
          if IsSp(c) || IsHt(c) {
            return InProgress;
          }
          if IsCr(c) {
            state := ReqHeaderLf;
            return InProgress;
          }
          if !IsCtl(c) {
            var ok := BuildHeaderValue(req, c);
            if !ok {
              return Reject;
            }
            return InProgress;
          }
          return Reject;
        case ReqHeaderLf =>
          if IsLf(c) {
            state := ReqHeaderLws;
            return InProgress;
          }
          return Reject;
        case ReqHeaderLws =>
          if IsSp(c) || IsHt(c) {
            state := ReqFieldValue;
            return InProgress;
          }
          if IsCr(c) {
            state := ReqHeaderEnd;
            return InProgress;
          }
          if IsToken(c) {
            StartHeader(req, c);
            return InProgress;
          }
          return Reject;
        case ReqHeaderEnd =>
          if IsLf(c) {
            return Accept;
          }
          return Reject;
      }
    }
  }
}
