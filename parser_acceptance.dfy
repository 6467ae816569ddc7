/** The other half of what the request parser promises: a well-formed
    request head (a Request-Line in the abs_path form followed by header
    lines) is accepted on the LF of the blank line that ends it, with the
    method, path, version and headers it spells out. */
module ParserAcceptance {
  import opened HttpChars
  import opened Message
  import opened RequestParsing
  import opened ParserProperties
  import Url

  /** One byte answered "in progress" hands the rest to the next
      configuration. */
  lemma Peel(cfg: Config, c: Byte, rest: seq<Byte>, next: Config)
    requires Ready(cfg) && Step(cfg, c) == Outcome(next, InProgress)
    ensures Ready(next)
    ensures Run(cfg, [c] + rest) == Run(next, rest)
    ensures Proceeds(cfg, [c] + rest) <==> Proceeds(next, rest)
  {
    assert ([c] + rest)[0] == c && ([c] + rest)[1..] == rest;
    Through(cfg, [c] + rest, next);
  }

  // Sequence facts, proved where nothing else is in scope

  lemma ConsSplit<T>(s: seq<T>)
    requires s != []
    ensures [s[0]] + s[1..] == s
  {
  }

  lemma ConsAppend<T>(s: seq<T>, t: seq<T>)
    requires s != []
    ensures s + t == [s[0]] + (s[1..] + t)
  {
  }

  lemma AppendCons<T>(x: seq<T>, t: seq<T>)
    requires t != []
    ensures x + [t[0]] + t[1..] == x + t
  {
  }

  lemma AppendAssoc<T>(x: seq<T>, y: seq<T>, z: seq<T>)
    ensures x + y + z == x + (y + z)
  {
  }

  // The Request-URI

  /** A byte `abs_path` keeps: a URI byte other than the '?' and '#'
      that would start the query or the fragment. */
  predicate PathByte(c: Byte) {
    Url.UriChar(c) && c != '?' && c != '#'
  }

  predicate PathText(p: seq<Byte>) {
    forall i :: 0 <= i < |p| ==> PathByte(p[i])
  }

  /** In `uri_abs_path` a path byte is appended to `abs_path`. */
  lemma PathStep(cfg: Config, c: Byte)
    requires Ready(cfg) && cfg.state == ReqUri && cfg.uriState == UriAbsPath
    requires cfg.head.httpMethod != UNDETERMINED && PathByte(c)
    ensures Step(cfg, c) ==
              Outcome(cfg.(head := cfg.head.(uri := cfg.head.uri.(absPath := cfg.head.uri.absPath + [c]))), InProgress)
  {
  }

  /** In `uri_start`, '/' is the first byte of `abs_path`. */
  lemma SlashStep(cfg: Config)
    requires Ready(cfg) && cfg.state == ReqUri && cfg.uriState == UriStart
    requires cfg.head.httpMethod != UNDETERMINED
    ensures Step(cfg, '/') ==
              Outcome(cfg.(uriState := UriAbsPath, head := cfg.head.(uri := cfg.head.uri.(absPath := cfg.head.uri.absPath + ['/']))), InProgress)
  {
  }

  /** In `uri_abs_path` every path byte is appended to `abs_path`. */
  lemma {:induction false} PathTail(cfg: Config, p: seq<Byte>)
    requires Ready(cfg) && cfg.state == ReqUri && cfg.uriState == UriAbsPath
    requires cfg.head.httpMethod != UNDETERMINED && PathText(p)
    ensures Proceeds(cfg, p)
    ensures Run(cfg, p) == cfg.(head := cfg.head.(uri := cfg.head.uri.(absPath := cfg.head.uri.absPath + p)))
    decreases |p|
  {
    var u := cfg.head.uri;
    if p == [] {
      assert u.absPath + p == u.absPath;
    } else {
      var next := cfg.(head := cfg.head.(uri := u.(absPath := u.absPath + [p[0]])));
      PathStep(cfg, p[0]);
      Through(cfg, p, next);
      assert PathText(p[1..]) by {
        forall i | 0 <= i < |p[1..]| ensures PathByte(p[1..][i]) {
          assert p[1..][i] == p[i + 1];
        }
      }
      PathTail(next, p[1..]);
      AppendCons(u.absPath, p);
    }
  }

  /** An abs_path Request-URI: '/' moves `uri_start` to `uri_abs_path`,
      and the whole path lands in `abs_path`. */
  lemma UriPath(cfg: Config, path: seq<Byte>)
    requires Ready(cfg) && cfg.state == ReqUri && cfg.uriState == UriStart
    requires cfg.head.httpMethod != UNDETERMINED
    requires path != [] && path[0] == '/' && PathText(path)
    ensures Proceeds(cfg, path)
    ensures Run(cfg, path) ==
              cfg.(uriState := UriAbsPath, head := cfg.head.(uri := cfg.head.uri.(absPath := cfg.head.uri.absPath + path)))
  {
    var u := cfg.head.uri;
    var slash := cfg.(uriState := UriAbsPath, head := cfg.head.(uri := u.(absPath := u.absPath + ['/'])));
    SlashStep(cfg);
    Through(cfg, path, slash);
    assert PathText(path[1..]) by {
      forall i | 0 <= i < |path[1..]| ensures PathByte(path[1..][i]) {
        assert path[1..][i] == path[i + 1];
      }
    }
    PathTail(slash, path[1..]);
    AppendCons(u.absPath, path);
  }

  /** No '%' gets into a field through path bytes. */
  lemma PathKeepsNoPercent(u: UriFields, path: seq<Byte>)
    requires NoPercent(u) && PathText(path)
    ensures NoPercent(u.(absPath := u.absPath + path))
  {
    if '%' in u.absPath + path {
      var i :| 0 <= i < |u.absPath + path| && (u.absPath + path)[i] == '%';
      if i >= |u.absPath| {
        assert PathByte(path[i - |u.absPath|]);
        Url.UriCharExcludes(path[i - |u.absPath|]);
      }
    }
  }

  // The rest of the Request-Line

  /** The five fixed bytes of "HTTP/", one state each. */
  lemma HttpSteps(cfg: Config)
    requires Ready(cfg)
    ensures cfg.state == ReqHttpH ==> Step(cfg, 'H') == Outcome(cfg.(state := ReqHttpHt), InProgress)
    ensures cfg.state == ReqHttpHt ==> Step(cfg, 'T') == Outcome(cfg.(state := ReqHttpHtt), InProgress)
    ensures cfg.state == ReqHttpHtt ==> Step(cfg, 'T') == Outcome(cfg.(state := ReqHttpHttp), InProgress)
    ensures cfg.state == ReqHttpHttp ==> Step(cfg, 'P') == Outcome(cfg.(state := ReqHttpSlash), InProgress)
    ensures cfg.state == ReqHttpSlash ==> Step(cfg, '/') == Outcome(cfg.(state := ReqHttpMajor), InProgress)
  {
  }

  /** "HTTP/" after the Request-URI. */
  lemma HttpHt(cfg: Config)
    requires Ready(cfg) && cfg.state == ReqHttpH
    ensures Proceeds(cfg, ['H', 'T'])
    ensures Run(cfg, ['H', 'T']) == cfg.(state := ReqHttpHtt)
  {
    HttpSteps(cfg);
    HttpSteps(cfg.(state := ReqHttpHt));
    Peel(cfg, 'H', ['T'], cfg.(state := ReqHttpHt));
    assert ['H', 'T'] == ['H'] + ['T'];
    RunOne(cfg.(state := ReqHttpHt), 'T');
  }

  lemma HttpTpSlash(cfg: Config)
    requires Ready(cfg) && cfg.state == ReqHttpHtt
    ensures Proceeds(cfg, ['T', 'P', '/'])
    ensures Run(cfg, ['T', 'P', '/']) == cfg.(state := ReqHttpMajor)
  {
    HttpSteps(cfg);
    HttpSteps(cfg.(state := ReqHttpHttp));
    HttpSteps(cfg.(state := ReqHttpSlash));
    Peel(cfg, 'T', ['P', '/'], cfg.(state := ReqHttpHttp));
    assert ['T', 'P', '/'] == ['T'] + ['P', '/'];
    Peel(cfg.(state := ReqHttpHttp), 'P', ['/'], cfg.(state := ReqHttpSlash));
    assert ['P', '/'] == ['P'] + ['/'];
    RunOne(cfg.(state := ReqHttpSlash), '/');
  }

  /** "HTTP/" after the blank that ends the Request-URI. */
  lemma HttpSlash(cfg: Config)
    requires Ready(cfg) && cfg.state == ReqHttpH
    ensures Proceeds(cfg, ['H', 'T', 'T', 'P', '/'])
    ensures Run(cfg, ['H', 'T', 'T', 'P', '/']) == cfg.(state := ReqHttpMajor)
  {
    assert ['H', 'T', 'T', 'P', '/'] == ['H', 'T'] + ['T', 'P', '/'];
    RunAppend(cfg, ['H', 'T'], ['T', 'P', '/']);
    HttpHt(cfg);
    HttpTpSlash(cfg.(state := ReqHttpHtt));
  }

  lemma StartLineSteps(cfg: Config)
    requires Ready(cfg)
    ensures cfg.state == ReqStartLineCr ==> Step(cfg, CR) == Outcome(cfg.(state := ReqStartLineLf), InProgress)
    ensures cfg.state == ReqStartLineLf ==> Step(cfg, LF) == Outcome(cfg.(state := ReqFieldNameStart), InProgress)
  {
  }

  /** The CRLF that ends the Request-Line. */
  lemma StartLineEnd(cfg: Config)
    requires Ready(cfg) && cfg.state == ReqStartLineCr
    ensures Proceeds(cfg, [CR, LF])
    ensures Run(cfg, [CR, LF]) == cfg.(state := ReqFieldNameStart)
  {
    StartLineSteps(cfg);
    StartLineSteps(cfg.(state := ReqStartLineLf));
    Peel(cfg, CR, [LF], cfg.(state := ReqStartLineLf));
    assert [CR, LF] == [CR] + [LF];
    RunOne(cfg.(state := ReqStartLineLf), LF);
  }

  /** `SP "HTTP/" DIGIT "." DIGIT CRLF` after the path. */
  function VersionPart(major: Byte, minor: Byte): seq<Byte> {
    [SP] + ['H', 'T', 'T', 'P', '/'] + [major, '.', minor] + [CR, LF]
  }

  /** The SP after the Request-URI decodes it; without escapes it stays. */
  lemma UriEnd(cfg: Config)
    requires Ready(cfg) && cfg.state == ReqUri && cfg.head.httpMethod != UNDETERMINED
    requires NoPercent(cfg.head.uri)
    ensures Step(cfg, SP) == Outcome(cfg.(state := ReqHttpH), InProgress)
  {
    DecodeUriWithoutPercent(cfg.head.uri);
    assert !Url.UriChar(SP);
  }

  /** The SP after the path decodes the URI, which holds no escape and so
      stays as it is; the version is set from the minor digit. */
  lemma VersionPartRun(cfg: Config, major: Byte, minor: Byte)
    requires Ready(cfg) && cfg.state == ReqUri && cfg.head.httpMethod != UNDETERMINED
    requires NoPercent(cfg.head.uri) && IsDigit(major) && IsDigit(minor)
    ensures Proceeds(cfg, VersionPart(major, minor))
    ensures Run(cfg, VersionPart(major, minor)) ==
              cfg.(state := ReqFieldNameStart, head := cfg.head.(version := VersionAfter(cfg.head.version, 1, DigitValue(minor))))
  {
    var h := cfg.(state := ReqHttpH);
    var major' := cfg.(state := ReqHttpMajor);
    var lineCr := cfg.(state := ReqStartLineCr, head := cfg.head.(version := VersionAfter(cfg.head.version, 1, DigitValue(minor))));
    var http: seq<Byte> := ['H', 'T', 'T', 'P', '/'];
    var digits: seq<Byte> := [major, '.', minor];
    var crlf: seq<Byte> := [CR, LF];
    UriEnd(cfg);
    RunAppend(cfg, [SP] + http + digits, crlf);
    RunAppend(cfg, [SP] + http, digits);
    RunAppend(cfg, [SP], http);
    RunOne(cfg, SP);
    HttpSlash(h);
    VersionFromMinorOnly(major', major, minor);
    StartLineEnd(lineCr);
  }

  /** The Request-Line `method SP abs_path SP HTTP/d.d CRLF`. */
  function RequestLine(w: seq<Byte>, path: seq<Byte>, major: Byte, minor: Byte): seq<Byte> {
    w + [SP] + path + VersionPart(major, minor)
  }

  /** A method the parser knows, spelled as a token. */
  predicate MethodWord(w: seq<Byte>) {
    w != [] && TokenWord(w) && WordMethod(w).Some? && WordMethod(w).value != UNDETERMINED
  }

  /** What a Request-Line leaves in the request. */
  function AfterRequestLine(h: RequestHead, w: seq<Byte>, path: seq<Byte>, minor: Byte): RequestHead
    requires MethodWord(w) && IsDigit(minor)
  {
    h.(httpMethod := WordMethod(w).value, uri := h.uri.(absPath := h.uri.absPath + path),
       version := VersionAfter(h.version, 1, DigitValue(minor)))
  }

  lemma RequestLineRun(cfg: Config, w: seq<Byte>, path: seq<Byte>, major: Byte, minor: Byte)
    requires Ready(cfg) && cfg.state == ReqStart && cfg.uriState == UriStart && NoPercent(cfg.head.uri)
    requires MethodWord(w) && path != [] && path[0] == '/' && PathText(path)
    requires IsDigit(major) && IsDigit(minor)
    ensures Proceeds(cfg, RequestLine(w, path, major, minor))
    ensures Run(cfg, RequestLine(w, path, major, minor)) ==
              Config(ReqFieldNameStart, UriAbsPath, AfterRequestLine(cfg.head, w, path, minor))
  {
    var named := cfg.(state := ReqUri, head := cfg.head.(httpMethod := WordMethod(w).value));
    var u := cfg.head.uri;
    var pathed := named.(uriState := UriAbsPath, head := named.head.(uri := u.(absPath := u.absPath + path)));
    RunAppend(cfg, w + [SP] + path, VersionPart(major, minor));
    RunAppend(cfg, w + [SP], path);
    MethodToken(cfg, w);
    UriPath(named, path);
    PathKeepsNoPercent(u, path);
    VersionPartRun(pathed, major, minor);
  }

  // Header lines

  /** A byte a field value may hold: SP and HT, which the parser drops,
      and every byte that is not a CTL. */
  predicate ValueByte(c: Byte) {
    IsHt(c) || !IsCtl(c)
  }

  /** The value as the parser stores it: with every SP and HT left out. */
  function DropBlanks(v: seq<Byte>): (r: seq<Byte>)
    ensures forall k :: 0 <= k < |r| ==> !IsSp(r[k]) && !IsHt(r[k])
    ensures |r| <= |v|
  {
    if v == [] then []
    else (if IsSp(v[0]) || IsHt(v[0]) then [] else [v[0]]) + DropBlanks(v[1..])
  }

  /** In a value, SP and HT are skipped and any other byte that is not a
      CTL goes to the last header. */
  lemma ValueStep(cfg: Config, pre: seq<Header>, x: seq<Byte>, y: seq<Byte>, c: Byte)
    requires Ready(cfg) && cfg.state == ReqFieldValue && cfg.head.headers == pre + [Header(x, y)]
    requires ValueByte(c)
    ensures Step(cfg, c) ==
              Outcome(cfg.(head := cfg.head.(headers := pre + [Header(x, y + (if IsSp(c) || IsHt(c) then [] else [c]))])), InProgress)
  {
    if IsSp(c) || IsHt(c) {
      assert y + [] == y;
    } else {
      assert (pre + [Header(x, y)])[..|pre|] == pre;
      assert AppendToValue(pre + [Header(x, y)], c) == pre + [Header(x, y + [c])];
    }
  }

  /** Value bytes go to the last header, blanks skipped. */
  lemma {:induction false} ValueTail(cfg: Config, pre: seq<Header>, x: seq<Byte>, y: seq<Byte>, v: seq<Byte>)
    requires Ready(cfg) && cfg.state == ReqFieldValue && cfg.head.headers == pre + [Header(x, y)]
    requires forall i :: 0 <= i < |v| ==> ValueByte(v[i])
    ensures Proceeds(cfg, v)
    ensures Run(cfg, v) == cfg.(head := cfg.head.(headers := pre + [Header(x, y + DropBlanks(v))]))
    decreases |v|
  {
    if v == [] {
      assert y + DropBlanks(v) == y;
    } else {
      var c := v[0];
      var kept := if IsSp(c) || IsHt(c) then [] else [c];
      var next := cfg.(head := cfg.head.(headers := pre + [Header(x, y + kept)]));
      ValueStep(cfg, pre, x, y, c);
      Through(cfg, v, next);
      assert forall i :: 0 <= i < |v[1..]| ==> ValueByte(v[1..][i]) by {
        forall i | 0 <= i < |v[1..]| ensures ValueByte(v[1..][i]) {
          assert v[1..][i] == v[i + 1];
        }
      }
      ValueTail(next, pre, x, y + kept, v[1..]);
      assert DropBlanks(v) == kept + DropBlanks(v[1..]);
      AppendAssoc(y, kept, DropBlanks(v[1..]));
    }
  }

  /** In a name, a token byte goes to the last header's name. */
  lemma NameStep(cfg: Config, pre: seq<Header>, x: seq<Byte>, c: Byte)
    requires Ready(cfg) && cfg.state == ReqFieldName && cfg.head.headers == pre + [Header(x, [])]
    requires IsToken(c)
    ensures Step(cfg, c) == Outcome(cfg.(head := cfg.head.(headers := pre + [Header(x + [c], [])])), InProgress)
  {
    assert (pre + [Header(x, [])])[..|pre|] == pre;
    assert AppendToName(pre + [Header(x, [])], c) == pre + [Header(x + [c], [])];
  }

  /** Token bytes after the first go to the new header's name. */
  lemma {:induction false} NameTail(cfg: Config, pre: seq<Header>, x: seq<Byte>, t: seq<Byte>)
    requires Ready(cfg) && cfg.state == ReqFieldName && cfg.head.headers == pre + [Header(x, [])]
    requires TokenWord(t)
    ensures Proceeds(cfg, t)
    ensures Run(cfg, t) == cfg.(head := cfg.head.(headers := pre + [Header(x + t, [])]))
    decreases |t|
  {
    if t == [] {
      assert x + t == x;
    } else {
      var next := cfg.(head := cfg.head.(headers := pre + [Header(x + [t[0]], [])]));
      NameStep(cfg, pre, x, t[0]);
      Through(cfg, t, next);
      assert TokenWord(t[1..]) by {
        forall i | 0 <= i < |t[1..]| ensures IsToken(t[1..][i]) {
          assert t[1..][i] == t[i + 1];
        }
      }
      NameTail(next, pre, x + [t[0]], t[1..]);
      AppendCons(x, t);
    }
  }

  /** A header line as sent: a token name, ':', a value, CRLF. */
  datatype FieldLine = FieldLine(name: seq<Byte>, value: seq<Byte>)

  predicate WellFormedLine(f: FieldLine) {
    f.name != [] && TokenWord(f.name) && forall i :: 0 <= i < |f.value| ==> ValueByte(f.value[i])
  }

  function LineText(f: FieldLine): seq<Byte> {
    f.name + [':'] + f.value + [CR, LF]
  }

  /** The header the parser records for a line. */
  function Recorded(f: FieldLine): Header {
    Header(f.name, DropBlanks(f.value))
  }

  /** A token byte at a name start opens a header named by it. */
  lemma NameStart(cfg: Config, c: Byte)
    requires Ready(cfg) && (cfg.state == ReqFieldNameStart || cfg.state == ReqHeaderLws) && IsToken(c)
    ensures Step(cfg, c) ==
              Outcome(cfg.(state := ReqFieldName, head := cfg.head.(headers := cfg.head.headers + [Header([c], [])])), InProgress)
  {
  }

  /** ':' ends a name and starts the value. */
  lemma NameEnd(cfg: Config)
    requires Ready(cfg) && cfg.state == ReqFieldName
    ensures Step(cfg, ':') == Outcome(cfg.(state := ReqFieldValue), InProgress)
  {
  }

  /** The name and its ':' open a header holding that name. */
  lemma NameRun(cfg: Config, name: seq<Byte>)
    requires Ready(cfg) && (cfg.state == ReqFieldNameStart || cfg.state == ReqHeaderLws)
    requires name != [] && TokenWord(name)
    ensures Proceeds(cfg, name + [':'])
    ensures Run(cfg, name + [':']) ==
              cfg.(state := ReqFieldValue, head := cfg.head.(headers := cfg.head.headers + [Header(name, [])]))
  {
    var hs := cfg.head.headers;
    var started := cfg.(state := ReqFieldName, head := cfg.head.(headers := hs + [Header([name[0]], [])]));
    var named := started.(head := started.head.(headers := hs + [Header(name, [])]));
    NameStart(cfg, name[0]);
    ConsAppend(name, [':']);
    Peel(cfg, name[0], name[1..] + [':'], started);
    RunAppend(started, name[1..], [':']);
    assert TokenWord(name[1..]) by {
      forall i | 0 <= i < |name[1..]| ensures IsToken(name[1..][i]) {
        assert name[1..][i] == name[i + 1];
      }
    }
    NameTail(started, hs, [name[0]], name[1..]);
    ConsSplit(name);
    NameEnd(named);
    RunOne(named, ':');
  }

  /** The CRLF that ends a header line. */
  lemma HeaderLineEnd(cfg: Config)
    requires Ready(cfg) && cfg.state == ReqFieldValue
    ensures Proceeds(cfg, [CR, LF])
    ensures Run(cfg, [CR, LF]) == cfg.(state := ReqHeaderLws)
  {
    HeaderLineSteps(cfg);
    HeaderLineSteps(cfg.(state := ReqHeaderLf));
    Peel(cfg, CR, [LF], cfg.(state := ReqHeaderLf));
    assert [CR, LF] == [CR] + [LF];
    RunOne(cfg.(state := ReqHeaderLf), LF);
  }

  /** The value and its CRLF: the header gets the value without blanks and
      the parser waits in `req_header_lws`. */
  lemma ValueRun(cfg: Config, pre: seq<Header>, name: seq<Byte>, v: seq<Byte>)
    requires Ready(cfg) && cfg.state == ReqFieldValue && cfg.head.headers == pre + [Header(name, [])]
    requires forall i :: 0 <= i < |v| ==> ValueByte(v[i])
    ensures Proceeds(cfg, v + [CR, LF])
    ensures Run(cfg, v + [CR, LF]) ==
              cfg.(state := ReqHeaderLws, head := cfg.head.(headers := pre + [Header(name, DropBlanks(v))]))
  {
    var filled := cfg.(head := cfg.head.(headers := pre + [Header(name, DropBlanks(v))]));
    RunAppend(cfg, v, [CR, LF]);
    ValueTail(cfg, pre, name, [], v);
    assert [] + DropBlanks(v) == DropBlanks(v);
    HeaderLineEnd(filled);
  }

  /** One header line, read at a name start. */
  lemma LineRun(cfg: Config, f: FieldLine)
    requires Ready(cfg) && (cfg.state == ReqFieldNameStart || cfg.state == ReqHeaderLws)
    requires WellFormedLine(f)
    ensures Proceeds(cfg, LineText(f))
    ensures Run(cfg, LineText(f)) ==
              cfg.(state := ReqHeaderLws, head := cfg.head.(headers := cfg.head.headers + [Recorded(f)]))
  {
    var hs := cfg.head.headers;
    var valueStart := cfg.(state := ReqFieldValue, head := cfg.head.(headers := hs + [Header(f.name, [])]));
    assert LineText(f) == (f.name + [':']) + (f.value + [CR, LF]);
    RunAppend(cfg, f.name + [':'], f.value + [CR, LF]);
    NameRun(cfg, f.name);
    ValueRun(valueStart, hs, f.name, f.value);
  }

  function LinesText(fs: seq<FieldLine>): seq<Byte> {
    if fs == [] then [] else LineText(fs[0]) + LinesText(fs[1..])
  }

  function RecordedAll(fs: seq<FieldLine>): (hs: seq<Header>)
    ensures |hs| == |fs| && forall i :: 0 <= i < |fs| ==> hs[i] == Recorded(fs[i])
  {
    if fs == [] then [] else [Recorded(fs[0])] + RecordedAll(fs[1..])
  }

  /** Header lines in a row: each adds its header, in order. */
  lemma {:induction false} LinesRun(cfg: Config, fs: seq<FieldLine>)
    requires Ready(cfg) && (cfg.state == ReqFieldNameStart || cfg.state == ReqHeaderLws)
    requires forall i :: 0 <= i < |fs| ==> WellFormedLine(fs[i])
    ensures Proceeds(cfg, LinesText(fs))
    ensures Run(cfg, LinesText(fs)) ==
              if fs == [] then cfg
              else cfg.(state := ReqHeaderLws, head := cfg.head.(headers := cfg.head.headers + RecordedAll(fs)))
    decreases |fs|
  {
    if fs != [] {
      var next := cfg.(state := ReqHeaderLws, head := cfg.head.(headers := cfg.head.headers + [Recorded(fs[0])]));
      RunAppend(cfg, LineText(fs[0]), LinesText(fs[1..]));
      LineRun(cfg, fs[0]);
      LinesRun(next, fs[1..]);
      assert RecordedAll(fs) == [Recorded(fs[0])] + RecordedAll(fs[1..]);
      AppendAssoc(cfg.head.headers, [Recorded(fs[0])], RecordedAll(fs[1..]));
      if fs[1..] == [] {
        assert RecordedAll(fs[1..]) == [];
      }
    }
  }

  // The whole head

  /** A request head: the Request-Line, header lines, and the CR of the
      blank line; its LF is the byte that is accepted. */
  function HeadText(w: seq<Byte>, path: seq<Byte>, major: Byte, minor: Byte, fs: seq<FieldLine>): seq<Byte> {
    RequestLine(w, path, major, minor) + LinesText(fs) + [CR]
  }

  /** The blank line: CR at a name start, then LF is accepted. */
  lemma HeadEnd(cfg: Config)
    requires Ready(cfg) && (cfg.state == ReqFieldNameStart || cfg.state == ReqHeaderLws)
    ensures Step(cfg, CR) == Outcome(cfg.(state := ReqHeaderEnd), InProgress)
    ensures Step(cfg.(state := ReqHeaderEnd), LF) == Outcome(cfg.(state := ReqHeaderEnd), Accept)
  {
  }

  /** A new request has a URI with no escape in it. */
  lemma NewRequestReady(h: RequestHead)
    requires NoPercent(h.uri)
    ensures Ready(Initial(h))
  {
    DecodeUriWithoutPercent(h.uri);
  }

  /** Every request head of that shape proceeds byte by byte, and the LF
      of the blank line is accepted; the request then carries the method
      the token names, the path, the version the minor digit gives, and
      one header per line, in order, with blanks dropped from the values. */
  lemma AcceptsRequestHead(h: RequestHead, w: seq<Byte>, path: seq<Byte>, major: Byte, minor: Byte, fs: seq<FieldLine>)
    requires NoPercent(h.uri)
    requires MethodWord(w) && path != [] && path[0] == '/' && PathText(path)
    requires IsDigit(major) && IsDigit(minor)
    requires forall i :: 0 <= i < |fs| ==> WellFormedLine(fs[i])
    ensures Ready(Initial(h))
    ensures Proceeds(Initial(h), HeadText(w, path, major, minor, fs))
    ensures Run(Initial(h), HeadText(w, path, major, minor, fs)) ==
              Config(ReqHeaderEnd, UriAbsPath,
                     AfterRequestLine(h, w, path, minor).(headers := h.headers + RecordedAll(fs)))
    ensures Step(Run(Initial(h), HeadText(w, path, major, minor, fs)), LF).status == Accept
  {
    NewRequestReady(h);
    var cfg := Initial(h);
    var line := RequestLine(w, path, major, minor);
    var fields := Config(ReqFieldNameStart, UriAbsPath, AfterRequestLine(h, w, path, minor));
    RunAppend(cfg, line + LinesText(fs), [CR]);
    RunAppend(cfg, line, LinesText(fs));
    RequestLineRun(cfg, w, path, major, minor);
    LinesRun(fields, fs);
    var last := Run(fields, LinesText(fs));
    if fs == [] {
      assert RecordedAll(fs) == [] && h.headers + [] == h.headers;
    }
    assert last == fields.(state := last.state, head := fields.head.(headers := h.headers + RecordedAll(fs)));
    HeadEnd(last);
    RunOne(last, CR);
  }

  /** The pieces of "GET /x HTTP/1.1", "Host: a" meet the shape above. */
  lemma GetWord()
    ensures MethodWord("GET") && WordMethod("GET") == Some(GET)
  {
    assert WordMethod("GET") == Some(GET);
  }

  lemma SlashXPath()
    ensures PathText("/x")
  {
    assert Url.UriChar('/') && Url.UriChar('x');
  }

  lemma HostLine()
    ensures WellFormedLine(FieldLine("Host", " a"))
    ensures RecordedAll([FieldLine("Host", " a")]) == [Header("Host", "a")]
  {
    assert IsToken('H') && IsToken('o') && IsToken('s') && IsToken('t');
    assert " a"[1..] == "a" && "a"[1..] == [];
    assert DropBlanks("a") == "a" + DropBlanks([]);
    assert DropBlanks(" a") == [] + DropBlanks("a");
    assert Recorded(FieldLine("Host", " a")) == Header("Host", "a");
    assert RecordedAll([FieldLine("Host", " a")]) == [Recorded(FieldLine("Host", " a"))];
  }

  lemma GetLineText()
    ensures RequestLine("GET", "/x", '1', '1') == "GET /x HTTP/1.1\r\n"
  {
    assert VersionPart('1', '1') == " HTTP/1.1\r\n";
  }

  lemma HostLineText()
    ensures LinesText([FieldLine("Host", " a")]) == "Host: a\r\n"
  {
    assert LinesText([FieldLine("Host", " a")]) == LineText(FieldLine("Host", " a")) + LinesText([]);
  }

  lemma HostHeadText()
    ensures HeadText("GET", "/x", '1', '1', [FieldLine("Host", " a")]) == "GET /x HTTP/1.1\r\nHost: a\r\n\r"
  {
    GetLineText();
    HostLineText();
    assert "GET /x HTTP/1.1\r\n" + "Host: a\r\n" + [CR] == "GET /x HTTP/1.1\r\nHost: a\r\n\r";
  }

  lemma HostResult(h: RequestHead)
    requires h.uri == EmptyUri && h.headers == []
    ensures MethodWord("GET") && IsDigit('1')
    ensures AfterRequestLine(h, "GET", "/x", '1').(headers := h.headers + [Header("Host", "a")]) ==
              RequestHead(GET, OneOne, EmptyUri.(absPath := "/x"), [Header("Host", "a")])
  {
    GetWord();
    assert DigitValue('1') == 1;
    assert [] + "/x" == "/x";
  }

  /** A concrete head: "GET /x HTTP/1.1", one header "Host: a", a blank
      line. The request ends up with GET, path "/x", HTTP/1.1 and the one
      header, its value without the leading blank. */
  lemma HostHeaderAccepted(m: RequestMethod, v: HttpVersion, text: seq<Byte>)
    requires text == "GET /x HTTP/1.1\r\nHost: a\r\n\r"
    ensures Proceeds(Initial(RequestHead(m, v, EmptyUri, [])), text)
    ensures Run(Initial(RequestHead(m, v, EmptyUri, [])), text) ==
              Config(ReqHeaderEnd, UriAbsPath, RequestHead(GET, OneOne, EmptyUri.(absPath := "/x"), [Header("Host", "a")]))
    ensures Step(Run(Initial(RequestHead(m, v, EmptyUri, [])), text), LF).status == Accept
  {
    var h := RequestHead(m, v, EmptyUri, []);
    var fs := [FieldLine("Host", " a")];
    var head := HeadText("GET", "/x", '1', '1', fs);
    GetWord();
    SlashXPath();
    HostLine();
    HostHeadText();
    HostResult(h);
    AcceptsRequestHead(h, "GET", "/x", '1', '1', fs);
    assert head == text;
  }
}
