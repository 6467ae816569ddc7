/** What the request parser guarantees over a whole byte stream, fed one
    byte per call as the connection does. */
module ParserProperties {
  import opened HttpChars
  import opened Message
  import opened RequestParsing
  import Url

  /** Until the URI is decoded, its fields hold only complete escapes. */
  predicate Ready(cfg: Config) {
    cfg.state in {ReqStart, ReqStartLf, ReqMethod, ReqUri} ==> WellEscapedUri(cfg.head.uri)
  }

  /** The configuration of a new parser on a request. */
  function Initial(h: RequestHead): Config {
    Config(ReqStart, UriStart, h)
  }

  lemma UriStepKeepsEscapes(us: UriState, u: UriFields, c: Byte)
    requires WellEscapedUri(u) && Url.UriChar(c)
    ensures WellEscapedUri(UriStep(us, u, c).uri)
  {
    Url.UriCharExcludes(c);
    var r := UriStep(us, u, c).uri;
    if r == u.(scheme := u.scheme + [c]) { Url.WellEscapedAppend(u.scheme, c); }
    if r == u.(host := u.host + [c]) { Url.WellEscapedAppend(u.host, c); }
    if r == u.(absPath := u.absPath + [c]) { Url.WellEscapedAppend(u.absPath, c); }
    if r == u.(query := u.query + [c]) { Url.WellEscapedAppend(u.query, c); }
    if r == u.(fragment := u.fragment + [c]) { Url.WellEscapedAppend(u.fragment, c); }
  }

  lemma StepKeepsReady(cfg: Config, c: Byte)
    requires Ready(cfg)
    ensures DecodeDefined(cfg) && Ready(Step(cfg, c).config)
  {
    if cfg.state == ReqUri && cfg.head.httpMethod != UNDETERMINED && Url.UriChar(c) {
      UriStepKeepsEscapes(cfg.uriState, cfg.head.uri, c);
    }
  }

  /** The configuration after each byte of `bs` has been consumed, first
      byte first. */
  ghost function Run(cfg: Config, bs: seq<Byte>): (r: Config)
    requires Ready(cfg)
    ensures Ready(r)
    decreases |bs|
  {
    if bs == [] then cfg
    else
      StepKeepsReady(cfg, bs[0]);
      Run(Step(cfg, bs[0]).config, bs[1..])
  }

  /** Every byte of `bs` was answered "in progress". */
  ghost predicate Proceeds(cfg: Config, bs: seq<Byte>)
    requires Ready(cfg)
    decreases |bs|
  {
    if bs == [] then true
    else
      StepKeepsReady(cfg, bs[0]);
      Step(cfg, bs[0]).status == InProgress && Proceeds(Step(cfg, bs[0]).config, bs[1..])
  }

  /** Feeding `a` and then `b` is feeding `a + b`. */
  lemma {:induction false} RunAppend(cfg: Config, a: seq<Byte>, b: seq<Byte>)
    requires Ready(cfg)
    ensures Run(cfg, a + b) == Run(Run(cfg, a), b)
    ensures Proceeds(cfg, a + b) <==> Proceeds(cfg, a) && Proceeds(Run(cfg, a), b)
    decreases |a|
  {
    if a == [] {
      assert a + b == b;
    } else {
      StepKeepsReady(cfg, a[0]);
      assert (a + b)[0] == a[0] && (a + b)[1..] == a[1..] + b;
      RunAppend(Step(cfg, a[0]).config, a[1..], b);
    }
  }

  /** A run of one byte is one step. */
  lemma RunOne(cfg: Config, a: Byte)
    requires Ready(cfg)
    ensures Run(cfg, [a]) == Step(cfg, a).config
    ensures Proceeds(cfg, [a]) <==> Step(cfg, a).status == InProgress
  {
    assert [a][1..] == [];
  }

  lemma RunSnoc(cfg: Config, bs: seq<Byte>, c: Byte)
    requires Ready(cfg)
    ensures Run(cfg, bs + [c]) == Step(Run(cfg, bs), c).config
    ensures Proceeds(cfg, bs + [c]) <==> Proceeds(cfg, bs) && Step(Run(cfg, bs), c).status == InProgress
  {
    RunAppend(cfg, bs, [c]);
    RunOne(Run(cfg, bs), c);
  }

  // Leading blank lines

  function CrLfs(n: nat): seq<Byte> {
    if n == 0 then [] else CrLfs(n - 1) + [CR, LF]
  }

  /** A byte answered "in progress" hands the rest of the stream to the
      configuration it leads to. */
  lemma Through(cfg: Config, bs: seq<Byte>, next: Config)
    requires Ready(cfg) && bs != [] && Step(cfg, bs[0]) == Outcome(next, InProgress)
    ensures Ready(next)
    ensures Run(cfg, bs) == Run(next, bs[1..])
    ensures Proceeds(cfg, bs) <==> Proceeds(next, bs[1..])
  {
    StepKeepsReady(cfg, bs[0]);
  }

  lemma BlankLineAfter(cfg: Config, n: nat)
    requires Ready(cfg) && cfg.state == ReqStart && n > 0
    requires Proceeds(cfg, CrLfs(n - 1)) && Run(cfg, CrLfs(n - 1)) == cfg
    ensures Proceeds(cfg, CrLfs(n)) && Run(cfg, CrLfs(n)) == cfg
  {
    RunAppend(cfg, CrLfs(n - 1), [CR, LF]);
    var blank: seq<Byte> := [CR, LF];
    Through(cfg, blank, cfg.(state := ReqStartLf));
    assert blank[1..] == [LF];
    Through(cfg.(state := ReqStartLf), blank[1..], cfg);
    assert blank[1..][1..] == [];
  }

  /** CRLF pairs before the method are skipped, back to `req_start`. */
  lemma {:induction false} LeadingBlankLines(cfg: Config, n: nat)
    requires Ready(cfg) && cfg.state == ReqStart
    ensures Run(cfg, CrLfs(n)) == cfg
    ensures Proceeds(cfg, CrLfs(n))
  {
    if n == 0 {
      assert CrLfs(n) == [];
    } else {
      LeadingBlankLines(cfg, n - 1);
      BlankLineAfter(cfg, n);
    }
  }

  /** A CR before the method that is not followed by LF rejects. */
  lemma LoneCrRejects(cfg: Config, c: Byte)
    requires Ready(cfg) && cfg.state == ReqStart && !IsLf(c)
    ensures Step(cfg, CR).status == InProgress
    ensures Step(Step(cfg, CR).config, c).status == Reject
  {
  }

  // The method token

  predicate TokenWord(w: seq<Byte>) {
    forall i :: 0 <= i < |w| ==> IsToken(w[i])
  }

  /** Once the method is known, further token bytes change nothing. */
  lemma {:induction false} MethodTailUnchecked(cfg: Config, t: seq<Byte>)
    requires Ready(cfg) && cfg.state == ReqMethod && cfg.head.httpMethod != UNDETERMINED
    requires TokenWord(t)
    ensures Proceeds(cfg, t) && Run(cfg, t) == cfg
    decreases |t|
  {
    if t != [] {
      Through(cfg, t, cfg);
      assert TokenWord(t[1..]);
      MethodTailUnchecked(cfg, t[1..]);
    }
  }

  /** The method a method token names, when the parser accepts it. */
  function WordMethod(w: seq<Byte>): Option<RequestMethod>
    requires w != []
  {
    match FirstMethod(w[0])
    case Some(UNDETERMINED) => if |w| >= 2 then SecondMethod(w[1]) else Some(UNDETERMINED)
    case other => other
  }

  lemma NameIsToken(m: RequestMethod)
    requires m != UNDETERMINED
    ensures TokenWord(MethodName(m))
  {
    var name := MethodName(m);
    forall i | 0 <= i < |name| ensures IsToken(name[i]) {
      assert IsUpAlpha(name[i]);
      TokenClasses(name[i]);
    }
  }

  /** Every method name of the standard is a token that names its own
      method; the parser reads no further than its second byte. */
  lemma NamesRecognised(m: RequestMethod)
    requires m != UNDETERMINED
    ensures TokenWord(MethodName(m)) && WordMethod(MethodName(m)) == Some(m)
  {
    NameIsToken(m);
    var name := MethodName(m);
    match m
    case POST => assert name[1] == 'O';
    case PUT => assert name[1] == 'U';
    case PATCH => assert name[1] == 'A';
    case _ =>
  }

  /** A first byte that is not a CR and not the first byte of a method
      name is rejected, leaving the configuration as it was. */
  lemma FirstByteRejects(cfg: Config, c: Byte)
    requires Ready(cfg) && cfg.state == ReqStart
    ensures Step(cfg, c).status == Reject <==> !IsCr(c) && (!IsToken(c) || FirstMethod(c).None?)
    ensures Step(cfg, c).status == Reject ==> Step(cfg, c).config == cfg
    ensures !IsCr(c) && FirstMethod(c).None? ==> forall m :: m != UNDETERMINED ==> MethodName(m)[0] != c
  {
    if !IsCr(c) && FirstMethod(c).None? {
      forall m | m != UNDETERMINED ensures MethodName(m)[0] != c {
        NamesRecognised(m);
      }
    }
  }

  lemma FirstMethodStep(cfg: Config, c: Byte)
    requires Ready(cfg) && cfg.state == ReqStart && IsToken(c) && FirstMethod(c).Some?
    ensures Step(cfg, c) ==
              Outcome(cfg.(state := ReqMethod, head := cfg.head.(httpMethod := FirstMethod(c).value)), InProgress)
  {
  }

  lemma SecondMethodStep(cfg: Config, c: Byte)
    requires Ready(cfg) && cfg.state == ReqMethod && cfg.head.httpMethod == UNDETERMINED
    requires IsToken(c) && SecondMethod(c).Some?
    ensures Step(cfg, c) == Outcome(cfg.(head := cfg.head.(httpMethod := SecondMethod(c).value)), InProgress)
  {
  }

  /** A method token followed by SP: G, H, D, C, O, T fix GET, HEAD,
      DELETE, CONNECT, OPTIONS, TRACE; "PO", "PU", "PA" fix POST, PUT,
      PATCH; the remaining bytes are not checked, and SP enters the URI. */
  lemma {:induction false} MethodToken(cfg: Config, w: seq<Byte>)
    requires Ready(cfg) && cfg.state == ReqStart && w != [] && TokenWord(w)
    requires WordMethod(w).Some? && WordMethod(w).value != UNDETERMINED
    ensures Proceeds(cfg, w + [SP])
    ensures Run(cfg, w + [SP]) ==
              cfg.(state := ReqUri, head := cfg.head.(httpMethod := WordMethod(w).value))
  {
    var known := cfg.(state := ReqMethod, head := cfg.head.(httpMethod := WordMethod(w).value));
    var line := w + [SP];
    assert line[1..] == w[1..] + [SP];
    var rest := w[1..];
    assert IsToken(w[0]);
    FirstMethodStep(cfg, w[0]);
    if w[0] != 'P' {
      Through(cfg, line, known);
    } else {
      var p := cfg.(state := ReqMethod, head := cfg.head.(httpMethod := UNDETERMINED));
      Through(cfg, line, p);
      assert IsToken(w[1]);
      SecondMethodStep(p, w[1]);
      assert line[1..][1..] == w[2..] + [SP];
      Through(p, line[1..], known);
      rest := w[2..];
    }
    assert TokenWord(rest);
    MethodTailUnchecked(known, rest);
    RunSnoc(known, rest, SP);
  }

  /** After 'P', a token byte other than 'O', 'U', 'A' rejects. */
  lemma PSecondByteRejects(cfg: Config, c: Byte)
    requires Ready(cfg) && cfg.state == ReqStart && IsToken(c) && c !in "OUA"
    ensures Step(cfg, 'P').status == InProgress
    ensures Step(Step(cfg, 'P').config, c).status == Reject
  {
  }

  /** A lone "P " leaves the method UNDETERMINED in the URI state; the
      source's `assert` there is a reject on every next byte. */
  lemma LonePRejects(cfg: Config, c: Byte)
    requires Ready(cfg) && cfg.state == ReqStart
    ensures Proceeds(cfg, ['P', SP])
    ensures Run(cfg, ['P', SP]).state == ReqUri && Run(cfg, ['P', SP]).head.httpMethod == UNDETERMINED
    ensures Step(Run(cfg, ['P', SP]), c).status == Reject
  {
    var p := cfg.(state := ReqMethod, head := cfg.head.(httpMethod := UNDETERMINED));
    var line: seq<Byte> := ['P', SP];
    Through(cfg, line, p);
    assert line[1..] == [SP];
    Through(p, line[1..], p.(state := ReqUri));
    assert line[1..][1..] == [];
  }

  // The Request-URI

  /** '%' is not a URI byte: an escape in the Request-URI rejects. */
  lemma PercentInUriRejects(cfg: Config)
    requires Ready(cfg) && cfg.state == ReqUri
    ensures Step(cfg, '%').status == Reject
  {
  }

  predicate NoPercent(u: UriFields) {
    '%' !in u.scheme && '%' !in u.host && '%' !in u.absPath && '%' !in u.query && '%' !in u.fragment
  }

  /** Each field of `v` is the same field of `u` with text appended. */
  predicate UriGrows(u: UriFields, v: UriFields) {
    && u.scheme <= v.scheme && u.host <= v.host && u.port <= v.port
    && u.absPath <= v.absPath && u.query <= v.query && u.fragment <= v.fragment
  }

  /** The URI machine appends at most the byte it is given, so a byte
      other than '%' keeps the fields free of it. */
  lemma UriStepGrows(us: UriState, u: UriFields, c: Byte)
    requires NoPercent(u) && c != '%'
    ensures NoPercent(UriStep(us, u, c).uri)
    ensures UriGrows(u, UriStep(us, u, c).uri)
  {
    var v := UriStep(us, u, c).uri;
    assert AppendsAtMostOne(u, v, c);
    assert '%' !in [c];
  }

  lemma StepUriGrows(cfg: Config, c: Byte)
    requires Ready(cfg) && NoPercent(cfg.head.uri)
    ensures DecodeDefined(cfg)
    ensures NoPercent(Step(cfg, c).config.head.uri)
    ensures UriGrows(cfg.head.uri, Step(cfg, c).config.head.uri)
  {
    var u := cfg.head.uri;
    if cfg.state == ReqUri && cfg.head.httpMethod != UNDETERMINED {
      if Url.UriChar(c) {
        Url.UriCharExcludes(c);
        UriStepGrows(cfg.uriState, u, c);
      } else if IsSp(c) {
        DecodeUriWithoutPercent(u);
      }
    }
  }

  /** Starting from fields without '%' (a new request has none), the URI
      fields are only ever appended to, decoding included, since the parser
      takes no '%' into them. */
  lemma {:induction false} UriOnlyGrows(cfg: Config, bs: seq<Byte>)
    requires Ready(cfg) && NoPercent(cfg.head.uri)
    ensures NoPercent(Run(cfg, bs).head.uri)
    ensures UriGrows(cfg.head.uri, Run(cfg, bs).head.uri)
    decreases |bs|
  {
    if bs != [] {
      StepUriGrows(cfg, bs[0]);
      StepKeepsReady(cfg, bs[0]);
      var next := Step(cfg, bs[0]).config;
      assert Run(cfg, bs) == Run(next, bs[1..]);
      UriOnlyGrows(next, bs[1..]);
    }
  }

  // The version

  /** The major digit is lost: the minor digit alone gives 1.0 or 1.1,
      and any other minor digit leaves the version as it was. */
  lemma VersionSteps(cfg: Config, c: Byte)
    requires Ready(cfg) && IsDigit(c)
    ensures cfg.state == ReqHttpMajor ==> Step(cfg, c) == Outcome(cfg.(state := ReqHttpDot), InProgress)
    ensures cfg.state == ReqHttpDot ==> Step(cfg, '.') == Outcome(cfg.(state := ReqHttpMinor), InProgress)
    ensures cfg.state == ReqHttpMinor ==>
              Step(cfg, c) ==
              Outcome(cfg.(state := ReqStartLineCr, head := cfg.head.(version := VersionAfter(cfg.head.version, 1, DigitValue(c)))), InProgress)
  {
  }

  lemma VersionFromMinorOnly(cfg: Config, major: Byte, minor: Byte)
    requires Ready(cfg) && cfg.state == ReqHttpMajor && IsDigit(major) && IsDigit(minor)
    ensures Proceeds(cfg, [major, '.', minor])
    ensures Run(cfg, [major, '.', minor]).state == ReqStartLineCr
    ensures Run(cfg, [major, '.', minor]).head.version ==
              if minor == '0' then OneZero else if minor == '1' then OneOne else cfg.head.version
    ensures Run(cfg, [major, '.', minor]) ==
              cfg.(state := ReqStartLineCr, head := cfg.head.(version := VersionAfter(cfg.head.version, 1, DigitValue(minor))))
  {
    var digits: seq<Byte> := [major, '.', minor];
    var dot := cfg.(state := ReqHttpDot);
    var minorNext := cfg.(state := ReqHttpMinor);
    var done := cfg.(state := ReqStartLineCr, head := cfg.head.(version := VersionAfter(cfg.head.version, 1, DigitValue(minor))));
    VersionSteps(cfg, major);
    VersionSteps(dot, minor);
    VersionSteps(minorNext, minor);
    Through(cfg, digits, dot);
    assert digits[1..] == ['.', minor];
    Through(dot, digits[1..], minorNext);
    assert digits[1..][1..] == [minor];
    Through(minorNext, digits[1..][1..], done);
    assert digits[1..][1..][1..] == [];
  }

  // Accepting

  predicate EndsWith(bs: seq<Byte>, t: seq<Byte>) {
    |t| <= |bs| && bs[|bs| - |t|..] == t
  }

  /** The last bytes each state of the header section implies. */
  predicate Trail(s: ParserState, bs: seq<Byte>) {
    match s
    case ReqStartLineLf => EndsWith(bs, [CR])
    case ReqFieldNameStart => EndsWith(bs, [CR, LF])
    case ReqHeaderLf => EndsWith(bs, [CR])
    case ReqHeaderLws => EndsWith(bs, [CR, LF])
    case ReqHeaderEnd => EndsWith(bs, [CR, LF, CR])
    case _ => true
  }

  lemma EndsWithSnoc(bs: seq<Byte>, t: seq<Byte>, c: Byte)
    requires EndsWith(bs, t)
    ensures EndsWith(bs + [c], t + [c])
  {
    assert (bs + [c])[|bs| + 1 - |t + [c]|..] == bs[|bs| - |t|..] + [c];
  }

  /** How the states of the line ends are entered: the two LF-expecting
      states on a CR, the two states after a line's CRLF on its LF. */
  lemma LineEndArrivals(cfg: Config, c: Byte)
    requires DecodeDefined(cfg) && Step(cfg, c).status == InProgress
    ensures Step(cfg, c).config.state in {ReqStartLineLf, ReqHeaderLf} ==> IsCr(c)
    ensures Step(cfg, c).config.state == ReqFieldNameStart ==> cfg.state == ReqStartLineLf && IsLf(c)
    ensures Step(cfg, c).config.state == ReqHeaderLws ==> cfg.state == ReqHeaderLf && IsLf(c)
  {
    match cfg.state {
      case ReqStart =>
      case ReqStartLf =>
      case ReqMethod =>
      case ReqUri =>
      case ReqHttpH =>
      case ReqHttpHt =>
      case ReqHttpHtt =>
      case ReqHttpHttp =>
      case ReqHttpSlash =>
      case ReqHttpMajor =>
      case ReqHttpDot =>
      case ReqHttpMinor =>
      case ReqStartLineCr =>
      case ReqStartLineLf =>
      case ReqFieldNameStart =>
      case ReqFieldName =>
      case ReqFieldValue =>
      case ReqHeaderLf =>
      case ReqHeaderLws =>
      case ReqHeaderEnd =>
    }
  }

  /** A move from `s0` to `s` on `c` that enters the line-end states only
      as `LineEndArrivals` and `Step` allow keeps the trail. */
  lemma TrailArrive(s0: ParserState, s: ParserState, bs: seq<Byte>, c: Byte)
    requires Trail(s0, bs)
    requires s in {ReqStartLineLf, ReqHeaderLf} ==> IsCr(c)
    requires s == ReqFieldNameStart ==> s0 == ReqStartLineLf && IsLf(c)
    requires s == ReqHeaderLws ==> s0 == ReqHeaderLf && IsLf(c)
    requires s == ReqHeaderEnd ==> IsCr(c) && (s0 == ReqFieldNameStart || s0 == ReqHeaderLws)
    ensures Trail(s, bs + [c])
  {
    if s == ReqStartLineLf || s == ReqHeaderLf {
      assert (bs + [c])[|bs|..] == [c] == [CR];
    } else if s == ReqFieldNameStart || s == ReqHeaderLws {
      assert EndsWith(bs, [CR]);
      EndsWithSnoc(bs, [CR], c);
      assert [CR] + [c] == [CR, LF];
    } else if s == ReqHeaderEnd {
      assert EndsWith(bs, [CR, LF]);
      EndsWithSnoc(bs, [CR, LF], c);
      assert [CR, LF] + [c] == [CR, LF, CR];
    }
  }

  lemma TrailStep(cfg: Config, bs: seq<Byte>, c: Byte)
    requires Ready(cfg) && Trail(cfg.state, bs)
    requires Step(cfg, c).status == InProgress
    ensures Trail(Step(cfg, c).config.state, bs + [c])
  {
    StepKeepsReady(cfg, c);
    LineEndArrivals(cfg, c);
    TrailArrive(cfg.state, Step(cfg, c).config.state, bs, c);
  }

  lemma {:induction false} TrailHolds(cfg: Config, bs: seq<Byte>)
    requires Ready(cfg) && cfg.state == ReqStart && Proceeds(cfg, bs)
    ensures Trail(Run(cfg, bs).state, bs)
    decreases |bs|
  {
    if bs != [] {
      var bs' := bs[..|bs| - 1];
      var c := bs[|bs| - 1];
      assert bs == bs' + [c];
      RunSnoc(cfg, bs', c);
      TrailHolds(cfg, bs');
      TrailStep(Run(cfg, bs'), bs', c);
    }
  }

  /** Fed from the start, the parser accepts only on the LF that
      completes a blank line right after a CRLF: the stream fed so far
      ends with CR LF CR LF. */
  lemma AcceptOnlyAfterBlankLine(cfg: Config, bs: seq<Byte>, c: Byte)
    requires Ready(cfg) && cfg.state == ReqStart && Proceeds(cfg, bs)
    requires Step(Run(cfg, bs), c).status == Accept
    ensures EndsWith(bs + [c], [CR, LF, CR, LF])
  {
    TrailHolds(cfg, bs);
    var last := Run(cfg, bs);
    assert last.state == ReqHeaderEnd && c == LF;
    EndsWithSnoc(bs, [CR, LF, CR], c);
    assert [CR, LF, CR] + [c] == [CR, LF, CR, LF];
  }

  // Headers

  lemma HeadersExtendTransitive(a: seq<Header>, b: seq<Header>, c: seq<Header>)
    requires HeadersExtend(a, b) && HeadersExtend(b, c)
    ensures HeadersExtend(a, c)
  {
    if a != [] && |a| < |b| {
      assert b[|a| - 1] == c[|a| - 1] || |a| - 1 == |b| - 1;
    }
  }

  /** Over any stream no header is dropped, reordered or shortened, only
      the last one present at the start can change, and the header count
      never decreases. */
  lemma {:induction false} HeadersOnlyGrow(cfg: Config, bs: seq<Byte>)
    requires Ready(cfg)
    ensures HeadersExtend(cfg.head.headers, Run(cfg, bs).head.headers)
    ensures |cfg.head.headers| <= |Run(cfg, bs).head.headers|
    decreases |bs|
  {
    if bs != [] {
      var bs' := bs[..|bs| - 1];
      var c := bs[|bs| - 1];
      assert bs == bs' + [c];
      HeadersOnlyGrow(cfg, bs');
      RunSnoc(cfg, bs', c);
      var prev := Run(cfg, bs');
      assert HeadersExtend(prev.head.headers, Step(prev, c).config.head.headers);
      HeadersExtendTransitive(cfg.head.headers, prev.head.headers, Run(cfg, bs).head.headers);
    }
  }

  /** Over any stream, header values never take SP or HT. */
  lemma {:induction false} NoBlanksEver(cfg: Config, bs: seq<Byte>)
    requires Ready(cfg) && NoBlanksInValues(cfg.head.headers)
    ensures NoBlanksInValues(Run(cfg, bs).head.headers)
    decreases |bs|
  {
    if bs != [] {
      var bs' := bs[..|bs| - 1];
      NoBlanksEver(cfg, bs');
      RunSnoc(cfg, bs', bs[|bs| - 1]);
      assert bs == bs' + [bs[|bs| - 1]];
    }
  }

  /** Line folding: after a value's CRLF, SP or HT resumes the same
      (last) header's value, and the folded text is joined directly,
      with no blank in between. */
  lemma FoldedValueJoins(cfg: Config, blank: Byte, b: Byte)
    requires Ready(cfg) && cfg.state == ReqFieldValue && cfg.head.headers != []
    requires (IsSp(blank) || IsHt(blank)) && !IsCtl(b) && !IsSp(b)
    ensures Proceeds(cfg, [CR, LF, blank, b])
    ensures Run(cfg, [CR, LF, blank, b]) ==
              cfg.(head := cfg.head.(headers := AppendToValue(cfg.head.headers, b)))
  {
    var folded: seq<Byte> := [CR, LF, blank, b];
    var lf := cfg.(state := ReqHeaderLf);
    var lws := cfg.(state := ReqHeaderLws);
    Through(cfg, folded, lf);
    assert folded[1..] == [LF, blank, b];
    Through(lf, folded[1..], lws);
    assert folded[1..][1..] == [blank, b];
    Through(lws, folded[1..][1..], cfg);
    assert folded[1..][1..][1..] == [b];
    RunOne(cfg, b);
  }

  /** The states of the Request-Line, before any header line. */
  predicate InStartLine(s: ParserState) {
    s in {ReqStart, ReqStartLf, ReqMethod, ReqUri, ReqHttpH, ReqHttpHt, ReqHttpHtt, ReqHttpHttp,
          ReqHttpSlash, ReqHttpMajor, ReqHttpDot, ReqHttpMinor, ReqStartLineCr, ReqStartLineLf}
  }

  /** The Request-Line states are entered only from one another. */
  lemma StartLineArrivals(cfg: Config, c: Byte)
    requires DecodeDefined(cfg) && Step(cfg, c).status == InProgress
    ensures InStartLine(Step(cfg, c).config.state) ==> InStartLine(cfg.state)
  {
    match cfg.state {
      case ReqStart =>
      case ReqStartLf =>
      case ReqMethod =>
      case ReqUri =>
      case ReqHttpH =>
      case ReqHttpHt =>
      case ReqHttpHtt =>
      case ReqHttpHttp =>
      case ReqHttpSlash =>
      case ReqHttpMajor =>
      case ReqHttpDot =>
      case ReqHttpMinor =>
      case ReqStartLineCr =>
      case ReqStartLineLf =>
      case ReqFieldNameStart =>
      case ReqFieldName =>
      case ReqFieldValue =>
      case ReqHeaderLf =>
      case ReqHeaderLws =>
      case ReqHeaderEnd =>
    }
  }

  /** Up to the first header name the request holds no header. */
  predicate NoHeaderYet(cfg: Config) {
    InStartLine(cfg.state) || cfg.state == ReqFieldNameStart ==> cfg.head.headers == []
  }

  lemma NoHeaderYetStep(cfg: Config, c: Byte)
    requires Ready(cfg) && NoHeaderYet(cfg) && Step(cfg, c).status == InProgress
    ensures NoHeaderYet(Step(cfg, c).config)
  {
    StepKeepsReady(cfg, c);
    StartLineArrivals(cfg, c);
    LineEndArrivals(cfg, c);
  }

  /** From a fresh request, `req_field_name_start` is only ever reached
      with no header in the request: the first header line is the one
      that follows. */
  lemma {:induction false} NoHeaderBeforeFieldLines(h: RequestHead, bs: seq<Byte>)
    requires h.headers == [] && Ready(Initial(h)) && Proceeds(Initial(h), bs)
    ensures NoHeaderYet(Run(Initial(h), bs))
    decreases |bs|
  {
    if bs != [] {
      var bs' := bs[..|bs| - 1];
      var c := bs[|bs| - 1];
      assert bs == bs' + [c];
      RunSnoc(Initial(h), bs', c);
      NoHeaderBeforeFieldLines(h, bs');
      NoHeaderYetStep(Run(Initial(h), bs'), c);
    }
  }

  /** A value byte in the value state: rejected with no header to hold
      it, otherwise appended to the last header. */
  lemma ValueByteStep(cfg: Config, b: Byte)
    requires Ready(cfg) && cfg.state == ReqFieldValue
    requires !IsCtl(b) && !IsSp(b) && !IsHt(b)
    ensures cfg.head.headers == [] ==> Step(cfg, b).status == Reject
    ensures cfg.head.headers != [] ==>
              Step(cfg, b) == Outcome(cfg.(head := cfg.head.(headers := AppendToValue(cfg.head.headers, b))), InProgress)
  {
  }

  /** The CR and LF that end a header line. */
  lemma HeaderLineSteps(cfg: Config)
    requires Ready(cfg)
    ensures cfg.state == ReqFieldValue ==> Step(cfg, CR) == Outcome(cfg.(state := ReqHeaderLf), InProgress)
    ensures cfg.state == ReqHeaderLf ==> Step(cfg, LF) == Outcome(cfg.(state := ReqHeaderLws), InProgress)
  {
  }

  /** CR LF CR from the value state: an empty value, then the blank line. */
  lemma EmptyValueThenEnd(cfg: Config)
    requires Ready(cfg) && cfg.state == ReqFieldValue
    ensures Proceeds(cfg, [CR, LF, CR]) && Run(cfg, [CR, LF, CR]) == cfg.(state := ReqHeaderEnd)
  {
    var lf := cfg.(state := ReqHeaderLf);
    var lws := cfg.(state := ReqHeaderLws);
    HeaderLineSteps(cfg);
    HeaderLineSteps(lf);
    Through(cfg, [CR, LF, CR], lf);
    assert [CR, LF, CR][1..] == [LF, CR];
    Through(lf, [LF, CR], lws);
    assert [LF, CR][1..] == [CR];
    RunOne(lws, CR);
  }

  /** A ':' where a header name should start opens no header: it moves
      to the value state, whatever headers the request holds. With none
      (the only case reachable from a fresh request, by
      `NoHeaderBeforeFieldLines`), a value byte that follows is rejected,
      since there is no header to put it in, while ":" CR LF CR LF is
      accepted and leaves no header; with headers present, the value
      byte goes to the last one. */
  lemma ColonAtNameStart(cfg: Config, b: Byte)
    requires Ready(cfg) && cfg.state == ReqFieldNameStart
    requires !IsCtl(b) && !IsSp(b) && !IsHt(b)
    ensures Proceeds(cfg, [':']) && Run(cfg, [':']) == cfg.(state := ReqFieldValue)
    ensures cfg.head.headers == [] ==> Step(cfg.(state := ReqFieldValue), b).status == Reject
    ensures cfg.head.headers != [] ==>
              Step(cfg.(state := ReqFieldValue), b) ==
              Outcome(cfg.(state := ReqFieldValue, head := cfg.head.(headers := AppendToValue(cfg.head.headers, b))), InProgress)
    ensures Proceeds(cfg, [':', CR, LF, CR]) && Run(cfg, [':', CR, LF, CR]) == cfg.(state := ReqHeaderEnd)
    ensures Step(cfg.(state := ReqHeaderEnd), LF).status == Accept
  {
    var value := cfg.(state := ReqFieldValue);
    assert Step(cfg, ':') == Outcome(value, InProgress);
    RunOne(cfg, ':');
    ValueByteStep(value, b);
    Through(cfg, [':', CR, LF, CR], value);
    assert [':', CR, LF, CR][1..] == [CR, LF, CR];
    EmptyValueThenEnd(value);
  }
}
