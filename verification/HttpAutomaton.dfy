/** The HTTP parser as an automaton over single bytes: what one byte does in each
    state, and what a run over a byte stream yields. */
module HttpAutomaton {
  import opened Wrappers

  import opened HttpChars

  const ULLONG_MAX := 0xFFFF_FFFF_FFFF_FFFF

  datatype State =
    | SDead
    | StartReqOrRes | ResOrRespH
    | StartRes | ResH | ResHT | ResHTT | ResHTTP
    | ResFirstMajor | ResMajor | ResFirstMinor | ResMinor
    | ResFirstStatusCode | ResStatusCode | ResStatusStart | ResStatus | ResLineAlmostDone
    | StartReq | ReqMethod | ReqUrl(url: UrlState)
    | ReqHttpStart | ReqHttpH | ReqHttpHT | ReqHttpHTT | ReqHttpHTTP
    | ReqFirstMajor | ReqMajor | ReqFirstMinor | ReqMinor | ReqLineAlmostDone
    | HeaderFieldStart | HeaderField
    | HeaderValueDiscardWs | HeaderValueDiscardWsAlmostDone | HeaderValueDiscardLws
    | HeaderValueStart | HeaderValue | HeaderValueLws | HeaderAlmostDone
    | ChunkSizeStart | ChunkSize | ChunkParameters | ChunkSizeAlmostDone
    | HeadersAlmostDone | HeadersDone
    // body states from here on
    | ChunkData | ChunkDataAlmostDone | ChunkDataDone
    | BodyIdentity | BodyIdentityEof
    | MessageDone
  {
    /** PARSING_HEADER */
    predicate ParsingHeader() {
      !(ChunkData? || ChunkDataAlmostDone? || ChunkDataDone? || BodyIdentity? || BodyIdentityEof? || MessageDone?)
    }
  }

  datatype HeaderState =
    | HGeneral | HC | HCO | HCON
    | HMatchingConnection | HMatchingProxyConnection | HMatchingContentLength | HMatchingTransferEncoding | HMatchingUpgrade
    | HConnection | HContentLength | HTransferEncoding | HUpgrade
    | HMatchingChunked | HMatchingTokenStart | HMatchingKeepAlive | HMatchingClose | HMatchingConnUpgrade | HMatchingToken
    | HChunked | HKeepAlive | HClose | HConnUpgrade

  datatype Kind = Request | Response | Both

  datatype Flags = Flags(chunked: bool, keepAlive: bool, close: bool, connUpgrade: bool, trailing: bool, upgrade: bool)

  const NO_FLAGS := Flags(false, false, false, false, false, false)

  /** The fields of http_parser, without nread, http_errno and data. */
  datatype Parser = Parser(kind: Kind, flags: Flags, state: State, hstate: HeaderState, index: nat,
                           length: nat, major: nat, minor: nat, status: nat, verb: nat, upgrade: bool)

  datatype Errno =
    | InvalidEofState | HeaderOverflow | ClosedConnection | InvalidVersion | InvalidStatus | InvalidMethod
    | InvalidUrl | LfExpected | InvalidHeaderToken | InvalidContentLength | InvalidChunkSize | InvalidConstant
    | InvalidInternalState | Strict

  datatype Data = FieldData | ValueData | UrlData | BodyData | StatusData

  /** A callback. */
  datatype Event = MessageBegin | HeadersComplete | MessageComplete | OnData(kind: Data, bytes: seq<byte>)

  /** What a byte does: the next parser, the kind of data that the byte belongs to,
      the data callback that ends here, the notification, and whether the byte is
      executed once more in the next state. */
  datatype Action =
    | Fail(errno: Errno)
    | Go(next: Parser, kind: Option<Data>, flush: Option<Data>, note: Option<Event>, again: bool)
    | Upgraded(next: Parser, last: Event)

  // ---- Framing decisions ----

  /** http_message_needs_eof; F_SKIPBODY is never set. */
  predicate NeedsEof(p: Parser) {
    if p.kind.Request? then false
    else if p.status / 100 == 1 || p.status == 204 || p.status == 304 then false
    else !(p.flags.chunked || p.length != ULLONG_MAX)
  }

  /** http_should_keep_alive */
  predicate KeepAlive(p: Parser) {
    (if p.major > 0 && p.minor > 0 then !p.flags.close else p.flags.keepAlive) && !NeedsEof(p)
  }

  /** NEW_MESSAGE */
  function NewMessage(p: Parser): State {
    if KeepAlive(p) then (if p.kind.Request? then StartReq else StartRes) else SDead
  }

  // ---- Actions ----

  function Stay(p: Parser): Action {
    Go(p, None, None, None, false)
  }

  function To(p: Parser, s: State): Action {
    Go(p.(state := s), None, None, None, false)
  }

  function Again(p: Parser, s: State): Action {
    Go(p.(state := s), None, None, None, true)
  }

  /** STRICT_CHECK(ch != c) */
  function Expect(p: Parser, ch: byte, c: byte, s: State): Action {
    if ch != c then Fail(Strict) else To(p, s)
  }

  function Complete(p: Parser): Action {
    Go(p.(state := NewMessage(p)), None, None, Some(MessageComplete), false)
  }

  /** A version digit: the value so far, at most 999. */
  function Version(v: nat, ch: byte): Option<nat> {
    if !IsNum(ch) then None else if v * 10 + Digit(ch) > 999 then None else Some(v * 10 + Digit(ch))
  }

  /** States of the start line of a response. */
  function StatusLine(p: Parser, ch: byte): Action {
    match p.state
    case StartRes =>
      var p' := p.(flags := NO_FLAGS, length := ULLONG_MAX);
      if ch == 'H' then Go(p'.(state := ResH), None, None, Some(MessageBegin), false)
      else if ch == CR || ch == LF then Go(p', None, None, Some(MessageBegin), false)
      else Fail(InvalidConstant)
    case ResH => Expect(p, ch, 'T', ResHT)
    case ResHT => Expect(p, ch, 'T', ResHTT)
    case ResHTT => Expect(p, ch, 'P', ResHTTP)
    case ResHTTP => Expect(p, ch, '/', ResFirstMajor)
    case ResFirstMajor =>
      if !IsNum(ch) then Fail(InvalidVersion) else To(p.(major := Digit(ch)), ResMajor)
    case ResMajor =>
      if ch == '.' then To(p, ResFirstMinor)
      else (match Version(p.major, ch) case None => Fail(InvalidVersion) case Some(v) => Stay(p.(major := v)))
    case ResFirstMinor =>
      if !IsNum(ch) then Fail(InvalidVersion) else To(p.(minor := Digit(ch)), ResMinor)
    case ResMinor =>
      if ch == ' ' then To(p, ResFirstStatusCode)
      else (match Version(p.minor, ch) case None => Fail(InvalidVersion) case Some(v) => Stay(p.(minor := v)))
    case ResFirstStatusCode =>
      if IsNum(ch) then To(p.(status := Digit(ch)), ResStatusCode)
      else if ch == ' ' then Stay(p) else Fail(InvalidStatus)
    case ResStatusCode =>
      if IsNum(ch) then
        (match Version(p.status, ch) case None => Fail(InvalidStatus) case Some(v) => Stay(p.(status := v)))
      else if ch == ' ' then To(p, ResStatusStart)
      else if ch == CR then To(p, ResLineAlmostDone)
      else if ch == LF then To(p, HeaderFieldStart)
      else Fail(InvalidStatus)
    case ResStatusStart =>
      if ch == CR then To(p, ResLineAlmostDone)
      else if ch == LF then To(p, HeaderFieldStart)
      else Go(p.(state := ResStatus, index := 0), Some(StatusData), None, None, false)
    case ResStatus =>
      if ch == CR then Go(p.(state := ResLineAlmostDone), None, Some(StatusData), None, false)
      else if ch == LF then Go(p.(state := HeaderFieldStart), None, Some(StatusData), None, false)
      else Go(p, Some(StatusData), None, None, false)
    case ResLineAlmostDone => Expect(p, ch, LF, HeaderFieldStart)
    case _ => Fail(InvalidInternalState)
  }

  // Request methods, by their number in enum http_method.
  const METHODS: seq<string> := [
    "DELETE", "GET", "HEAD", "POST", "PUT", "CONNECT", "OPTIONS", "TRACE", "COPY", "LOCK", "MKCOL", "MOVE",
    "PROPFIND", "PROPPATCH", "SEARCH", "UNLOCK", "REPORT", "MKACTIVITY", "CHECKOUT", "MERGE", "M-SEARCH",
    "NOTIFY", "SUBSCRIBE", "UNSUBSCRIBE", "PATCH", "PURGE", "MKCALENDAR"]

  const HTTP_HEAD := 2
  const HTTP_CONNECT := 5

  /** The method that a first letter stands for until more letters are known. */
  function FirstGuess(ch: byte): Option<nat> {
    match ch
    case 'C' => Some(5) case 'D' => Some(0) case 'G' => Some(1) case 'H' => Some(2) case 'L' => Some(9)
    case 'M' => Some(10) case 'N' => Some(21) case 'O' => Some(6) case 'P' => Some(3) case 'R' => Some(16)
    case 'S' => Some(22) case 'T' => Some(7) case 'U' => Some(15)
    case _ => None
  }

  function MethodChar(m: nat, i: nat): char {
    if m < |METHODS| && i < |METHODS[m]| then METHODS[m][i] else '\0'
  }

  /** The method that the letter ch at position i switches to, when it does not
      continue method m. */
  function SwitchVerb(m: nat, i: nat, ch: byte): Option<nat> {
    match m
    case 5 => if i == 1 && ch == 'H' then Some(18) else if i == 2 && ch == 'P' then Some(8) else None
    case 10 =>
      if i == 1 && ch == 'O' then Some(11) else if i == 1 && ch == 'E' then Some(19)
      else if i == 1 && ch == '-' then Some(20) else if i == 2 && ch == 'A' then Some(17)
      else if i == 3 && ch == 'A' then Some(26) else None
    case 22 => if i == 1 && ch == 'E' then Some(14) else None
    case _ =>
      if i == 1 && m == 3 then
        if ch == 'R' then Some(12) else if ch == 'U' then Some(4) else if ch == 'A' then Some(24) else None
      else if i == 2 then
        if m == 4 && ch == 'R' then Some(25) else if m == 15 && ch == 'S' then Some(23) else None
      else if i == 4 && m == 12 && ch == 'P' then Some(13)
      else None
  }

  /** States of the start line of a request. */
  function RequestLine(p: Parser, ch: byte): Action {
    match p.state
    case StartReq =>
      if ch == CR || ch == LF then Stay(p)
      else if !IsAlpha(ch) then Fail(InvalidMethod)
      else (match FirstGuess(ch)
            case None => Fail(InvalidMethod)
            case Some(m) =>
              Go(p.(flags := NO_FLAGS, length := ULLONG_MAX, verb := m, index := 1, state := ReqMethod),
                 None, None, Some(MessageBegin), false))
    case ReqMethod =>
      if ch == '\0' then Fail(InvalidMethod)
      else if ch == ' ' && MethodChar(p.verb, p.index) == '\0' then
        To(p.(index := p.index + 1), ReqUrl(SpacesBeforeUrl))
      else if ch == MethodChar(p.verb, p.index) then Stay(p.(index := p.index + 1))
      else (match SwitchVerb(p.verb, p.index, ch)
            case None => Fail(InvalidMethod)
            case Some(m) => Stay(p.(verb := m, index := p.index + 1)))
    case ReqUrl(u) =>
      if u == SpacesBeforeUrl then
        if ch == ' ' then Stay(p)
        else UrlByte(p, if p.verb == HTTP_CONNECT then ServerStart else u, ch)
      else if u.Schema? || u.SchemaSlash? || u.SchemaSlashSlash? || u.ServerStart? then
        if ch == ' ' || ch == CR || ch == LF then Fail(InvalidUrl) else UrlByte(p, u, ch)
      else
        if ch == ' ' then Go(p.(state := ReqHttpStart), None, Some(UrlData), None, false)
        else if ch == CR then Go(p.(major := 0, minor := 9, state := ReqLineAlmostDone), None, Some(UrlData), None, false)
        else if ch == LF then Go(p.(major := 0, minor := 9, state := HeaderFieldStart), None, Some(UrlData), None, false)
        else UrlByte(p, u, ch)
    case ReqHttpStart =>
      if ch == 'H' then To(p, ReqHttpH) else if ch == ' ' then Stay(p) else Fail(InvalidConstant)
    case ReqHttpH => Expect(p, ch, 'T', ReqHttpHT)
    case ReqHttpHT => Expect(p, ch, 'T', ReqHttpHTT)
    case ReqHttpHTT => Expect(p, ch, 'P', ReqHttpHTTP)
    case ReqHttpHTTP => Expect(p, ch, '/', ReqFirstMajor)
    case ReqFirstMajor =>
      if !('1' <= ch <= '9') then Fail(InvalidVersion) else To(p.(major := Digit(ch)), ReqMajor)
    case ReqMajor =>
      if ch == '.' then To(p, ReqFirstMinor)
      else (match Version(p.major, ch) case None => Fail(InvalidVersion) case Some(v) => Stay(p.(major := v)))
    case ReqFirstMinor =>
      if !IsNum(ch) then Fail(InvalidVersion) else To(p.(minor := Digit(ch)), ReqMinor)
    case ReqMinor =>
      if ch == CR then To(p, ReqLineAlmostDone)
      else if ch == LF then To(p, HeaderFieldStart)
      else (match Version(p.minor, ch) case None => Fail(InvalidVersion) case Some(v) => Stay(p.(minor := v)))
    case ReqLineAlmostDone => if ch != LF then Fail(LfExpected) else To(p, HeaderFieldStart)
    case _ => Fail(InvalidInternalState)
  }

  function UrlByte(p: Parser, u: UrlState, ch: byte): Action {
    var u' := ParseUrlChar(u, ch);
    if u' == HttpChars.Dead then Fail(InvalidUrl)
    else Go(p.(state := ReqUrl(u')), Some(UrlData), None, None, false)
  }

  // ---- Header names ----

  const CONNECTION := "connection"
  const PROXY_CONNECTION := "proxy-connection"
  const CONTENT_LENGTH := "content-length"
  const TRANSFER_ENCODING := "transfer-encoding"
  const UPGRADE := "upgrade"
  const CHUNKED := "chunked"
  const KEEP_ALIVE := "keep-alive"
  const CLOSE := "close"

  /** Matching one more character of a constant: the index, and whether the match
      failed (0), goes on (1) or is complete (2). */
  function Match(word: string, i: nat, c: byte): nat {
    if i > |word| || c != (if i < |word| then word[i] else '\0') then 0
    else if i + 1 == |word| then 2 else 1
  }

  function Matched(p: Parser, word: string, c: byte, failed: HeaderState, done: HeaderState): Parser {
    var i := p.index + 1;
    p.(index := i,
       hstate := match Match(word, i, c) case 0 => failed case 2 => done case _ => p.hstate)
  }

  /** One token character c (of byte ch) of a header name. */
  function NameChar(p: Parser, ch: byte, c: byte): Parser {
    match p.hstate
    case HC => p.(index := p.index + 1, hstate := if c == 'o' then HCO else HGeneral)
    case HCO => p.(index := p.index + 1, hstate := if c == 'n' then HCON else HGeneral)
    case HCON =>
      p.(index := p.index + 1,
         hstate := if c == 'n' then HMatchingConnection else if c == 't' then HMatchingContentLength else HGeneral)
    case HMatchingConnection => Matched(p, CONNECTION, c, HGeneral, HConnection)
    case HMatchingProxyConnection => Matched(p, PROXY_CONNECTION, c, HGeneral, HConnection)
    case HMatchingContentLength => Matched(p, CONTENT_LENGTH, c, HGeneral, HContentLength)
    case HMatchingTransferEncoding => Matched(p, TRANSFER_ENCODING, c, HGeneral, HTransferEncoding)
    case HMatchingUpgrade => Matched(p, UPGRADE, c, HGeneral, HUpgrade)
    case HConnection => if ch != ' ' then p.(hstate := HGeneral) else p
    case HContentLength => if ch != ' ' then p.(hstate := HGeneral) else p
    case HTransferEncoding => if ch != ' ' then p.(hstate := HGeneral) else p
    case HUpgrade => if ch != ' ' then p.(hstate := HGeneral) else p
    case _ => p
  }

  function NameStart(c: byte): HeaderState {
    match c
    case 'c' => HC
    case 'p' => HMatchingProxyConnection
    case 't' => HMatchingTransferEncoding
    case 'u' => HMatchingUpgrade
    case _ => HGeneral
  }

  // ---- Header values ----

  /** The first character of a value. */
  function ValueStart(p: Parser, ch: byte): Action {
    var c := Lower(ch);
    var p' := p.(state := HeaderValue, index := 0);
    if p.hstate.HContentLength? && !IsNum(ch) then Fail(InvalidContentLength)
    else
      var q := match p.hstate
        case HUpgrade => p'.(flags := p.flags.(upgrade := true), hstate := HGeneral)
        case HTransferEncoding => p'.(hstate := if c == 'c' then HMatchingChunked else HGeneral)
        case HContentLength => p'.(length := if IsNum(ch) then Digit(ch) else 0)
        case HConnection =>
          p'.(hstate := if c == 'k' then HMatchingKeepAlive else if c == 'c' then HMatchingClose
                        else if c == 'u' then HMatchingConnUpgrade else HMatchingToken)
        case HMatchingTokenStart => p'
        case _ => p'.(hstate := HGeneral);
      Go(q, Some(ValueData), None, None, false)
  }

  /** Any further character of a value but CR and LF; None is an invalid length. */
  function ValueChar(p: Parser, ch: byte): Option<Parser> {
    var c := Lower(ch);
    match p.hstate
    case HContentLength =>
      if ch == ' ' then Some(p)
      else if !IsNum(ch) then None
      else if (ULLONG_MAX - 10) / 10 < p.length then None
      else Some(p.(length := p.length * 10 + Digit(ch)))
    case HMatchingChunked => Some(Matched(p, CHUNKED, c, HGeneral, HChunked))
    case HMatchingTokenStart =>
      Some(p.(hstate := if c == 'k' then HMatchingKeepAlive else if c == 'c' then HMatchingClose
                        else if c == 'u' then HMatchingConnUpgrade else if Token(c) != '\0' then HMatchingToken
                        else if c == ' ' || c == '\t' then HMatchingTokenStart else HGeneral))
    case HMatchingKeepAlive => Some(Matched(p, KEEP_ALIVE, c, HMatchingToken, HKeepAlive))
    case HMatchingClose => Some(Matched(p, CLOSE, c, HMatchingToken, HClose))
    case HMatchingConnUpgrade => Some(Matched(p, UPGRADE, c, HMatchingToken, HConnUpgrade))
    case HMatchingToken => Some(if ch == ',' then p.(hstate := HMatchingTokenStart, index := 0) else p)
    case HChunked => Some(if ch != ' ' then p.(hstate := HGeneral) else p)
    case HKeepAlive => Some(TokenEnd(p, ch))
    case HClose => Some(TokenEnd(p, ch))
    case HConnUpgrade => Some(TokenEnd(p, ch))
    case _ => Some(p.(hstate := HGeneral))
  }

  function TokenEnd(p: Parser, ch: byte): Parser {
    if ch == ',' then p.(flags := ConnectionFlags(p), hstate := HMatchingTokenStart, index := 0)
    else if ch != ' ' then p.(hstate := HMatchingToken)
    else p
  }

  function ConnectionFlags(p: Parser): Flags {
    match p.hstate
    case HKeepAlive => p.flags.(keepAlive := true)
    case HClose => p.flags.(close := true)
    case HConnUpgrade => p.flags.(connUpgrade := true)
    case _ => p.flags
  }

  /** The flags that a finished header sets. */
  function HeaderFlags(p: Parser): Flags {
    if p.hstate.HChunked? then p.flags.(chunked := true) else ConnectionFlags(p)
  }

  /** States of the header block. */
  function Headers(p: Parser, ch: byte): Action {
    match p.state
    case HeaderFieldStart =>
      if ch == CR then To(p, HeadersAlmostDone)
      else if ch == LF then Again(p, HeadersAlmostDone)
      else if Token(ch) == '\0' then Fail(InvalidHeaderToken)
      else Go(p.(state := HeaderField, index := 0, hstate := NameStart(Token(ch))), Some(FieldData), None, None, false)
    case HeaderField =>
      var c := Token(ch);
      if c != '\0' then Go(NameChar(p, ch, c), Some(FieldData), None, None, false)
      else if ch == ':' then Go(p.(state := HeaderValueDiscardWs), None, Some(FieldData), None, false)
      else Fail(InvalidHeaderToken)
    case HeaderValueDiscardWs =>
      if ch == ' ' || ch == '\t' then Stay(p)
      else if ch == CR then To(p, HeaderValueDiscardWsAlmostDone)
      else if ch == LF then To(p, HeaderValueDiscardLws)
      else ValueStart(p, ch)
    case HeaderValueStart => ValueStart(p, ch)
    case HeaderValue =>
      if ch == CR then Go(p.(state := HeaderAlmostDone), None, Some(ValueData), None, false)
      else if ch == LF then Go(p.(state := HeaderAlmostDone), None, Some(ValueData), None, true)
      else (match ValueChar(p, ch)
            case None => Fail(InvalidContentLength)
            case Some(q) => Go(q, Some(ValueData), None, None, false))
    case HeaderAlmostDone => Expect(p, ch, LF, HeaderValueLws)
    case HeaderValueLws =>
      if ch == ' ' || ch == '\t' then Again(p, HeaderValueStart)
      else Again(p.(flags := HeaderFlags(p)), HeaderFieldStart)
    case HeaderValueDiscardWsAlmostDone => Expect(p, ch, LF, HeaderValueDiscardLws)
    case HeaderValueDiscardLws =>
      if ch == ' ' || ch == '\t' then To(p, HeaderValueDiscardWs)
      else Go(p.(flags := HeaderFlags(p), state := HeaderFieldStart), None, Some(ValueData), None, true)
    case HeadersAlmostDone =>
      if ch != LF then Fail(Strict)
      else if p.flags.trailing then Complete(p)
      else
        var up := (p.flags.upgrade && p.flags.connUpgrade) || p.verb == HTTP_CONNECT;
        Go(p.(state := HeadersDone, upgrade := up), None, None, Some(HeadersComplete), true)
    case HeadersDone =>
      if ch != LF then Fail(Strict)
      else if p.upgrade then Action.Upgraded(p.(state := NewMessage(p)), MessageComplete)
      else if p.flags.chunked then To(p, ChunkSizeStart)
      else if p.length == 0 then Complete(p)
      else if p.length != ULLONG_MAX then To(p, BodyIdentity)
      else if p.kind.Request? || !NeedsEof(p) then Complete(p)
      else To(p, BodyIdentityEof)
    case _ => Fail(InvalidInternalState)
  }

  /** States of the body and of chunk headers. */
  function Body(p: Parser, ch: byte): Action {
    match p.state
    case BodyIdentity =>
      var n := if p.length > 0 then p.length - 1 else 0;
      if n == 0 then Go(p.(length := 0, state := MessageDone), Some(BodyData), Some(BodyData), None, true)
      else Go(p.(length := n), Some(BodyData), None, None, false)
    case BodyIdentityEof => Go(p, Some(BodyData), None, None, false)
    case MessageDone => Complete(p)
    case ChunkSizeStart =>
      if Unhex(ch) == -1 then Fail(InvalidChunkSize) else To(p.(length := Unhex(ch)), ChunkSize)
    case ChunkSize =>
      if ch == CR then To(p, ChunkSizeAlmostDone)
      else if Unhex(ch) == -1 then
        if ch == ';' || ch == ' ' then To(p, ChunkParameters) else Fail(InvalidChunkSize)
      else if (ULLONG_MAX - 16) / 16 < p.length then Fail(InvalidContentLength)
      else Stay(p.(length := p.length * 16 + Unhex(ch)))
    case ChunkParameters => if ch == CR then To(p, ChunkSizeAlmostDone) else Stay(p)
    case ChunkSizeAlmostDone =>
      if ch != LF then Fail(Strict)
      else if p.length == 0 then To(p.(flags := p.flags.(trailing := true)), HeaderFieldStart)
      else To(p, ChunkData)
    case ChunkData =>
      var n := if p.length > 0 then p.length - 1 else 0;
      Go(p.(length := n, state := if n == 0 then ChunkDataAlmostDone else ChunkData), Some(BodyData), None, None, false)
    case ChunkDataAlmostDone =>
      if ch != CR then Fail(Strict) else Go(p.(state := ChunkDataDone), None, Some(BodyData), None, false)
    case ChunkDataDone => Expect(p, ch, LF, ChunkSizeStart)
    case _ => Fail(InvalidInternalState)
  }

  /** States in front of a message. */
  function Start(p: Parser, ch: byte): Action {
    match p.state
    case SDead => if ch == CR || ch == LF then Stay(p) else Fail(ClosedConnection)
    case StartReqOrRes =>
      if ch == CR || ch == LF then Stay(p)
      else
        var p' := p.(flags := NO_FLAGS, length := ULLONG_MAX);
        if ch == 'H' then Go(p'.(state := ResOrRespH), None, None, Some(MessageBegin), false)
        else Again(p'.(kind := Request), StartReq)
    case ResOrRespH =>
      if ch == 'T' then To(p.(kind := Response), ResHT)
      else if ch != 'E' then Fail(InvalidConstant)
      else To(p.(kind := Request, verb := HTTP_HEAD, index := 2), ReqMethod)
    case _ => Fail(InvalidInternalState)
  }

  /** One execution of byte ch. */
  function Step(p: Parser, ch: byte): Action {
    match p.state
    case SDead => Start(p, ch)
    case StartReqOrRes => Start(p, ch)
    case ResOrRespH => Start(p, ch)
    case StartReq => RequestLine(p, ch)
    case ReqMethod => RequestLine(p, ch)
    case ReqUrl(_) => RequestLine(p, ch)
    case ReqHttpStart => RequestLine(p, ch)
    case ReqHttpH => RequestLine(p, ch)
    case ReqHttpHT => RequestLine(p, ch)
    case ReqHttpHTT => RequestLine(p, ch)
    case ReqHttpHTTP => RequestLine(p, ch)
    case ReqFirstMajor => RequestLine(p, ch)
    case ReqMajor => RequestLine(p, ch)
    case ReqFirstMinor => RequestLine(p, ch)
    case ReqMinor => RequestLine(p, ch)
    case ReqLineAlmostDone => RequestLine(p, ch)
    case HeaderFieldStart => Headers(p, ch)
    case HeaderField => Headers(p, ch)
    case HeaderValueDiscardWs => Headers(p, ch)
    case HeaderValueDiscardWsAlmostDone => Headers(p, ch)
    case HeaderValueDiscardLws => Headers(p, ch)
    case HeaderValueStart => Headers(p, ch)
    case HeaderValue => Headers(p, ch)
    case HeaderValueLws => Headers(p, ch)
    case HeaderAlmostDone => Headers(p, ch)
    case HeadersAlmostDone => Headers(p, ch)
    case HeadersDone => Headers(p, ch)
    case ChunkSizeStart => Body(p, ch)
    case ChunkSize => Body(p, ch)
    case ChunkParameters => Body(p, ch)
    case ChunkSizeAlmostDone => Body(p, ch)
    case ChunkData => Body(p, ch)
    case ChunkDataAlmostDone => Body(p, ch)
    case ChunkDataDone => Body(p, ch)
    case BodyIdentity => Body(p, ch)
    case BodyIdentityEof => Body(p, ch)
    case MessageDone => Body(p, ch)
    case _ => StatusLine(p, ch)
  }
}
