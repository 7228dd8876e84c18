/** What the HTTP parser refuses: methods, numbers, names, lengths and chunk sizes that are
    none, and characters out of place. And what it is lenient in: line ends and blank lines. */
module HttpRefusal {
  import opened Wrappers

  import opened HttpChars
  import opened HttpAutomaton
  import opened HttpRun
  import opened HttpText
  import opened HttpHeader
  import opened HttpMessage
  import HttpChunks

  /** The run ends with this error. */
  ghost predicate Refused(p: Parser, log: seq<Event>, s: seq<byte>, e: Errno) {
    Run(p, log, s, 0).Failed? && Run(p, log, s, 0).errno == e
  }

  lemma StillRefused(p: Parser, log: seq<Event>, a: seq<byte>, b: seq<byte>, e: Errno)
    requires Refused(p, log, a, e)
    ensures Refused(p, log, a + b, e)
  {
    FailAppend(p, log, a, b);
  }

  lemma NowRefused(p: Parser, log: seq<Event>, a: seq<byte>, ch: byte)
    requires Run(p, log, a, 0).Done? && Step(Run(p, log, a, 0).next, ch).Fail?
    ensures Refused(p, log, a + [ch], Step(Run(p, log, a, 0).next, ch).errno)
  {
    hide Step, Run;
    var o := Run(p, log, a, 0);
    RunAppend(p, log, a, [ch]);
    BadByte(o.next, o.log, ch);
  }

  // ---- Methods ----

  /** Verb v is the guess for a word that is the beginning of its name. */
  predicate GuessedFor(v: nat, w: seq<byte>) {
    v < 27 && 0 < |w| <= |MethodText(v)| && w == MethodText(v)[..|w|]
  }

  lemma FirstGuessFor(ch: byte)
    ensures match FirstGuess(ch) case None => true case Some(v) => GuessedFor(v, [ch])
  {
  }

  lemma SwitchShares(v: nat, i: nat, ch: byte)
    requires v < 27 && 1 <= i <= |MethodText(v)|
    ensures match SwitchVerb(v, i, ch)
            case None => true
            case Some(m) =>
              && m < 27 && i < |MethodText(v)| && i < |MethodText(m)| && MethodText(m)[i] == ch
              && MethodText(v)[..i] == MethodText(m)[..i]
    ensures ch == ' ' ==> SwitchVerb(v, i, ch).None?
  {
  }

  /** One more letter leads to a verb with that letter, or is refused. */
  lemma GuessStep(p: Parser, w: seq<byte>, ch: byte)
    requires p.state.ReqMethod? && GuessedFor(p.verb, w) && p.index == |w|
    ensures var a := Step(p, ch);
            if ch == ' ' then (if w == MethodText(p.verb) then a.Go? && !a.again else a == Fail(InvalidMethod))
            else a == Fail(InvalidMethod) || (a == Go(a.next, None, None, None, false) && a.next.state.ReqMethod?
                                              && GuessedFor(a.next.verb, w + [ch]) && a.next.index == |w| + 1)
  {
    hide Step, MethodText, SwitchVerb, MethodChar;
    StartLineStep(p, ch);
    MethodCharIs(p.verb, p.index);
    SwitchShares(p.verb, p.index, ch);
    if p.index < |MethodText(p.verb)| { VerbMore(p.verb, p.index); }
    assert MethodText(p.verb)[..|MethodText(p.verb)|] == MethodText(p.verb);
  }

  lemma {:induction false} GuessRun(p: Parser, log: seq<Event>, w: seq<byte>)
    requires p.state.StartReq? && w != [] && ' ' !in w && w[0] != CR && w[0] != LF
    ensures Refused(p, log, w, InvalidMethod) ||
            (var o := Run(p, log, w, 0); o.Done? && o.next.state.ReqMethod? && GuessedFor(o.next.verb, w) && o.next.index == |w|)
    decreases |w|
  {
    hide Step, Run, GuessedFor, Join, FirstGuess;
    var n := |w| - 1;
    var a, ch := w[..n], w[n];
    assert w == a + [ch];
    if n == 0 {
      assert w == [ch];
      StartLineStep(p, ch);
      FirstGuessFor(ch);
      if Step(p, ch).Fail? { BadByte(p, log, ch); } else { OneByte(p, log, ch); }
    } else {
      forall c | c in a ensures c in w { }
      GuessRun(p, log, a);
      if Refused(p, log, a, InvalidMethod) {
        StillRefused(p, log, a, [ch], InvalidMethod);
      } else {
        var o := Run(p, log, a, 0);
        assert ch in w;
        GuessStep(o.next, a, ch);
        if Step(o.next, ch).Fail? {
          NowRefused(p, log, a, ch);
        } else {
          OneByte(o.next, o.log, ch);
          RunAppend(p, log, a, [ch]);
        }
      }
    }
  }

  ghost predicate IsMethod(w: seq<byte>) {
    exists m: nat :: m < 27 && MethodText(m) == w
  }

  /** A word is taken for a method exactly when it is one. */
  lemma VerbExact(p: Parser, log: seq<Event>, w: seq<byte>)
    requires p.state.StartReq? && w != [] && ' ' !in w && w[0] != CR && w[0] != LF
    ensures Run(p, log, w + [' '], 0).Done? <==> IsMethod(w)
    ensures !IsMethod(w) ==> Refused(p, log, w + [' '], InvalidMethod)
  {
    hide Step, Run, MethodText;
    GuessRun(p, log, w);
    if Refused(p, log, w, InvalidMethod) {
      StillRefused(p, log, w, [' '], InvalidMethod);
      NotMethod(p, log, w);
    } else {
      var o := Run(p, log, w, 0);
      GuessStep(o.next, w, ' ');
      if w == MethodText(o.next.verb) {
        VerbRun(p, log, o.next.verb);
      } else {
        NowRefused(p, log, w, ' ');
        NotMethod(p, log, w);
      }
    }
  }

  lemma NotMethod(p: Parser, log: seq<Event>, w: seq<byte>)
    requires p.state.StartReq? && Run(p, log, w + [' '], 0).Failed?
    ensures !IsMethod(w)
  {
    hide Step, Run, MethodText;
    forall m: nat | m < 27 ensures MethodText(m) != w { VerbRun(p, log, m); }
  }

  // ---- Numbers of the start line ----

  function NumberError(k: Number): Errno {
    if k.StatusNumber? then InvalidStatus else InvalidVersion
  }

  /** A digit makes a number too large, or another character stands in it. */
  lemma NumberRefuses(p: Parser, k: Number, ch: byte)
    ensures p.state == FirstState(k) && !IsDigit(ch) && !(k.StatusNumber? && ch == ' ') ==> Step(p, ch) == Fail(NumberError(k))
    ensures p.state == FirstState(k) && k.ReqMajorNumber? && ch == '0' ==> Step(p, ch) == Fail(InvalidVersion)
    ensures p.state == MoreState(k) && IsDigit(ch) && 10 * Get(p, k) + (ch as int - 48) > 999 ==> Step(p, ch) == Fail(NumberError(k))
    ensures p.state == MoreState(k) && !IsDigit(ch) && !EndsNumber(k, ch) ==> Step(p, ch) == Fail(NumberError(k))
  {
    hide Step;
    StartLineStep(p, ch);
  }

  /** What may follow a number. */
  predicate EndsNumber(k: Number, ch: byte) {
    match k
    case ResMajorNumber => ch == '.'
    case ReqMajorNumber => ch == '.'
    case ResMinorNumber => ch == ' '
    case StatusNumber => ch == ' ' || ch == CR || ch == LF
    case ReqMinorNumber => ch == CR || ch == LF
  }

  /** Digits are read as a number exactly when it is at most 999. */
  lemma {:induction false} NumberExact(p: Parser, log: seq<Event>, k: Number, s: seq<byte>)
    requires p.state == FirstState(k) && AllDigits(s) && (k.ReqMajorNumber? ==> s[0] != '0')
    ensures Run(p, log, s, 0).Done? <==> NumberOf(s) <= 999
    ensures NumberOf(s) > 999 ==> Refused(p, log, s, NumberError(k))
    decreases |s|
  {
    hide Step, Run, FirstState, MoreState, Put, Get;
    var n := |s| - 1;
    var a, ch := s[..n], s[n];
    assert s == a + [ch] && IsDigit(ch);
    if NumberOf(s) <= 999 {
      NumberRun(p, log, k, s);
    } else {
      assert n > 0;
      assert s[0] == a[0] && NumberOf(s) == 10 * NumberOf(a) + (ch as int - 48);
      NumberExact(p, log, k, a);
      if NumberOf(a) > 999 {
        StillRefused(p, log, a, [ch], NumberError(k));
      } else {
        NumberRun(p, log, k, a);
        GetPut(p, k, NumberOf(a), 0, MoreState(k));
        NumberRefuses(Run(p, log, a, 0).next, k, ch);
        NowRefused(p, log, a, ch);
      }
    }
  }

  // ---- Names of header fields ----

  lemma NameRefuses(p: Parser, ch: byte)
    requires !IsToken(ch) && (p.state.HeaderFieldStart? || p.state.HeaderField?)
    ensures p.state.HeaderFieldStart? && ch != CR && ch != LF ==> Step(p, ch) == Fail(InvalidHeaderToken)
    ensures p.state.HeaderField? && ch != ':' ==> Step(p, ch) == Fail(InvalidHeaderToken)
  {
    TokenIs(ch);
    HeadersStep(p, ch);
    hide Step, Token, IsToken;
  }

  /** A name is read exactly when it is a token. */
  lemma {:induction false} NameExact(p: Parser, log: seq<Event>, s: seq<byte>)
    requires p.state.HeaderFieldStart? && s != [] && s[0] != CR && s[0] != LF && forall k :: 0 < k < |s| ==> s[k] != ':'
    ensures Run(p, log, s, 0).Done? <==> forall k :: 0 <= k < |s| ==> IsToken(s[k])
    ensures !Run(p, log, s, 0).Done? ==> Refused(p, log, s, InvalidHeaderToken)
    decreases |s|
  {
    hide Step, Run, IsToken;
    if forall k :: 0 <= k < |s| ==> IsToken(s[k]) {
      NameRun(p, log, s);
    } else {
      var n := |s| - 1;
      var a, ch := s[..n], s[n];
      assert s == a + [ch];
      if n == 0 {
        assert s == [ch];
        NameRefuses(p, ch);
        BadByte(p, log, ch);
      } else {
        NameExact(p, log, a);
        if Run(p, log, a, 0).Done? {
          NameRun(p, log, a);
          NameRefuses(Run(p, log, a, 0).next, ch);
          NowRefused(p, log, a, ch);
        } else {
          StillRefused(p, log, a, [ch], InvalidHeaderToken);
        }
      }
    }
  }

  // ---- Content-Length ----

  lemma LengthRefuses(p: Parser, s: seq<byte>, ch: byte)
    requires ch != CR && ch != LF && p.hstate.HContentLength? && (p.state.HeaderValueDiscardWs? || p.state.HeaderValue?)
    ensures p.state.HeaderValueDiscardWs? && !IsBlank(ch) && !LengthOk([ch]) ==> Step(p, ch) == Fail(InvalidContentLength)
    ensures p.state.HeaderValue? && LengthOk(s) && p.length == LengthNumber(s) && !LengthOk(s + [ch]) ==>
              Step(p, ch) == Fail(InvalidContentLength)
  {
    hide Step, ValueStart, ValueChar, LengthOk, LengthNumber;
    HeadersStep(p, ch);
    LengthFirst(p, ch);
    if LengthOk(s) && p.length == LengthNumber(s) { LengthMore(p, s, ch); }
  }

  /** A length is read exactly when it is a digit followed by digits and spaces and at most
      2^64 - 7; otherwise it is refused. */
  lemma {:induction false} LengthExact(p: Parser, log: seq<Event>, s: seq<byte>)
    requires p.state.HeaderValueDiscardWs? && p.hstate.HContentLength? && s != [] && !IsBlank(s[0]) && CR !in s && LF !in s
    ensures Run(p, log, s, 0).Done? <==> LengthOk(s)
    ensures LengthOk(s) ==> Run(p, log, s, 0).next.length == LengthNumber(s)
    ensures !LengthOk(s) ==> Refused(p, log, s, InvalidContentLength)
    decreases |s|
  {
    hide Step, Run, LengthOk, LengthNumber;
    if LengthOk(s) {
      ValueRun(p, log, s);
    } else {
      var n := |s| - 1;
      var a, ch := s[..n], s[n];
      assert s == a + [ch] && ch in s;
      if n == 0 {
        assert s == [ch];
        LengthRefuses(p, [], ch);
        BadByte(p, log, ch);
      } else {
        forall c | c in a ensures c in s { }
        LengthExact(p, log, a);
        if LengthOk(a) {
          ValueRun(p, log, a);
          LengthRefuses(Run(p, log, a, 0).next, a, ch);
          NowRefused(p, log, a, ch);
        } else {
          StillRefused(p, log, a, [ch], InvalidContentLength);
        }
      }
    }
  }

  /** Two numbers with a space between them are read as one. */
  lemma {:induction false} LengthsJoin(a: seq<byte>, b: seq<byte>)
    requires AllDigits(a) && AllDigits(a + b)
    ensures IsLength(a + ([' '] + b)) && LengthNumber(a + ([' '] + b)) == NumberOf(a + b)
    decreases |b|
  {
    if b == [] {
      assert a + ([' '] + b) == a + [' '] && a + b == a;
      LengthDigits(a);
      LengthLess(a, ' ');
    } else {
      var n := |b| - 1;
      assert a + ([' '] + b) == a + ([' '] + b[..n]) + [b[n]] && a + b == (a + b[..n]) + [b[n]];
      assert IsDigit((a + b)[|a| + n]);
      DigitsLess(a + b[..n], b[n]);
      LengthsJoin(a, b[..n]);
      LengthLess(a + ([' '] + b[..n]), b[n]);
    }
  }

  lemma DigitsLess(s: seq<byte>, ch: byte)
    requires AllDigits(s + [ch]) && s != []
    ensures AllDigits(s) && NumberOf(s + [ch]) == 10 * NumberOf(s) + (ch as int - 48)
  {
    assert (s + [ch])[..|s|] == s && (s + [ch])[|s|] == ch;
    forall k | 0 <= k < |s| ensures IsDigit(s[k]) { assert (s + [ch])[k] == s[k]; }
  }

  lemma {:induction false} LengthDigits(s: seq<byte>)
    requires AllDigits(s)
    ensures IsLength(s) && LengthNumber(s) == NumberOf(s)
    decreases |s|
  {
    var n := |s| - 1;
    assert IsDigit(s[n]) && IsDigit(s[0]);
    if n > 0 {
      assert s == s[..n] + [s[n]];
      DigitsLess(s[..n], s[n]);
      LengthDigits(s[..n]);
    } else {
      assert s[..n] == [];
    }
  }

  // ---- Chunk sizes ----

  lemma SizeRefuses(p: Parser, ch: byte)
    requires !HttpChunks.IsHexDigit(ch)
    ensures p.state.ChunkSizeStart? ==> Step(p, ch) == Fail(InvalidChunkSize)
    ensures p.state.ChunkSize? && ch != CR && ch != ';' && ch != ' ' ==> Step(p, ch) == Fail(InvalidChunkSize)
  {
    HttpChunks.UnhexIs(ch);
    hide Unhex, HttpChunks.IsHexDigit;
  }

  /** A chunk size is read exactly when it is hex digits and at most 2^64 - 17. */
  lemma {:induction false} SizeExact(p: Parser, log: seq<Event>, s: seq<byte>)
    requires p.state.ChunkSizeStart? && s != [] && forall k :: 0 < k < |s| ==> s[k] != CR && s[k] != ';' && s[k] != ' '
    ensures Run(p, log, s, 0).Done? <==> HttpChunks.AllHex(s) && HttpChunks.HexValue(s) <= 0xFFFF_FFFF_FFFF_FFEF
    ensures !HttpChunks.AllHex(s) ==> Run(p, log, s, 0).Failed?
    decreases |s|
  {
    hide Step, Run, HttpChunks.IsHexDigit;
    if HttpChunks.AllHex(s) {
      HttpChunks.SizeRun(p, log, s);
    } else {
      var n := |s| - 1;
      var a, ch := s[..n], s[n];
      assert s == a + [ch];
      if n == 0 {
        assert s == [ch];
        SizeRefuses(p, ch);
        BadByte(p, log, ch);
      } else {
        SizeExact(p, log, a);
        if Run(p, log, a, 0).Done? {
          HttpChunks.SizeRun(p, log, a);
          SizeRefuses(Run(p, log, a, 0).next, ch);
          NowRefused(p, log, a, ch);
        } else {
          if HttpChunks.AllHex(a) { HttpChunks.SizeRun(p, log, a); }
          FailAppend(p, log, a, [ch]);
        }
      }
    }
  }

  // ---- Characters that must stand where they stand ----

  /** The only character that may come next, where there is only one. */
  function Only(s: State): Option<byte> {
    match s
    case ResH => Some('T') case ResHT => Some('T') case ResHTT => Some('P') case ResHTTP => Some('/')
    case ReqHttpH => Some('T') case ReqHttpHT => Some('T') case ReqHttpHTT => Some('P') case ReqHttpHTTP => Some('/')
    case ResLineAlmostDone => Some(LF) case ReqLineAlmostDone => Some(LF)
    case HeaderAlmostDone => Some(LF) case HeaderValueDiscardWsAlmostDone => Some(LF) case HeadersAlmostDone => Some(LF)
    case ChunkSizeAlmostDone => Some(LF) case ChunkDataAlmostDone => Some(CR) case ChunkDataDone => Some(LF)
    case _ => None
  }

  lemma OnlyIs(p: Parser, ch: byte)
    requires Only(p.state).Some?
    ensures Step(p, ch).Fail? <==> ch != Only(p.state).value
  {
  }

  /** What a message may begin with, and a connection end with. */
  lemma BeginsOnly(p: Parser, ch: byte)
    ensures p.state.StartRes? ==> (Step(p, ch).Fail? <==> ch != 'H' && ch != CR && ch != LF)
    ensures p.state.ResOrRespH? ==> (Step(p, ch).Fail? <==> ch != 'T' && ch != 'E')
    ensures p.state.ReqHttpStart? ==> (Step(p, ch).Fail? <==> ch != 'H' && ch != ' ')
    ensures p.state.SDead? ==> (Step(p, ch).Fail? <==> ch != CR && ch != LF)
  {
  }

  // ---- Targets ----

  predicate Visible(ch: byte) {
    '!' <= ch <= '~'
  }

  /** The characters that a target may go on with. */
  predicate UrlGoesOn(u: UrlState, ch: byte) {
    match u
    case Dead => false
    case SpacesBeforeUrl => ch == '/' || ch == '*' || 'a' <= ch <= 'z' || 'A' <= ch <= 'Z'
    case Schema => ch == ':' || 'a' <= ch <= 'z' || 'A' <= ch <= 'Z'
    case SchemaSlash => ch == '/'
    case SchemaSlashSlash => ch == '/'
    case ServerStart => InAuthority(ch)
    case Server => InAuthority(ch)
    case ServerWithAt => InAuthority(ch) && ch != '@'
    case _ => Visible(ch)
  }

  predicate InAuthority(ch: byte) {
    || 'a' <= ch <= 'z' || 'A' <= ch <= 'Z' || '0' <= ch <= '9'
    || ch == '-' || ch == '_' || ch == '.' || ch == '!' || ch == '~' || ch == '*' || ch == '\'' || ch == '(' || ch == ')'
    || ch == '%' || ch == ';' || ch == ':' || ch == '&' || ch == '=' || ch == '+' || ch == '$' || ch == ','
    || ch == '/' || ch == '?' || ch == '@' || ch == '[' || ch == ']'
  }

  lemma UrlRefuses(u: UrlState, ch: byte)
    ensures ParseUrlChar(u, ch) != UrlState.Dead <==> UrlGoesOn(u, ch)
  {
  }

  // ---- Line ends and blank lines ----

  /** Where a line may end. */
  predicate EndsLine(s: State) {
    || s.ResStatusCode? || s.ResStatusStart? || s.ResStatus? || s.ReqMinor? || s.HeaderFieldStart?
        || s.HeaderValueDiscardWs? || s.HeaderValue?
    || (s.ReqUrl? && (s.url.Server? || s.url.ServerWithAt? || s.url.Path? || s.url.QueryStart? || s.url.Query?
        || s.url.FragmentStart? || s.url.Fragment?))
  }

  /** What a line end does, when it is no header line's. */
  lemma LineEndSteps(p: Parser)
    requires EndsLine(p.state) && !p.state.HeaderFieldStart? && !p.state.HeaderValue?
    ensures var a, b := Step(p, CR), Step(p, LF);
            && a.Go? && !a.again && a.kind.None? && a.note.None? && b.Go? && !b.again && b.kind.None? && b.note.None?
            && Step(a.next, LF) == Go(b.next, None, None, None, false)
  {
  }

  lemma HeaderEndSteps(p: Parser)
    requires p.state.HeaderFieldStart? || p.state.HeaderValue?
    ensures var a, b := Step(p, CR), Step(p, LF);
            && a.Go? && !a.again && a.kind.None? && a.note.None? && b.Go? && b.again && b.kind.None? && b.note.None?
            && a.next == b.next
  {
    HeadersStep(p, CR);
    HeadersStep(p, LF);
    hide Step;
  }

  /** A line feed alone ends a line as CR LF does. */
  lemma LineFeedAlone(p: Parser, log: seq<Event>)
    requires EndsLine(p.state)
    ensures Run(p, log, [CR, LF], 0) == Shift(Run(p, log, [LF], 0), 1)
  {
    hide Step;
    var a := Step(p, CR);
    assert [CR, LF] == [CR] + [LF];
    if p.state.HeaderFieldStart? || p.state.HeaderValue? {
      HeaderEndSteps(p);
      assert Run(p, log, [LF], 0) == Run(a.next, log, [LF], 0);
      OneByte(p, log, CR);
    } else {
      LineEndSteps(p);
      OneByte(p, log, CR);
      OneByte(a.next, log, LF);
      OneByte(p, log, LF);
    }
    RunAppend(p, log, [CR], [LF]);
  }

  predicate BlankLines(s: seq<byte>) {
    forall k :: 0 <= k < |s| ==> s[k] == CR || s[k] == LF
  }

  /** Blank lines in front of a request, or behind the last message, are skipped. */
  lemma {:induction false} BlankLinesSkipped(p: Parser, log: seq<Event>, s: seq<byte>)
    requires (p.state.StartReq? || p.state.StartReqOrRes? || p.state.SDead?) && BlankLines(s)
    ensures Run(p, log, s, 0) == Done(p, log)
    decreases |s|
  {
    if s != [] {
      assert s[0] == CR || s[0] == LF;
      assert Step(p, s[0]) == Go(p, None, None, None, false);
      hide Step, Run;
      assert forall k :: 0 <= k < |s| - 1 ==> s[1..][k] == s[k + 1];
      BlankLinesSkipped(p, log, s[1..]);
      OneByte(p, log, s[0]);
      assert s == [s[0]] + s[1..];
      RunAppend(p, log, [s[0]], s[1..]);
    } else {
      assert Run(p, log, s, 0) == Done(p, log);
    }
  }

  /** In front of a response, each of their characters begins a message once more. */
  lemma BegunAgain(p: Parser, log: seq<Event>, ch: byte)
    requires p.state.StartRes? && (ch == CR || ch == LF)
    ensures Run(p, log, [ch], 0) == Done(p.(flags := NO_FLAGS, length := 0xFFFF_FFFF_FFFF_FFFF), log + [MessageBegin])
  {
    OneByte(p, log, ch);
  }

  /** A target with the line end behind it is of HTTP/0.9. */
  lemma NoVersion(p: Parser, log: seq<Event>)
    requires p.state.ReqUrl? && UrlEnds(p.state.url)
    ensures Run(p, log, [CR, LF], 0) == Done(p.(major := 0, minor := 9, state := HeaderFieldStart), log)
  {
    BothRun(p, log, CR, LF);
  }

  /** Further spaces in a start line are skipped. */
  lemma {:induction false} SpacesSkipped(p: Parser, log: seq<Event>, s: seq<byte>)
    requires p.state == ReqUrl(SpacesBeforeUrl) || p.state.ReqHttpStart? || p.state.ResFirstStatusCode?
    requires forall k :: 0 <= k < |s| ==> s[k] == ' '
    ensures Run(p, log, s, 0) == Done(p, log)
    decreases |s|
  {
    if s != [] {
      assert s[0] == ' ';
      assert Step(p, ' ') == Go(p, None, None, None, false);
      hide Step, Run;
      assert forall k :: 0 <= k < |s| - 1 ==> s[1..][k] == s[k + 1];
      SpacesSkipped(p, log, s[1..]);
      OneByte(p, log, ' ');
      assert s == [' '] + s[1..];
      RunAppend(p, log, [' '], s[1..]);
    } else {
      assert Run(p, log, s, 0) == Done(p, log);
    }
  }

  // ---- Folded lines ----

  lemma FoldSteps(p: Parser, c: byte)
    requires p.state.HeaderValue? && IsBlank(c)
    ensures Step(p, CR) == Go(p.(state := HeaderAlmostDone), None, Some(ValueData), None, false)
    ensures Step(p.(state := HeaderAlmostDone), LF) == Go(p.(state := HeaderValueLws), None, None, None, false)
    ensures Step(p.(state := HeaderValueLws), c) == Go(p.(state := HeaderValueStart), None, None, None, true)
    ensures Step(p.(state := HeaderValueStart), c) == ValueStart(p.(state := HeaderValueStart), c)
  {
    hide Step, ValueStart;
    HeadersStep(p, CR);
    HeadersStep(p.(state := HeaderAlmostDone), LF);
    HeadersStep(p.(state := HeaderValueLws), c);
    HeadersStep(p.(state := HeaderValueStart), c);
  }

  /** A value goes on in the next line when that begins with a blank; the line end is not
      part of it. A length is refused then, and what a value was matched with so far, like
      chunked or close, is forgotten. */
  lemma FoldedLine(p: Parser, log: seq<Event>, c: byte)
    requires p.state.HeaderValue? && IsBlank(c)
    ensures p.hstate.HContentLength? ==> Refused(p, log, [CR, LF, c], InvalidContentLength)
    ensures p.hstate.HGeneral? || p.hstate.HChunked? || p.hstate.HKeepAlive? || p.hstate.HClose? || p.hstate.HConnUpgrade? ==>
              Run(p, log, [CR, LF, c], 0) == Done(p.(index := 0, hstate := HGeneral), Join(log, OnData(ValueData, [c])))
  {
    FoldSteps(p, c);
    var q := p.(state := HeaderValueLws);
    BothRun(p, log, CR, LF);
    assert [CR, LF, c] == [CR, LF] + [c];
    RunAppend(p, log, [CR, LF], [c]);
    hide Step;
    assert Run(q, log, [c], 0) == Run(p.(state := HeaderValueStart), log, [c], 0);
    if ValueStart(p.(state := HeaderValueStart), c).Go? { OneByte(p.(state := HeaderValueStart), log, c); }
  }

  lemma BothRun(p: Parser, log: seq<Event>, a: byte, b: byte)
    requires Step(p, a).Go? && !Step(p, a).again && Step(p, a).kind.None? && Step(p, a).note.None?
    requires var q := Step(p, a).next; Step(q, b).Go? && !Step(q, b).again && Step(q, b).kind.None? && Step(q, b).note.None?
    ensures Run(p, log, [a, b], 0) == Done(Step(Step(p, a).next, b).next, log)
  {
    hide Step;
    OneByte(p, log, a);
    OneByte(Step(p, a).next, log, b);
    assert [a, b] == [a] + [b];
    RunAppend(p, log, [a], [b]);
  }
}
