/** Runs of the HTTP parser over byte streams: they do not depend on how the
    stream is cut into pieces, and they keep the parser's asserts. */
module HttpRun {
  import opened Wrappers

  import opened HttpChars
  import opened HttpAutomaton

  // ---- Callback logs ----

  /** Log one more callback: empty data is dropped, adjacent data of one kind is joined. */
  function Join(log: seq<Event>, e: Event): seq<Event> {
    if e.OnData? && e.bytes == [] then log
    else if e.OnData? && log != [] && log[|log| - 1].OnData? && log[|log| - 1].kind == e.kind then
      log[..|log| - 1] + [OnData(e.kind, log[|log| - 1].bytes + e.bytes)]
    else log + [e]
  }

  /** The normal form of a callback log. */
  function Joined(log: seq<Event>): seq<Event> {
    if log == [] then [] else Join(Joined(log[..|log| - 1]), log[|log| - 1])
  }

  function JoinData(log: seq<Event>, kind: Option<Data>, bytes: seq<byte>): seq<Event> {
    match kind case None => log case Some(k) => Join(log, OnData(k, bytes))
  }

  function JoinNote(log: seq<Event>, note: Option<Event>): seq<Event> {
    match note case None => log case Some(e) => Join(log, e)
  }

  lemma JoinedAppend(log: seq<Event>, e: Event)
    ensures Joined(log + [e]) == Join(Joined(log), e)
  {
    assert (log + [e])[..|log|] == log;
  }

  lemma JoinTwice(log: seq<Event>, k: Data, a: seq<byte>, b: seq<byte>)
    ensures Join(Join(log, OnData(k, a)), OnData(k, b)) == Join(log, OnData(k, a + b))
  {
    if a == [] {
      assert a + b == b;
    } else if b == [] {
      assert a + b == a;
    } else if log != [] && log[|log| - 1].OnData? && log[|log| - 1].kind == k {
      var old_ := log[|log| - 1].bytes;
      assert (old_ + a) + b == old_ + (a + b);
    }
  }

  // ---- Runs ----

  /** How often a byte can still be executed again. */
  function Rank(s: State): nat {
    match s
    case HeaderValueLws => 3
    case HeaderValueDiscardLws => 3
    case HeaderFieldStart => 2
    case HeadersAlmostDone => 1
    case HeaderValue => 1
    case BodyIdentity => 1
    case StartReqOrRes => 1
    case _ => 0
  }

  lemma AgainDecreases(p: Parser, ch: byte)
    ensures var a := Step(p, ch); a.Go? && a.again ==> Rank(a.next.state) < Rank(p.state)
  {
  }

  /** The result of parsing: where the parser stands and what it has called back, or
      the error and the byte it was found at, or the end of HTTP after an upgrade. */
  datatype Outcome =
    | Done(next: Parser, log: seq<Event>)
    | Failed(errno: Errno, at: nat)
    | Switched(next: Parser, log: seq<Event>, at: nat)

  /** Parse data[i..], with log called back so far. */
  function Run(p: Parser, log: seq<Event>, data: seq<byte>, i: nat): Outcome
    requires i <= |data|
    decreases |data| - i, Rank(p.state)
  {
    if i == |data| then Done(p, log)
    else
      AgainDecreases(p, data[i]);
      match Step(p, data[i])
      case Fail(e) => Failed(e, i)
      case Upgraded(q, e) => Switched(q, Join(log, e), i + 1)
      case Go(q, kind, _, note, again) =>
        Run(q, JoinNote(JoinData(log, kind, [data[i]]), note), data, if again then i else i + 1)
  }

  function Shift(o: Outcome, n: nat): Outcome {
    match o
    case Done(_, _) => o
    case Failed(e, at) => Failed(e, n + at)
    case Switched(q, log, at) => Switched(q, log, n + at)
  }

  /** A run over a + b is a run over a, continued over b. */
  lemma {:induction false} RunSplit(p: Parser, log: seq<Event>, a: seq<byte>, b: seq<byte>, i: nat)
    requires i <= |a|
    ensures Run(p, log, a + b, i) ==
            match Run(p, log, a, i)
            case Done(q, l) => Run(q, l, a + b, |a|)
            case Failed(_, _) => Run(p, log, a, i)
            case Switched(_, _, _) => Run(p, log, a, i)
    decreases |a| - i, Rank(p.state)
  {
    hide Step;
    if i < |a| {
      assert (a + b)[i] == a[i];
      AgainDecreases(p, a[i]);
      match Step(p, a[i])
      case Fail(e) =>
      case Upgraded(q, e) =>
      case Go(q, kind, f, note, again) =>
        RunSplit(q, JoinNote(JoinData(log, kind, [a[i]]), note), a, b, if again then i else i + 1);
    }
  }

  /** Runs do not look back. */
  lemma {:induction false} RunDrop(p: Parser, log: seq<Event>, a: seq<byte>, b: seq<byte>, i: nat)
    requires i <= |b|
    ensures Run(p, log, a + b, |a| + i) == Shift(Run(p, log, b, i), |a|)
    decreases |b| - i, Rank(p.state)
  {
    hide Step, Join;
    if i < |b| {
      assert (a + b)[|a| + i] == b[i];
      AgainDecreases(p, b[i]);
      match Step(p, b[i])
      case Fail(e) =>
      case Upgraded(q, e) =>
      case Go(q, kind, f, note, again) =>
        RunDrop(q, JoinNote(JoinData(log, kind, [b[i]]), note), a, b, if again then i else i + 1);
    }
  }

  function Concat(pieces: seq<seq<byte>>): seq<byte> {
    if pieces == [] then [] else pieces[0] + Concat(pieces[1..])
  }

  /** Feed the pieces one after the other. */
  function RunPieces(p: Parser, log: seq<Event>, pieces: seq<seq<byte>>): Outcome
    decreases |pieces|
  {
    if pieces == [] then Done(p, log)
    else match Run(p, log, pieces[0], 0)
      case Done(q, l) => Shift(RunPieces(q, l, pieces[1..]), |pieces[0]|)
      case Failed(e, at) => Failed(e, at)
      case Switched(q, l, at) => Switched(q, l, at)
  }

  /** However a stream is cut into pieces, the outcome is that of the whole stream. */
  lemma {:induction false} SegmentationIndependence(p: Parser, log: seq<Event>, pieces: seq<seq<byte>>)
    ensures RunPieces(p, log, pieces) == Run(p, log, Concat(pieces), 0)
    decreases |pieces|
  {
    if pieces != [] {
      var rest := Concat(pieces[1..]);
      RunSplit(p, log, pieces[0], rest, 0);
      var o := Run(p, log, pieces[0], 0);
      if o.Done? {
        RunDrop(o.next, o.log, pieces[0], rest, 0);
        SegmentationIndependence(o.next, o.log, pieces[1..]);
      }
    }
  }

  // ---- Putting runs together ----

  lemma RunAppend(p: Parser, log: seq<Event>, a: seq<byte>, b: seq<byte>)
    requires Run(p, log, a, 0).Done?
    ensures var o := Run(p, log, a, 0); Run(p, log, a + b, 0) == Shift(Run(o.next, o.log, b, 0), |a|)
  {
    var o := Run(p, log, a, 0);
    RunSplit(p, log, a, b, 0);
    RunDrop(o.next, o.log, a, b, 0);
  }

  lemma OneByte(p: Parser, log: seq<Event>, ch: byte)
    requires Step(p, ch).Go? && !Step(p, ch).again
    ensures var a := Step(p, ch);
            Run(p, log, [ch], 0) == Done(a.next, JoinNote(JoinData(log, a.kind, [ch]), a.note))
  {
    hide Step;
    var a := Step(p, ch);
    assert Run(p, log, [ch], 0) == Run(a.next, JoinNote(JoinData(log, a.kind, [ch]), a.note), [ch], 1);
  }

  lemma BadByte(p: Parser, log: seq<Event>, ch: byte)
    requires Step(p, ch).Fail?
    ensures Run(p, log, [ch], 0) == Failed(Step(p, ch).errno, 0)
  {
    hide Step;
  }

  lemma FailAppend(p: Parser, log: seq<Event>, a: seq<byte>, b: seq<byte>)
    requires Run(p, log, a, 0).Failed?
    ensures Run(p, log, a + b, 0) == Run(p, log, a, 0)
  {
    RunSplit(p, log, a, b, 0);
  }

  lemma EmptyJoined(log: seq<Event>)
    ensures Join(log, OnData(BodyData, [])) == log
  {
  }

  // ---- The parser's asserts ----

  predicate NameState(h: HeaderState) {
    h.HGeneral? || h.HC? || h.HCO? || h.HCON? || h.HMatchingConnection? || h.HMatchingProxyConnection?
    || h.HMatchingContentLength? || h.HMatchingTransferEncoding? || h.HMatchingUpgrade? || h.HConnection?
    || h.HContentLength? || h.HTransferEncoding? || h.HUpgrade?
  }

  /** The method name matched so far lies inside its string, whose end may be read. */
  predicate VerbOk(p: Parser) {
    p.verb < |METHODS| && p.index <= |METHODS[p.verb]|
  }

  predicate InSize(s: State) {
    s.ChunkSize? || s.ChunkParameters? || s.ChunkSizeAlmostDone?
  }

  predicate InChunks(s: State) {
    InSize(s) || s.ChunkSizeStart? || s.ChunkData? || s.ChunkDataAlmostDone? || s.ChunkDataDone?
  }

  /** How far a matcher can have come; index has 8 bits, which it never exceeds. */
  function MaxIndex(h: HeaderState): nat {
    match h
    case HC => 0
    case HCO => 1
    case HCON => 2
    case HMatchingConnection => 9
    case HMatchingProxyConnection => 15
    case HMatchingContentLength => 13
    case HMatchingTransferEncoding => 16
    case HMatchingUpgrade => 6
    case HMatchingChunked => 6
    case HMatchingTokenStart => 0
    case HMatchingKeepAlive => 9
    case HMatchingClose => 4
    case HMatchingConnUpgrade => 6
    case _ => 17
  }

  /** What the parser asserts, and that its numbers fit their fields. */
  ghost predicate Inv(p: Parser) {
    && p.index <= 17
    && (p.state.HeaderField? || p.state.HeaderValue? ==> p.index <= MaxIndex(p.hstate))
    && p.length <= ULLONG_MAX && p.major <= 999 && p.minor <= 999 && p.status <= 999
    && (p.state.ReqMethod? ==> VerbOk(p))
    && (p.state.HeaderField? ==> NameState(p.hstate))
    && (p.state.HeaderValue? ==> !p.hstate.HConnection? && !p.hstate.HTransferEncoding?)
    && (InChunks(p.state) ==> p.flags.chunked)
    && (InSize(p.state) ==> p.length != ULLONG_MAX)
    && (p.state.BodyIdentity? || p.state.ChunkData? ==> p.length != 0 && p.length != ULLONG_MAX)
    && (p.state.ChunkDataAlmostDone? ==> p.length == 0)
  }

  lemma VerbStep(p: Parser, ch: byte)
    requires p.state.StartReq? || (p.state.ReqMethod? && VerbOk(p))
    ensures var a := RequestLine(p, ch); a.Go? && a.next.state.ReqMethod? ==> VerbOk(a.next)
  {
    hide FirstGuess, SwitchVerb;
    FirstGuessOk(ch);
    SwitchOk(p.verb, p.index, ch);
  }

  lemma VerbLength(p: Parser)
    requires VerbOk(p)
    ensures p.index <= 11
  {
  }

  lemma FirstGuessOk(ch: byte)
    ensures FirstGuess(ch).Some? ==> FirstGuess(ch).value < |METHODS| && 1 <= |METHODS[FirstGuess(ch).value]|
  {
  }

  lemma SwitchOk(m: nat, i: nat, ch: byte)
    ensures var v := SwitchVerb(m, i, ch); v.Some? ==> v.value < |METHODS| && i + 1 <= |METHODS[v.value]|
  {
  }

  ghost predicate Keeps(a: Action) {
    a.Go? || a.Upgraded? ==> Inv(a.next)
  }

  predicate InVersion(s: State) {
    s.ResFirstMajor? || s.ResMajor? || s.ResFirstMinor? || s.ResMinor? || s.ResFirstStatusCode? || s.ResStatusCode?
  }

  lemma StatusVersionKeeps(p: Parser, ch: byte)
    requires Inv(p) && InVersion(p.state)
    ensures Keeps(StatusLine(p, ch))
  {
    hide VerbOk, Version;
    VersionOk(p.major, ch);
    VersionOk(p.minor, ch);
    VersionOk(p.status, ch);
  }

  lemma StatusTextKeeps(p: Parser, ch: byte)
    requires Inv(p) && !InVersion(p.state)
    ensures Keeps(StatusLine(p, ch))
  {
    hide VerbOk;
  }

  lemma StatusLineKeeps(p: Parser, ch: byte)
    requires Inv(p)
    ensures Keeps(StatusLine(p, ch))
  {
    hide Inv, StatusLine;
    if InVersion(p.state) { StatusVersionKeeps(p, ch); } else { StatusTextKeeps(p, ch); }
  }

  lemma RequestLineKeeps(p: Parser, ch: byte)
    requires Inv(p)
    ensures Keeps(RequestLine(p, ch))
  {
    hide Inv, RequestLine;
    if p.state.StartReq? || p.state.ReqMethod? {
      StartReqKeeps(p, ch);
    } else if p.state.ReqUrl? {
      UrlKeeps(p, ch);
    } else if p.state.ReqMajor? || p.state.ReqMinor? || p.state.ReqFirstMajor? || p.state.ReqFirstMinor? {
      VersionKeeps(p, ch);
    } else {
      LiteralKeeps(p, ch);
    }
  }

  lemma VersionKeeps(p: Parser, ch: byte)
    requires Inv(p) && (p.state.ReqMajor? || p.state.ReqMinor? || p.state.ReqFirstMajor? || p.state.ReqFirstMinor?)
    ensures Keeps(RequestLine(p, ch))
  {
    hide VerbOk, Version;
    VersionOk(p.major, ch);
    VersionOk(p.minor, ch);
  }

  lemma LiteralKeeps(p: Parser, ch: byte)
    requires Inv(p) && !p.state.ReqMajor? && !p.state.ReqMinor? && !p.state.ReqFirstMajor? && !p.state.ReqFirstMinor?
    requires !p.state.StartReq? && !p.state.ReqMethod? && !p.state.ReqUrl?
    ensures Keeps(RequestLine(p, ch))
  {
    hide VerbOk;
  }

  lemma StartReqKeeps(p: Parser, ch: byte)
    requires Inv(p) && (p.state.StartReq? || p.state.ReqMethod?)
    ensures Keeps(RequestLine(p, ch))
  {
    hide VerbOk, FirstGuess, SwitchVerb, MethodChar;
    VerbStep(p, ch);
    var a := RequestLine(p, ch);
    if p.state.ReqMethod? { VerbLength(p); }
    if a.Go? && a.next.state.ReqMethod? { VerbLength(a.next); }
  }

  lemma UrlKeeps(p: Parser, ch: byte)
    requires Inv(p) && p.state.ReqUrl?
    ensures Keeps(RequestLine(p, ch))
  {
    hide VerbOk, ParseUrlChar;
  }

  lemma VersionOk(v: nat, ch: byte)
    ensures Version(v, ch).Some? ==> Version(v, ch).value <= 999
  {
  }

  lemma ValueStartKeeps(p: Parser, ch: byte)
    requires Inv(p)
    ensures Keeps(ValueStart(p, ch))
  {
    hide VerbOk;
  }

  /** A match that goes on is not yet at the last character of its word. */
  lemma MatchedOk(p: Parser, word: string, c: byte, failed: HeaderState, done: HeaderState)
    requires p.index < |word| && c != '\0'
    ensures var q := Matched(p, word, c, failed, done);
            && q == p.(index := p.index + 1, hstate := q.hstate)
            && (q.hstate == failed || q.hstate == done || (q.hstate == p.hstate && q.index + 1 < |word|))
  {
  }

  lemma LowerNotNul(ch: byte)
    ensures Lower(ch) != '\0'
  {
  }

  /** What the asserts say within a header value. */
  lemma InvValue(p: Parser, q: Parser)
    requires Inv(p) && p.state.HeaderValue?
    requires q == p.(index := q.index, hstate := q.hstate, length := q.length, flags := q.flags)
    ensures p.index <= MaxIndex(p.hstate) && p.length <= ULLONG_MAX
    ensures q.index <= MaxIndex(q.hstate) && q.length <= ULLONG_MAX && !q.hstate.HConnection? && !q.hstate.HTransferEncoding? ==> Inv(q)
  {
  }

  /** The words that a value is matched against. */
  predicate Matching(h: HeaderState) {
    h.HMatchingChunked? || h.HMatchingKeepAlive? || h.HMatchingClose? || h.HMatchingConnUpgrade?
  }

  lemma MatchingOk(p: Parser, word: string, c: byte, failed: HeaderState, done: HeaderState)
    requires Inv(p) && p.state.HeaderValue? && p.index < |word| == MaxIndex(p.hstate) + 1 <= 17 && c != '\0'
    requires MaxIndex(failed) == MaxIndex(done) == 17 && !failed.HConnection? && !failed.HTransferEncoding?
    requires !done.HConnection? && !done.HTransferEncoding? && !p.hstate.HConnection? && !p.hstate.HTransferEncoding?
    ensures var q := Matched(p, word, c, failed, done); Inv(q) && q.state.HeaderValue?
  {
    MatchedOk(p, word, c, failed, done);
    var q := Matched(p, word, c, failed, done);
    InvValue(p, q);
    hide Inv, Matched;
    assert q.index <= MaxIndex(q.hstate);
  }

  lemma MatchingKeeps(p: Parser, ch: byte)
    requires Inv(p) && p.state.HeaderValue? && Matching(p.hstate)
    ensures var q := ValueChar(p, ch); q.Some? ==> Inv(q.value) && q.value.state.HeaderValue?
  {
    LowerNotNul(ch);
    InvValue(p, p);
    hide Inv, Matched, Lower;
    var c := Lower(ch);
    if p.hstate.HMatchingChunked? {
      assert ValueChar(p, ch) == Some(Matched(p, CHUNKED, c, HGeneral, HChunked));
      MatchingOk(p, CHUNKED, c, HGeneral, HChunked);
    } else if p.hstate.HMatchingKeepAlive? {
      assert ValueChar(p, ch) == Some(Matched(p, KEEP_ALIVE, c, HMatchingToken, HKeepAlive));
      MatchingOk(p, KEEP_ALIVE, c, HMatchingToken, HKeepAlive);
    } else if p.hstate.HMatchingClose? {
      assert ValueChar(p, ch) == Some(Matched(p, CLOSE, c, HMatchingToken, HClose));
      MatchingOk(p, CLOSE, c, HMatchingToken, HClose);
    } else {
      assert ValueChar(p, ch) == Some(Matched(p, UPGRADE, c, HMatchingToken, HConnUpgrade));
      MatchingOk(p, UPGRADE, c, HMatchingToken, HConnUpgrade);
    }
  }

  lemma ValueCharKeeps(p: Parser, ch: byte)
    requires Inv(p) && p.state.HeaderValue?
    ensures var q := ValueChar(p, ch); q.Some? ==> Inv(q.value) && q.value.state.HeaderValue?
  {
    if Matching(p.hstate) {
      MatchingKeeps(p, ch);
    } else if ValueChar(p, ch).Some? {
      var q := ValueChar(p, ch).value;
      InvValue(p, p);
      hide Inv, Token, Lower, Matched;
      assert q == p.(index := q.index, hstate := q.hstate, length := q.length, flags := q.flags);
      InvValue(p, q);
    }
  }

  lemma NameCharKeeps(p: Parser, ch: byte, c: byte)
    requires Inv(p) && p.state.HeaderField? && c != '\0'
    ensures var q := NameChar(p, ch, c); Inv(q) && q.state.HeaderField?
  {
    hide VerbOk;
  }

  predicate InHeader(s: State) {
    s.HeaderField? || s.HeaderValue? || s.HeaderValueDiscardWs? || s.HeaderValueStart? || s.HeaderFieldStart?
  }

  lemma HeaderKeeps(p: Parser, ch: byte)
    requires Inv(p) && InHeader(p.state)
    ensures Keeps(Headers(p, ch))
  {
    hide ValueStart, ValueChar, NameChar, VerbOk, Token;
    if p.state.HeaderField? && Token(ch) != '\0' { NameCharKeeps(p, ch, Token(ch)); }
    ValueStartKeeps(p, ch);
    if p.state.HeaderValue? { ValueCharKeeps(p, ch); }
  }

  lemma HeaderEndKeeps(p: Parser, ch: byte)
    requires Inv(p) && !InHeader(p.state)
    ensures Keeps(Headers(p, ch))
  {
    hide VerbOk, HeaderFlags, KeepAlive, NeedsEof;
  }

  lemma HeadersKeeps(p: Parser, ch: byte)
    requires Inv(p)
    ensures Keeps(Headers(p, ch))
  {
    hide Inv, Headers;
    if InHeader(p.state) { HeaderKeeps(p, ch); } else { HeaderEndKeeps(p, ch); }
  }

  lemma BodyKeeps(p: Parser, ch: byte)
    requires Inv(p)
    ensures Keeps(Body(p, ch))
  {
    hide VerbOk, KeepAlive;
    if InSize(p.state) || p.state.ChunkSizeStart? { SizeKeeps(p, ch); }
    hide Unhex;
  }

  lemma SizeKeeps(p: Parser, ch: byte)
    requires Inv(p) && (InSize(p.state) || p.state.ChunkSizeStart?)
    ensures Keeps(Body(p, ch))
  {
    hide VerbOk, KeepAlive;
  }

  lemma HeadOk(p: Parser)
    ensures VerbOk(p.(verb := HTTP_HEAD, index := 2)) && VerbOk(p.(kind := Request, verb := HTTP_HEAD, index := 2, state := ReqMethod))
  {
  }

  lemma StartKeeps(p: Parser, ch: byte)
    requires Inv(p)
    ensures Keeps(Start(p, ch))
  {
    HeadOk(p);
    hide VerbOk;
  }

  lemma InvStep(p: Parser, ch: byte)
    requires Inv(p)
    ensures Keeps(Step(p, ch))
  {
    hide Inv, StatusLine, RequestLine, Headers, Body, Start;
    StatusLineKeeps(p, ch);
    RequestLineKeeps(p, ch);
    HeadersKeeps(p, ch);
    BodyKeeps(p, ch);
    StartKeeps(p, ch);
  }

  /** Every reachable state keeps the asserts. */
  lemma {:induction false} InvRun(p: Parser, log: seq<Event>, data: seq<byte>, i: nat)
    requires i <= |data| && Inv(p)
    ensures var o := Run(p, log, data, i); (o.Done? || o.Switched?) ==> Inv(o.next)
    decreases |data| - i, Rank(p.state)
  {
    hide Step, Inv;
    if i < |data| {
      AgainDecreases(p, data[i]);
      InvStep(p, data[i]);
      match Step(p, data[i])
      case Fail(e) =>
      case Upgraded(q, e) =>
      case Go(q, kind, f, note, again) =>
        InvRun(q, JoinNote(JoinData(log, kind, [data[i]]), note), data, if again then i else i + 1);
    }
  }
}
