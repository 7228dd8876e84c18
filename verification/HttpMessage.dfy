/** Whole messages (section 4 of RFC 2616): a printed start line, header lines and body are
    read as what they say. */
module HttpMessage {
  import opened Wrappers

  import opened HttpChars
  import opened HttpAutomaton
  import opened HttpRun
  import opened HttpText
  import opened HttpChunks
  import opened HttpHeader

  // ---- Numbers ----

  /** A run of digits. */
  predicate AllDigits(s: seq<byte>) {
    s != [] && forall k :: 0 <= k < |s| ==> IsDigit(s[k])
  }

  /** The numbers of a start line. */
  datatype Number = ResMajorNumber | ResMinorNumber | StatusNumber | ReqMajorNumber | ReqMinorNumber

  function FirstState(k: Number): State {
    match k
    case ResMajorNumber => ResFirstMajor
    case ResMinorNumber => ResFirstMinor
    case StatusNumber => ResFirstStatusCode
    case ReqMajorNumber => ReqFirstMajor
    case ReqMinorNumber => ReqFirstMinor
  }

  function MoreState(k: Number): State {
    match k
    case ResMajorNumber => ResMajor
    case ResMinorNumber => ResMinor
    case StatusNumber => ResStatusCode
    case ReqMajorNumber => ReqMajor
    case ReqMinorNumber => ReqMinor
  }

  function Get(p: Parser, k: Number): nat {
    if k.StatusNumber? then p.status else if k.ResMajorNumber? || k.ReqMajorNumber? then p.major else p.minor
  }

  function Put(p: Parser, k: Number, n: nat): Parser {
    if k.StatusNumber? then p.(status := n) else if k.ResMajorNumber? || k.ReqMajorNumber? then p.(major := n) else p.(minor := n)
  }

  predicate InStatusLine(s: State) {
    || s.StartRes? || s.ResH? || s.ResHT? || s.ResHTT? || s.ResHTTP? || s.ResFirstMajor? || s.ResMajor? || s.ResFirstMinor?
    || s.ResMinor? || s.ResFirstStatusCode? || s.ResStatusCode? || s.ResStatusStart? || s.ResStatus? || s.ResLineAlmostDone?
  }

  predicate InRequestLine(s: State) {
    || s.StartReq? || s.ReqMethod? || s.ReqUrl? || s.ReqHttpStart? || s.ReqHttpH? || s.ReqHttpHT? || s.ReqHttpHTT?
    || s.ReqHttpHTTP? || s.ReqFirstMajor? || s.ReqMajor? || s.ReqFirstMinor? || s.ReqMinor? || s.ReqLineAlmostDone?
  }

  lemma StartLineStep(p: Parser, ch: byte)
    ensures InStatusLine(p.state) ==> Step(p, ch) == StatusLine(p, ch)
    ensures InRequestLine(p.state) ==> Step(p, ch) == RequestLine(p, ch)
    ensures p.state.StartReqOrRes? || p.state.ResOrRespH? ==> Step(p, ch) == Start(p, ch)
  {
    hide StatusLine, RequestLine, Headers, Body, Start;
  }

  lemma NumberStep(p: Parser, k: Number, ch: byte)
    requires IsDigit(ch)
    ensures p.state == FirstState(k) && (k.ReqMajorNumber? ==> ch != '0') ==>
              Step(p, ch) == Go(Put(p, k, ch as int - 48).(state := MoreState(k)), None, None, None, false)
    ensures p.state == MoreState(k) && 10 * Get(p, k) + (ch as int - 48) <= 999 ==>
              Step(p, ch) == Go(Put(p, k, 10 * Get(p, k) + (ch as int - 48)), None, None, None, false)
  {
    hide Step;
    StartLineStep(p, ch);
  }

  lemma GetPut(p: Parser, k: Number, n: nat, m: nat, s: State)
    ensures Get(Put(p, k, n).(state := s), k) == n && Put(Put(p, k, n).(state := s), k, m) == Put(p, k, m).(state := s)
    ensures Put(p, k, n).(state := s).state == s
  {
  }

  lemma {:induction false} NumberRun(p: Parser, log: seq<Event>, k: Number, s: seq<byte>)
    requires p.state == FirstState(k) && AllDigits(s) && NumberOf(s) <= 999 && (k.ReqMajorNumber? ==> s[0] != '0')
    ensures Run(p, log, s, 0) == Done(Put(p, k, NumberOf(s)).(state := MoreState(k)), log)
    decreases |s|
  {
    hide Step, Run, FirstState, MoreState, Put, Get;
    var n := |s| - 1;
    var a, ch := s[..n], s[n];
    assert s == a + [ch] && IsDigit(ch);
    NumberStep(p, k, ch);
    if n == 0 {
      assert s == [ch];
      OneDigit(ch);
      OneByte(p, log, ch);
    } else {
      assert s[0] == a[0] && NumberOf(s) == 10 * NumberOf(a) + (ch as int - 48);
      NumberRun(p, log, k, a);
      var q := Put(p, k, NumberOf(a)).(state := MoreState(k));
      GetPut(p, k, NumberOf(a), NumberOf(s), MoreState(k));
      NumberStep(q, k, ch);
      OneByte(q, log, ch);
      RunAppend(p, log, a, [ch]);
    }
  }

  // ---- The protocol name ----

  const HTTP_TEXT: seq<byte> := ['H', 'T', 'T', 'P', '/']

  /** The characters of a start line that stand where they must. */
  predicate Letter(s: State, ch: byte, t: State) {
    match s
    case ResH => ch == 'T' && t == ResHT
    case ResHT => ch == 'T' && t == ResHTT
    case ResHTT => ch == 'P' && t == ResHTTP
    case ResHTTP => ch == '/' && t == ResFirstMajor
    case ResMajor => ch == '.' && t == ResFirstMinor
    case ResMinor => ch == ' ' && t == ResFirstStatusCode
    case ResStatusCode => (ch == ' ' && t == ResStatusStart) || (ch == CR && t == ResLineAlmostDone)
    case ResStatusStart => ch == CR && t == ResLineAlmostDone
    case ResLineAlmostDone => ch == LF && t == HeaderFieldStart
    case ReqHttpStart => ch == 'H' && t == ReqHttpH
    case ReqHttpH => ch == 'T' && t == ReqHttpHT
    case ReqHttpHT => ch == 'T' && t == ReqHttpHTT
    case ReqHttpHTT => ch == 'P' && t == ReqHttpHTTP
    case ReqHttpHTTP => ch == '/' && t == ReqFirstMajor
    case ReqMajor => ch == '.' && t == ReqFirstMinor
    case ReqMinor => ch == CR && t == ReqLineAlmostDone
    case ReqLineAlmostDone => ch == LF && t == HeaderFieldStart
    case _ => false
  }

  lemma LetterStep(p: Parser, ch: byte, s: State)
    requires Letter(p.state, ch, s)
    ensures Step(p, ch) == Go(p.(state := s), None, None, None, false)
  {
    hide Step;
    if InStatusLine(p.state) { StatusLetter(p, ch, s); } else { AskLetter(p, ch, s); }
  }

  lemma StatusLetter(p: Parser, ch: byte, s: State)
    requires InStatusLine(p.state) && Letter(p.state, ch, s)
    ensures Step(p, ch) == Go(p.(state := s), None, None, None, false)
  {
    hide Step, RequestLine, Start;
    StartLineStep(p, ch);
  }

  lemma AskLetter(p: Parser, ch: byte, s: State)
    requires !InStatusLine(p.state) && Letter(p.state, ch, s)
    ensures Step(p, ch) == Go(p.(state := s), None, None, None, false)
  {
    hide Step, StatusLine, Start;
    StartLineStep(p, ch);
  }

  lemma LetterRun(p: Parser, log: seq<Event>, ch: byte, s: State)
    requires Step(p, ch).Go? && Step(p, ch).next == p.(state := s) && Step(p, ch).kind.None? && Step(p, ch).note.None? && !Step(p, ch).again
    ensures Run(p, log, [ch], 0) == Done(p.(state := s), log)
  {
    hide Step;
    OneByte(p, log, ch);
  }

  /** Two characters that are not called back. */
  lemma TwoRun(p: Parser, log: seq<Event>, a: byte, s: State, b: byte, t: State)
    requires Step(p, a) == Go(p.(state := s), None, None, None, false)
    requires Step(p.(state := s), b) == Go(p.(state := t), None, None, None, false)
    ensures Run(p, log, [a, b], 0) == Done(p.(state := t), log)
  {
    hide Step, Run;
    LetterRun(p, log, a, s);
    assert p.(state := s).(state := t) == p.(state := t);
    LetterRun(p.(state := s), log, b, t);
    assert [a, b] == [a] + [b];
    RunAppend(p, log, [a], [b]);
  }

  /** "TP/" */
  lemma RestOfName(p: Parser, log: seq<Event>)
    requires p.state.ResHT? || p.state.ReqHttpHT?
    ensures Run(p, log, ['T', 'P', '/'], 0) == Done(p.(state := if p.state.ResHT? then ResFirstMajor else ReqFirstMajor), log)
  {
    hide Step, Run;
    var a := if p.state.ResHT? then ResHTT else ReqHttpHTT;
    var b := if p.state.ResHT? then ResHTTP else ReqHttpHTTP;
    var c := if p.state.ResHT? then ResFirstMajor else ReqFirstMajor;
    LetterStep(p, 'T', a);
    LetterStep(p.(state := a), 'P', b);
    TwoRun(p, log, 'T', a, 'P', b);
    LetterStep(p.(state := b), '/', c);
    LetterRun(p.(state := b), log, '/', c);
    assert ['T', 'P', '/'] == ['T', 'P'] + ['/'];
    RunAppend(p, log, ['T', 'P'], ['/']);
  }

  /** A version: two numbers with a dot. */
  function PrintVersion(major: seq<byte>, minor: seq<byte>): seq<byte> {
    major + (['.'] + minor)
  }

  predicate VersionOk(major: seq<byte>, minor: seq<byte>) {
    AllDigits(major) && AllDigits(minor) && NumberOf(major) <= 999 && NumberOf(minor) <= 999
  }

  lemma VersionRun(p: Parser, log: seq<Event>, major: seq<byte>, minor: seq<byte>)
    requires p.state.ResFirstMajor? || p.state.ReqFirstMajor?
    requires VersionOk(major, minor) && (p.state.ReqFirstMajor? ==> major[0] != '0')
    ensures Run(p, log, PrintVersion(major, minor), 0) ==
            Done(p.(major := NumberOf(major), minor := NumberOf(minor),
                state := if p.state.ResFirstMajor? then ResMinor else ReqMinor), log)
  {
    hide Step, Run;
    var res := p.state.ResFirstMajor?;
    var k, l := if res then ResMajorNumber else ReqMajorNumber, if res then ResMinorNumber else ReqMinorNumber;
    NumberRun(p, log, k, major);
    var q := p.(major := NumberOf(major), state := MoreState(k));
    LetterStep(q, '.', FirstState(l));
    LetterRun(q, log, '.', FirstState(l));
    NumberRun(q.(state := FirstState(l)), log, l, minor);
    RunAppend(q, log, ['.'], minor);
    RunAppend(p, log, major, ['.'] + minor);
  }

  // ---- Status lines ----

  /** What the first byte of a message resets. */
  function Fresh(p: Parser): Parser {
    p.(flags := Flags(false, false, false, false, false, false), length := 0xFFFF_FFFF_FFFF_FFFF)
  }

  /** The first two letters of a response, for a parser of responses and for one of both. */
  lemma ResponseStart(p: Parser, log: seq<Event>)
    requires p.state.StartRes? || p.state.StartReqOrRes?
    ensures Run(p, log, ['H', 'T'], 0) ==
            Done(Fresh(p).(kind := if p.state.StartRes? then p.kind else Response, state := ResHT), Join(log, MessageBegin))
  {
    hide Run, Join;
    var s := if p.state.StartRes? then ResH else ResOrRespH;
    var q := Fresh(p).(state := s);
    StartLineStep(p, 'H');
    StartLineStep(q, 'T');
    assert Step(p, 'H') == Go(q, None, None, Some(MessageBegin), false);
    var r := Fresh(p).(kind := if p.state.StartRes? then p.kind else Response, state := ResHT);
    assert Step(q, 'T') == Go(r, None, None, None, false);
    hide Step;
    OneByte(p, log, 'H');
    OneByte(q, Join(log, MessageBegin), 'T');
    assert ['H', 'T'] == ['H'] + ['T'];
    RunAppend(p, log, ['H'], ['T']);
  }

  lemma ReasonStep(p: Parser, ch: byte)
    requires ch != CR && ch != LF
    ensures p.state.ResStatusStart? ==> Step(p, ch) == Go(p.(state := ResStatus, index := 0), Some(StatusData), None, None, false)
    ensures p.state.ResStatus? ==> Step(p, ch) == Go(p, Some(StatusData), None, None, false)
  {
    hide Step;
    StartLineStep(p, ch);
  }

  lemma {:induction false} ReasonRun(p: Parser, log: seq<Event>, s: seq<byte>)
    requires p.state.ResStatusStart? && CR !in s && LF !in s
    ensures Run(p, log, s, 0) == Done(if s == [] then p else p.(state := ResStatus, index := 0), Join(log, OnData(StatusData, s)))
    decreases |s|
  {
    hide Step, Join;
    if s == [] {
      NothingJoined(log, StatusData);
    } else {
      hide Run;
      var n := |s| - 1;
      var a, ch := s[..n], s[n];
      assert s == a + [ch] && ch in s;
      forall c | c in a ensures c in s { }
      ReasonRun(p, log, a);
      var q := if a == [] then p else p.(state := ResStatus, index := 0);
      ReasonStep(q, ch);
      OneByte(q, Join(log, OnData(StatusData, a)), ch);
      RunAppend(p, log, a, [ch]);
      JoinTwice(log, StatusData, a, [ch]);
    }
  }

  lemma ReasonEndStep(p: Parser)
    requires p.state.ResStatus?
    ensures Step(p, CR) == Go(p.(state := ResLineAlmostDone), None, Some(StatusData), None, false)
  {
    hide Step;
    StartLineStep(p, CR);
  }

  /** The end of a status line: a space and a reason, or nothing, and the line end. */
  function PrintReason(reason: Option<seq<byte>>): seq<byte> {
    (match reason case None => [] case Some(s) => [' '] + s) + CRLF
  }

  function Reason(reason: Option<seq<byte>>): seq<byte> {
    match reason case None => [] case Some(s) => s
  }

  lemma LineDoneRun(p: Parser, log: seq<Event>)
    requires p.state.ResStatusCode? || p.state.ResStatusStart? || p.state.ResStatus?
    ensures Run(p, log, CRLF, 0) == Done(p.(state := HeaderFieldStart), log)
  {
    hide Step, Run;
    var q := p.(state := ResLineAlmostDone);
    if p.state.ResStatus? { ReasonEndStep(p); } else { LetterStep(p, CR, ResLineAlmostDone); }
    OneByte(p, log, CR);
    LetterStep(q, LF, HeaderFieldStart);
    OneByte(q, log, LF);
    assert CRLF == [CR] + [LF];
    RunAppend(p, log, [CR], [LF]);
  }

  lemma ReasonLineRun(p: Parser, log: seq<Event>, reason: Option<seq<byte>>)
    requires p.state.ResStatusCode? && CR !in Reason(reason) && LF !in Reason(reason)
    ensures var o := Run(p, log, PrintReason(reason), 0);
            && o.Done? && o.log == Join(log, OnData(StatusData, Reason(reason))) && o.next.state.HeaderFieldStart? && Moved(p, o.next)
  {
    hide Step, Run, Join;
    match reason
    case None =>
      NothingJoined(log, StatusData);
      LineDoneRun(p, log);
      assert PrintReason(None) == CRLF;
    case Some(s) =>
      var q := p.(state := ResStatusStart);
      LetterStep(p, ' ', ResStatusStart);
      LetterRun(p, log, ' ', ResStatusStart);
      ReasonRun(q, log, s);
      var r, l := if s == [] then q else q.(state := ResStatus, index := 0), Join(log, OnData(StatusData, s));
      LineDoneRun(r, l);
      RunAppend(q, log, s, CRLF);
      assert PrintReason(reason) == [' '] + (s + CRLF);
      RunAppend(p, log, [' '], s + CRLF);
  }

  // ---- Start lines ----

  /** The target of a request: the asterisk, a path with a query, an absolute URL, or a host. */
  datatype Target =
    | Asterisk
    | Origin(path: seq<byte>, query: Option<seq<byte>>)
    | Absolute(scheme: seq<byte>, host: seq<byte>, path: seq<byte>, query: Option<seq<byte>>)
    | Authority(host: seq<byte>)

  datatype StartLine =
    | Status(major: seq<byte>, minor: seq<byte>, status: seq<byte>, reason: Option<seq<byte>>)
    | Ask(verb: nat, target: Target, major: seq<byte>, minor: seq<byte>)

  function PrintStatus(l: StartLine): seq<byte>
    requires l.Status?
  {
    ['H', 'T'] + (['T', 'P', '/'] + (PrintVersion(l.major, l.minor) + ([' '] + (l.status + PrintReason(l.reason)))))
  }

  predicate StatusOk(l: StartLine) {
    && l.Status? && VersionOk(l.major, l.minor) && AllDigits(l.status) && NumberOf(l.status) <= 999
    && CR !in Reason(l.reason) && LF !in Reason(l.reason)
  }

  lemma StatusCodeRun(p: Parser, log: seq<Event>, status: seq<byte>, reason: Option<seq<byte>>)
    requires p.state.ResMinor? && AllDigits(status) && NumberOf(status) <= 999 && CR !in Reason(reason) && LF !in Reason(reason)
    ensures var o := Run(p, log, [' '] + (status + PrintReason(reason)), 0);
            && o.Done? && o.log == Join(log, OnData(StatusData, Reason(reason))) && o.next.state.HeaderFieldStart?
            && Moved(p.(status := NumberOf(status)), o.next)
  {
    hide Step, Run, Join, PrintReason, Reason;
    LetterStep(p, ' ', ResFirstStatusCode);
    LetterRun(p, log, ' ', ResFirstStatusCode);
    var q := p.(state := ResFirstStatusCode);
    NumberRun(q, log, StatusNumber, status);
    var r := q.(status := NumberOf(status), state := ResStatusCode);
    ReasonLineRun(r, log, reason);
    RunAppend(q, log, status, PrintReason(reason));
    RunAppend(p, log, [' '], status + PrintReason(reason));
  }

  lemma StatusVersionRun(p: Parser, log: seq<Event>, l: StartLine)
    requires p.state.ResHT? && StatusOk(l)
    ensures var o := Run(p, log, ['T', 'P', '/'] + (PrintVersion(l.major, l.minor) + ([' '] + (l.status + PrintReason(l.reason)))), 0);
            && o.Done? && o.log == Join(log, OnData(StatusData, Reason(l.reason))) && o.next.state.HeaderFieldStart?
            && Moved(p.(major := NumberOf(l.major), minor := NumberOf(l.minor), status := NumberOf(l.status)), o.next)
  {
    hide Step, Run, Join, PrintVersion, PrintReason, Reason;
    RestOfName(p, log);
    var q := p.(state := ResFirstMajor);
    VersionRun(q, log, l.major, l.minor);
    var r := p.(major := NumberOf(l.major), minor := NumberOf(l.minor), state := ResMinor);
    var tail := [' '] + (l.status + PrintReason(l.reason));
    StatusCodeRun(r, log, l.status, l.reason);
    RunAppend(q, log, PrintVersion(l.major, l.minor), tail);
    RunAppend(p, log, ['T', 'P', '/'], PrintVersion(l.major, l.minor) + tail);
  }

  /** A status line is read as its numbers, and its reason is called back. */
  lemma StatusLineRun(p: Parser, log: seq<Event>, l: StartLine)
    requires (p.state.StartRes? || p.state.StartReqOrRes?) && StatusOk(l)
    ensures var o := Run(p, log, PrintStatus(l), 0);
            && o.Done? && o.log == Join(Join(log, MessageBegin), OnData(StatusData, Reason(l.reason))) && o.next.state.HeaderFieldStart?
            && Moved(Fresh(p).(kind := if p.state.StartRes? then p.kind else Response,
                               major := NumberOf(l.major), minor := NumberOf(l.minor), status := NumberOf(l.status)), o.next)
  {
    hide Step, Run, Join, PrintVersion, PrintReason, Reason;
    ResponseStart(p, log);
    var q := Fresh(p).(kind := if p.state.StartRes? then p.kind else Response, state := ResHT);
    StatusVersionRun(q, Join(log, MessageBegin), l);
    RunAppend(p, log, ['H', 'T'], ['T', 'P', '/'] + (PrintVersion(l.major, l.minor) + ([' '] + (l.status + PrintReason(l.reason)))));
  }

  // ---- Methods ----

  /** The methods, by their numbers. */
  function MethodText(m: nat): seq<byte> {
    match m
    case 0 => ['D', 'E', 'L', 'E', 'T', 'E']
    case 1 => ['G', 'E', 'T']
    case 2 => ['H', 'E', 'A', 'D']
    case 3 => ['P', 'O', 'S', 'T']
    case 4 => ['P', 'U', 'T']
    case 5 => ['C', 'O', 'N', 'N', 'E', 'C', 'T']
    case 6 => ['O', 'P', 'T', 'I', 'O', 'N', 'S']
    case 7 => ['T', 'R', 'A', 'C', 'E']
    case 8 => ['C', 'O', 'P', 'Y']
    case 9 => ['L', 'O', 'C', 'K']
    case 10 => ['M', 'K', 'C', 'O', 'L']
    case 11 => ['M', 'O', 'V', 'E']
    case 12 => ['P', 'R', 'O', 'P', 'F', 'I', 'N', 'D']
    case 13 => ['P', 'R', 'O', 'P', 'P', 'A', 'T', 'C', 'H']
    case 14 => ['S', 'E', 'A', 'R', 'C', 'H']
    case 15 => ['U', 'N', 'L', 'O', 'C', 'K']
    case 16 => ['R', 'E', 'P', 'O', 'R', 'T']
    case 17 => ['M', 'K', 'A', 'C', 'T', 'I', 'V', 'I', 'T', 'Y']
    case 18 => ['C', 'H', 'E', 'C', 'K', 'O', 'U', 'T']
    case 19 => ['M', 'E', 'R', 'G', 'E']
    case 20 => ['M', '-', 'S', 'E', 'A', 'R', 'C', 'H']
    case 21 => ['N', 'O', 'T', 'I', 'F', 'Y']
    case 22 => ['S', 'U', 'B', 'S', 'C', 'R', 'I', 'B', 'E']
    case 23 => ['U', 'N', 'S', 'U', 'B', 'S', 'C', 'R', 'I', 'B', 'E']
    case 24 => ['P', 'A', 'T', 'C', 'H']
    case 25 => ['P', 'U', 'R', 'G', 'E']
    case 26 => ['M', 'K', 'C', 'A', 'L', 'E', 'N', 'D', 'A', 'R']
    case _ => []
  }

  /** The method that the parser takes the first i letters of method m for. */
  function Guess(m: nat, i: nat): nat {
    match m
    case 4 => if i <= 1 then 3 else 4
    case 8 => if i <= 2 then 5 else 8
    case 11 => if i <= 1 then 10 else 11
    case 12 => if i <= 1 then 3 else 12
    case 13 => if i <= 1 then 3 else if i <= 4 then 12 else 13
    case 14 => if i <= 1 then 22 else 14
    case 17 => if i <= 2 then 10 else 17
    case 18 => if i <= 1 then 5 else 18
    case 19 => if i <= 1 then 10 else 19
    case 20 => if i <= 1 then 10 else 20
    case 23 => if i <= 2 then 15 else 23
    case 24 => if i <= 1 then 3 else 24
    case 25 => if i <= 1 then 3 else if i <= 2 then 4 else 25
    case 26 => if i <= 3 then 10 else 26
    case _ => m
  }

  /** The table of methods. */
  lemma MethodsAre(m: nat)
    requires m < 27
    ensures |METHODS| == 27 && METHODS[m] == MethodText(m)
  {
  }

  lemma MethodCharIs(m: nat, i: nat)
    requires m < 27
    ensures MethodChar(m, i) == if i < |MethodText(m)| then MethodText(m)[i] else '\0'
  {
    MethodsAre(m);
    hide MethodText;
  }

  lemma GuessBound(m: nat, i: nat)
    requires m < 27
    ensures Guess(m, i) < 27
  {
  }

  /** One more letter of a method continues the guess, or turns it to the next one. */
  predicate VerbGoesOn(m: nat, i: nat)
    requires 1 <= i < |MethodText(m)|
  {
    var v, ch := Guess(m, i), MethodText(m)[i];
    && (if i < |MethodText(v)| && MethodText(v)[i] == ch then Guess(m, i + 1) == v else SwitchVerb(v, i, ch) == Some(Guess(m, i + 1)))
    && ch != ' ' && ch != '\0'
  }

  lemma VerbMoreE(m: nat, i: nat)
    requires 7 <= m < 12 && 1 <= i < |MethodText(m)|
    ensures VerbGoesOn(m, i)
  {
  }

  lemma VerbMoreA(m: nat, i: nat)
    requires m < 7 && 1 <= i < |MethodText(m)|
    ensures VerbGoesOn(m, i)
  {
  }

  lemma VerbMoreB(m: nat, i: nat)
    requires 12 <= m < 18 && 1 <= i < |MethodText(m)|
    ensures VerbGoesOn(m, i)
  {
  }

  lemma VerbMoreC(m: nat, i: nat)
    requires 18 <= m < 23 && 1 <= i < |MethodText(m)|
    ensures VerbGoesOn(m, i)
  {
  }

  lemma VerbMoreD(m: nat, i: nat)
    requires 23 <= m < 27 && 1 <= i < |MethodText(m)|
    ensures VerbGoesOn(m, i)
  {
  }

  lemma VerbMore(m: nat, i: nat)
    requires m < 27 && 1 <= i < |MethodText(m)|
    ensures VerbGoesOn(m, i)
  {
    hide VerbGoesOn, MethodText;
    if m < 7 { VerbMoreA(m, i); } else if m < 12 { VerbMoreE(m, i); } else if m < 18 { VerbMoreB(m, i); }
    else if m < 23 { VerbMoreC(m, i); } else { VerbMoreD(m, i); }
  }

  lemma FirstLetter(m: nat)
    requires m < 27
    ensures |MethodText(m)| >= 2 && FirstGuess(MethodText(m)[0]) == Some(Guess(m, 1))
        && 'A' <= MethodText(m)[0] <= 'Z' && Guess(m, |MethodText(m)|) == m
  {
  }

  lemma VerbStep(p: Parser, m: nat)
    requires m < 27 && p.state.ReqMethod? && p.verb == Guess(m, p.index) && 1 <= p.index <= |MethodText(m)|
    ensures p.index < |MethodText(m)| ==>
              Step(p, MethodText(m)[p.index]) == Go(p.(verb := Guess(m, p.index + 1), index := p.index + 1), None, None, None, false)
    ensures p.index == |MethodText(m)| ==>
              Step(p, ' ') == Go(p.(index := p.index + 1, state := ReqUrl(SpacesBeforeUrl)), None, None, None, false)
  {
    hide Step, MethodText, Guess, SwitchVerb, MethodChar;
    GuessBound(m, p.index);
    MethodCharIs(p.verb, p.index);
    FirstLetter(m);
    var ch := if p.index < |MethodText(m)| then MethodText(m)[p.index] else ' ';
    StartLineStep(p, ch);
    if p.index < |MethodText(m)| { VerbMore(m, p.index); }
  }

  lemma {:induction false} MethodRun(p: Parser, log: seq<Event>, m: nat, i: nat)
    requires m < 27 && p.state.ReqMethod? && p.verb == Guess(m, p.index) && 1 <= p.index <= i <= |MethodText(m)|
    ensures Run(p, log, MethodText(m)[p.index..i], 0) == Done(p.(verb := Guess(m, i), index := i), log)
    decreases i
  {
    hide Step, MethodText, Guess, Join;
    if p.index < i {
      MethodRun(p, log, m, i - 1);
      var q := p.(verb := Guess(m, i - 1), index := i - 1);
      VerbStep(q, m);
      OneByte(q, log, MethodText(m)[i - 1]);
      assert MethodText(m)[p.index..i] == MethodText(m)[p.index..i - 1] + [MethodText(m)[i - 1]];
      RunAppend(p, log, MethodText(m)[p.index..i - 1], [MethodText(m)[i - 1]]);
    } else {
      assert MethodText(m)[p.index..i] == [];
    }
  }

  /** The first letter of a request, or the first two when they could have been of a
      response. */
  function Taken(p: Parser, m: nat): nat {
    if p.state.StartReqOrRes? && m == 2 then 2 else 1
  }

  lemma RequestStart(p: Parser, log: seq<Event>, m: nat)
    requires (p.state.StartReq? || p.state.StartReqOrRes?) && m < 27
    ensures 1 <= Taken(p, m) < |MethodText(m)|
    ensures Run(p, log, MethodText(m)[..Taken(p, m)], 0) ==
            Done(Fresh(p).(kind := if p.state.StartReq? then p.kind else Request, verb := Guess(m, Taken(p, m)),
                index := Taken(p, m), state := ReqMethod),
                 Join(log, MessageBegin))
  {
    FirstLetter(m);
    var ch := MethodText(m)[0];
    if p.state.StartReq? {
      assert MethodText(m)[..1] == [ch];
      FirstStep(p, m);
      hide Step, MethodText, Guess;
      OneByte(p, log, ch);
    } else if m == 2 {
      HeadStart(p, log);
    } else {
      assert MethodText(m)[..1] == [ch];
      NotHead(m);
      var q := Fresh(p).(kind := Request, state := StartReq);
      FirstStep(q, m);
      StartLineStep(p, ch);
      assert Step(p, ch) == Go(q, None, None, None, true);
      hide Step, MethodText, Guess;
      OneByte(q, log, ch);
      assert Run(p, log, [ch], 0) == Run(q, log, [ch], 0);
    }
  }

  lemma NotHead(m: nat)
    requires m < 27 && m != 2
    ensures |MethodText(m)| > 0 && MethodText(m)[0] != 'H' && MethodText(m)[0] != CR && MethodText(m)[0] != LF
  {
  }

  lemma FirstStep(p: Parser, m: nat)
    requires p.state.StartReq? && m < 27
    ensures |MethodText(m)| >= 2
    ensures Step(p, MethodText(m)[0]) == Go(Fresh(p).(verb := Guess(m, 1), index := 1, state := ReqMethod), None, None,
        Some(MessageBegin), false)
  {
    FirstLetter(m);
    hide Step, MethodText, Guess, FirstGuess;
    StartLineStep(p, MethodText(m)[0]);
  }

  lemma HeadStart(p: Parser, log: seq<Event>)
    requires p.state.StartReqOrRes?
    ensures Run(p, log, MethodText(2)[..2], 0) ==
            Done(Fresh(p).(kind := Request, verb := Guess(2, 2), index := 2, state := ReqMethod), Join(log, MessageBegin))
  {
    assert MethodText(2)[..2] == ['H', 'E'] == ['H'] + ['E'];
    var q := Fresh(p).(state := ResOrRespH);
    StartLineStep(p, 'H');
    StartLineStep(q, 'E');
    var r := Fresh(p).(kind := Request, verb := 2, index := 2, state := ReqMethod);
    assert Step(p, 'H') == Go(q, None, None, Some(MessageBegin), false) && Step(q, 'E') == Go(r, None, None, None, false);
    assert Guess(2, 2) == 2;
    hide Step, Run, Join, MethodText, Guess;
    OneByte(p, log, 'H');
    OneByte(q, Join(log, MessageBegin), 'E');
    RunAppend(p, log, ['H'], ['E']);
  }

  /** The method and the space behind it. */
  lemma VerbRun(p: Parser, log: seq<Event>, m: nat)
    requires (p.state.StartReq? || p.state.StartReqOrRes?) && m < 27
    ensures var o := Run(p, log, MethodText(m) + [' '], 0);
            && o.Done? && o.log == Join(log, MessageBegin) && o.next.state == ReqUrl(SpacesBeforeUrl)
            && Moved(Fresh(p).(kind := if p.state.StartReq? then p.kind else Request, verb := m), o.next)
  {
    hide Step, Run, Join, MethodText, Guess, Taken;
    RequestStart(p, log, m);
    FirstLetter(m);
    var k, n := Taken(p, m), |MethodText(m)|;
    var q := Fresh(p).(kind := if p.state.StartReq? then p.kind else Request, verb := Guess(m, k), index := k, state := ReqMethod);
    var l := Join(log, MessageBegin);
    MethodRun(q, l, m, n);
    var r := q.(verb := Guess(m, n), index := n);
    VerbStep(r, m);
    OneByte(r, l, ' ');
    assert MethodText(m)[k..n] == MethodText(m)[k..];
    RunAppend(q, l, MethodText(m)[k..], [' ']);
    assert MethodText(m) + [' '] == MethodText(m)[..k] + (MethodText(m)[k..] + [' ']);
    RunAppend(p, log, MethodText(m)[..k], MethodText(m)[k..] + [' ']);
  }

  // ---- Targets ----

  /** Where the URL automaton stands after the text. */
  function UrlAfter(u: UrlState, s: seq<byte>): UrlState
    decreases |s|
  {
    if s == [] then u else ParseUrlChar(UrlAfter(u, s[..|s| - 1]), s[|s| - 1])
  }

  lemma {:induction false} UrlAppend(u: UrlState, a: seq<byte>, b: seq<byte>)
    ensures UrlAfter(u, a + b) == UrlAfter(UrlAfter(u, a), b)
    decreases |b|
  {
    if b == [] {
      assert a + b == a;
    } else {
      var n := |b| - 1;
      assert (a + b)[..|a| + n] == a + b[..n] && (a + b)[|a| + n] == b[n];
      UrlAppend(u, a, b[..n]);
    }
  }

  lemma OneUrl(u: UrlState, ch: byte)
    ensures UrlAfter(u, [ch]) == ParseUrlChar(u, ch)
  {
    assert [ch][..0] == [];
  }

  /** Once the URL is wrong it stays wrong. */
  lemma UrlAlive(u: UrlState, s: seq<byte>)
    requires s != [] && UrlAfter(u, s) != HttpChars.Dead
    ensures UrlAfter(u, s[..|s| - 1]) != HttpChars.Dead
  {
  }

  /** The text stays in state v, once it has left u. */
  ghost predicate Stays(u: UrlState, v: UrlState, s: seq<byte>) {
    forall k :: 0 <= k < |s| ==> ParseUrlChar(if k == 0 then u else v, s[k]) == v
  }

  lemma {:induction false} StaysAfter(u: UrlState, v: UrlState, s: seq<byte>)
    requires Stays(u, v, s)
    ensures UrlAfter(u, s) == if s == [] then u else v
    decreases |s|
  {
    hide ParseUrlChar, Stays;
    if s != [] {
      StaysLess(u, v, s);
      StaysAfter(u, v, s[..|s| - 1]);
    }
  }

  lemma StaysLess(u: UrlState, v: UrlState, s: seq<byte>)
    requires Stays(u, v, s) && s != []
    ensures Stays(u, v, s[..|s| - 1]) && ParseUrlChar(if |s| == 1 then u else v, s[|s| - 1]) == v
  {
    hide ParseUrlChar;
    assert s[|s| - 1] == s[|s| - 1];
  }

  /** A visible character that neither begins a query nor a fragment. */
  predicate IsPathChar(c: byte) {
    '!' <= c <= '~' && c != '?' && c != '#'
  }

  predicate IsSchemeLetter(c: byte) {
    'a' <= c <= 'z' || 'A' <= c <= 'Z'
  }

  /** A character of a host with a port. */
  predicate IsServerChar(c: byte) {
    'a' <= c <= 'z' || 'A' <= c <= 'Z' || '0' <= c <= '9' || c == '.' || c == '-' || c == ':' || c == '[' || c == ']'
  }

  lemma UrlStep(c: byte)
    ensures IsPathChar(c) ==> ParseUrlChar(Path, c) == Path
    ensures IsPathChar(c) || c == '?' ==> ParseUrlChar(QueryStart, c) == Query && ParseUrlChar(Query, c) == Query
    ensures IsSchemeLetter(c) ==> ParseUrlChar(SpacesBeforeUrl, c) == Schema && ParseUrlChar(Schema, c) == Schema
    ensures IsServerChar(c) ==> ParseUrlChar(ServerStart, c) == Server && ParseUrlChar(Server, c) == Server
  {
  }

  lemma UrlMarks()
    ensures ParseUrlChar(SpacesBeforeUrl, '*') == Path && ParseUrlChar(SpacesBeforeUrl, '/') == Path && ParseUrlChar(Server, '/') == Path
    ensures ParseUrlChar(Path, '?') == QueryStart
    ensures ParseUrlChar(Schema, ':') == SchemaSlash && ParseUrlChar(SchemaSlash, '/') == SchemaSlashSlash
    ensures ParseUrlChar(SchemaSlashSlash, '/') == ServerStart
  {
  }

  function PrintPath(path: seq<byte>, query: Option<seq<byte>>): seq<byte> {
    ['/'] + (path + match query case None => [] case Some(q) => ['?'] + q)
  }

  function PrintTarget(t: Target): seq<byte> {
    match t
    case Asterisk => ['*']
    case Origin(path, query) => PrintPath(path, query)
    case Absolute(scheme, host, path, query) => scheme + ([':', '/', '/'] + (host + PrintPath(path, query)))
    case Authority(host) => host
  }

  predicate PathOk(path: seq<byte>, query: Option<seq<byte>>) {
    && (forall k :: 0 <= k < |path| ==> IsPathChar(path[k]))
    && (query.Some? ==> forall k :: 0 <= k < |query.value| ==> IsPathChar(query.value[k]) || query.value[k] == '?')
  }

  predicate HostOk(host: seq<byte>) {
    host != [] && forall k :: 0 <= k < |host| ==> IsServerChar(host[k])
  }

  /** A target in one of the forms of section 5.1.2 of RFC 2616; only CONNECT has a host. */
  predicate TargetOk(t: Target, connect: bool) {
    match t
    case Asterisk => !connect
    case Origin(path, query) => !connect && PathOk(path, query)
    case Absolute(scheme, host, path, query) =>
      && !connect && scheme != [] && (forall k :: 0 <= k < |scheme| ==> IsSchemeLetter(scheme[k])) && HostOk(host) && PathOk(path, query)
    case Authority(host) => connect && HostOk(host)
  }

  /** The states in which a target can end. */
  predicate UrlEnds(u: UrlState) {
    u.Server? || u.Path? || u.QueryStart? || u.Query?
  }

  lemma PathAfter(u: UrlState, path: seq<byte>, query: Option<seq<byte>>)
    requires PathOk(path, query) && (u == SpacesBeforeUrl || u == Server)
    ensures UrlEnds(UrlAfter(u, PrintPath(path, query)))
  {
    UrlMarks();
    OneUrl(u, '/');
    forall k | 0 <= k < |path| ensures ParseUrlChar(if k == 0 then Path else Path, path[k]) == Path { UrlStep(path[k]); }
    StaysAfter(Path, Path, path);
    match query {
      case None =>
        assert PrintPath(path, query) == ['/'] + path;
        UrlAppend(u, ['/'], path);
      case Some(q) =>
        forall k | 0 <= k < |q| ensures ParseUrlChar(if k == 0 then QueryStart else Query, q[k]) == Query { UrlStep(q[k]); }
        StaysAfter(QueryStart, Query, q);
        OneUrl(Path, '?');
        UrlAppend(Path, ['?'], q);
        UrlAppend(Path, path, ['?'] + q);
        UrlAppend(u, ['/'], path + (['?'] + q));
    }
  }

  lemma HostAfter(host: seq<byte>)
    requires HostOk(host)
    ensures UrlAfter(ServerStart, host) == Server
  {
    forall k | 0 <= k < |host| ensures ParseUrlChar(if k == 0 then ServerStart else Server, host[k]) == Server { UrlStep(host[k]); }
    StaysAfter(ServerStart, Server, host);
  }

  lemma SchemeAfter(scheme: seq<byte>)
    requires scheme != [] && forall k :: 0 <= k < |scheme| ==> IsSchemeLetter(scheme[k])
    ensures UrlAfter(SpacesBeforeUrl, scheme + [':', '/', '/']) == ServerStart
  {
    forall k | 0 <= k < |scheme| ensures ParseUrlChar(if k == 0 then SpacesBeforeUrl else Schema, scheme[k]) == Schema {
      UrlStep(scheme[k]);
    }
    StaysAfter(SpacesBeforeUrl, Schema, scheme);
    UrlMarks();
    OneUrl(Schema, ':'); OneUrl(SchemaSlash, '/'); OneUrl(SchemaSlashSlash, '/');
    assert [':', '/', '/'] == [':'] + (['/'] + ['/']);
    UrlAppend(SchemaSlash, ['/'], ['/']);
    UrlAppend(Schema, [':'], ['/'] + ['/']);
    UrlAppend(SpacesBeforeUrl, scheme, [':', '/', '/']);
  }

  /** The URL automaton takes the target, from where its method lets it begin. */
  lemma TargetAfter(t: Target, connect: bool)
    requires TargetOk(t, connect)
    ensures PrintTarget(t) != [] && UrlEnds(UrlAfter(if connect then ServerStart else SpacesBeforeUrl, PrintTarget(t)))
  {
    hide UrlAfter, ParseUrlChar, PathOk, HostOk, PrintPath;
    match t
    case Asterisk => UrlMarks(); OneUrl(SpacesBeforeUrl, '*');
    case Origin(path, query) => PathAfter(SpacesBeforeUrl, path, query); PathPrinted(path, query);
    case Authority(host) => HostAfter(host); HostPrinted(host);
    case Absolute(scheme, host, path, query) =>
      SchemeAfter(scheme);
      HostAfter(host);
      PathAfter(Server, path, query);
      UrlAppend(ServerStart, host, PrintPath(path, query));
      UrlAppend(SpacesBeforeUrl, scheme + [':', '/', '/'], host + PrintPath(path, query));
      assert PrintTarget(t) == (scheme + [':', '/', '/']) + (host + PrintPath(path, query));
  }

  lemma PathPrinted(path: seq<byte>, query: Option<seq<byte>>)
    ensures PrintPath(path, query) != []
  {
  }

  lemma HostPrinted(host: seq<byte>)
    requires HostOk(host)
    ensures host != []
  {
  }

  predicate InTarget(c: byte) {
    c != ' ' && c != CR && c != LF
  }

  lemma TargetChars(t: Target, connect: bool)
    requires TargetOk(t, connect)
    ensures forall k :: 0 <= k < |PrintTarget(t)| ==> InTarget(PrintTarget(t)[k])
  {
  }

  /** One byte of a target. */
  lemma TargetStep(p: Parser, u: UrlState, ch: byte)
    requires p.state == ReqUrl(u) && InTarget(ch)
    ensures var u' := ParseUrlChar(if u == SpacesBeforeUrl && p.verb == 5 then ServerStart else u, ch);
            u' != HttpChars.Dead ==> Step(p, ch) == Go(p.(state := ReqUrl(u')), Some(UrlData), None, None, false)
  {
    hide Step, ParseUrlChar;
    StartLineStep(p, ch);
  }

  lemma UrlMoves(u: UrlState, ch: byte)
    ensures ParseUrlChar(u, ch) != SpacesBeforeUrl
  {
  }

  lemma {:induction false} TargetRun(p: Parser, log: seq<Event>, s: seq<byte>)
    requires p.state == ReqUrl(SpacesBeforeUrl) && s != [] && forall k :: 0 <= k < |s| ==> InTarget(s[k])
    requires UrlAfter(if p.verb == 5 then ServerStart else SpacesBeforeUrl, s) != HttpChars.Dead
    ensures Run(p, log, s, 0) ==
            Done(p.(state := ReqUrl(UrlAfter(if p.verb == 5 then ServerStart else SpacesBeforeUrl, s))), Join(log, OnData(UrlData, s)))
    decreases |s|
  {
    hide Step, Run, Join, ParseUrlChar;
    var u := if p.verb == 5 then ServerStart else SpacesBeforeUrl;
    var n := |s| - 1;
    var a, ch := s[..n], s[n];
    assert s == a + [ch];
    if n == 0 {
      assert s == [ch];
      OneUrl(u, ch);
      TargetStep(p, SpacesBeforeUrl, ch);
      OneByte(p, log, ch);
    } else {
      UrlAlive(u, s);
      TargetRun(p, log, a);
      TargetMore(p, log, u, a, ch);
    }
  }

  lemma TargetMore(p: Parser, log: seq<Event>, u: UrlState, a: seq<byte>, ch: byte)
    requires a != [] && InTarget(ch) && UrlAfter(u, a + [ch]) != HttpChars.Dead
    requires Run(p, log, a, 0) == Done(p.(state := ReqUrl(UrlAfter(u, a))), Join(log, OnData(UrlData, a)))
    ensures Run(p, log, a + [ch], 0) == Done(p.(state := ReqUrl(UrlAfter(u, a + [ch]))), Join(log, OnData(UrlData, a + [ch])))
  {
    hide Step, Run, Join, ParseUrlChar, UrlAfter, InTarget;
    UrlLast(u, a, ch);
    var v := UrlAfter(u, a);
    var q := p.(state := ReqUrl(v));
    TargetStep(q, v, ch);
    OneByte(q, Join(log, OnData(UrlData, a)), ch);
    RunAppend(p, log, a, [ch]);
    JoinTwice(log, UrlData, a, [ch]);
  }

  lemma UrlLast(u: UrlState, a: seq<byte>, ch: byte)
    requires a != []
    ensures UrlAfter(u, a + [ch]) == ParseUrlChar(UrlAfter(u, a), ch) && UrlAfter(u, a) != SpacesBeforeUrl
  {
    hide ParseUrlChar;
    UrlAppend(u, a, [ch]);
    OneUrl(UrlAfter(u, a), ch);
    var n := |a| - 1;
    assert a == a[..n] + [a[n]];
    UrlAppend(u, a[..n], [a[n]]);
    OneUrl(UrlAfter(u, a[..n]), a[n]);
    UrlMoves(UrlAfter(u, a[..n]), a[n]);
  }

  // ---- Request lines ----

  function PrintAsk(l: StartLine): seq<byte>
    requires l.Ask?
  {
    MethodText(l.verb) + [' '] + (PrintTarget(l.target) + ([' '] + (HTTP_TEXT + (PrintVersion(l.major, l.minor) + CRLF))))
  }

  predicate AskOk(l: StartLine) {
    && l.Ask? && l.verb < 27 && TargetOk(l.target, l.verb == 5) && VersionOk(l.major, l.minor) && l.major[0] != '0'
  }

  lemma TargetEnd(p: Parser)
    requires p.state.ReqUrl? && UrlEnds(p.state.url)
    ensures Step(p, ' ') == Go(p.(state := ReqHttpStart), None, Some(UrlData), None, false)
  {
    hide Step;
    StartLineStep(p, ' ');
  }

  lemma RequestEnd(p: Parser, log: seq<Event>)
    requires p.state.ReqMinor?
    ensures Run(p, log, CRLF, 0) == Done(p.(state := HeaderFieldStart), log)
  {
    hide Step, Run;
    LetterStep(p, CR, ReqLineAlmostDone);
    LetterStep(p.(state := ReqLineAlmostDone), LF, HeaderFieldStart);
    TwoRun(p, log, CR, ReqLineAlmostDone, LF, HeaderFieldStart);
  }

  lemma ProtocolBegin(p: Parser, log: seq<Event>)
    requires p.state.ReqHttpStart?
    ensures Run(p, log, ['H', 'T'], 0) == Done(p.(state := ReqHttpHT), log)
  {
    hide Step, Run;
    LetterStep(p, 'H', ReqHttpH);
    LetterStep(p.(state := ReqHttpH), 'T', ReqHttpHT);
    TwoRun(p, log, 'H', ReqHttpH, 'T', ReqHttpHT);
  }

  /** What stands behind a target. */
  lemma ProtocolRun(p: Parser, log: seq<Event>, major: seq<byte>, minor: seq<byte>)
    requires p.state.ReqHttpStart? && VersionOk(major, minor) && major[0] != '0'
    ensures Run(p, log, HTTP_TEXT + (PrintVersion(major, minor) + CRLF), 0) ==
            Done(p.(major := NumberOf(major), minor := NumberOf(minor), state := HeaderFieldStart), log)
  {
    hide Step, Run, PrintVersion;
    ProtocolBegin(p, log);
    var p1 := p.(state := ReqHttpHT);
    RestOfName(p1, log);
    var p2 := p.(state := ReqFirstMajor);
    VersionRun(p2, log, major, minor);
    var p3 := p.(major := NumberOf(major), minor := NumberOf(minor), state := ReqMinor);
    RequestEnd(p3, log);
    RunAppend(p2, log, PrintVersion(major, minor), CRLF);
    RunAppend(p1, log, ['T', 'P', '/'], PrintVersion(major, minor) + CRLF);
    assert HTTP_TEXT + (PrintVersion(major, minor) + CRLF) == ['H', 'T'] + (['T', 'P', '/'] + (PrintVersion(major, minor) + CRLF));
    RunAppend(p, log, ['H', 'T'], ['T', 'P', '/'] + (PrintVersion(major, minor) + CRLF));
  }

  /** A request line is read as its method and version, and its target is called back. */
  lemma AskRun(p: Parser, log: seq<Event>, l: StartLine)
    requires (p.state.StartReq? || p.state.StartReqOrRes?) && AskOk(l)
    ensures var o := Run(p, log, PrintAsk(l), 0);
            && o.Done? && o.log == Join(Join(log, MessageBegin), OnData(UrlData, PrintTarget(l.target))) && o.next.state.HeaderFieldStart?
            && Moved(Fresh(p).(kind := if p.state.StartReq? then p.kind else Request, verb := l.verb,
                               major := NumberOf(l.major), minor := NumberOf(l.minor)), o.next)
  {
    hide Step, Run, Join, PrintVersion, PrintTarget, MethodText, UrlAfter, TargetOk;
    VerbRun(p, log, l.verb);
    var o := Run(p, log, MethodText(l.verb) + [' '], 0);
    var t := PrintTarget(l.target);
    TargetAfter(l.target, l.verb == 5);
    TargetChars(l.target, l.verb == 5);
    TargetRun(o.next, o.log, t);
    var q, log' := Run(o.next, o.log, t, 0).next, Join(o.log, OnData(UrlData, t));
    TargetEnd(q);
    LetterRun(q, log', ' ', ReqHttpStart);
    ProtocolRun(q.(state := ReqHttpStart), log', l.major, l.minor);
    var tail := HTTP_TEXT + (PrintVersion(l.major, l.minor) + CRLF);
    RunAppend(q, log', [' '], tail);
    RunAppend(o.next, o.log, t, [' '] + tail);
    RunAppend(p, log, MethodText(l.verb) + [' '], t + ([' '] + tail));
  }

  // ---- Heads ----

  datatype Message = Message(start: StartLine, lines: seq<HeaderLine>)

  function PrintStart(m: Message): seq<byte> {
    if m.start.Status? then PrintStatus(m.start) else PrintAsk(m.start)
  }

  /** The start line, the header lines and the empty line. */
  function PrintHead(m: Message): seq<byte> {
    PrintStart(m) + (PrintLines(m.lines) + CRLF)
  }

  ghost predicate MessageOk(m: Message) {
    (if m.start.Status? then StatusOk(m.start) else AskOk(m.start)) && LinesOk(m.lines)
  }

  /** The parser stands where a message of this kind can begin. */
  predicate Awaits(p: Parser, m: Message) {
    p.state.StartReqOrRes? || if m.start.Status? then p.state.StartRes? && p.kind.Response? else p.state.StartReq? && p.kind.Request?
  }

  function StartEvents(m: Message): seq<Event> {
    [MessageBegin, if m.start.Status? then OnData(StatusData, Reason(m.start.reason)) else OnData(UrlData, PrintTarget(m.start.target))]
  }

  function LineEvents(ls: seq<HeaderLine>): seq<Event> {
    if ls == [] then [] else [OnData(FieldData, ls[0].name), OnData(ValueData, Trim(ls[0].value))] + LineEvents(ls[1..])
  }

  /** What the head of a message calls back. */
  function HeadEvents(m: Message): seq<Event> {
    StartEvents(m) + LineEvents(m.lines) + [HeadersComplete]
  }

  lemma JoinedTwo(e: seq<Event>, a: Event, b: Event)
    ensures Joined(e + [a, b]) == Join(Join(Joined(e), a), b)
  {
    hide Join;
    assert e + [a, b] == (e + [a]) + [b];
    JoinedAppend(e + [a], b);
    JoinedAppend(e, a);
  }

  lemma {:induction false} LineLogIs(e: seq<Event>, ls: seq<HeaderLine>)
    ensures LineLog(Joined(e), ls) == Joined(e + LineEvents(ls))
    decreases |ls|
  {
    hide Join, Joined, Trim;
    if ls == [] {
      assert e + LineEvents(ls) == e;
    } else {
      var a, b := OnData(FieldData, ls[0].name), OnData(ValueData, Trim(ls[0].value));
      JoinedTwo(e, a, b);
      LineLogIs(e + [a, b], ls[1..]);
      assert (e + [a, b]) + LineEvents(ls[1..]) == e + LineEvents(ls);
    }
  }

  // ---- What a head says ----

  ghost predicate IsChunked(ls: seq<HeaderLine>) {
    exists l :: l in ls && SaysChunked(l)
  }

  ghost predicate IsKeepAlive(ls: seq<HeaderLine>) {
    exists l :: l in ls && SaysKeepAlive(l)
  }

  ghost predicate IsClose(ls: seq<HeaderLine>) {
    exists l :: l in ls && SaysClose(l)
  }

  ghost predicate AsksUpgrade(ls: seq<HeaderLine>) {
    exists l :: l in ls && SaysUpgrade(l)
  }

  predicate OffersProtocol(ls: seq<HeaderLine>) {
    exists l :: l in ls && NamesProtocol(l)
  }

  ghost predicate IsUpgrade(ls: seq<HeaderLine>) {
    AsksUpgrade(ls) && OffersProtocol(ls)
  }

  /** The length of the last line that has one. */
  function LengthOf(ls: seq<HeaderLine>): Option<nat> {
    if ls == [] then None
    else if SetsLength(ls[|ls| - 1]) then Some(LengthSet(ls[|ls| - 1]))
    else LengthOf(ls[..|ls| - 1])
  }

  datatype Framing = Switch | Chunked | Sized(n: nat) | Bare | UntilEof

  /** How the body is framed (section 4.4 of RFC 2616). The method that a parser of responses
      looks at is the one that it was left with. */
  ghost function FramingOf(m: Message, verb: nat): Framing
    requires MessageOk(m)
  {
    if IsUpgrade(m.lines) || (if m.start.Status? then verb else m.start.verb) == 5 then Switch
    else if IsChunked(m.lines) then Chunked
    else match LengthOf(m.lines)
      case Some(n) => if n == 0 then Bare else Sized(n)
      case None =>
        if m.start.Ask? || HasNoBody(m.start) then Bare else UntilEof
  }

  predicate HasNoBody(l: StartLine) {
    l.Status? && AllDigits(l.status) && var n := NumberOf(l.status); 100 <= n <= 199 || n == 204 || n == 304
  }

  /** The flags are those that the lines set. */
  ghost predicate FlagsAre(f: Flags, ls: seq<HeaderLine>) {
    && (f.chunked <==> IsChunked(ls)) && (f.keepAlive <==> IsKeepAlive(ls)) && (f.close <==> IsClose(ls))
    && (f.connUpgrade <==> AsksUpgrade(ls)) && (f.upgrade <==> OffersProtocol(ls))
  }

  /** The parser knows what the start line and these header lines say. */
  ghost predicate Knows(q: Parser, p: Parser, m: Message, ls: seq<HeaderLine>)
    requires MessageOk(m)
  {
    && q.kind == (if m.start.Status? then Response else Request)
    && q.major == NumberOf(m.start.major) && q.minor == NumberOf(m.start.minor)
    && (if m.start.Status? then q.status == NumberOf(m.start.status) && q.verb == p.verb else q.verb == m.start.verb)
    && FlagsAre(q.flags, ls)
  }

  function Plain(p: Parser): Parser {
    p.(state := HeaderFieldStart, hstate := HGeneral, index := 0)
  }

  /** The parser behind the start line. */
  function Started(p: Parser, m: Message): Parser
    requires MessageOk(m)
  {
    var q := Fresh(p).(major := NumberOf(m.start.major), minor := NumberOf(m.start.minor));
    if m.start.Status? then q.(kind := Response, status := NumberOf(m.start.status)) else q.(kind := Request, verb := m.start.verb)
  }

  lemma StartRun(p: Parser, log: seq<Event>, m: Message)
    requires Awaits(p, m) && MessageOk(m)
    ensures var o := Run(p, log, PrintStart(m), 0);
            && o.Done? && o.next.state.HeaderFieldStart? && Plain(o.next) == Plain(Started(p, m))
            && o.log == Join(Join(log, StartEvents(m)[0]), StartEvents(m)[1])
  {
    hide Run, Join, PrintStatus, PrintAsk, StatusOk, AskOk, LinesOk, Reason, PrintTarget;
    if m.start.Status? {
      StatusLineRun(p, log, m.start);
    } else {
      AskRun(p, log, m.start);
    }
  }

  lemma EmptyLine(q: Parser, log: seq<Event>)
    requires AtLine(q.state)
    ensures var o := Run(q, log, [CR], 0);
            o.Done? && o.log == log && o.next.state.HeadersAlmostDone? && Plain(o.next) == Settled(q)
                && o.next.flags.trailing == q.flags.trailing
  {
    LastLine(q, log);
    AtLastState(q);
  }

  /** The head of a message, up to its last byte. */
  lemma HeadRead(p: Parser, log: seq<Event>, m: Message)
    requires Awaits(p, m) && MessageOk(m)
    ensures var o := Run(p, log, PrintStart(m) + (PrintLines(m.lines) + [CR]), 0);
            && o.Done? && o.next.state.HeadersAlmostDone? && Plain(o.next) == Effects(Plain(Started(p, m)), m.lines)
            && o.log == LineLog(Join(Join(log, StartEvents(m)[0]), StartEvents(m)[1]), m.lines)
  {
    hide Run, Join, PrintStart, StartEvents, Started, Effects, LineLog, PrintLines, StatusOk, AskOk, LinesOk, HeaderFlags;
    StartRun(p, log, m);
    var o := Run(p, log, PrintStart(m), 0);
    LinesRun(o.next, o.log, m.lines);
    var r := Run(o.next, o.log, PrintLines(m.lines), 0);
    EmptyLine(r.next, r.log);
    RunAppend(o.next, o.log, PrintLines(m.lines), [CR]);
    RunAppend(p, log, PrintStart(m), PrintLines(m.lines) + [CR]);
  }

  lemma {:induction false} LengthOfIs(p: Parser, ls: seq<HeaderLine>)
    ensures Effects(p, ls).length == match LengthOf(ls) case None => p.length case Some(n) => n
    decreases |ls|
  {
    hide SetsLength, LengthSet, SaysChunked, SaysKeepAlive, SaysClose, SaysUpgrade, NamesProtocol;
    if ls != [] {
      var n := |ls| - 1;
      EffectsLast(p, ls);
      LengthOfIs(p, ls[..n]);
    }
  }

  lemma {:induction false} EffectsLast(p: Parser, ls: seq<HeaderLine>)
    requires ls != []
    ensures Effects(p, ls) == Effect(Effects(p, ls[..|ls| - 1]), ls[|ls| - 1])
    decreases |ls|
  {
    hide Effect;
    var n := |ls| - 1;
    if n > 0 {
      EffectsLast(Effect(p, ls[0]), ls[1..]);
      assert ls[1..][..n - 1] == ls[..n][1..];
    } else {
      assert ls[1..] == [] && ls[..n] == [];
    }
  }

  /** What the parser knows at the end of a head. */
  lemma HeadMeans(p: Parser, m: Message, q: Parser)
    requires MessageOk(m) && Plain(q) == Effects(Plain(Started(p, m)), m.lines)
    ensures Knows(q, p, m, m.lines) && !q.flags.trailing
    ensures q.length == match LengthOf(m.lines) case None => 0xFFFF_FFFF_FFFF_FFFF case Some(n) => n
  {
    hide SetsLength, LengthSet, SaysChunked, SaysKeepAlive, SaysClose, SaysUpgrade, NamesProtocol, StatusOk, AskOk,
        LinesOk, Effects, LengthOf;
    StartNumbers(m);
    EffectsAre(Plain(Started(p, m)), m.lines);
    LengthOfIs(Plain(Started(p, m)), m.lines);
  }

  lemma StartNumbers(m: Message)
    requires MessageOk(m)
    ensures AllDigits(m.start.major) && AllDigits(m.start.minor) && (m.start.Status? ==> AllDigits(m.start.status))
  {
  }

  // ---- The end of a head ----

  lemma EndStep(p: Parser)
    requires p.state.HeadersAlmostDone? && !p.flags.trailing
    ensures Step(p, LF) == Go(p.(state := HeadersDone, upgrade := (p.flags.upgrade && p.flags.connUpgrade) || p.verb == 5),
                              None, None, Some(HeadersComplete), true)
  {
    HeadersStep(p, LF);
    hide Step, HeaderFlags, ValueStart, ValueChar, NameChar, Token;
  }

  lemma BodyStep(p: Parser)
    requires p.state.HeadersDone?
    ensures Step(p, LF) ==
            if p.upgrade then Action.Upgraded(p.(state := NewMessage(p)), MessageComplete)
            else if p.flags.chunked then Go(p.(state := ChunkSizeStart), None, None, None, false)
            else if p.length == 0 || (p.length == 0xFFFF_FFFF_FFFF_FFFF
                      && (p.kind.Request? || p.status / 100 == 1 || p.status == 204 || p.status == 304))
            then Go(p.(state := NewMessage(p)), None, None, Some(MessageComplete), false)
            else if p.length != 0xFFFF_FFFF_FFFF_FFFF then Go(p.(state := BodyIdentity), None, None, None, false)
            else Go(p.(state := BodyIdentityEof), None, None, None, false)
  {
    HeadersStep(p, LF);
    hide Step, HeaderFlags, ValueStart, ValueChar, NameChar, Token;
  }

  /** How a framing goes on behind the head, with h as the parser and l as the log. */
  function Behind(f: Framing, h: Parser, l: seq<Event>): Outcome {
    match f
    case Switch => Switched(h.(state := NewMessage(h)), Join(l, MessageComplete), 1)
    case Chunked => Done(h.(state := ChunkSizeStart), l)
    case Bare => Done(h.(state := NewMessage(h)), Join(l, MessageComplete))
    case Sized(_) => Done(h.(state := BodyIdentity), l)
    case UntilEof => Done(h.(state := BodyIdentityEof), l)
  }

  lemma EndRun(p: Parser, log: seq<Event>)
    requires p.state.HeadersAlmostDone? && !p.flags.trailing
    ensures var h := p.(state := HeadersDone, upgrade := (p.flags.upgrade && p.flags.connUpgrade) || p.verb == 5);
            var l := Join(log, HeadersComplete);
            match Step(h, LF)
            case Upgraded(q, e) => Run(p, log, [LF], 0) == Switched(q, Join(l, e), 1)
            case Go(q, kind, _, note, again) => kind.None? && !again ==> Run(p, log, [LF], 0) == Done(q, JoinNote(l, note))
            case _ => true
  {
    hide Step, Join;
    EndStep(p);
    var h := p.(state := HeadersDone, upgrade := (p.flags.upgrade && p.flags.connUpgrade) || p.verb == 5);
    var l := Join(log, HeadersComplete);
    assert Run(p, log, [LF], 0) == Run(h, l, [LF], 0);
    match Step(h, LF)
    case Go(q, kind, _, note, again) => if kind.None? && !again { OneByte(h, l, LF); }
    case _ =>
  }

  /** The last byte of a head decides how the body is framed. */
  lemma EndMeans(p0: Parser, p: Parser, log: seq<Event>, m: Message)
    requires p.state.HeadersAlmostDone? && !p.flags.trailing && MessageOk(m) && Knows(p, p0, m, m.lines)
    requires p.length == match LengthOf(m.lines) case None => 0xFFFF_FFFF_FFFF_FFFF case Some(n) => n
    ensures var h := p.(state := HeadersDone, upgrade := FramingOf(m, p0.verb).Switch?);
            Run(p, log, [LF], 0) == Behind(FramingOf(m, p0.verb), h, Join(log, HeadersComplete))
    ensures FramingOf(m, p0.verb).Sized? ==> p.length == FramingOf(m, p0.verb).n > 0
  {
    hide Step, Run, Join, StatusOk, AskOk, LinesOk, LengthOf, IsChunked, AsksUpgrade, OffersProtocol, IsKeepAlive, IsClose;
    StartNumbers(m);
    LengthBelow(m.lines);
    EndRun(p, log);
    var h := p.(state := HeadersDone, upgrade := (p.flags.upgrade && p.flags.connUpgrade) || p.verb == 5);
    BodyStep(h);
    hide NewMessage;
  }

  lemma {:induction false} LengthBelow(ls: seq<HeaderLine>)
    requires LinesOk(ls)
    ensures LengthOf(ls).Some? ==> LengthOf(ls).value < 0xFFFF_FFFF_FFFF_FFFF
    decreases |ls|
  {
    hide LineOk, SetsLength, LengthSet;
    if ls != [] {
      var n := |ls| - 1;
      LengthBelow(ls[..n]);
      LineLengthBelow(ls[n]);
    }
  }

  lemma LineLengthBelow(l: HeaderLine)
    requires LineOk(l)
    ensures SetsLength(l) ==> LengthSet(l) < 0xFFFF_FFFF_FFFF_FFFF
  {
  }

  // ---- Whole messages ----

  function At(o: Outcome, n: nat): Outcome {
    if o.Switched? then o.(at := n) else o
  }

  /** A printed head is called back, and the parser knows what it says. */
  lemma HeadIs(p: Parser, before: seq<Event>, m: Message) returns (h: Parser)
    requires Awaits(p, m) && MessageOk(m)
    ensures h.state.HeadersDone? && Knows(h, p, m, m.lines) && !h.flags.trailing && h.upgrade == FramingOf(m, p.verb).Switch?
    ensures h.length == match LengthOf(m.lines) case None => 0xFFFF_FFFF_FFFF_FFFF case Some(n) => n
    ensures FramingOf(m, p.verb).Sized? ==> h.length == FramingOf(m, p.verb).n > 0
    ensures Run(p, Joined(before), PrintHead(m), 0) ==
            At(Behind(FramingOf(m, p.verb), h, Joined(before + HeadEvents(m))), |PrintHead(m)|)
  {
    hide Run, Join, Joined, PrintStart, StartEvents, LineEvents, Started, Effects, PrintLines, StatusOk, AskOk, LinesOk,
        Knows, LengthOf, FramingOf, NewMessage, LineLog;
    var log := Joined(before);
    HeadRead(p, log, m);
    var s := PrintStart(m) + (PrintLines(m.lines) + [CR]);
    var o := Run(p, log, s, 0);
    HeadMeans(p, m, o.next);
    EndMeans(p, o.next, o.log, m);
    h := o.next.(state := HeadersDone, upgrade := FramingOf(m, p.verb).Switch?);
    SameKnowledge(o.next, h, p, m);
    HeadLog(before, m);
    assert PrintHead(m) == s + [LF];
    RunAppend(p, log, s, [LF]);
  }

  lemma SameKnowledge(q: Parser, h: Parser, p: Parser, m: Message)
    requires MessageOk(m) && Knows(q, p, m, m.lines) && h == q.(state := h.state, upgrade := h.upgrade, length := h.length)
    ensures Knows(h, p, m, m.lines)
  {
    hide StatusOk, AskOk, LinesOk, FlagsAre;
    StartNumbers(m);
  }

  lemma HeadLog(before: seq<Event>, m: Message)
    ensures Join(LineLog(Join(Join(Joined(before), StartEvents(m)[0]), StartEvents(m)[1]), m.lines),
        HeadersComplete) == Joined(before + HeadEvents(m))
  {
    hide Join, Joined, LineLog, LineEvents;
    var a, b := StartEvents(m)[0], StartEvents(m)[1];
    JoinedTwo(before, a, b);
    LineLogIs(before + [a, b], m.lines);
    JoinedAppend(before + [a, b] + LineEvents(m.lines), HeadersComplete);
    assert StartEvents(m) == [a, b];
    assert before + HeadEvents(m) == (before + [a, b] + LineEvents(m.lines)) + [HeadersComplete];
  }

  /** What the parser waits for when a message is over: the next one, if the connection stays
      open; since HTTP/1.1 it does unless a line says close, before only if one says
      keep-alive. */
  ghost function NextState(m: Message, ls: seq<HeaderLine>): State
    requires MessageOk(m)
  {
    if (if NumberOf(m.start.major) > 0 && NumberOf(m.start.minor) > 0 then !IsClose(ls) else IsKeepAlive(ls))
    then (if m.start.Status? then StartRes else StartReq)
    else SDead
  }

  lemma NextIs(q: Parser, p: Parser, m: Message, ls: seq<HeaderLine>)
    requires MessageOk(m) && Knows(q, p, m, ls)
    requires q.flags.chunked || q.length != 0xFFFF_FFFF_FFFF_FFFF || m.start.Ask? || HasNoBody(m.start)
    ensures NewMessage(q) == NextState(m, ls)
  {
    hide StatusOk, AskOk, LinesOk, IsClose, IsKeepAlive, IsChunked, AsksUpgrade, OffersProtocol;
    StartNumbers(m);
  }

  /** After this message: what the parser knows, what it waits for, and that what follows
      is read from there. */
  ghost predicate Finished(p: Parser, before: seq<Event>, m: Message, s: seq<byte>, ls: seq<HeaderLine>,
      events: seq<Event>, rest: seq<byte>)
    requires MessageOk(m)
  {
    var o := Run(p, Joined(before), s, 0);
    && o.Done? && o.log == Joined(before + HeadEvents(m) + events) && Knows(o.next, p, m, ls) && o.next.state == NextState(m, ls)
    && Run(p, Joined(before), s + rest, 0) == Shift(Run(o.next, o.log, rest, 0), |s|)
  }

  /** A message that its head already ends. */
  lemma BareMessage(p: Parser, before: seq<Event>, m: Message, rest: seq<byte>)
    requires Awaits(p, m) && MessageOk(m) && FramingOf(m, p.verb).Bare?
    ensures Finished(p, before, m, PrintHead(m), m.lines, [MessageComplete], rest)
  {
    hide Run, Join, Joined, PrintHead, HeadEvents, StatusOk, AskOk, LinesOk, Knows, LengthOf, IsChunked, AsksUpgrade,
        OffersProtocol, NextState, NewMessage;
    var h := HeadIs(p, before, m);
    StartNumbers(m);
    NextIs(h, p, m, m.lines);
    SameKnowledge(h, h.(state := NewMessage(h)), p, m);
    JoinedAppend(before + HeadEvents(m), MessageComplete);
    RunAppend(p, Joined(before), PrintHead(m), rest);
  }

  /** A message with a body of known length. */
  lemma SizedMessage(p: Parser, before: seq<Event>, m: Message, body: seq<byte>, rest: seq<byte>)
    requires Awaits(p, m) && MessageOk(m) && FramingOf(m, p.verb) == Sized(|body|)
    ensures Finished(p, before, m, PrintHead(m) + body, m.lines, [OnData(BodyData, body), MessageComplete], rest)
  {
    hide Run, Join, Joined, PrintHead, HeadEvents, StatusOk, AskOk, LinesOk, Knows, FramingOf, NextState, NewMessage;
    var h := HeadIs(p, before, m);
    var q, l := h.(state := BodyIdentity), Joined(before + HeadEvents(m));
    IdentityRoundTrip(q, l, body, []);
    RunAppend(p, Joined(before), PrintHead(m), body);
    var r := q.(length := 0);
    SameKnowledge(h, r, p, m);
    NextIs(r, p, m, m.lines);
    SameKnowledge(h, r.(state := NewMessage(r)), p, m);
    JoinedTwo(before + HeadEvents(m), OnData(BodyData, body), MessageComplete);
    RunAppend(p, Joined(before), PrintHead(m) + body, rest);
  }

  /** A message whose body goes on until the connection ends: it is called back, and not
      completed before that. */
  lemma EofMessage(p: Parser, before: seq<Event>, m: Message, body: seq<byte>)
    requires Awaits(p, m) && MessageOk(m) && FramingOf(m, p.verb).UntilEof?
    ensures var o := Run(p, Joined(before), PrintHead(m) + body, 0);
            && o.Done? && o.log == Joined(before + HeadEvents(m) + [OnData(BodyData, body)])
            && o.next.state.BodyIdentityEof? && Knows(o.next, p, m, m.lines)
  {
    hide Run, Join, Joined, PrintHead, HeadEvents, StatusOk, AskOk, LinesOk, Knows, FramingOf, NextState, NewMessage;
    var h := HeadIs(p, before, m);
    var q, l := h.(state := BodyIdentityEof), Joined(before + HeadEvents(m));
    EofBody(q, l, body);
    RunAppend(p, Joined(before), PrintHead(m), body);
    SameKnowledge(h, q, p, m);
    JoinedAppend(before + HeadEvents(m), OnData(BodyData, body));
  }

  lemma EofStep(p: Parser, ch: byte)
    requires p.state.BodyIdentityEof?
    ensures Step(p, ch) == Go(p, Some(BodyData), None, None, false)
  {
    hide StatusLine, RequestLine, Headers, Start;
  }

  lemma {:induction false} EofBody(p: Parser, log: seq<Event>, s: seq<byte>)
    requires p.state.BodyIdentityEof?
    ensures Run(p, log, s, 0) == Done(p, Join(log, OnData(BodyData, s)))
    decreases |s|
  {
    hide Step, Join;
    if s == [] {
      NothingJoined(log, BodyData);
    } else {
      hide Run;
      var n := |s| - 1;
      assert s == s[..n] + [s[n]];
      EofBody(p, log, s[..n]);
      EofStep(p, s[n]);
      OneByte(p, Join(log, OnData(BodyData, s[..n])), s[n]);
      RunAppend(p, log, s[..n], [s[n]]);
      JoinTwice(log, BodyData, s[..n], [s[n]]);
    }
  }

  /** What the parser would wait for behind a head that ends HTTP: nothing, when only the end
      of the stream would end the message. */
  ghost function SwitchState(m: Message): State
    requires MessageOk(m)
  {
    if IsChunked(m.lines) || LengthOf(m.lines).Some? || m.start.Ask? || HasNoBody(m.start) then NextState(m, m.lines) else SDead
  }

  lemma SwitchIs(q: Parser, p: Parser, m: Message)
    requires MessageOk(m) && Knows(q, p, m, m.lines)
    requires q.length == match LengthOf(m.lines) case None => 0xFFFF_FFFF_FFFF_FFFF case Some(n) => n
    ensures NewMessage(q) == SwitchState(m)
  {
    hide StatusOk, AskOk, LinesOk, IsClose, IsKeepAlive, IsChunked, AsksUpgrade, OffersProtocol, LengthOf;
    LengthBelow(m.lines);
    StartNumbers(m);
  }

  /** A head that ends HTTP on the connection: nothing behind it is read. */
  lemma SwitchedMessage(p: Parser, before: seq<Event>, m: Message, rest: seq<byte>)
    requires Awaits(p, m) && MessageOk(m) && FramingOf(m, p.verb).Switch?
    ensures var o := Run(p, Joined(before), PrintHead(m) + rest, 0);
            && o.Switched? && o.at == |PrintHead(m)| && o.log == Joined(before + HeadEvents(m) + [MessageComplete])
            && o.next.upgrade && Knows(o.next, p, m, m.lines) && o.next.state == SwitchState(m)
  {
    hide Run, Join, Joined, PrintHead, HeadEvents, StatusOk, AskOk, LinesOk, Knows, FramingOf, SwitchState, NewMessage;
    var h := HeadIs(p, before, m);
    SwitchIs(h, p, m);
    SameKnowledge(h, h.(state := NewMessage(h)), p, m);
    JoinedAppend(before + HeadEvents(m), MessageComplete);
    RunSplit(p, Joined(before), PrintHead(m), rest, 0);
  }

  lemma {:induction false} ChunkedBody(p: Parser, before: seq<Event>, cs: seq<Chunk>, end: Chunk, trailer: seq<HeaderLine>)
    requires p.state.ChunkSizeStart? && ChunksOk(cs) && ChunkOk(end) && end.bytes == [] && LinesOk(trailer)
    ensures var o := Run(p, Joined(before), Encode(cs, end, PrintLines(trailer)), 0);
            && o.Done? && o.log == Joined(before + ([OnData(BodyData, Bytes(cs))] + LineEvents(trailer) + [MessageComplete]))
            && Plain(o.next.(flags := o.next.flags.(trailing := true))) ==
               Effects(Plain(p.(length := 0, flags := p.flags.(trailing := true))), trailer)
            && o.next.state == NewMessage(o.next)
  {
    hide Step, Run, Join, Joined, Head, EncodeChunks, Bytes, PrintLines, LinesOk, Effects, LineEvents, LineLog,
        HeaderFlags, ChunksOk, ChunkOk, NewMessage;
    var log, data := Joined(before), OnData(BodyData, Bytes(cs));
    var q, l := if cs == [] then p else p.(length := 0), Join(log, data);
    var t := AtTrailer(p);
    ChunksRun(p, log, cs);
    HttpChunks.HeadRun(q, l, end);
    assert Run(q, l, Head(end), 0) == Done(t, l);
    LinesRun(t, l, trailer);
    var r := Run(t, l, PrintLines(trailer), 0);
    EmptyLine(r.next, r.log);
    var u := Run(r.next, r.log, [CR], 0).next;
    TrailerFlags(Plain(t), trailer);
    HttpChunks.EndStep(u, LF);
    OneByte(u, r.log, LF);
    assert CRLF == [CR] + [LF];
    RunAppend(r.next, r.log, [CR], [LF]);
    RunAppend(t, l, PrintLines(trailer), CRLF);
    RunAppend(q, l, Head(end), PrintLines(trailer) + CRLF);
    RunAppend(p, log, EncodeChunks(cs), Head(end) + (PrintLines(trailer) + CRLF));
    StateOnly(u.(state := NewMessage(u)), NewMessage(u), u);
    BodyLog(before, data, trailer);
  }

  lemma TrailerFlags(p: Parser, ls: seq<HeaderLine>)
    ensures Effects(p, ls).flags.trailing == p.flags.trailing
  {
    EffectsAre(p, ls);
  }

  lemma BodyLog(before: seq<Event>, data: Event, trailer: seq<HeaderLine>)
    ensures Join(LineLog(Join(Joined(before), data), trailer), MessageComplete) ==
            Joined(before + ([data] + LineEvents(trailer) + [MessageComplete]))
  {
    hide Join, Joined, LineLog, LineEvents;
    JoinedAppend(before, data);
    LineLogIs(before + [data], trailer);
    JoinedAppend(before + [data] + LineEvents(trailer), MessageComplete);
    assert before + ([data] + LineEvents(trailer) + [MessageComplete]) == (before + [data] + LineEvents(trailer)) + [MessageComplete];
  }

  /** What header lines of the trailer add. */
  lemma TrailerKnows(h: Parser, q: Parser, p: Parser, m: Message, trailer: seq<HeaderLine>)
    requires MessageOk(m) && Knows(h, p, m, m.lines)
    requires Plain(q.(flags := q.flags.(trailing := true))) == Effects(Plain(h.(length := 0, flags := h.flags.(trailing := true))), trailer)
    ensures Knows(q, p, m, m.lines + trailer) && (h.flags.chunked ==> q.flags.chunked)
  {
    hide StatusOk, AskOk, LinesOk, SaysChunked, SaysKeepAlive, SaysClose, SaysUpgrade, NamesProtocol, Effects;
    StartNumbers(m);
    EffectsAre(Plain(h.(length := 0, flags := h.flags.(trailing := true))), trailer);
    assert forall l :: l in m.lines + trailer <==> l in m.lines || l in trailer;
  }

  /** A message with a chunked body: exactly the bytes of the chunks are its body, and the
      lines of the trailer count for the connection too. */
  lemma ChunkedMessage(p: Parser, before: seq<Event>, m: Message, cs: seq<Chunk>, end: Chunk, trailer: seq<HeaderLine>, rest: seq<byte>)
    requires Awaits(p, m) && MessageOk(m) && FramingOf(m, p.verb).Chunked?
    requires ChunksOk(cs) && ChunkOk(end) && end.bytes == [] && LinesOk(trailer)
    ensures Finished(p, before, m, PrintHead(m) + Encode(cs, end, PrintLines(trailer)), m.lines + trailer,
                     [OnData(BodyData, Bytes(cs))] + LineEvents(trailer) + [MessageComplete], rest)
  {
    hide Run, Join, Joined, PrintHead, HeadEvents, StatusOk, AskOk, LinesOk, Knows, NextState, NewMessage, Encode,
        Effects, Plain, LengthOf, ChunksOk, ChunkOk;
    var h := HeadIs(p, before, m);
    var e := Encode(cs, end, PrintLines(trailer));
    var q, start := h.(state := ChunkSizeStart), before + HeadEvents(m);
    SameKnowledge(h, q, p, m);
    ChunkedBody(q, start, cs, end, trailer);
    RunAppend(p, Joined(before), PrintHead(m), e);
    var r := Run(q, Joined(start), e, 0).next;
    TrailerKnows(q, r, p, m, trailer);
    ChunkedSays(q, p, m);
    NextIs(r, p, m, m.lines + trailer);
    assert start + ([OnData(BodyData, Bytes(cs))] + LineEvents(trailer) + [MessageComplete]) ==
           before + HeadEvents(m) + ([OnData(BodyData, Bytes(cs))] + LineEvents(trailer) + [MessageComplete]);
    RunAppend(p, Joined(before), PrintHead(m) + e, rest);
  }

  lemma ChunkedSays(q: Parser, p: Parser, m: Message)
    requires MessageOk(m) && Knows(q, p, m, m.lines) && FramingOf(m, p.verb).Chunked?
    ensures q.flags.chunked
  {
  }
}
