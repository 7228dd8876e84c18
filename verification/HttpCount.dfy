/** The header counter of the HTTP parser: exactly when a call reports that a header is too
    large, and what that means for header sections, however the stream is cut. */
module HttpCount {
  import opened Wrappers

  import opened HttpChars
  import opened HttpAutomaton
  import opened HttpRun

  const HTTP_MAX_HEADER_SIZE: nat := 80 * 1024

  // ---- nread ----

  /** The states in which a byte sets nread to zero. */
  predicate Resets(s: State) {
    s.HeadersDone? || s.ChunkSizeAlmostDone? || s.ChunkDataDone?
  }

  /** A byte that the inner loop over a header name or value consumes. */
  predicate InLoop(s: State, t: State) {
    (s.HeaderField? && t.HeaderField?) || (s.HeaderValue? && t.HeaderValue?)
  }

  /** nread at the end of the buffer, from byte i on; None when it passes the limit. */
  function Tally(p: Parser, n: nat, data: seq<byte>, i: nat): Option<nat>
    requires i <= |data|
    decreases |data| - i, Rank(p.state), 1
  {
    if i == |data| then Some(n)
    else if !p.state.ParsingHeader() then TallyIn(p, n, data, i, 0)
    else if n + 1 > HTTP_MAX_HEADER_SIZE then None
    else TallyIn(p, n + 1, data, i, 0)
  }

  /** The same in a turn of the main loop that has been counted, after k bytes of an inner
      loop, which are counted at its end: twice, but for one, when a value ends with LF. */
  function TallyIn(p: Parser, n: nat, data: seq<byte>, i: nat, k: nat): Option<nat>
    requires i <= |data| && (p.state.HeaderValue? ==> n > 0)
    decreases |data| - i, Rank(p.state), 0
  {
    if i == |data| then if n + k > HTTP_MAX_HEADER_SIZE then None else Some(n + k)
    else
      AgainDecreases(p, data[i]);
      match Step(p, data[i])
      case Fail(_) => if p.state.HeaderField? && n + k > HTTP_MAX_HEADER_SIZE then None else Some(n)
      case Upgraded(_, _) => Some(0)
      case Go(q, _, _, _, again) =>
        if InLoop(p.state, q.state) then TallyIn(q, n, data, i + 1, k + 1)
        else
          var m := if p.state.HeaderValue? && again then n + k + k - 1 else n + k;
          if n + k > HTTP_MAX_HEADER_SIZE || m > HTTP_MAX_HEADER_SIZE then None
          else Tally(q, if Resets(p.state) then 0 else m, data, if again then i else i + 1)
  }

  /** nread after the pieces, each of which is a buffer of its own. */
  function TallyPieces(p: Parser, log: seq<Event>, n: nat, pieces: seq<seq<byte>>): Option<nat>
    decreases |pieces|
  {
    if pieces == [] then Some(n)
    else match Tally(p, n, pieces[0], 0)
      case None => None
      case Some(m) =>
        match Run(p, log, pieces[0], 0)
        case Done(q, l) => TallyPieces(q, l, m, pieces[1..])
        case Failed(_, _) => Some(m)
        case Switched(_, _, _) => Some(m)
  }

  lemma TallyChar(p: Parser, n: nat, data: seq<byte>, i: nat, k: nat)
    requires i < |data| && (p.state.HeaderValue? ==> n > 0)
    requires Step(p, data[i]).Go? && InLoop(p.state, Step(p, data[i]).next.state)
    ensures TallyIn(p, n, data, i, k) == TallyIn(Step(p, data[i]).next, n, data, i + 1, k + 1)
  {
    hide Step;
  }

  lemma TallyEnd(p: Parser, n: nat, data: seq<byte>, i: nat, k: nat)
    requires i < |data| && (p.state.HeaderValue? ==> n > 0)
    requires Step(p, data[i]).Go? && !InLoop(p.state, Step(p, data[i]).next.state)
    ensures var a := Step(p, data[i]);
            var m := if p.state.HeaderValue? && a.again then n + k + k - 1 else n + k;
            TallyIn(p, n, data, i, k) ==
            if n + k > HTTP_MAX_HEADER_SIZE || m > HTTP_MAX_HEADER_SIZE then None
            else Tally(a.next, if Resets(p.state) then 0 else m, data, if a.again then i else i + 1)
  {
    hide Step;
  }

  lemma TallyFail(p: Parser, n: nat, data: seq<byte>, i: nat, k: nat)
    requires i < |data| && (p.state.HeaderValue? ==> n > 0) && Step(p, data[i]).Fail?
    ensures TallyIn(p, n, data, i, k).None? <==> p.state.HeaderField? && n + k > HTTP_MAX_HEADER_SIZE
  {
    hide Step;
  }

  lemma TallyUpgraded(p: Parser, n: nat, data: seq<byte>, i: nat)
    requires i < |data| && (p.state.HeaderValue? ==> n > 0) && Step(p, data[i]).Upgraded?
    ensures TallyIn(p, n, data, i, 0) == Some(0)
  {
    hide Step;
  }

  lemma TallyLast(p: Parser, n: nat, data: seq<byte>, k: nat)
    requires p.state.HeaderValue? ==> n > 0
    ensures TallyIn(p, n, data, |data|, k) == if n + k > HTTP_MAX_HEADER_SIZE then None else Some(n + k)
  {
  }

  lemma TallyDone(p: Parser, n: nat, data: seq<byte>)
    ensures Tally(p, n, data, |data|) == Some(n)
  {
  }

  // ---- Bulk loops ----

  lemma BodyStep(p: Parser, ch: byte)
    requires p.length > 1 && (p.state.BodyIdentity? || p.state.ChunkData?)
    ensures Step(p, ch) == Go(p.(length := p.length - 1), Some(BodyData), None, None, false)
  {
    hide StatusLine, RequestLine, Headers, Start;
  }

  lemma LastBodyStep(p: Parser, ch: byte)
    requires p.length == 1
    ensures p.state.BodyIdentity? ==>
      Step(p, ch) == Go(p.(length := 0, state := MessageDone), Some(BodyData), Some(BodyData), None, true)
    ensures p.state.ChunkData? ==>
      Step(p, ch) == Go(p.(length := 0, state := ChunkDataAlmostDone), Some(BodyData), None, None, false)
  {
  }

  /** A byte of a body is not counted. */
  lemma TallyFree(p: Parser, n: nat, data: seq<byte>, i: nat)
    requires i < |data| && !p.state.ParsingHeader() && n <= HTTP_MAX_HEADER_SIZE && Step(p, data[i]).Go? && !Resets(p.state)
    ensures var a := Step(p, data[i]);
            Tally(p, n, data, i) == TallyIn(p, n, data, i, 0) == Tally(a.next, n, data, if a.again then i else i + 1)
  {
    hide Step;
    TallyEnd(p, n, data, i, 0);
  }

  lemma {:induction false} TallyBody(p: Parser, n: nat, data: seq<byte>, i: nat, k: nat)
    requires i + k <= |data| && k < p.length && n <= HTTP_MAX_HEADER_SIZE && (p.state.BodyIdentity? || p.state.ChunkData?)
    ensures Tally(p, n, data, i) == Tally(p.(length := p.length - k), n, data, i + k)
    decreases k
  {
    hide Step, Tally;
    var r := p.(length := p.length - k);
    if k == 0 {
      assert r == p;
    } else {
      var q := p.(length := p.length - 1);
      BodyStep(p, data[i]);
      TallyFree(p, n, data, i);
      TallyBody(q, n, data, i + 1, k - 1);
      assert r == q.(length := q.length - (k - 1));
      assert i + 1 + (k - 1) == i + k;
    }
  }

  /** k bytes of a body or chunk. */
  lemma TallyCounted(p: Parser, n: nat, data: seq<byte>, i: nat, k: nat)
    requires i + k <= |data| && 0 < k <= p.length && n <= HTTP_MAX_HEADER_SIZE && (p.state.BodyIdentity? || p.state.ChunkData?)
    ensures Tally(p, n, data, i) ==
            var q := p.(length := p.length - k);
            if q.length > 0 then Tally(q, n, data, i + k)
            else if p.state.BodyIdentity? then Tally(q.(state := MessageDone), n, data, i + k - 1)
            else Tally(q.(state := ChunkDataAlmostDone), n, data, i + k)
  {
    hide Step, Tally;
    if k < p.length {
      TallyBody(p, n, data, i, k);
    } else {
      TallyBody(p, n, data, i, k - 1);
      LastBodyStep(p.(length := 1), data[i + k - 1]);
      TallyFree(p.(length := 1), n, data, i + k - 1);
    }
  }

  lemma {:induction false} TallyEof(p: Parser, n: nat, data: seq<byte>, i: nat)
    requires i <= |data| && n <= HTTP_MAX_HEADER_SIZE && p.state.BodyIdentityEof?
    ensures Tally(p, n, data, i) == Some(n)
    decreases |data| - i
  {
    if i < |data| {
      assert Step(p, data[i]) == Body(p, data[i]) == Go(p, Some(BodyData), None, None, false);
      TallyFree(p, n, data, i);
      hide Step;
      TallyEof(p, n, data, i + 1);
    }
  }

  lemma GeneralStep(p: Parser, ch: byte)
    requires p.state.HeaderValue? && p.hstate.HGeneral?
    ensures ch != CR && ch != LF ==> Step(p, ch) == Go(p, Some(ValueData), None, None, false)
    ensures ch == CR || ch == LF ==> Step(p, ch).Go? && Step(p, ch).next.state.HeaderAlmostDone?
  {
  }

  /** Skipped bytes of a value are counted at its end. */
  lemma {:induction false} TallyGeneral(p: Parser, n: nat, data: seq<byte>, i: nat, k: nat, j: nat)
    requires i <= j <= |data| && p.state.HeaderValue? && p.hstate.HGeneral? && n > 0
    requires forall m :: i <= m < j ==> data[m] != CR && data[m] != LF
    ensures TallyIn(p, n, data, i, k) == TallyIn(p, n, data, j, k + (j - i))
    decreases j - i
  {
    hide Step, TallyIn;
    if i < j {
      GeneralStep(p, data[i]);
      TallyChar(p, n, data, i, k);
      TallyGeneral(p, n, data, i + 1, k + 1, j);
    }
  }

  /** More skipped bytes than the limit overflow, whatever follows. */
  lemma {:induction false} TallyLost(p: Parser, n: nat, data: seq<byte>, i: nat, k: nat)
    requires i <= |data| && p.state.HeaderValue? && p.hstate.HGeneral? && n > 0 && n + k > HTTP_MAX_HEADER_SIZE
    ensures TallyIn(p, n, data, i, k).None?
    decreases |data| - i
  {
    hide Step;
    if i < |data| {
      GeneralStep(p, data[i]);
      if data[i] != CR && data[i] != LF { TallyLost(p, n, data, i + 1, k + 1); }
    }
  }

  // ---- Header sections ----

  /** The bytes of the header section, chunk line or trailer that the parser is in at the end
      of the buffer, of which b were in front of byte i; None when one of them is longer than
      limit. A trailer counts together with the header section behind it. */
  function Weigh(p: Parser, b: nat, data: seq<byte>, i: nat, limit: nat): Option<nat>
    requires i <= |data|
    decreases |data| - i, Rank(p.state)
  {
    if i == |data| then Some(b)
    else if p.state.ParsingHeader() && b + 1 > limit then None
    else
      AgainDecreases(p, data[i]);
      match Step(p, data[i])
      case Fail(_) => Some(b)
      case Upgraded(_, _) => Some(0)
      case Go(q, _, _, _, again) =>
        Weigh(q, if Resets(p.state) then 0 else if again || !p.state.ParsingHeader() then b else b + 1,
              data, if again then i else i + 1, limit)
  }

  lemma {:induction false} WeighSplit(p: Parser, log: seq<Event>, b: nat, a: seq<byte>, c: seq<byte>, i: nat, limit: nat)
    requires i <= |a|
    ensures Weigh(p, b, a + c, i, limit) ==
            match Weigh(p, b, a, i, limit)
            case None => None
            case Some(b') =>
              var o := Run(p, log, a, i);
              if o.Done? then Weigh(o.next, b', a + c, |a|, limit) else Some(b')
    decreases |a| - i, Rank(p.state)
  {
    hide Step, JoinNote, JoinData;
    if i < |a| && !(p.state.ParsingHeader() && b + 1 > limit) {
      assert (a + c)[i] == a[i];
      AgainDecreases(p, a[i]);
      match Step(p, a[i])
      case Fail(_) =>
      case Upgraded(_, _) =>
      case Go(q, kind, _, note, again) =>
        var b' := if Resets(p.state) then 0 else if again || !p.state.ParsingHeader() then b else b + 1;
        WeighSplit(q, JoinNote(JoinData(log, kind, [a[i]]), note), b', a, c, if again then i else i + 1, limit);
    }
  }

  lemma {:induction false} WeighDrop(p: Parser, b: nat, a: seq<byte>, c: seq<byte>, i: nat, limit: nat)
    requires i <= |c|
    ensures Weigh(p, b, a + c, |a| + i, limit) == Weigh(p, b, c, i, limit)
    decreases |c| - i, Rank(p.state)
  {
    hide Step;
    if i < |c| && !(p.state.ParsingHeader() && b + 1 > limit) {
      assert (a + c)[|a| + i] == c[i];
      AgainDecreases(p, c[i]);
      match Step(p, c[i])
      case Fail(_) =>
      case Upgraded(_, _) =>
      case Go(q, _, _, _, again) =>
        var b' := if Resets(p.state) then 0 else if again || !p.state.ParsingHeader() then b else b + 1;
        WeighDrop(q, b', a, c, if again then i else i + 1, limit);
    }
  }

  // ---- The counter against the bytes ----

  /** What nread may be above twice the bytes: bytes that are executed more than once have
      been counted before they are done. */
  function Slack(p: Parser): nat {
    match p.state
    case StartReq => 2
    case HeaderFieldStart => InHeaders(p) + 1
    case HeaderValueStart => InHeaders(p) + 1
    case HeadersAlmostDone => InHeaders(p) + 2
    case HeadersDone => 4
    case _ =>
      if !p.state.ParsingHeader() || InChunkLine(p.state) then 0
      else if InHeader(p.state) || InHeaderEnd(p.state) then InHeaders(p) else 1
  }

  /** A trailer begins with nread zero, a header section may begin after a trailer. */
  function InHeaders(p: Parser): nat {
    if p.flags.trailing then 0 else 1
  }

  predicate InChunkLine(s: State) {
    s.ChunkSizeStart? || s.ChunkSize? || s.ChunkParameters? || s.ChunkSizeAlmostDone?
  }

  predicate InHeaderEnd(s: State) {
    s.HeaderValueDiscardWsAlmostDone? || s.HeaderValueDiscardLws? || s.HeaderValueLws? || s.HeaderAlmostDone?
  }

  /** Executing a byte once more is counted once more. */
  ghost predicate SlackOk(p: Parser, a: Action) {
    (a.Upgraded? ==> p.state.HeadersDone?) &&
    (a.Go? ==>
      && (!p.state.ParsingHeader() ==> Slack(p) <= Slack(a.next))
      && (InLoop(p.state, a.next.state) ==> Slack(p) <= Slack(a.next) && !a.again)
      && (p.state.ParsingHeader() && !a.again && !Resets(p.state) ==> Slack(p) <= 1 + Slack(a.next))
      && (p.state.ParsingHeader() && a.again ==>
            Slack(p) + (if p.state.HeaderValue? then 0 else 1) <= Slack(a.next) && !Resets(p.state)))
  }

  lemma SlackStatusLine(p: Parser, ch: byte)
    ensures SlackOk(p, StatusLine(p, ch))
  {
    hide Version;
  }

  lemma SlackRequestLine(p: Parser, ch: byte)
    ensures SlackOk(p, RequestLine(p, ch))
  {
    hide Version, MethodChar, SwitchVerb, FirstGuess, ParseUrlChar;
  }

  lemma HeaderStays(p: Parser, ch: byte, c: byte)
    ensures NameChar(p, ch, c).state == p.state && NameChar(p, ch, c).flags == p.flags
    ensures var a := ValueStart(p, ch);
            !a.Upgraded? && (a.Go? ==> a.next.state.HeaderValue? && a.next.flags.trailing == p.flags.trailing && !a.again)
    ensures HeaderFlags(p).trailing == p.flags.trailing
  {
  }

  lemma ValueTrailing(p: Parser, ch: byte)
    ensures var q := ValueChar(p, ch); q.Some? ==> q.value.state == p.state && q.value.flags.trailing == p.flags.trailing
  {
    hide Token;
  }

  lemma SlackHeaders(p: Parser, ch: byte)
    ensures SlackOk(p, Headers(p, ch))
  {
    if InHeader(p.state) {
      SlackInHeader(p, ch);
    } else if InHeaderEnd(p.state) {
      SlackHeaderEnd(p, ch);
    } else {
      hide NameChar, ValueStart, ValueChar, HeaderFlags, KeepAlive, Token;
    }
  }

  lemma SlackHeaderEnd(p: Parser, ch: byte)
    requires InHeaderEnd(p.state)
    ensures SlackOk(p, Headers(p, ch))
  {
    HeaderStays(p, ch, ch);
    hide NameChar, ValueStart, ValueChar, HeaderFlags, KeepAlive, Token;
  }

  lemma SlackInHeader(p: Parser, ch: byte)
    requires InHeader(p.state)
    ensures SlackOk(p, Headers(p, ch))
  {
    HeaderStays(p, ch, Token(ch));
    ValueTrailing(p, ch);
    hide Token, NameChar, ValueStart, ValueChar, HeaderFlags, KeepAlive;
  }

  lemma SlackBody(p: Parser, ch: byte)
    ensures SlackOk(p, Body(p, ch))
  {
  }

  lemma SlackStart(p: Parser, ch: byte)
    ensures SlackOk(p, Start(p, ch))
  {
  }

  lemma SlackStep(p: Parser, ch: byte)
    ensures SlackOk(p, Step(p, ch))
  {
    hide SlackOk, StatusLine, RequestLine, Headers, Body, Start;
    SlackStatusLine(p, ch);
    SlackRequestLine(p, ch);
    SlackHeaders(p, ch);
    SlackBody(p, ch);
    SlackStart(p, ch);
  }

  lemma SlackBound(p: Parser)
    ensures Slack(p) <= 4 && (p.state.HeaderField? || p.state.HeaderValue? ==> Slack(p) <= 1)
  {
  }

  /** A header section of so many bytes is accepted, however it is cut. */
  const SAFE_HEADER_SIZE: nat := 40958

  ghost predicate Below(p: Parser, n: nat, b: nat) {
    b <= SAFE_HEADER_SIZE && n <= 2 * b + Slack(p)
  }

  ghost predicate BelowIn(p: Parser, n: nat, b: nat, k: nat) {
    && b <= SAFE_HEADER_SIZE && n + 2 * k <= 2 * b + Slack(p) + (if p.state.ParsingHeader() then 1 else 0)
    && (k > 0 ==> p.state.HeaderField? || p.state.HeaderValue?) && n <= HTTP_MAX_HEADER_SIZE
  }

  /** What the counter and the bytes come to, from here to the end of the buffer. */
  ghost predicate Fits(p: Parser, log: seq<Event>, t: Option<nat>, w: Option<nat>, data: seq<byte>, i: nat)
    requires i <= |data|
  {
    w.Some? ==> t.Some? && (var o := Run(p, log, data, i); o.Done? ==> Below(o.next, t.value, w.value))
  }

  /** Short header sections do not overflow. */
  lemma {:induction false} TallyWithin(p: Parser, log: seq<Event>, n: nat, b: nat, data: seq<byte>, i: nat)
    requires i <= |data| && Below(p, n, b)
    ensures Fits(p, log, Tally(p, n, data, i), Weigh(p, b, data, i, SAFE_HEADER_SIZE), data, i)
    decreases |data| - i, Rank(p.state), 1
  {
    hide Step;
    SlackBound(p);
    hide Slack;
    if i < |data| && !(p.state.ParsingHeader() && b + 1 > SAFE_HEADER_SIZE) {
      TallyInWithin(p, log, if p.state.ParsingHeader() then n + 1 else n, b, data, i, 0);
    }
  }

  lemma {:induction false} TallyInWithin(p: Parser, log: seq<Event>, n: nat, b: nat, data: seq<byte>, i: nat, k: nat)
    requires i <= |data| && (p.state.HeaderValue? ==> n > 0) && BelowIn(p, n, b, k) && (i == |data| ==> k > 0)
    ensures Fits(p, log, TallyIn(p, n, data, i, k), Weigh(p, b, data, i, SAFE_HEADER_SIZE), data, i)
    decreases |data| - i, Rank(p.state), 0
  {
    hide Step, JoinNote, JoinData;
    SlackBound(p);
    if i < |data| && !(p.state.ParsingHeader() && b + 1 > SAFE_HEADER_SIZE) {
      AgainDecreases(p, data[i]);
      SlackStep(p, data[i]);
      hide Slack;
      match Step(p, data[i])
      case Fail(_) =>
      case Upgraded(_, _) =>
      case Go(q, kind, _, note, again) =>
        var l := JoinNote(JoinData(log, kind, [data[i]]), note);
        if InLoop(p.state, q.state) {
          TallyInWithin(q, l, n, b + 1, data, i + 1, k + 1);
        } else {
          var m := if p.state.HeaderValue? && again then n + k + k - 1 else n + k;
          TallyWithin(q, l, if Resets(p.state) then 0 else m,
                      if Resets(p.state) then 0 else if again || !p.state.ParsingHeader() then b else b + 1,
                      data, if again then i else i + 1);
        }
    }
  }

  /** The counter is never below the bytes. */
  ghost predicate Bounds(p: Parser, log: seq<Event>, t: Option<nat>, w: Option<nat>, data: seq<byte>, i: nat)
    requires i <= |data|
  {
    t.Some? && !Run(p, log, data, i).Failed? ==>
      w.Some? && t.value <= HTTP_MAX_HEADER_SIZE && w.value <= t.value
  }

  /** What is accepted has short header sections. */
  lemma {:induction false} TallyBounds(p: Parser, log: seq<Event>, n: nat, b: nat, data: seq<byte>, i: nat)
    requires i <= |data| && b <= n <= HTTP_MAX_HEADER_SIZE
    ensures Bounds(p, log, Tally(p, n, data, i), Weigh(p, b, data, i, HTTP_MAX_HEADER_SIZE), data, i)
    decreases |data| - i, Rank(p.state), 1
  {
    hide Step;
    if i < |data| && !(p.state.ParsingHeader() && n + 1 > HTTP_MAX_HEADER_SIZE) {
      TallyInBounds(p, log, if p.state.ParsingHeader() then n + 1 else n, b, data, i, 0);
    }
  }

  lemma {:induction false} TallyInBounds(p: Parser, log: seq<Event>, n: nat, b: nat, data: seq<byte>, i: nat, k: nat)
    requires i <= |data| && (p.state.HeaderValue? ==> n > 0) && n <= HTTP_MAX_HEADER_SIZE
    requires k > 0 ==> p.state.HeaderField? || p.state.HeaderValue?
    requires b + (if p.state.ParsingHeader() then 1 else 0) <= n + k
    ensures Bounds(p, log, TallyIn(p, n, data, i, k), Weigh(p, b, data, i, HTTP_MAX_HEADER_SIZE), data, i)
    ensures TallyIn(p, n, data, i, k).Some? && !Run(p, log, data, i).Failed? ==> n + k <= HTTP_MAX_HEADER_SIZE
    decreases |data| - i, Rank(p.state), 0
  {
    hide Step, JoinNote, JoinData, Slack;
    if i < |data| {
      AgainDecreases(p, data[i]);
      SlackStep(p, data[i]);
      match Step(p, data[i])
      case Fail(_) =>
      case Upgraded(_, _) =>
      case Go(q, kind, _, note, again) =>
        var l := JoinNote(JoinData(log, kind, [data[i]]), note);
        if InLoop(p.state, q.state) {
          TallyInBounds(q, l, n, b + 1, data, i + 1, k + 1);
        } else if TallyIn(p, n, data, i, k).Some? {
          var m := if p.state.HeaderValue? && again then n + k + k - 1 else n + k;
          TallyBounds(q, l, if Resets(p.state) then 0 else m,
                      if Resets(p.state) then 0 else if again || !p.state.ParsingHeader() then b else b + 1,
                      data, if again then i else i + 1);
        }
    }
  }

  /** The line feeds that end a head, the size of a chunk and its data start the count anew;
      one in a header line is counted. */
  lemma CountEnds(p: Parser, n: nat)
    requires n <= 81918
    ensures p.state.HeadersAlmostDone? && !p.flags.trailing ==> Tally(p, n, [LF], 0) == Some(0)
    ensures p.state.ChunkSizeAlmostDone? || p.state.ChunkDataDone? ==> Tally(p, n, [LF], 0) == Some(0)
    ensures p.state.HeaderAlmostDone? || p.state.ResLineAlmostDone? || p.state.ReqLineAlmostDone? ==> Tally(p, n, [LF], 0) == Some(n + 1)
  {
    if p.state.HeadersAlmostDone? && !p.flags.trailing {
      EndOfHead(p);
      hide Step;
      var a := Step(p, LF);
      EndOfHead(a.next);
      assert Tally(p, n, [LF], 0) == TallyIn(p, n + 1, [LF], 0, 0);
      assert TallyIn(p, n + 1, [LF], 0, 0) == Tally(a.next, n + 1, [LF], 0);
      assert Tally(a.next, n + 1, [LF], 0) == TallyIn(a.next, n + 2, [LF], 0, 0);
      match Step(a.next, LF) {
        case Go(q, _, _, _, _) => assert TallyIn(a.next, n + 2, [LF], 0, 0) == Tally(q, 0, [LF], 1);
        case _ =>
      }
    } else if p.state.ChunkSizeAlmostDone? || p.state.ChunkDataDone? || p.state.HeaderAlmostDone?
        || p.state.ResLineAlmostDone? || p.state.ReqLineAlmostDone? {
      OtherLines(p);
      hide Step;
      var q, m := Step(p, LF).next, if p.state.ParsingHeader() then n + 1 else n;
      assert Tally(p, n, [LF], 0) == TallyIn(p, m, [LF], 0, 0);
      assert TallyIn(p, m, [LF], 0, 0) == Tally(q, if Resets(p.state) then 0 else m, [LF], 1);
    }
  }

  lemma EndOfHead(p: Parser)
    ensures p.state.HeadersAlmostDone? && !p.flags.trailing ==> Step(p, LF).Go? && Step(p, LF).again && Step(p, LF).next.state.HeadersDone?
    ensures p.state.HeadersDone? ==> Step(p, LF).Upgraded? || (Step(p, LF).Go? && !Step(p, LF).again)
  {
    hide StatusLine, RequestLine, Body, Start, HeaderFlags, KeepAlive;
  }

  lemma OtherLines(p: Parser)
    ensures || p.state.ChunkSizeAlmostDone? || p.state.ChunkDataDone? || p.state.HeaderAlmostDone?
            || p.state.ResLineAlmostDone? || p.state.ReqLineAlmostDone?
            ==> Step(p, LF).Go? && !Step(p, LF).again && !Step(p, LF).next.state.HeaderField? && !Step(p, LF).next.state.HeaderValue?
  {
    hide Start, HeaderFlags, KeepAlive;
  }

  // ---- Cut streams ----

  /** When no header section of the stream is longer than 40958 bytes, no cut of it makes
      the parser report a header overflow. */
  lemma {:induction false} NoOverflow(p: Parser, log: seq<Event>, n: nat, b: nat, pieces: seq<seq<byte>>)
    requires Below(p, n, b) && Weigh(p, b, Concat(pieces), 0, 40958).Some?
    ensures TallyPieces(p, log, n, pieces).Some?
    decreases |pieces|
  {
    hide Tally, Weigh, Run, Slack;
    if pieces != [] {
      var a, c := pieces[0], Concat(pieces[1..]);
      WeighSplit(p, log, b, a, c, 0, SAFE_HEADER_SIZE);
      TallyWithin(p, log, n, b, a, 0);
      var o := Run(p, log, a, 0);
      if o.Done? {
        var b' := Weigh(p, b, a, 0, SAFE_HEADER_SIZE).value;
        WeighDrop(o.next, b', a, c, 0, SAFE_HEADER_SIZE);
        NoOverflow(o.next, o.log, Tally(p, n, a, 0).value, b', pieces[1..]);
      }
    }
  }

  /** No cut of a stream gets a header section past the parser that is longer than 81920
      bytes. */
  lemma {:induction false} NeverLarger(p: Parser, log: seq<Event>, n: nat, b: nat, pieces: seq<seq<byte>>)
    requires b <= n <= 81920
    requires TallyPieces(p, log, n, pieces).Some? && RunPieces(p, log, pieces).Done?
    ensures Weigh(p, b, Concat(pieces), 0, 81920).Some?
    decreases |pieces|
  {
    hide Tally, Weigh, Run;
    if pieces == [] {
      WeighNothing(p, b, HTTP_MAX_HEADER_SIZE);
    } else {
      var a, c := pieces[0], Concat(pieces[1..]);
      TallyBounds(p, log, n, b, a, 0);
      WeighSplit(p, log, b, a, c, 0, HTTP_MAX_HEADER_SIZE);
      var o := Run(p, log, a, 0);
      var b' := Weigh(p, b, a, 0, HTTP_MAX_HEADER_SIZE).value;
      WeighDrop(o.next, b', a, c, 0, HTTP_MAX_HEADER_SIZE);
      NeverLarger(o.next, o.log, Tally(p, n, a, 0).value, b', pieces[1..]);
    }
  }

  lemma WeighNothing(p: Parser, b: nat, limit: nat)
    ensures Weigh(p, b, [], 0, limit) == Some(b)
  {
  }
}
