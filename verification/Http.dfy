/** http_parser_execute: the buffer-at-a-time parser, with marks and bulk loops. */
module Http {
  import opened Wrappers

  import opened HttpChars
  import opened HttpAutomaton
  import opened HttpRun
  import opened HttpCount
  import opened HttpMarks

  /** The largest buffer whose bytes cannot wrap the 32 bits of nread. */
  const MAX_BUFFER: nat := 0x1_0000_0000 - 2 * HTTP_MAX_HEADER_SIZE

  // ---- Where a call stands ----

  datatype Cursor = Cursor(core: Parser, log: seq<Event>, nread: nat, marks: Marks, at: nat)

  ghost predicate CursorIn(c: Cursor, data: seq<byte>) {
    c.at <= |data| && MarksOk(c.core.state, c.marks, c.at) && Inv(c.core) && c.nread <= HTTP_MAX_HEADER_SIZE
  }

  ghost predicate CursorOk(c: Cursor, data: seq<byte>) {
    CursorIn(c, data) && (c.core.state.ChunkSizeStart? ==> c.nread == 0)
  }

  ghost function Rest(c: Cursor, data: seq<byte>): Outcome
    requires CursorIn(c, data)
  {
    Future(c.core, c.log, c.marks, data, c.at)
  }

  /** A turn of the main loop has begun: the byte at the cursor is counted. */
  ghost predicate Entered(c: Cursor, data: seq<byte>) {
    CursorIn(c, data) && (c.core.state.HeaderValue? ==> c.nread > 0)
  }

  /** From c to d the run is the same, and some bytes were read or one will be executed
      again. */
  ghost predicate Advance(c: Cursor, d: Cursor, data: seq<byte>)
    requires CursorIn(c, data)
  {
    && CursorOk(d, data)
    && Rest(d, data) == Rest(c, data)
    && c.log <= d.log
    && (c.at < d.at || (c.at == d.at && Rank(d.core.state) < Rank(c.core.state)))
  }

  /** The turn that began at c has come to d, with the counter that it should have. */
  ghost predicate Progress(c: Cursor, d: Cursor, data: seq<byte>)
    requires Entered(c, data)
  {
    && Advance(c, d, data)
    && Tally(d.core, d.nread, data, d.at) == TallyIn(c.core, c.nread, data, c.at, 0)
  }

  /** d is further on in the inner loop of the turn that began at c. */
  ghost predicate SameTurn(c: Cursor, d: Cursor, data: seq<byte>)
    requires Entered(c, data)
  {
    && Entered(d, data) && c.at <= d.at && Rest(d, data) == Rest(c, data)
    && TallyIn(d.core, d.nread, data, d.at, d.at - c.at) == TallyIn(c.core, c.nread, data, c.at, 0)
  }

  /** From c to e the inner loop has skipped more than the limit, line ends perhaps included. */
  ghost predicate Lost(c: Cursor, e: nat, data: seq<byte>)
    requires Entered(c, data)
  {
    e - c.at > HTTP_MAX_HEADER_SIZE && TallyIn(c.core, c.nread, data, c.at, 0).None?
  }

  /** The turn that began at c ends the call: with a header overflow exactly when the
      counter says so, and as the run does otherwise. */
  ghost predicate Halts(c: Cursor, data: seq<byte>, core: Parser, nread: nat, log: seq<Event>, errno: Option<Errno>, n: int)
    requires Entered(c, data)
  {
    match TallyIn(c.core, c.nread, data, c.at, 0)
    case None => errno == Some(HeaderOverflow)
    case Some(m) => Ended(Rest(c, data), core, log, errno, n) && (errno.None? ==> nread == m == 0)
  }

  /** The call ends as the outcome says. */
  ghost predicate Ended(o: Outcome, core: Parser, log: seq<Event>, errno: Option<Errno>, n: int) {
    match o
    case Done(q, l) => false
    case Failed(e, at) => errno == Some(e) && n == at
    case Switched(q, l, at) => errno.None? && core == q && Joined(log) == l && n == at && Inv(q) && !q.state.ChunkSizeStart?
  }

  lemma FailedRest(c: Cursor, data: seq<byte>)
    requires CursorIn(c, data) && c.at < |data| && Step(c.core, data[c.at]).Fail?
    ensures Rest(c, data) == Failed(Step(c.core, data[c.at]).errno, c.at)
  {
    hide Step, Inv, OpenKind;
  }

  lemma UpgradedRun(c: Cursor, data: seq<byte>)
    requires CursorIn(c, data) && c.at < |data| && Step(c.core, data[c.at]).Upgraded?
    ensures var a := Step(c.core, data[c.at]);
            Ended(Rest(c, data), a.next, c.log + [a.last], None, c.at + 1)
  {
    hide Step, Inv, OpenKind, Join, Joined;
    TidyStep(c.core, data[c.at]);
    InvStep(c.core, data[c.at]);
    JoinedAppend(c.log, Step(c.core, data[c.at]).last);
  }

  /** What one byte does to the cursor. */
  function Next(c: Cursor, data: seq<byte>): Cursor
    requires c.at < |data| && Step(c.core, data[c.at]).Go? && (forall k :: k in c.marks ==> c.marks[k] <= c.at)
  {
    var a := Step(c.core, data[c.at]);
    var marks := SetMark(c.marks, EmptyMark(c.core, a), c.at);
    var reset := c.core.state.HeadersDone? || c.core.state.ChunkSizeAlmostDone? || c.core.state.ChunkDataDone?;
    Cursor(a.next, Noted(Flushed(c.log, marks, a.flush, data, c.at), a.note), if reset then 0 else c.nread,
           Unmark(marks, a.flush), if a.again then c.at else c.at + 1)
  }

  lemma NextOk(c: Cursor, data: seq<byte>)
    requires CursorIn(c, data) && c.at < |data| && Step(c.core, data[c.at]).Go? && !c.core.state.BodyIdentity?
    requires c.core.state.ChunkSizeStart? ==> c.nread == 1
    ensures Advance(c, Next(c, data), data)
  {
    hide Step, Inv, MarksOk, Future;
    MarksBounded(c, data);
    StepOk(c.core, c.log, c.marks, data, c.at);
    InvStep(c.core, data[c.at]);
    TidyStep(c.core, data[c.at]);
    AgainDecreases(c.core, data[c.at]);
  }

  /** The counter over a byte that ends no inner loop. */
  lemma NextTally(c: Cursor, data: seq<byte>)
    requires Entered(c, data) && c.at < |data| && Step(c.core, data[c.at]).Go?
    requires !c.core.state.HeaderField? && !c.core.state.HeaderValue?
    ensures forall k :: k in c.marks ==> c.marks[k] <= c.at
    ensures var d := Next(c, data); Tally(d.core, d.nread, data, d.at) == TallyIn(c.core, c.nread, data, c.at, 0)
  {
    hide Step, Inv, MarksOk, Tally, TallyIn;
    MarksBounded(c, data);
    TallyEnd(c.core, c.nread, data, c.at, 0);
  }

  lemma MarksBounded(c: Cursor, data: seq<byte>)
    requires CursorIn(c, data)
    ensures forall k :: k in c.marks ==> c.marks[k] <= c.at
  {
  }

  // ---- Bulk loops against single bytes ----

  lemma NameNext(c: Cursor, data: seq<byte>)
    requires CursorIn(c, data) && c.at < |data| && c.core.state.HeaderField? && Token(data[c.at]) != '\0'
    ensures Step(c.core, data[c.at]).Go? && forall k :: k in c.marks ==> c.marks[k] <= c.at
    ensures Next(c, data) == c.(core := NameChar(c.core, data[c.at], Token(data[c.at])), at := c.at + 1)
  {
    hide NameChar, Token, Inv;
  }

  lemma ValueNext(c: Cursor, data: seq<byte>)
    requires CursorIn(c, data) && c.at < |data| && c.core.state.HeaderValue? && data[c.at] != CR && data[c.at] != LF
    requires ValueChar(c.core, data[c.at]).Some?
    ensures Step(c.core, data[c.at]).Go? && forall k :: k in c.marks ==> c.marks[k] <= c.at
    ensures Next(c, data) == c.(core := ValueChar(c.core, data[c.at]).value, at := c.at + 1)
  {
    hide ValueChar, Inv;
  }

  /** The end of a header name. */
  lemma NameEnds(c: Cursor, data: seq<byte>)
    requires CursorIn(c, data) && c.at < |data| && c.core.state.HeaderField? && Token(data[c.at]) == '\0'
    ensures forall k :: k in c.marks ==> c.marks[k] <= c.at
    ensures FieldData in c.marks
    ensures data[c.at] != ':' ==> Step(c.core, data[c.at]) == Fail(InvalidHeaderToken)
    ensures data[c.at] == ':' ==>
      && Step(c.core, data[c.at]).Go?
      && Next(c, data) == Cursor(c.core.(state := HeaderValueDiscardWs),
                                 c.log + [OnData(FieldData, data[c.marks[FieldData]..c.at])], c.nread,
                                 c.marks - {FieldData}, c.at + 1)
  {
    hide Token, Inv, NameChar;
  }

  /** The end of the line of a header value. */
  lemma ValueEnds(c: Cursor, data: seq<byte>)
    requires CursorIn(c, data) && c.at < |data| && c.core.state.HeaderValue? && (data[c.at] == CR || data[c.at] == LF)
    ensures forall k :: k in c.marks ==> c.marks[k] <= c.at
    ensures ValueData in c.marks && Step(c.core, data[c.at]).Go?
    ensures Next(c, data) == Cursor(c.core.(state := HeaderAlmostDone),
                                    c.log + [OnData(ValueData, data[c.marks[ValueData]..c.at])], c.nread,
                                    c.marks - {ValueData}, if data[c.at] == LF then c.at else c.at + 1)
  {
    hide Token, Inv, ValueChar;
  }

  lemma ValueBad(c: Cursor, data: seq<byte>)
    requires CursorIn(c, data) && c.at < |data| && c.core.state.HeaderValue? && data[c.at] != CR && data[c.at] != LF
    requires ValueChar(c.core, data[c.at]).None?
    ensures Step(c.core, data[c.at]) == Fail(InvalidContentLength)
  {
    hide ValueChar, Inv;
  }

  /** The counter at the end of the loop over a header name, after k bytes. */
  lemma NameTally(d: Cursor, data: seq<byte>, k: nat)
    requires CursorIn(d, data) && d.core.state.HeaderField? && (d.at < |data| ==> Token(data[d.at]) == '\0')
    ensures var t := TallyIn(d.core, d.nread, data, d.at, k);
            var c := d.(nread := d.nread + k);
            if c.nread > HTTP_MAX_HEADER_SIZE then t.None?
            else if d.at == |data| then t == Tally(c.core, c.nread, data, c.at)
            else if data[d.at] != ':' then t.Some?
            else Step(c.core, data[c.at]).Go? && (forall m :: m in c.marks ==> c.marks[m] <= c.at)
                 && t == Tally(Next(c, data).core, Next(c, data).nread, data, Next(c, data).at)
  {
    hide Step, Inv, MarksOk, Tally, TallyIn;
    if d.at == |data| {
      TallyLast(d.core, d.nread, data, k);
      TallyDone(d.core, d.nread + k, data);
    } else {
      NameEnds(d, data);
      if data[d.at] == ':' {
        TallyEnd(d.core, d.nread, data, d.at, k);
      } else {
        TallyFail(d.core, d.nread, data, d.at, k);
      }
    }
  }

  /** The counter at the end of the line of a header value, after k bytes. */
  lemma ValueTally(d: Cursor, data: seq<byte>, k: nat)
    requires CursorIn(d, data) && d.core.state.HeaderValue? && d.nread > 0
    requires d.at < |data| && (data[d.at] == CR || data[d.at] == LF)
    ensures var m := if data[d.at] == LF then d.nread + k + k - 1 else d.nread + k;
            var c := d.(nread := m);
            var t := TallyIn(d.core, d.nread, data, d.at, k);
            if d.nread + k > HTTP_MAX_HEADER_SIZE || m > HTTP_MAX_HEADER_SIZE then t.None?
            else Step(c.core, data[c.at]).Go? && (forall j :: j in c.marks ==> c.marks[j] <= c.at)
                 && t == Tally(Next(c, data).core, Next(c, data).nread, data, Next(c, data).at)
  {
    hide Step, Inv, MarksOk, Tally, TallyIn;
    ValueEnds(d, data);
    TallyEnd(d.core, d.nread, data, d.at, k);
  }

  /** In an uninteresting value everything up to the end of the line is skipped. */
  lemma {:induction false} GeneralRun(c: Cursor, data: seq<byte>, j: nat)
    requires CursorIn(c, data) && c.at <= j <= |data| && c.core.state.HeaderValue? && c.core.hstate.HGeneral?
    requires forall k :: c.at <= k < j ==> data[k] != CR && data[k] != LF
    ensures CursorIn(c.(at := j), data) && Rest(c.(at := j), data) == Rest(c, data)
    decreases j - c.at
  {
    if c.at == j {
      assert c.(at := j) == c;
    } else {
      assert ValueChar(c.core, data[c.at]) == Some(c.core);
      hide Rest, Inv, MarksOk;
      ValueNext(c, data);
      NextOk(c, data);
      assert c.(at := c.at + 1).(at := j) == c.(at := j);
      GeneralRun(c.(at := c.at + 1), data, j);
    }
  }

  /** A bulk loop from c to d, and then progress to e. */
  lemma BulkProgress(c: Cursor, d: Cursor, e: Cursor, data: seq<byte>)
    requires CursorIn(c, data) && CursorIn(d, data) && Rest(d, data) == Rest(c, data) && Advance(d, e, data)
    requires c.log <= d.log && c.at <= d.at && Rank(c.core.state) == Rank(d.core.state)
    ensures Advance(c, e, data)
  {
    hide Rest, CursorIn;
  }

  /** k bytes of a body or chunk, of which more than k are left. */
  lemma {:induction false} BodyRun(p: Parser, log: seq<Event>, data: seq<byte>, m: nat, i: nat, k: nat)
    requires m <= i && i + k <= |data| && k < p.length
    requires p.state.BodyIdentity? || p.state.ChunkData?
    ensures Run(p, Join(log, OnData(BodyData, data[m..i])), data, i) ==
            Run(p.(length := p.length - k), Join(log, OnData(BodyData, data[m..i + k])), data, i + k)
    decreases k
  {
    hide Step, Run, Join;
    var r := p.(length := p.length - k);
    if k == 0 {
      assert r == p;
    } else {
      var q := p.(length := p.length - 1);
      BodyStep(p, data[i]);
      DataStep(p, log, BodyData, data, m, i);
      BodyRun(q, log, data, m, i + 1, k - 1);
      assert r == q.(length := q.length - (k - 1));
      assert i + 1 + (k - 1) == i + k;
    }
  }

  lemma {:induction false} EofRun(p: Parser, log: seq<Event>, data: seq<byte>, m: nat, i: nat)
    requires m <= i <= |data| && p.state.BodyIdentityEof?
    ensures Run(p, Join(log, OnData(BodyData, data[m..i])), data, i) ==
            Run(p, Join(log, OnData(BodyData, data[m..])), data, |data|)
    decreases |data| - i
  {
    if i == |data| {
      assert data[m..i] == data[m..];
    } else {
      assert Step(p, data[i]) == Body(p, data[i]) == Go(p, Some(BodyData), None, None, false);
      hide Step;
      DataStep(p, log, BodyData, data, m, i);
      EofRun(p, log, data, m, i + 1);
    }
  }

  /** There are n bytes left in the body or chunk, and in the buffer. */
  ghost predicate CanCount(c: Cursor, data: seq<byte>, n: nat) {
    && 0 < n <= c.core.length && c.at + n <= |data| && (BodyData in c.marks ==> c.marks[BodyData] <= c.at)
    && (c.core.state.BodyIdentity? || c.core.state.ChunkData?)
  }

  /** The cursor after n bytes of a body or chunk. */
  ghost function AfterCounted(c: Cursor, data: seq<byte>, n: nat): Cursor
    requires CanCount(c, data, n)
  {
    var p := c.core.(length := c.core.length - n);
    var marks := SetMark(c.marks, Some(BodyData), c.at);
    if p.length > 0 then c.(core := p, marks := marks, at := c.at + n)
    else if p.state.BodyIdentity? then
      c.(core := p.(state := MessageDone), log := c.log + [OnData(BodyData, data[marks[BodyData]..c.at + n])],
         marks := marks - {BodyData}, at := c.at + n - 1)
    else c.(core := p.(state := ChunkDataAlmostDone), marks := marks, at := c.at + n)
  }

  lemma CountedRun(p: Parser, log: seq<Event>, data: seq<byte>, m: nat, i: nat, n: nat)
    requires m <= i && i + n <= |data| && 0 < n <= p.length && (p.state.BodyIdentity? || p.state.ChunkData?)
    ensures Run(p, Join(log, OnData(BodyData, data[m..i])), data, i) ==
            var q := p.(length := p.length - n);
            var l := Join(log, OnData(BodyData, data[m..i + n]));
            if q.length > 0 then Run(q, l, data, i + n)
            else if p.state.BodyIdentity? then Run(q.(state := MessageDone), l, data, i + n - 1)
            else Run(q.(state := ChunkDataAlmostDone), l, data, i + n)
  {
    hide Step, Run, Join;
    if n < p.length {
      BodyRun(p, log, data, m, i, n);
    } else {
      BodyRun(p, log, data, m, i, n - 1);
      LastBodyStep(p.(length := 1), data[i + n - 1]);
      DataStep(p.(length := 1), log, BodyData, data, m, i + n - 1);
    }
  }

  lemma CountedKeeps(p: Parser, n: nat)
    requires Inv(p) && 0 < n <= p.length && (p.state.BodyIdentity? || p.state.ChunkData?)
    ensures var q := p.(length := p.length - n);
            if q.length > 0 then Inv(q) else Inv(q.(state := MessageDone)) && (p.state.ChunkData? ==> Inv(q.(state := ChunkDataAlmostDone)))
  {
  }

  /** The asserts of s_body_identity and s_chunk_data. */
  lemma BodyAsserts(p: Parser)
    requires Inv(p) && (p.state.BodyIdentity? || p.state.ChunkData?)
    ensures p.length != 0 && p.length != ULLONG_MAX && (p.state.ChunkData? ==> p.flags.chunked)
  {
  }

  lemma CountedIn(c: Cursor, data: seq<byte>, n: nat)
    requires CursorIn(c, data) && (c.core.state.BodyIdentity? || c.core.state.ChunkData?)
    requires 0 < n <= c.core.length && c.at + n <= |data|
    ensures CanCount(c, data, n)
    ensures CursorIn(AfterCounted(c, data, n), data)
  {
    hide Inv;
    CountedKeeps(c.core, n);
    MarksBounded(c, data);
    var d := AfterCounted(c, data, n);
    BodyMarks(c.core.state, c.marks, c.at, d.core.state, d.at);
    hide MarksOk, OpenKind;
  }

  lemma BodyMarks(s: State, marks: Marks, i: nat, s': State, j: nat)
    requires MarksOk(s, marks, i) && (s.BodyIdentity? || s.ChunkData?)
    ensures i <= j && (s' == s || s'.ChunkDataAlmostDone?) ==> MarksOk(s', SetMark(marks, Some(BodyData), i), j)
    ensures s'.MessageDone? ==> MarksOk(s', SetMark(marks, Some(BodyData), i) - {BodyData}, j)
  {
  }

  /** The log once the body that is marked has been called back. */
  ghost function BodyLog(c: Cursor, data: seq<byte>): seq<Event>
    requires c.at <= |data| && (BodyData in c.marks ==> c.marks[BodyData] <= c.at)
  {
    if BodyData in c.marks then Join(Joined(c.log), OnData(BodyData, data[c.marks[BodyData]..c.at])) else Joined(c.log)
  }

  lemma BodyRest(c: Cursor, data: seq<byte>)
    requires CursorIn(c, data)
    ensures BodyData in c.marks ==> c.marks[BodyData] <= c.at
    ensures OpenKind(c.core.state) == Some(BodyData) || c.core.state.MessageDone? ==>
      Rest(c, data) == Run(c.core, BodyLog(c, data), data, c.at)
  {
    hide Run, Join, Joined, Inv;
  }

  /** Where the body begins that the next bytes add to. */
  function BodyMark(c: Cursor): nat {
    SetMark(c.marks, Some(BodyData), c.at)[BodyData]
  }

  lemma CountedLog(c: Cursor, data: seq<byte>, n: nat)
    requires CanCount(c, data, n)
    ensures BodyMark(c) <= c.at
    ensures BodyLog(c, data) == Join(Joined(c.log), OnData(BodyData, data[BodyMark(c)..c.at]))
    ensures var d := AfterCounted(c, data, n);
            && d.at <= |data| && (BodyData in d.marks ==> d.marks[BodyData] <= d.at)
            && BodyLog(d, data) == Join(Joined(c.log), OnData(BodyData, data[BodyMark(c)..c.at + n]))
  {
    hide Join, Joined;
    EmptyJoin(Joined(c.log), BodyData);
    assert data[c.at..c.at] == [];
    JoinedAppend(c.log, OnData(BodyData, data[BodyMark(c)..c.at + n]));
  }

  lemma CountedRest(c: Cursor, data: seq<byte>, n: nat)
    requires CursorIn(c, data) && CanCount(c, data, n) && CursorIn(AfterCounted(c, data, n), data)
    ensures Rest(AfterCounted(c, data, n), data) == Rest(c, data)
  {
    hide Run, Join, Joined, Inv, CursorIn, Rest, BodyLog, BodyMark;
    BodyRest(c, data);
    BodyRest(AfterCounted(c, data, n), data);
    CountedLog(c, data, n);
    CountedRun(c.core, Joined(c.log), data, BodyMark(c), c.at, n);
  }

  lemma CountedOk(c: Cursor, data: seq<byte>, n: nat)
    requires CursorIn(c, data) && (c.core.state.BodyIdentity? || c.core.state.ChunkData?)
    requires 0 < n <= c.core.length && c.at + n <= |data|
    ensures CanCount(c, data, n)
    ensures Progress(c, AfterCounted(c, data, n), data)
  {
    hide Rest, CursorIn, TallyIn, Tally;
    CountedIn(c, data, n);
    CountedRest(c, data, n);
    CountedTally(c, data, n);
  }

  lemma CountedTally(c: Cursor, data: seq<byte>, n: nat)
    requires CursorIn(c, data) && CanCount(c, data, n)
    ensures var d := AfterCounted(c, data, n); Tally(d.core, d.nread, data, d.at) == TallyIn(c.core, c.nread, data, c.at, 0)
  {
    hide Inv, MarksOk, TallyIn, Tally, SetMark;
    TallyNow(c.core, c.nread, data, c.at);
    TallyCounted(c.core, c.nread, data, c.at, n);
  }

  /** A turn in a body state begins without counting. */
  lemma TallyNow(p: Parser, n: nat, data: seq<byte>, i: nat)
    requires i < |data| && !p.state.ParsingHeader()
    ensures Tally(p, n, data, i) == TallyIn(p, n, data, i, 0)
  {
  }

  lemma ToEofOk(c: Cursor, data: seq<byte>)
    requires CursorIn(c, data) && c.at < |data| && c.core.state.BodyIdentityEof?
    ensures Progress(c, c.(marks := SetMark(c.marks, Some(BodyData), c.at), at := |data|), data)
  {
    hide Run, Join, Joined, Inv, TallyIn;
    var m := SetMark(c.marks, Some(BodyData), c.at)[BodyData];
    EmptyJoin(Joined(c.log), BodyData);
    assert data[c.at..c.at] == [];
    EofRun(c.core, Joined(c.log), data, m, c.at);
    assert data[m..|data|] == data[m..];
    TallyNow(c.core, c.nread, data, c.at);
    TallyEof(c.core, c.nread, data, c.at);
  }

  /** One turn, from before its byte is counted. */
  ghost predicate Turned(c: Cursor, d: Cursor, data: seq<byte>)
    requires CursorIn(c, data)
  {
    Advance(c, d, data) && Tally(d.core, d.nread, data, d.at) == Tally(c.core, c.nread, data, c.at)
  }

  /** The turn, from before its byte is counted, ends the call. */
  ghost predicate Stops(c: Cursor, data: seq<byte>, core: Parser, nread: nat, log: seq<Event>, errno: Option<Errno>, n: int)
    requires CursorIn(c, data)
  {
    match Tally(c.core, c.nread, data, c.at)
    case None => errno == Some(HeaderOverflow)
    case Some(m) => Ended(Rest(c, data), core, log, errno, n) && (errno.None? ==> nread == m == 0)
  }

  /** Counting the byte on entry, within the limit. */
  lemma EntryOk(c: Cursor, d: Cursor, data: seq<byte>)
    requires CursorIn(c, data) && CursorIn(d, data) && c.at < |data|
    requires d == c.(nread := if c.core.state.ParsingHeader() then c.nread + 1 else c.nread)
    ensures Rest(d, data) == Rest(c, data)
    ensures Entered(d, data) && Tally(c.core, c.nread, data, c.at) == TallyIn(d.core, d.nread, data, d.at, 0)
  {
    hide Step, Inv, MarksOk, TallyIn;
  }

  lemma TurnOk(c: Cursor, d: Cursor, e: Cursor, data: seq<byte>)
    requires CursorIn(c, data) && Entered(d, data) && d == c.(nread := d.nread) && Rest(d, data) == Rest(c, data)
    requires Tally(c.core, c.nread, data, c.at) == TallyIn(d.core, d.nread, data, d.at, 0)
    requires Progress(d, e, data)
    ensures Turned(c, e, data)
  {
    hide CursorIn, CursorOk, Rest, Tally, TallyIn;
  }

  /** The final callbacks, in the order of http_parser_execute. */
  function FlushAll(log: seq<Event>, marks: Marks, data: seq<byte>): seq<Event>
    requires forall k :: k in marks ==> marks[k] <= |data|
  {
    var log := Flushed(log, marks, Some(FieldData), data, |data|);
    var log := Flushed(log, marks, Some(ValueData), data, |data|);
    var log := Flushed(log, marks, Some(UrlData), data, |data|);
    var log := Flushed(log, marks, Some(BodyData), data, |data|);
    Flushed(log, marks, Some(StatusData), data, |data|)
  }

  lemma FlushAllOk(c: Cursor, data: seq<byte>)
    requires CursorIn(c, data) && c.at == |data|
    ensures forall k :: k in c.marks ==> c.marks[k] <= |data|
    ensures Rest(c, data) == Done(c.core, Joined(FlushAll(c.log, c.marks, data)))
    ensures |c.marks| <= 1
  {
    hide Inv, Join, Joined;
    AtMostOneMark(c.core.state, c.marks, c.at);
    match OpenKind(c.core.state)
    case None =>
    case Some(k) =>
      if k in c.marks { JoinedAppend(c.log, OnData(k, data[c.marks[k]..|data|])); }
  }

  lemma StartOk(p: Parser, log: seq<Event>, nread: nat, data: seq<byte>)
    requires Inv(p) && nread <= HTTP_MAX_HEADER_SIZE
    ensures var c := Cursor(p, log, nread, StartMarks(p.state), 0);
            CursorIn(c, data) && Rest(c, data) == Run(p, Joined(log), data, 0)
  {
    hide Inv, Join, Joined, Run;
    var k := OpenKind(p.state);
    if MarkedAtStart(p.state) {
      EmptyJoin(Joined(log), k.value);
      assert data[0..0] == [];
    }
  }

  /** What a call on a non-empty buffer of len bytes returns, given the outcome of the run. */
  ghost predicate EndsAs(o: Outcome, core: Parser, log: seq<Event>, errno: Option<Errno>, n: nat, len: nat) {
    match o
    case Done(q, l) => errno.None? && core == q && Joined(log) == l && n == len
    case Failed(e, at) => errno == Some(e) && n == at
    case Switched(q, l, at) => errno.None? && core == q && Joined(log) == l && n == at
  }

  /** The run switches protocols at the end of a piece that is not the last one. */
  ghost predicate PassedBy(o: Outcome, pieces: seq<seq<byte>>) {
    o.Switched? && exists k :: 0 < k < |pieces| && |Concat(pieces[..k])| == o.at
  }

  lemma {:induction false} ConcatMore(a: seq<seq<byte>>, b: seq<byte>)
    ensures Concat(a + [b]) == Concat(a) + b
    decreases |a|
  {
    if a == [] {
      assert [b][1..] == [];
    } else {
      ConcatMore(a[1..], b);
      assert (a + [b])[1..] == a[1..] + [b];
    }
  }

  lemma {:induction false} ConcatPrefix(pieces: seq<seq<byte>>, k: nat)
    requires k <= |pieces|
    ensures |Concat(pieces[..k])| <= |Concat(pieces)|
    decreases |pieces| - k
  {
    if k < |pieces| {
      assert pieces[..k + 1] == pieces[..k] + [pieces[k]];
      ConcatMore(pieces[..k], pieces[k]);
      ConcatPrefix(pieces, k + 1);
    } else {
      assert pieces[..k] == pieces;
    }
  }

  /** A run fails at a byte, and switches protocols behind one. */
  lemma {:induction false} EndsWithin(p: Parser, log: seq<Event>, data: seq<byte>, i: nat)
    requires i <= |data|
    ensures var o := Run(p, log, data, i); (o.Failed? ==> o.at < |data|) && (o.Switched? ==> i < o.at <= |data|)
    decreases |data| - i, Rank(p.state)
  {
    hide Step;
    if i < |data| {
      AgainDecreases(p, data[i]);
      match Step(p, data[i])
      case Fail(e) =>
      case Upgraded(q, e) =>
      case Go(q, kind, f, note, again) =>
        EndsWithin(q, JoinNote(JoinData(log, kind, [data[i]]), note), data, if again then i else i + 1);
    }
  }

  /** memchr(data + p, c, limit) */
  method Memchr(data: seq<byte>, p: nat, c: byte, limit: nat) returns (q: Option<nat>)
    requires p + limit <= |data|
    ensures q.None? ==> c !in data[p..p + limit]
    ensures q.Some? ==> p <= q.value < p + limit && data[q.value] == c && c !in data[p..q.value]
  {
    var i := p;
    while i < p + limit
      invariant p <= i <= p + limit
      invariant c !in data[p..i]
    {
      if data[i] == c { return Some(i); }
      i := i + 1;
    }
    q := None;
  }

  /** The end of an uninteresting value: the first CR or LF, looked for in the next
      HTTP_MAX_HEADER_SIZE bytes only, or else the end of the buffer. */
  method SkipValue(data: seq<byte>, p: nat) returns (j: nat)
    requires p < |data| && data[p] != CR && data[p] != LF
    ensures p < j <= |data|
    ensures j < |data| ==> (data[j] == CR || data[j] == LF) && j - p < HTTP_MAX_HEADER_SIZE
    ensures forall k :: p <= k < j && k - p < HTTP_MAX_HEADER_SIZE ==> data[k] != CR && data[k] != LF
  {
    var limit := if |data| - p < HTTP_MAX_HEADER_SIZE then |data| - p else HTTP_MAX_HEADER_SIZE;
    var cr := Memchr(data, p, CR, limit);
    var lf := Memchr(data, p, LF, limit);
    if cr.Some? {
      if lf.Some? && cr.value >= lf.value { j := lf.value; } else { j := cr.value; }
    } else if lf.Some? {
      j := lf.value;
    } else {
      j := |data|;
    }
    forall k | p <= k < j && k - p < HTTP_MAX_HEADER_SIZE ensures data[k] != CR && data[k] != LF {
      assert data[k] == data[p..p + limit][k - p];
      if cr.Some? && k < cr.value { assert data[k] in data[p..cr.value]; }
      if lf.Some? && k < lf.value { assert data[k] in data[p..lf.value]; }
    }
  }

  /** Past the end of the line of a value, once its bytes have been counted. */
  lemma LineProgress(c: Cursor, d: Cursor, nread: nat, data: seq<byte>)
    requires Entered(c, data) && SameTurn(c, d, data) && d.at < |data| && c.core.state.HeaderValue? && d.core.state.HeaderValue?
    requires data[d.at] == CR || data[d.at] == LF
    requires nread <= HTTP_MAX_HEADER_SIZE && c.log == d.log
    ensures var d' := d.(nread := nread);
            && Step(d'.core, data[d'.at]).Go? && (forall k :: k in d'.marks ==> d'.marks[k] <= d'.at)
            && Advance(c, Next(d', data), data)
            && ValueData in d.marks
            && Next(d', data) == Cursor(d.core.(state := HeaderAlmostDone), d.log + [OnData(ValueData, data[d.marks[ValueData]..d.at])],
                                        nread, d.marks - {ValueData}, if data[d.at] == LF then d.at else d.at + 1)
  {
    hide Inv, Step, MarksOk, Future, Pending, Tally, TallyIn;
    var d' := d.(nread := nread);
    ValueEnds(d', data);
    NextOk(d', data);
    BulkProgress(c, d', Next(d', data), data);
  }

  class HttpParser {
    var core: Parser
    var nread: nat
    var errno: Option<Errno>
    var log: seq<Event>

    ghost predicate Valid()
      reads this
    {
      errno.None? ==>
        Inv(core) && nread <= HTTP_MAX_HEADER_SIZE && (core.state.ChunkSizeStart? ==> nread == 0)
    }

    ghost function At(marks: Marks, i: nat): Cursor
      reads this
    {
      Cursor(core, log, nread, marks, i)
    }

    /** http_parser_init */
    constructor (kind: Kind)
      ensures Valid() && errno.None? && log == [] && nread == 0
      ensures core.kind == kind && core.flags == Flags(false, false, false, false, false, false) && core.verb == 0 && !core.upgrade
      ensures core.state == match kind case Request => StartReq case Response => StartRes case Both => StartReqOrRes
    {
      core := Parser(kind, NO_FLAGS, match kind case Request => StartReq case Response => StartRes case Both => StartReqOrRes,
                     HGeneral, 0, 0, 0, 0, 0, 0, false);
      nread := 0;
      errno := None;
      log := [];
    }

    /** COUNT_HEADER_SIZE */
    method Count(v: int) returns (ok: bool)
      requires 0 <= nread + v < 0x1_0000_0000
      modifies `nread, `errno
      ensures nread == old(nread) + v && ok == (nread <= HTTP_MAX_HEADER_SIZE)
      ensures errno == if ok then old(errno) else Some(HeaderOverflow)
    {
      nread := nread + v;
      ok := nread <= HTTP_MAX_HEADER_SIZE;
      if !ok { errno := Some(HeaderOverflow); }
    }

    /** One byte in a state without a loop of its own. */
    method Plain(data: seq<byte>, i: nat, marks: Marks) returns (j: nat, marks': Marks, halt: bool)
      requires i < |data| && errno.None? && Entered(At(marks, i), data)
      requires !core.state.BodyIdentity? && (core.state.ChunkSizeStart? ==> nread == 1)
      requires !core.state.HeaderField? && !core.state.HeaderValue?
      modifies this
      ensures halt ==> Halts(old(At(marks, i)), data, core, nread, log, errno, j)
      ensures !halt ==> errno.None? && Progress(old(At(marks, i)), At(marks', j), data)
      ensures old(log) <= log
    {
      hide Inv, Step, MarksOk, Future, Advance, Pending, CursorIn, Tally, TallyIn;
      ghost var c := At(marks, i);
      MarksBounded(c, data);
      j, marks', halt := i, marks, true;
      match Step(core, data[i])
      case Fail(e) =>
        FailedRest(c, data);
        TallyFail(core, nread, data, i, 0);
        errno := Some(e);
      case Upgraded(q, e) =>
        UpgradedRun(c, data);
        TallyUpgraded(core, nread, data, i);
        core, nread, j := q, 0, i + 1;
        log := log + [e];
      case Go(q, kind, flush, note, again) =>
        NextOk(c, data);
        NextTally(c, data);
        var open := EmptyMark(core, Step(core, data[i]));
        if core.state.HeadersDone? || core.state.ChunkSizeAlmostDone? || core.state.ChunkDataDone? { nread := 0; }
        marks' := SetMark(marks, open, i);
        core := q;
        log := Noted(Flushed(log, marks', flush, data, i), note);
        marks' := Unmark(marks', flush);
        j := if again then i else i + 1;
        halt := false;
        assert At(marks', j) == Next(c, data);
    }

    /** The loop of s_header_field. */
    method Name(data: seq<byte>, i: nat, marks: Marks) returns (j: nat, marks': Marks, halt: bool)
      requires i < |data| <= MAX_BUFFER && errno.None? && Entered(At(marks, i), data)
      requires core.state.HeaderField?
      modifies this
      ensures halt ==> Halts(old(At(marks, i)), data, core, nread, log, errno, j)
      ensures !halt ==> errno.None? && Progress(old(At(marks, i)), At(marks', j), data)
      ensures old(log) <= log
    {
      hide Inv, Step, NameChar, Token, MarksOk, Future, Pending, Tally, TallyIn;
      ghost var c := At(marks, i);
      j, marks', halt := i, marks, true;
      while j < |data| && Token(data[j]) != '\0'
        invariant i <= j <= |data| && errno.None?
        invariant At(marks, j) == c.(core := core, at := j) && core.state.HeaderField?
        invariant SameTurn(c, At(marks, j), data)
      {
        NameNext(At(marks, j), data);
        NextOk(At(marks, j), data);
        NameStays(core, data[j], Token(data[j]));
        TallyChar(core, nread, data, j, j - i);
        core := NameChar(core, data[j], Token(data[j]));
        j := j + 1;
      }
      ghost var d := At(marks, j);
      NameTally(d, data, j - i);
      var ok := Count(j - i);
      if !ok { return; }
      ghost var d' := At(marks, j);
      assert d' == d.(nread := nread);
      if j == |data| { halt := false; return; }
      NameEnds(d', data);
      if data[j] == ':' {
        NextOk(d', data);
        BulkProgress(c, d', Next(d', data), data);
        MarksBounded(d', data);
        log := log + [OnData(FieldData, data[marks[FieldData]..j])];
        marks' := marks - {FieldData};
        core := core.(state := HeaderValueDiscardWs);
        j := j + 1;
        halt := false;
        assert At(marks', j) == Next(d', data);
      } else {
        FailedRest(d', data);
        errno := Some(InvalidHeaderToken);
      }
    }

    /** The loop of s_header_value. */
    method Value(data: seq<byte>, i: nat, marks: Marks) returns (j: nat, marks': Marks, halt: bool)
      requires i < |data| <= MAX_BUFFER && errno.None? && Entered(At(marks, i), data)
      requires core.state.HeaderValue?
      modifies this
      ensures halt ==> Halts(old(At(marks, i)), data, core, nread, log, errno, j)
      ensures !halt ==> errno.None? && Progress(old(At(marks, i)), At(marks', j), data)
      ensures old(log) <= log
    {
      hide Inv, Step, ValueChar, MarksOk, Future, Pending, Tally, TallyIn;
      ghost var c := At(marks, i);
      j, marks', halt := i, marks, true;
      ghost var lost := false;
      while j < |data| && data[j] != CR && data[j] != LF
        invariant i <= j <= |data| && errno.None?
        invariant At(marks, j) == c.(core := core, at := j) && core.state.HeaderValue?
        invariant !lost ==> SameTurn(c, At(marks, j), data)
        invariant lost ==> j == |data| && Lost(c, j, data)
      {
        if core.hstate.HGeneral? {
          var q := SkipValue(data, j);
          if q - j > HTTP_MAX_HEADER_SIZE {
            lost := true;
            TallyGeneral(core, nread, data, j, j - i, j + HTTP_MAX_HEADER_SIZE);
            TallyLost(core, nread, data, j + HTTP_MAX_HEADER_SIZE, j + HTTP_MAX_HEADER_SIZE - i);
          } else {
            GeneralRun(At(marks, j), data, q);
            TallyGeneral(core, nread, data, j, j - i, q);
          }
          j := q;
        } else {
          match ValueChar(core, data[j])
          case None =>
            ValueBad(At(marks, j), data);
            FailedRest(At(marks, j), data);
            TallyFail(core, nread, data, j, j - i);
            errno := Some(InvalidContentLength);
            return;
          case Some(q) =>
            ValueNext(At(marks, j), data);
            NextOk(At(marks, j), data);
            ValueStays(core, data[j]);
            TallyChar(core, nread, data, j, j - i);
            core := q;
            j := j + 1;
        }
      }
      j, marks', halt := EndValue(data, i, j, marks, c);
    }

    /** The value, or what this buffer has of it, ends at j. */
    method EndValue(data: seq<byte>, i: nat, e: nat, marks: Marks, ghost c: Cursor) returns (j: nat, marks': Marks, halt: bool)
      requires i <= e <= |data| <= MAX_BUFFER && i < |data| && errno.None?
      requires CursorIn(c, data) && c.core.state.HeaderValue? && c.at == i && c.nread > 0
      requires At(marks, e) == c.(core := core, at := e) && core.state.HeaderValue?
      requires SameTurn(c, At(marks, e), data) || (e == |data| && Lost(c, e, data))
      requires e < |data| ==> data[e] == CR || data[e] == LF
      modifies this
      ensures halt ==> Halts(c, data, core, nread, log, errno, j)
      ensures !halt ==> errno.None? && Progress(c, At(marks', j), data)
      ensures old(log) <= log
    {
      hide Inv, Step, MarksOk, Future, Pending, Tally, TallyIn;
      if e < |data| {
        j, marks', halt := EndLine(data, i, e, marks, c);
      } else {
        j, marks', halt := e, marks, true;
        TallyLast(core, nread, data, e - i);
        TallyDone(core, nread + (e - i), data);
        var ok := Count(e - i);
        if !ok { return; }
        halt := false;
      }
    }

    /** The line of the value ends at e. */
    method EndLine(data: seq<byte>, i: nat, e: nat, marks: Marks, ghost c: Cursor) returns (j: nat, marks': Marks, halt: bool)
      requires i <= e < |data| <= MAX_BUFFER && errno.None? && (data[e] == CR || data[e] == LF)
      requires Entered(c, data) && c.core.state.HeaderValue? && c.at == i
      requires At(marks, e) == c.(core := core, at := e) && core.state.HeaderValue? && SameTurn(c, At(marks, e), data)
      modifies this
      ensures halt ==> Halts(c, data, core, nread, log, errno, j)
      ensures !halt ==> errno.None? && Progress(c, At(marks', j), data)
      ensures old(log) <= log
    {
      hide Inv, Step, MarksOk, Rest, Advance, CursorOk, Tally, TallyIn, Ended;
      j, marks', halt := e, marks, true;
      ghost var d := At(marks, e);
      ValueTally(d, data, e - i);
      ValueEnds(d, data);
      MarksBounded(d, data);
      if data[e] == LF {
        var ok := Count(e - i);
        if !ok { return; }
      }
      log := log + [OnData(ValueData, data[marks[ValueData]..e])];
      marks' := marks - {ValueData};
      core := core.(state := HeaderAlmostDone);
      var ok := Count(if data[e] == LF then e - 1 - i else e - i);
      if !ok { j := if data[e] == LF then e - 1 else e; return; }
      j := if data[e] == LF then e else e + 1;
      halt := false;
      LineProgress(c, d, nread, data);
      assert At(marks', j) == Next(d.(nread := nread), data);
    }

    /** s_body_identity, s_chunk_data: the rest of the body or chunk, or of the buffer. */
    method Counted(data: seq<byte>, i: nat, marks: Marks) returns (j: nat, marks': Marks)
      requires i < |data| && errno.None? && Entered(At(marks, i), data)
      requires core.state.BodyIdentity? || core.state.ChunkData?
      modifies `core, `log
      ensures Progress(old(At(marks, i)), At(marks', j), data)
      ensures old(log) <= log
    {
      hide Inv, Step, MarksOk, Progress, Rest;
      var left := |data| - i;
      var toRead := if core.length < left then core.length else left;
      BodyAsserts(core);
      marks' := SetMark(marks, Some(BodyData), i);
      ghost var c := At(marks, i);
      CountedOk(c, data, toRead);
      core := core.(length := core.length - toRead);
      j := i + toRead;
      if core.length == 0 {
        if core.state.BodyIdentity? {
          core := core.(state := MessageDone);
          log := log + [OnData(BodyData, data[marks'[BodyData]..j])];
          marks' := marks' - {BodyData};
          j := j - 1;
        } else {
          core := core.(state := ChunkDataAlmostDone);
        }
      }
      assert At(marks', j) == AfterCounted(c, data, toRead);
    }

    /** s_body_identity_eof: the whole buffer is body. */
    method ToEof(data: seq<byte>, i: nat, marks: Marks) returns (j: nat, marks': Marks)
      requires i < |data| && errno.None? && Entered(At(marks, i), data)
      requires core.state.BodyIdentityEof?
      modifies {}
      ensures Progress(At(marks, i), At(marks', j), data)
    {
      marks' := SetMark(marks, Some(BodyData), i);
      j := |data|;
      ToEofOk(At(marks, i), data);
      assert At(marks', j) == At(marks, i).(marks := marks', at := |data|);
    }

    /** http_parser_execute with no bytes: the end of the stream. */
    method Eof() returns (n: nat)
      requires Valid() && errno.None?
      modifies `errno, `log
      ensures Valid()
      ensures core.state.BodyIdentityEof? ==> n == 0 && errno.None? && log == old(log) + [MessageComplete]
      ensures core.state.SDead? || core.state.StartReqOrRes? || core.state.StartRes? || core.state.StartReq? ==>
        n == 0 && errno.None? && log == old(log)
      ensures errno.Some? ==> errno == Some(InvalidEofState) && n == 1 && log == old(log)
      ensures errno.None? ==> core.state.BodyIdentityEof? || core.state.SDead? || core.state.StartReqOrRes?
                              || core.state.StartRes? || core.state.StartReq?
    {
      n := 0;
      match core.state
      case BodyIdentityEof => log := log + [MessageComplete];
      case SDead =>
      case StartReqOrRes =>
      case StartRes =>
      case StartReq =>
      case _ =>
        errno := Some(InvalidEofState);
        n := 1;
    }

    /** http_parser_execute */
    method Execute(data: seq<byte>) returns (n: nat)
      requires Valid() && 0 < |data| <= MAX_BUFFER
      modifies this
      ensures Valid() && old(log) <= log
      ensures old(errno).Some? ==> n == 0 && core == old(core) && log == old(log) && errno == old(errno)
      ensures old(errno).None? ==>
        match Tally(old(core), old(nread), data, 0)
        case None => errno == Some(HeaderOverflow)
        case Some(m) =>
          && EndsAs(Run(old(core), Joined(old(log)), data, 0), core, log, errno, n, |data|)
          && (errno.None? ==> nread == m)
    {
      hide Inv, Run, Joined, Rest, MarksOk, Tally;
      if errno.Some? { return 0; }
      var marks := StartMarks(core.state);
      var i := 0;
      ghost var target := Run(core, Joined(log), data, 0);
      ghost var counted := Tally(core, nread, data, 0);
      StartOk(core, log, nread, data);
      while i < |data|
        invariant errno.None? && i <= |data| && CursorOk(At(marks, i), data) && Rest(At(marks, i), data) == target
        invariant Tally(core, nread, data, i) == counted
        invariant old(log) <= log
        decreases |data| - i, Rank(core.state)
      {
        var halt: bool;
        i, marks, halt := Byte(data, i, marks);
        if halt { return i; }
      }
      FlushAllOk(At(marks, i), data);
      TallyDone(core, nread, data);
      log := FlushAll(log, marks, data);
      n := |data|;
    }

    /** One turn of the main loop. */
    method Byte(data: seq<byte>, i: nat, marks: Marks) returns (j: nat, marks': Marks, halt: bool)
      requires i < |data| <= MAX_BUFFER && errno.None? && CursorOk(At(marks, i), data)
      modifies this
      ensures halt ==> Stops(old(At(marks, i)), data, core, nread, log, errno, j)
      ensures !halt ==> errno.None? && Turned(old(At(marks, i)), At(marks', j), data)
      ensures old(log) <= log
    {
      hide Inv, Step, Joined, MarksOk, Rest, Ended, Turned, Progress, TallyIn;
      ghost var c := At(marks, i);
      if core.state.ParsingHeader() {
        var ok := Count(1);
        if !ok { return i, marks, true; }
      }
      ghost var d := At(marks, i);
      assert d == c.(nread := nread);
      EntryOk(c, d, data);
      hide Tally;
      j, marks', halt := Dispatch(data, i, marks);
      if !halt { TurnOk(c, d, At(marks', j), data); }
    }

    /** The switch on the state. */
    method Dispatch(data: seq<byte>, i: nat, marks: Marks) returns (j: nat, marks': Marks, halt: bool)
      requires i < |data| <= MAX_BUFFER && errno.None? && Entered(At(marks, i), data)
      requires core.state.ChunkSizeStart? ==> nread == 1
      modifies this
      ensures halt ==> Halts(old(At(marks, i)), data, core, nread, log, errno, j)
      ensures !halt ==> errno.None? && Progress(old(At(marks, i)), At(marks', j), data)
      ensures old(log) <= log
    {
      hide Inv, Step, Joined, MarksOk, Rest, Halts, Progress;
      halt := false;
      match core.state
      case HeaderField => j, marks', halt := Name(data, i, marks);
      case HeaderValue => j, marks', halt := Value(data, i, marks);
      case BodyIdentity => j, marks' := Counted(data, i, marks);
      case ChunkData => j, marks' := Counted(data, i, marks);
      case BodyIdentityEof => j, marks' := ToEof(data, i, marks);
      case _ => j, marks', halt := Plain(data, i, marks);
    }

    /** The read loop of a connection: one call per piece, until one is not used up. A call
        that ends with an upgrade at the end of its piece is used up: the loop goes on. */
    method Feed(pieces: seq<seq<byte>>) returns (ok: bool)
      requires Valid() && errno.None? && forall k :: 0 <= k < |pieces| ==> 0 < |pieces[k]| <= MAX_BUFFER
      modifies this
      ensures Valid()
      ensures match TallyPieces(old(core), Joined(old(log)), old(nread), pieces)
              case None => errno == Some(HeaderOverflow)
              case Some(m) =>
                match Run(old(core), Joined(old(log)), Concat(pieces), 0)
                case Done(q, l) => ok && errno.None? && core == q && Joined(log) == l && nread == m
                case Failed(e, _) => !ok && errno == Some(e)
                case Switched(q, l, at) =>
                  (forall k :: 0 < k < |pieces| ==> |Concat(pieces[..k])| != at) ==>
                    && errno.None? && core == q && Joined(log) == l && nread == m
                    && (ok <==> at == |Concat(pieces)|)
    {
      hide Inv, Run, Joined, Tally;
      ghost var counted := TallyPieces(core, Joined(log), nread, pieces);
      ghost var whole := Run(core, Joined(log), Concat(pieces), 0);
      ghost var off := 0;
      SegmentationIndependence(core, Joined(log), pieces);
      assert pieces[0..] == pieces && pieces[..0] == [];
      for k := 0 to |pieces|
        invariant Valid() && off == |Concat(pieces[..k])|
        invariant || (errno == Some(HeaderOverflow) && counted.None?)
                  || (counted.Some? && PassedBy(whole, pieces))
                  || (errno.None? && k == |pieces| && whole == Switched(core, Joined(log), off) && counted == Some(nread))
                  || (errno.None? && whole == Shift(RunPieces(core, Joined(log), pieces[k..]), off)
                      && TallyPieces(core, Joined(log), nread, pieces[k..]) == counted)
      {
        assert pieces[k..][0] == pieces[k] && pieces[k..][1..] == pieces[k + 1..];
        assert pieces[..k + 1] == pieces[..k] + [pieces[k]];
        ConcatMore(pieces[..k], pieces[k]);
        ConcatPrefix(pieces, k + 1);
        EndsWithin(core, Joined(log), pieces[k], 0);
        off := off + |pieces[k]|;
        var n := Execute(pieces[k]);
        if n != |pieces[k]| { return false; }
        assert k + 1 == |pieces| ==> pieces[..k + 1] == pieces;
      }
      assert pieces[..|pieces|] == pieces;
      ok := true;
    }
  }
}
