/** The marks of http_parser_execute: data is called back by pointer and length, from
    the mark set at its first byte in the current buffer. */
module HttpMarks {
  import opened Wrappers

  import opened HttpChars
  import opened HttpAutomaton
  import opened HttpRun

  type Marks = map<Data, nat>

  /** The data that a state is in the middle of. */
  function OpenKind(s: State): Option<Data> {
    match s
    case HeaderField => Some(FieldData)
    case HeaderValue => Some(ValueData)
    case ReqUrl(u) => if u.SpacesBeforeUrl? then None else Some(UrlData)
    case ResStatus => Some(StatusData)
    case BodyIdentity => Some(BodyData)
    case BodyIdentityEof => Some(BodyData)
    case ChunkData => Some(BodyData)
    case ChunkDataAlmostDone => Some(BodyData)
    case _ => None
  }

  /** The states whose mark a call sets at the start of its buffer. */
  predicate MarkedAtStart(s: State) {
    OpenKind(s).Some? && OpenKind(s) != Some(BodyData)
  }

  function StartMarks(s: State): Marks {
    if MarkedAtStart(s) then map[OpenKind(s).value := 0] else map[]
  }

  /** Only the data that the state is in the middle of is marked. */
  ghost predicate MarksOk(s: State, marks: Marks, i: nat) {
    && (forall k :: k in marks ==> OpenKind(s) == Some(k) && marks[k] <= i)
    && (MarkedAtStart(s) ==> OpenKind(s).value in marks)
  }

  lemma AtMostOneMark(s: State, marks: Marks, i: nat)
    requires MarksOk(s, marks, i)
    ensures |marks| <= 1
  {
    if OpenKind(s).Some? && OpenKind(s).value in marks {
      assert marks.Keys == {OpenKind(s).value};
    } else {
      assert marks.Keys == {};
    }
    assert |marks| == |marks.Keys|;
  }

  /** The log as it will read once the marked data has been called back. */
  ghost function Pending(log: seq<Event>, s: State, marks: Marks, data: seq<byte>, i: nat): seq<Event>
    requires i <= |data| && MarksOk(s, marks, i)
  {
    match OpenKind(s)
    case None => log
    case Some(k) => if k in marks then Join(log, OnData(k, data[marks[k]..i])) else log
  }

  /** What is left of the run. */
  ghost function Future(p: Parser, log: seq<Event>, marks: Marks, data: seq<byte>, i: nat): Outcome
    requires i <= |data| && MarksOk(p.state, marks, i)
  {
    Run(p, Pending(Joined(log), p.state, marks, data, i), data, i)
  }

  // ---- Which bytes belong to which data ----

  /** How marks, flushes and notifications go together in one step. */
  ghost predicate Tidy(p: Parser, a: Action) {
    (a.Upgraded? ==> p.state.HeadersDone? && OpenKind(p.state).None? && !a.next.state.ChunkSizeStart?) &&
    (a.Go? ==>
       && (a.next.state.ChunkSizeStart? ==> p.state.HeadersDone? || p.state.ChunkDataDone?)
       && (a.kind.Some? ==> OpenKind(p.state).None? || OpenKind(p.state) == a.kind)
       && (a.kind.Some? && a.flush.None? ==> OpenKind(a.next.state) == a.kind && !a.again)
       && (a.kind.None? && a.flush.None? ==> OpenKind(p.state).None? && !MarkedAtStart(a.next.state))
       && (a.flush.Some? ==> OpenKind(a.next.state).None? && a.note.None?)
       && (a.flush.Some? ==> OpenKind(p.state) == a.flush || p.state.HeaderValueDiscardLws?)
       && (p.state.HeaderValueDiscardLws? ==> a.kind.None? && OpenKind(p.state).None?)
       && (a.flush.Some? && a.kind.Some? ==> p.state.BodyIdentity?)
       && (a.note.Some? ==> a.kind.None? && !a.note.value.OnData?))
  }

  lemma TidyStatusLine(p: Parser, ch: byte)
    ensures Tidy(p, StatusLine(p, ch))
  {
    hide Version;
  }

  lemma TidyRequestLine(p: Parser, ch: byte)
    ensures Tidy(p, RequestLine(p, ch))
  {
    hide Version, MethodChar, SwitchVerb, FirstGuess;
    if p.state.ReqUrl? { UrlStays(p.state.url, ch); UrlStays(ServerStart, ch); }
    hide ParseUrlChar;
  }

  lemma UrlStays(u: UrlState, ch: byte)
    ensures !ParseUrlChar(u, ch).SpacesBeforeUrl?
  {
  }

  lemma TidyHeaders(p: Parser, ch: byte)
    ensures Tidy(p, Headers(p, ch))
  {
    hide NameChar, ValueChar, KeepAlive, HeaderFlags, Token;
    NameStays(p, ch, Token(ch));
    ValueStays(p, ch);
  }

  lemma NameStays(p: Parser, ch: byte, c: byte)
    ensures NameChar(p, ch, c).state == p.state
  {
    hide Match;
  }

  lemma ValueStays(p: Parser, ch: byte)
    ensures ValueChar(p, ch).Some? ==> ValueChar(p, ch).value.state == p.state
  {
    hide Match, Token;
  }

  lemma TidyBody(p: Parser, ch: byte)
    ensures Tidy(p, Body(p, ch))
  {
  }

  lemma TidyStart(p: Parser, ch: byte)
    ensures Tidy(p, Start(p, ch))
  {
  }

  lemma TidyStep(p: Parser, ch: byte)
    ensures Tidy(p, Step(p, ch))
  {
    hide Tidy, StatusLine, RequestLine, Headers, Body, Start;
    TidyStatusLine(p, ch);
    TidyRequestLine(p, ch);
    TidyHeaders(p, ch);
    TidyBody(p, ch);
    TidyStart(p, ch);
  }

  // ---- One step, and many ----

  lemma DataStep(p: Parser, log: seq<Event>, k: Data, data: seq<byte>, m: nat, i: nat)
    requires m <= i < |data|
    requires Step(p, data[i]).Go? && Step(p, data[i]).kind == Some(k) && Step(p, data[i]).note.None?
    ensures var a := Step(p, data[i]);
            Run(p, Join(log, OnData(k, data[m..i])), data, i) ==
            Run(a.next, Join(log, OnData(k, data[m..i + 1])), data, if a.again then i else i + 1)
  {
    hide Step, Join;
    JoinTwice(log, k, data[m..i], [data[i]]);
    assert data[m..i] + [data[i]] == data[m..i + 1];
  }

  function SetMark(marks: Marks, kind: Option<Data>, i: nat): Marks {
    match kind case None => marks case Some(k) => if k in marks then marks else marks[k := i]
  }

  function Flushed(log: seq<Event>, marks: Marks, flush: Option<Data>, data: seq<byte>, i: nat): seq<Event>
    requires i <= |data| && forall k :: k in marks ==> marks[k] <= i
  {
    match flush case None => log case Some(k) => if k in marks then log + [OnData(k, data[marks[k]..i])] else log
  }

  function Noted(log: seq<Event>, note: Option<Event>): seq<Event> {
    match note case None => log case Some(e) => log + [e]
  }

  function Unmark(marks: Marks, flush: Option<Data>): Marks {
    match flush case None => marks case Some(k) => marks - {k}
  }

  /** The mark of an empty header value. */
  function EmptyMark(p: Parser, a: Action): Option<Data>
    requires a.Go?
  {
    if p.state.HeaderValueDiscardLws? then a.flush else a.kind
  }

  lemma StepOk(p: Parser, log: seq<Event>, marks: Marks, data: seq<byte>, i: nat)
    requires i < |data| && MarksOk(p.state, marks, i) && !p.state.BodyIdentity?
    requires Step(p, data[i]).Go?
    ensures var a := Step(p, data[i]);
            var j := if a.again then i else i + 1;
            var marks1 := SetMark(marks, EmptyMark(p, a), i);
            var marks2 := Unmark(marks1, a.flush);
            && (forall k :: k in marks1 ==> marks1[k] <= i)
            && MarksOk(a.next.state, marks2, j)
            && Future(p, log, marks, data, i) ==
               Future(a.next, Noted(Flushed(log, marks1, a.flush, data, i), a.note), marks2, data, j)
  {
    hide Step, Join, Joined, OpenKind;
    TidyStep(p, data[i]);
    AgainDecreases(p, data[i]);
    var a := Step(p, data[i]);
    var j := if a.again then i else i + 1;
    var marks1 := SetMark(marks, EmptyMark(p, a), i);
    var marks2 := Unmark(marks1, a.flush);
    match a.kind {
      case Some(k) =>
        if k in marks {
          DataStep(p, Joined(log), k, data, marks[k], i);
        } else {
          EmptyJoin(Joined(log), k);
          assert data[i..i] == [];
          DataStep(p, Joined(log), k, data, i, i);
        }
      case None =>
        match a.flush {
          case Some(k) =>
            if k in marks1 {
              JoinedAppend(log, OnData(k, data[marks1[k]..i]));
              if k !in marks { EmptyJoin(Joined(log), k); assert data[i..i] == []; }
            }
          case None =>
            if a.note.Some? { JoinedAppend(log, a.note.value); }
        }
    }
  }

  lemma EmptyJoin(log: seq<Event>, k: Data)
    ensures Join(log, OnData(k, [])) == log
  {
  }
}
