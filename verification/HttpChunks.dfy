/** Message framing: lengths are read exactly, and decoding a chunked body (section 3.6.1
    of RFC 2616) inverts encoding it. */
module HttpChunks {
  import opened Wrappers

  import opened HttpChars
  import opened HttpAutomaton
  import opened HttpRun
  import opened HttpCount
  import opened Http
  import opened HttpText

  // ---- Lengths ----

  predicate IsHexDigit(c: byte) {
    '0' <= c <= '9' || 'a' <= c <= 'f' || 'A' <= c <= 'F'
  }

  function HexOf(c: byte): nat
    requires IsHexDigit(c)
  {
    if c <= '9' then c as int - 48 else if c >= 'a' then c as int - 87 else c as int - 55
  }

  /** The table of hex digits. */
  lemma UnhexIs(c: byte)
    ensures Unhex(c) == if IsHexDigit(c) then HexOf(c) else -1
  {
  }

  predicate AllHex(s: seq<byte>) {
    forall k :: 0 <= k < |s| ==> IsHexDigit(s[k])
  }

  /** The number that hex digits stand for. */
  function HexValue(s: seq<byte>): nat
    requires AllHex(s)
  {
    if s == [] then 0 else HexValue(s[..|s| - 1]) * 16 + HexOf(s[|s| - 1])
  }

  const MAX_CHUNK: nat := 0xFFFF_FFFF_FFFF_FFEF

  lemma SizeStep(p: Parser, ch: byte)
    requires IsHexDigit(ch)
    ensures p.state.ChunkSizeStart? ==> Step(p, ch) == Go(p.(length := HexOf(ch), state := ChunkSize), None, None, None, false)
    ensures p.state.ChunkSize? && p.length * 16 + HexOf(ch) <= MAX_CHUNK ==>
      Step(p, ch) == Go(p.(length := p.length * 16 + HexOf(ch)), None, None, None, false)
    ensures p.state.ChunkSize? && p.length * 16 + HexOf(ch) > MAX_CHUNK ==> Step(p, ch) == Fail(InvalidContentLength)
  {
    UnhexIs(ch);
    hide StatusLine, RequestLine, Headers, Start;
  }

  /** A chunk size is read exactly when it is at most MAX_CHUNK, and refused otherwise. */
  lemma {:induction false} SizeRun(p: Parser, log: seq<Event>, s: seq<byte>)
    requires p.state.ChunkSizeStart? && AllHex(s) && s != []
    ensures HexValue(s) <= MAX_CHUNK ==> Run(p, log, s, 0) == Done(p.(state := ChunkSize, length := HexValue(s)), log)
    ensures HexValue(s) > MAX_CHUNK ==> Run(p, log, s, 0).Failed? && Run(p, log, s, 0).errno == InvalidContentLength
  {
    hide Step, Run;
    var n := |s| - 1;
    var a, ch := s[..n], s[n];
    assert s == a + [ch];
    if n == 0 {
      assert s == [ch] && a == [] && HexValue(s) == HexOf(ch);
      SizeStep(p, ch);
      OneByte(p, log, ch);
    } else {
      SizeRun(p, log, a);
      if HexValue(a) <= MAX_CHUNK {
        var q := p.(state := ChunkSize, length := HexValue(a));
        RunAppend(p, log, a, [ch]);
        SizeStep(q, ch);
        if HexValue(s) <= MAX_CHUNK { OneByte(q, log, ch); } else { BadByte(q, log, ch); }
      } else {
        FailAppend(p, log, a, [ch]);
      }
    }
  }

  const MAX_LENGTH: nat := 0xFFFF_FFFF_FFFF_FFF9

  lemma LengthStep(p: Parser, ch: byte)
    requires IsNum(ch) && p.hstate.HContentLength?
    ensures p.state.HeaderValueDiscardWs? ==>
      Step(p, ch) == Go(p.(length := Digit(ch), state := HeaderValue, index := 0), Some(ValueData), None, None, false)
    ensures p.state.HeaderValue? && p.length * 10 + Digit(ch) <= MAX_LENGTH ==>
      Step(p, ch) == Go(p.(length := p.length * 10 + Digit(ch)), Some(ValueData), None, None, false)
    ensures p.state.HeaderValue? && p.length * 10 + Digit(ch) > MAX_LENGTH ==> Step(p, ch) == Fail(InvalidContentLength)
  {
    hide StatusLine, RequestLine, Body, Start;
  }

  /** A Content-Length is read exactly when it is at most MAX_LENGTH, and refused otherwise. */
  lemma {:induction false} LengthRun(p: Parser, log: seq<Event>, s: seq<byte>)
    requires p.state.HeaderValueDiscardWs? && p.hstate.HContentLength? && AllNum(s) && s != []
    ensures DecValue(s) <= MAX_LENGTH ==>
      Run(p, log, s, 0) == Done(p.(state := HeaderValue, index := 0, length := DecValue(s)), Join(log, OnData(ValueData, s)))
    ensures DecValue(s) > MAX_LENGTH ==> Run(p, log, s, 0).Failed? && Run(p, log, s, 0).errno == InvalidContentLength
  {
    hide Step, Run, Join;
    var n := |s| - 1;
    var a, ch := s[..n], s[n];
    assert s == a + [ch];
    if n == 0 {
      assert s == [ch] && a == [] && DecValue(s) == Digit(ch);
      LengthStep(p, ch);
      OneByte(p, log, ch);
    } else {
      LengthRun(p, log, a);
      if DecValue(a) <= MAX_LENGTH {
        var q := p.(state := HeaderValue, index := 0, length := DecValue(a));
        var l := Join(log, OnData(ValueData, a));
        RunAppend(p, log, a, [ch]);
        LengthStep(q, ch);
        if DecValue(s) <= MAX_LENGTH {
          OneByte(q, l, ch);
          JoinTwice(log, ValueData, a, [ch]);
        } else {
          BadByte(q, l, ch);
        }
      } else {
        FailAppend(p, log, a, [ch]);
      }
    }
  }

  function DecDigit(d: nat): byte
    requires d < 10
  {
    ('0' as int + d) as char
  }

  function Decimal(n: nat): seq<byte> {
    if n < 10 then [DecDigit(n)] else Decimal(n / 10) + [DecDigit(n % 10)]
  }

  lemma {:induction false} DecimalValue(n: nat)
    ensures AllNum(Decimal(n)) && DecValue(Decimal(n)) == n && Decimal(n) != []
  {
    if n >= 10 {
      DecimalValue(n / 10);
      assert Decimal(n)[..|Decimal(n)| - 1] == Decimal(n / 10);
    } else {
      assert Decimal(n)[..0] == [];
    }
  }

  function HexDigit(d: nat): byte
    requires d < 16
  {
    if d < 10 then ('0' as int + d) as char else ('A' as int + d - 10) as char
  }

  function Hexadecimal(n: nat): seq<byte> {
    if n < 16 then [HexDigit(n)] else Hexadecimal(n / 16) + [HexDigit(n % 16)]
  }

  lemma {:induction false} HexadecimalValue(n: nat)
    ensures AllHex(Hexadecimal(n)) && HexValue(Hexadecimal(n)) == n && Hexadecimal(n) != []
  {
    if n >= 16 {
      HexadecimalValue(n / 16);
      assert Hexadecimal(n)[..|Hexadecimal(n)| - 1] == Hexadecimal(n / 16);
    } else {
      assert Hexadecimal(n)[..0] == [];
    }
  }

  /** The largest number of 64 bits fits its field, and is refused: as a Content-Length and
      as a chunk size. */
  lemma LargestRefused(p: Parser, log: seq<Event>)
    ensures p.state.HeaderValueDiscardWs? && p.hstate.HContentLength? ==>
      var o := Run(p, log, Decimal(0xFFFF_FFFF_FFFF_FFFF), 0); o.Failed? && o.errno == InvalidContentLength
    ensures p.state.ChunkSizeStart? ==>
      var o := Run(p, log, Hexadecimal(0xFFFF_FFFF_FFFF_FFFF), 0); o.Failed? && o.errno == InvalidContentLength
  {
    hide Run, Step, Decimal, Hexadecimal, DecValue, HexValue;
    DecimalValue(ULLONG_MAX);
    HexadecimalValue(ULLONG_MAX);
    if p.state.HeaderValueDiscardWs? && p.hstate.HContentLength? { LengthRun(p, log, Decimal(ULLONG_MAX)); }
    if p.state.ChunkSizeStart? { SizeRun(p, log, Hexadecimal(ULLONG_MAX)); }
  }

  // ---- Chunked bodies ----

  /** A chunk: its size in hex, its extension, its bytes. */
  datatype Chunk = Chunk(size: seq<byte>, ext: seq<byte>, bytes: seq<byte>)

  predicate ExtOk(ext: seq<byte>) {
    ext == [] || ((ext[0] == ';' || ext[0] == ' ') && CR !in ext)
  }

  predicate ChunkOk(c: Chunk) {
    c.size != [] && AllHex(c.size) && HexValue(c.size) == |c.bytes| <= MAX_CHUNK && ExtOk(c.ext)
  }

  function Head(c: Chunk): seq<byte> {
    c.size + c.ext + CRLF
  }

  function EncodeChunk(c: Chunk): seq<byte> {
    Head(c) + (c.bytes + CRLF)
  }

  function EncodeChunks(cs: seq<Chunk>): seq<byte> {
    if cs == [] then [] else EncodeChunk(cs[0]) + EncodeChunks(cs[1..])
  }

  function Bytes(cs: seq<Chunk>): seq<byte> {
    if cs == [] then [] else cs[0].bytes + Bytes(cs[1..])
  }

  ghost predicate ChunksOk(cs: seq<Chunk>) {
    forall k :: 0 <= k < |cs| ==> ChunkOk(cs[k]) && cs[k].bytes != []
  }

  /** Non-empty chunks, then an empty one, the trailer, then the empty line. */
  function Encode(cs: seq<Chunk>, end: Chunk, trailer: seq<byte>): seq<byte> {
    EncodeChunks(cs) + (Head(end) + (trailer + CRLF))
  }

  lemma ExtStep(p: Parser, ch: byte)
    ensures p.state.ChunkSize? && (ch == ';' || ch == ' ') ==> Step(p, ch) == Go(p.(state := ChunkParameters), None, None, None, false)
    ensures p.state.ChunkParameters? && ch != CR ==> Step(p, ch) == Go(p, None, None, None, false)
    ensures (p.state.ChunkSize? || p.state.ChunkParameters?) && ch == CR ==>
      Step(p, ch) == Go(p.(state := ChunkSizeAlmostDone), None, None, None, false)
    ensures p.state.ChunkSizeAlmostDone? && ch == LF ==>
      Step(p, ch) == Go(if p.length == 0 then p.(flags := p.flags.(trailing := true), state := HeaderFieldStart)
                        else p.(state := ChunkData), None, None, None, false)
  {
    hide StatusLine, RequestLine, Headers, Start;
  }

  lemma {:induction false} ExtRun(p: Parser, log: seq<Event>, ext: seq<byte>)
    requires p.state.ChunkSize? && ExtOk(ext)
    ensures Run(p, log, ext, 0) == Done(if ext == [] then p else p.(state := ChunkParameters), log)
  {
    hide Step;
    if ext != [] {
      var n := |ext| - 1;
      var a, ch := ext[..n], ext[n];
      assert ext == a + [ch] && ch in ext;
      ExtRun(p, log, a);
      var q := if a == [] then p else p.(state := ChunkParameters);
      RunAppend(p, log, a, [ch]);
      ExtStep(q, ch);
      OneByte(q, log, ch);
    }
  }

  /** The line of a chunk. */
  lemma HeadRun(p: Parser, log: seq<Event>, c: Chunk)
    requires p.state.ChunkSizeStart? && ChunkOk(c)
    ensures var n := |c.bytes|;
            Run(p, log, Head(c), 0) ==
            Done(if n == 0 then p.(length := 0, flags := p.flags.(trailing := true), state := HeaderFieldStart)
                 else p.(length := n, state := ChunkData), log)
  {
    hide Step, Run;
    var q := p.(state := ChunkSize, length := |c.bytes|);
    SizeRun(p, log, c.size);
    ExtRun(q, log, c.ext);
    RunAppend(p, log, c.size, c.ext);
    var r := if c.ext == [] then q else q.(state := ChunkParameters);
    ExtStep(r, CR);
    OneByte(r, log, CR);
    var t := r.(state := ChunkSizeAlmostDone);
    ExtStep(t, LF);
    OneByte(t, log, LF);
    RunAppend(r, log, [CR], [LF]);
    assert CRLF == [CR] + [LF];
    RunAppend(p, log, c.size + c.ext, CRLF);
  }

  lemma TailStep(p: Parser, ch: byte)
    ensures p.state.ChunkDataAlmostDone? && ch == CR ==> Step(p, ch) == Go(p.(state := ChunkDataDone), None, Some(BodyData), None, false)
    ensures p.state.ChunkDataDone? && ch == LF ==> Step(p, ch) == Go(p.(state := ChunkSizeStart), None, None, None, false)
  {
    hide StatusLine, RequestLine, Headers, Start;
  }

  lemma DataRun(p: Parser, log: seq<Event>, s: seq<byte>)
    requires p.state.ChunkData? && p.length == |s| > 0
    ensures Run(p, log, s + CRLF, 0) == Done(p.(length := 0, state := ChunkSizeStart), Join(log, OnData(BodyData, s)))
  {
    hide Step, Join;
    var q, l := p.(length := 0, state := ChunkDataAlmostDone), Join(log, OnData(BodyData, s));
    EmptyJoined(log);
    assert s[0..0] == [] && s[0..|s|] == s;
    CountedRun(p, log, s, 0, 0, |s|);
    assert Run(p, log, s, 0) == Done(q, l);
    hide Run;
    TailStep(q, CR);
    OneByte(q, l, CR);
    var r := q.(state := ChunkDataDone);
    TailStep(r, LF);
    OneByte(r, l, LF);
    RunAppend(q, l, [CR], [LF]);
    assert CRLF == [CR] + [LF];
    RunAppend(p, log, s, CRLF);
  }

  lemma ChunkRun(p: Parser, log: seq<Event>, c: Chunk)
    requires p.state.ChunkSizeStart? && ChunkOk(c) && c.bytes != []
    ensures Run(p, log, EncodeChunk(c), 0) == Done(p.(length := 0), Join(log, OnData(BodyData, c.bytes)))
  {
    hide Step, Run, Join, Head;
    HeadRun(p, log, c);
    var q := p.(length := |c.bytes|, state := ChunkData);
    DataRun(q, log, c.bytes);
    RunAppend(p, log, Head(c), c.bytes + CRLF);
    assert q.(length := 0, state := ChunkSizeStart) == p.(length := 0);
  }

  lemma {:induction false} ChunksRun(p: Parser, log: seq<Event>, cs: seq<Chunk>)
    requires p.state.ChunkSizeStart? && ChunksOk(cs)
    ensures Run(p, log, EncodeChunks(cs), 0) ==
            Done(if cs == [] then p else p.(length := 0), Join(log, OnData(BodyData, Bytes(cs))))
    decreases |cs|
  {
    hide Step, Join, EncodeChunk;
    if cs == [] {
      EmptyJoined(log);
    } else {
      hide Run;
      ChunkRun(p, log, cs[0]);
      var q, l := p.(length := 0), Join(log, OnData(BodyData, cs[0].bytes));
      ChunksRun(q, l, cs[1..]);
      RunAppend(p, log, EncodeChunk(cs[0]), EncodeChunks(cs[1..]));
      JoinTwice(log, BodyData, cs[0].bytes, Bytes(cs[1..]));
    }
  }

  // ---- Trailers ----

  predicate InBlock(s: State) {
    InHeader(s) || InHeaderEnd(s)
  }

  /** The states in which a header line may begin. */
  predicate AtLineStart(s: State) {
    s.HeaderFieldStart? || s.HeaderValueLws? || s.HeaderValueDiscardLws?
  }

  /** From parser p on, s[i..] is accepted as header lines, and the last of them is complete. */
  predicate HeaderLines(p: Parser, s: seq<byte>, i: nat)
    requires i <= |s|
    decreases |s| - i, Rank(p.state)
  {
    InBlock(p.state) &&
    if i == |s| then AtLineStart(p.state)
    else
      AgainDecreases(p, s[i]);
      match Step(p, s[i])
      case Go(q, _, _, _, again) => HeaderLines(q, s, if again then i else i + 1)
      case _ => false
  }

  // ---- Which header lines the parser accepts ----

  /** The token characters of s, in lower case, are those of the word up to its length. */
  predicate Spells(s: seq<byte>, word: string) {
    |s| <= |word| && forall k :: 0 <= k < |s| ==> Token(s[k]) == word[k]
  }

  predicate AllToken(s: seq<byte>) {
    forall k :: 0 <= k < |s| ==> Token(s[k]) != '\0'
  }

  /** A token other than content-length, and a value within its line. */
  predicate TrailerLine(l: HeaderLine) {
    && l.name != [] && (forall k :: 0 <= k < |l.name| ==> IsToken(l.name[k]))
    && !SameText(l.name, ['c', 'o', 'n', 't', 'e', 'n', 't', '-', 'l', 'e', 'n', 'g', 't', 'h'])
    && CR !in l.value && LF !in l.value
  }

  /** Header lines are accepted from index j of s on, wherever a line may begin. */
  ghost predicate AcceptedFrom(s: seq<byte>, j: nat)
    requires j <= |s|
  {
    forall q: Parser :: AtLineStart(q.state) ==> HeaderLines(q, s, j)
  }

  lemma LineOn(p: Parser, q: Parser, s: seq<byte>, i: nat)
    requires i < |s| && InBlock(p.state) && Step(p, s[i]).Go? && !Step(p, s[i]).again && Step(p, s[i]).next == q
    requires HeaderLines(q, s, i + 1)
    ensures HeaderLines(p, s, i)
  {
    hide Step;
  }

  lemma LineAgain(p: Parser, q: Parser, s: seq<byte>, i: nat)
    requires i < |s| && InBlock(p.state) && Step(p, s[i]).Go? && Step(p, s[i]).again && Step(p, s[i]).next == q
    requires HeaderLines(q, s, i)
    ensures HeaderLines(p, s, i)
  {
    hide Step;
  }

  /** The end of the line, once its CR has been taken. */
  lemma LineFeed(p: Parser, s: seq<byte>, i: nat)
    requires i < |s| && s[i] == LF && AcceptedFrom(s, i + 1)
    requires p.state.HeaderAlmostDone? || p.state.HeaderValueDiscardWsAlmostDone?
    ensures HeaderLines(p, s, i)
  {
    var q := p.(state := if p.state.HeaderAlmostDone? then HeaderValueLws else HeaderValueDiscardLws);
    StepInBlock(p, LF);
    assert Headers(p, LF) == Go(q, None, None, None, false);
    hide Step, Headers, HeaderLines;
    LineOn(p, q, s, i);
  }

  lemma ValueByte(p: Parser, ch: byte)
    requires p.state.HeaderValue? && !p.hstate.HContentLength?
    ensures ch == CR ==> Step(p, ch).Go? && !Step(p, ch).again && Step(p, ch).next == p.(state := HeaderAlmostDone)
    ensures ch != CR && ch != LF ==>
      var a := Step(p, ch); a.Go? && !a.again && a.next.state.HeaderValue? && !a.next.hstate.HContentLength?
  {
    StepInBlock(p, ch);
    ValueTrailing(p, ch);
    NoLength(p, ch);
    hide Step, ValueChar;
  }

  lemma NoLength(p: Parser, ch: byte)
    requires !p.hstate.HContentLength?
    ensures ValueChar(p, ch).Some? && !ValueChar(p, ch).value.hstate.HContentLength?
    ensures var a := ValueStart(p, ch); a.Go? && a.next.state.HeaderValue? && !a.again && !a.next.hstate.HContentLength?
  {
    hide Token, Match;
  }

  /** The rest of a value, up to its CR at index e. */
  lemma {:induction false} ValueAccepted(p: Parser, s: seq<byte>, i: nat, e: nat)
    requires i <= e < |s| - 1 && s[e] == CR && s[e + 1] == LF && (forall k :: i <= k < e ==> s[k] != CR && s[k] != LF)
    requires p.state.HeaderValue? && !p.hstate.HContentLength? && AcceptedFrom(s, e + 2)
    ensures HeaderLines(p, s, i)
    decreases e - i
  {
    hide Step, HeaderLines, AcceptedFrom;
    ValueByte(p, s[i]);
    var q := Step(p, s[i]).next;
    if i == e { LineFeed(q, s, e + 1); } else { ValueAccepted(q, s, i + 1, e); }
    LineOn(p, q, s, i);
  }

  lemma SpaceByte(p: Parser, ch: byte)
    requires p.state.HeaderValueDiscardWs? && !p.hstate.HContentLength? && ch != LF
    ensures ch == CR ==> Step(p, ch).Go? && !Step(p, ch).again && Step(p, ch).next == p.(state := HeaderValueDiscardWsAlmostDone)
    ensures ch != CR ==>
      var a := Step(p, ch);
      a.Go? && !a.again && !a.next.hstate.HContentLength? && (a.next == p || a.next.state.HeaderValue?)
  {
    StepInBlock(p, ch);
    NoLength(p, ch);
    hide Step, ValueStart;
  }

  /** The same from the ':' on. */
  lemma {:induction false} SpaceAccepted(p: Parser, s: seq<byte>, i: nat, e: nat)
    requires i <= e < |s| - 1 && s[e] == CR && s[e + 1] == LF && (forall k :: i <= k < e ==> s[k] != CR && s[k] != LF)
    requires p.state.HeaderValueDiscardWs? && !p.hstate.HContentLength? && AcceptedFrom(s, e + 2)
    ensures HeaderLines(p, s, i)
    decreases e - i
  {
    hide Step, HeaderLines, AcceptedFrom;
    SpaceByte(p, s[i]);
    var q := Step(p, s[i]).next;
    if i == e {
      LineFeed(q, s, e + 1);
    } else if q == p {
      SpaceAccepted(q, s, i + 1, e);
    } else {
      ValueAccepted(q, s, i + 1, e);
    }
    LineOn(p, q, s, i);
  }

  /** The matcher of names, after the name so far: on the way to content-length it is as far
      as the name is. */
  ghost predicate NameSoFar(p: Parser, name: seq<byte>) {
    && (p.hstate.HC? || p.hstate.HCO? || p.hstate.HCON? || p.hstate.HMatchingContentLength? || p.hstate.HContentLength? ==>
          p.index + 1 == |name| && Spells(name, CONTENT_LENGTH))
    && (p.hstate.HC? ==> |name| == 1) && (p.hstate.HCO? ==> |name| == 2) && (p.hstate.HCON? ==> |name| == 3)
    && (p.hstate.HMatchingContentLength? ==> |name| < |CONTENT_LENGTH|)
    && (p.hstate.HContentLength? ==> |name| == |CONTENT_LENGTH|)
  }

  lemma SpellsMore(name: seq<byte>, ch: byte, word: string)
    requires Spells(name, word) && |name| < |word| && Token(ch) == word[|name|]
    ensures Spells(name + [ch], word)
  {
    hide Token;
  }

  lemma NameMore(p: Parser, name: seq<byte>, ch: byte)
    requires NameSoFar(p, name) && Token(ch) != '\0' && ch != ' '
    ensures NameSoFar(NameChar(p, ch, Token(ch)), name + [ch])
  {
    hide Token, Spells;
    if p.hstate.HMatchingContentLength? {
      NameMatches(p, name, ch);
    } else if p.hstate.HC? || p.hstate.HCO? || p.hstate.HCON? {
      NameStarts(p, name, ch);
    }
  }

  lemma NameMatches(p: Parser, name: seq<byte>, ch: byte)
    requires NameSoFar(p, name) && Token(ch) != '\0' && p.hstate.HMatchingContentLength?
    ensures NameSoFar(Matched(p, HttpAutomaton.CONTENT_LENGTH, Token(ch), HGeneral, HContentLength), name + [ch])
  {
    hide Token, Spells;
    if Token(ch) == CONTENT_LENGTH[|name|] { SpellsMore(name, ch, CONTENT_LENGTH); }
  }

  lemma NameStarts(p: Parser, name: seq<byte>, ch: byte)
    requires NameSoFar(p, name) && Token(ch) != '\0' && (p.hstate.HC? || p.hstate.HCO? || p.hstate.HCON?)
    ensures NameSoFar(NameChar(p, ch, Token(ch)), name + [ch])
  {
    hide Token, Spells;
    assert CONTENT_LENGTH[1] == 'o' && CONTENT_LENGTH[2] == 'n' && CONTENT_LENGTH[3] == 't';
    if Token(ch) == CONTENT_LENGTH[|name|] { SpellsMore(name, ch, CONTENT_LENGTH); }
  }

  lemma NameBegins(p: Parser, ch: byte)
    requires Token(ch) != '\0'
    ensures NameSoFar(p.(state := HeaderField, index := 0, hstate := NameStart(Token(ch))), [ch])
  {
    hide Token;
  }

  lemma SpaceIsNoToken()
    ensures Token(' ') == Token(':') == '\0'
  {
  }

  lemma NameByte(p: Parser, ch: byte)
    requires p.state.HeaderField?
    ensures Token(ch) != '\0' ==>
      var a := Step(p, ch); a.Go? && !a.again && a.next == NameChar(p, ch, Token(ch)) && a.next.state.HeaderField?
    ensures ch == ':' ==>
      var a := Step(p, ch); a.Go? && !a.again && a.next == p.(state := HeaderValueDiscardWs)
  {
    StepInBlock(p, ch);
    HeaderStays(p, ch, Token(ch));
    SpaceIsNoToken();
    hide Step, NameChar, Token;
  }

  /** The rest of a name from index i, up to its ':' at index c. */
  lemma {:induction false} NameAccepted(p: Parser, s: seq<byte>, b: nat, i: nat, c: nat, e: nat)
    requires b < i <= c < e < |s| - 1 && s[c] == ':' && s[e] == CR && s[e + 1] == LF
    requires AllToken(s[b..c]) && !(c - b == |CONTENT_LENGTH| && Spells(s[b..c], CONTENT_LENGTH))
    requires forall k :: c < k < e ==> s[k] != CR && s[k] != LF
    requires p.state.HeaderField? && NameSoFar(p, s[b..i]) && AcceptedFrom(s, e + 2)
    ensures HeaderLines(p, s, i)
    decreases c - i
  {
    SpaceIsNoToken();
    hide Step, HeaderLines, AcceptedFrom, NameChar, Token;
    NameByte(p, s[i]);
    var q := Step(p, s[i]).next;
    if i == c {
      SpaceAccepted(q, s, c + 1, e);
    } else {
      assert s[i] == s[b..c][i - b];
      assert s[b..i + 1] == s[b..i] + [s[i]];
      NameMore(p, s[b..i], s[i]);
      NameAccepted(q, s, b, i + 1, c, e);
    }
    LineOn(p, q, s, i);
  }

  /** The first character of a name, where a line may begin. */
  lemma FirstByte(p: Parser, ch: byte)
    requires Token(ch) != '\0'
    ensures p.state.HeaderFieldStart? ==>
      var a := Step(p, ch);
      a.Go? && !a.again && a.next == p.(state := HeaderField, index := 0, hstate := NameStart(Token(ch)))
    ensures p.state.HeaderValueLws? || p.state.HeaderValueDiscardLws? ==>
      Step(p, ch).Go? && Step(p, ch).again && Step(p, ch).next.state.HeaderFieldStart?
  {
    if AtLineStart(p.state) { StepInBlock(p, ch); }
    assert ch != ' ' && ch != '\t' && ch != CR && ch != LF;
    hide Step, Token, HeaderFlags;
  }

  /** One printed line. */
  lemma LineAccepted(p: Parser, s: seq<byte>, b: nat, c: nat, e: nat)
    requires b < c < e < |s| - 1 && s[c] == ':' && s[e] == CR && s[e + 1] == LF
    requires AllToken(s[b..c]) && !(c - b == |CONTENT_LENGTH| && Spells(s[b..c], CONTENT_LENGTH))
    requires forall k :: c < k < e ==> s[k] != CR && s[k] != LF
    requires AtLineStart(p.state) && AcceptedFrom(s, e + 2)
    ensures HeaderLines(p, s, b)
  {
    assert s[b] == s[b..c][0] && s[b..b + 1] == [s[b]];
    hide Step, HeaderLines, AcceptedFrom, Token, NameSoFar, Spells;
    FirstByte(p, s[b]);
    var r := if p.state.HeaderFieldStart? then p else Step(p, s[b]).next;
    FirstByte(r, s[b]);
    NameBegins(r, s[b]);
    var q := Step(r, s[b]).next;
    NameAccepted(q, s, b, b + 1, c, e);
    LineOn(r, q, s, b);
    if r != p { LineAgain(p, r, s, b); }
  }

  /** Where a printed line lies. */
  lemma LinePlace(l: HeaderLine, s: seq<byte>, b: nat, rest: seq<byte>)
    requires b <= |s| && s[b..] == PrintLine(l) + rest && TrailerLine(l)
    ensures var c := b + |l.name|; var e := c + 1 + |l.value|;
            && b < c < e < |s| - 1 && s[c] == ':' && s[e] == CR && s[e + 1] == LF && s[b..c] == l.name && s[e + 2..] == rest
            && |PrintLine(l)| == e + 2 - b
            && forall k :: c < k < e ==> s[k] != CR && s[k] != LF
  {
    var c := b + |l.name|;
    var e := c + 1 + |l.value|;
    var t := s[b..];
    assert t == l.name + ([':'] + (l.value + (CRLF + rest)));
    assert s[c] == t[|l.name|] && s[e] == t[e - b] && s[e + 1] == t[e + 1 - b];
    assert s[b..c] == t[..|l.name|] && s[e + 2..] == t[e + 2 - b..];
    forall k | c < k < e ensures s[k] != CR && s[k] != LF {
      assert s[k] == t[k - b] == l.value[k - c - 1] && l.value[k - c - 1] in l.value;
    }
  }

  lemma NameOk(l: HeaderLine)
    requires TrailerLine(l)
    ensures AllToken(l.name) && !(|l.name| == |CONTENT_LENGTH| && Spells(l.name, CONTENT_LENGTH))
  {
    forall k | 0 <= k < |l.name| ensures Token(l.name[k]) == LowerOf(l.name[k]) != '\0' { TokenIs(l.name[k]); }
    hide Token, LowerOf, IsToken;
    assert CONTENT_LENGTH == ['c', 'o', 'n', 't', 'e', 'n', 't', '-', 'l', 'e', 'n', 'g', 't', 'h'];
  }

  lemma LineFrom(l: HeaderLine, s: seq<byte>, b: nat, rest: seq<byte>)
    requires TrailerLine(l) && b <= |s| && s[b..] == PrintLine(l) + rest
    ensures b + |PrintLine(l)| <= |s| && s[b + |PrintLine(l)|..] == rest
    ensures AcceptedFrom(s, b + |PrintLine(l)|) ==> AcceptedFrom(s, b)
  {
    hide HeaderLines, TrailerLine, PrintLine, AllToken, Spells, AcceptedFrom;
    LinePlace(l, s, b, rest);
    NameOk(l);
    var c := b + |l.name|;
    var e := c + 1 + |l.value|;
    if AcceptedFrom(s, e + 2) { AcceptedLine(s, b, c, e); }
  }

  lemma AcceptedLine(s: seq<byte>, b: nat, c: nat, e: nat)
    requires b < c < e < |s| - 1 && s[c] == ':' && s[e] == CR && s[e + 1] == LF
    requires AllToken(s[b..c]) && !(c - b == |CONTENT_LENGTH| && Spells(s[b..c], CONTENT_LENGTH))
    requires forall k :: c < k < e ==> s[k] != CR && s[k] != LF
    requires AcceptedFrom(s, e + 2)
    ensures AcceptedFrom(s, b)
  {
    hide HeaderLines, AllToken, Spells;
    forall p: Parser | AtLineStart(p.state) ensures HeaderLines(p, s, b) { LineAccepted(p, s, b, c, e); }
  }

  lemma AcceptedEnd(s: seq<byte>)
    ensures AcceptedFrom(s, |s|)
  {
  }

  lemma {:induction false} LinesFrom(ls: seq<HeaderLine>, s: seq<byte>, b: nat)
    requires (forall l :: l in ls ==> TrailerLine(l)) && b <= |s| && s[b..] == PrintLines(ls)
    ensures AcceptedFrom(s, b)
    decreases |ls|
  {
    hide HeaderLines, TrailerLine, PrintLine, AcceptedFrom;
    if ls == [] {
      assert b == |s|;
      AcceptedEnd(s);
    } else {
      LineFrom(ls[0], s, b, PrintLines(ls[1..]));
      LinesFrom(ls[1..], s, b + |PrintLine(ls[0])|);
    }
  }

  /** The parser accepts every list of header lines that set no length. */
  lemma LinesAccepted(p: Parser, ls: seq<HeaderLine>)
    requires AtLineStart(p.state) && forall l :: l in ls ==> TrailerLine(l)
    ensures HeaderLines(p, PrintLines(ls), 0)
  {
    hide HeaderLines;
    assert PrintLines(ls)[0..] == PrintLines(ls);
    LinesFrom(ls, PrintLines(ls), 0);
  }

  /** The bytes that a log calls back as body, and how many messages it completes. */
  function BodyOf(log: seq<Event>): seq<byte> {
    if log == [] then []
    else
      var e := log[|log| - 1];
      BodyOf(log[..|log| - 1]) + (if e.OnData? && e.kind.BodyData? then e.bytes else [])
  }

  function Completed(log: seq<Event>): nat {
    if log == [] then 0 else Completed(log[..|log| - 1]) + (if log[|log| - 1].MessageComplete? then 1 else 0)
  }

  lemma BodyOfJoin(log: seq<Event>, e: Event)
    ensures BodyOf(Join(log, e)) == BodyOf(log) + (if e.OnData? && e.kind.BodyData? then e.bytes else [])
    ensures Completed(Join(log, e)) == Completed(log) + (if e.MessageComplete? then 1 else 0)
  {
    if e.OnData? && e.bytes == [] {
      assert BodyOf(log) + [] == BodyOf(log);
    } else if e.OnData? && log != [] && log[|log| - 1].OnData? && log[|log| - 1].kind == e.kind {
      var init, last := log[..|log| - 1], log[|log| - 1];
      var joined := init + [OnData(e.kind, last.bytes + e.bytes)];
      assert joined[..|joined| - 1] == init;
      assert BodyOf(init) + (last.bytes + e.bytes) == (BodyOf(init) + last.bytes) + e.bytes;
    } else {
      assert (log + [e])[..|log|] == log;
    }
  }

  lemma StepInBlock(p: Parser, ch: byte)
    requires InBlock(p.state)
    ensures Step(p, ch) == Headers(p, ch)
  {
    hide StatusLine, RequestLine, Headers, Body, Start;
  }

  /** A byte of a header block is no body, and stays in the trailer. */
  lemma BlockStep(p: Parser, ch: byte)
    requires InBlock(p.state)
    ensures BlockAction(p, Step(p, ch))
  {
    hide Headers;
    StepInBlock(p, ch);
    if InHeader(p.state) { LineByte(p, ch); } else { LineEndByte(p, ch); }
    hide Step;
  }

  ghost predicate BlockAction(p: Parser, a: Action) {
    a.Go? ==> (a.kind.None? || !a.kind.value.BodyData?) && a.note.None? && a.next.flags.trailing == p.flags.trailing
  }

  lemma LineByte(p: Parser, ch: byte)
    requires InHeader(p.state)
    ensures BlockAction(p, Headers(p, ch))
  {
    HeaderStays(p, ch, Token(ch));
    ValueTrailing(p, ch);
    ValueStartKind(p, ch);
    hide NameChar, ValueStart, ValueChar, Token;
  }

  lemma LineEndByte(p: Parser, ch: byte)
    requires InHeaderEnd(p.state)
    ensures BlockAction(p, Headers(p, ch))
  {
    HeaderStays(p, ch, ch);
    hide HeaderFlags;
  }

  lemma ValueStartKind(p: Parser, ch: byte)
    ensures var a := ValueStart(p, ch); a.Go? ==> (a.kind.None? || !a.kind.value.BodyData?) && a.note.None?
  {
  }

  /** Header lines add no body and complete no message. */
  lemma {:induction false} BlockRun(p: Parser, log: seq<Event>, s: seq<byte>, i: nat)
    requires i <= |s| && HeaderLines(p, s, i)
    ensures var o := Run(p, log, s, i);
            && o.Done? && AtLineStart(o.next.state) && o.next.flags.trailing == p.flags.trailing
            && BodyOf(o.log) == BodyOf(log) && Completed(o.log) == Completed(log)
    decreases |s| - i, Rank(p.state)
  {
    hide Step, Join, BodyOf, Completed;
    if i < |s| {
      AgainDecreases(p, s[i]);
      BlockStep(p, s[i]);
      match Step(p, s[i])
      case Go(q, kind, _, note, again) =>
        var l := JoinNote(JoinData(log, kind, [s[i]]), note);
        if kind.Some? { BodyOfJoin(log, OnData(kind.value, [s[i]])); }
        BlockRun(q, l, s, if again then i else i + 1);
    }
  }

  /** The parser at the last LF of a chunked message, after the trailer: the last header
      line has had its effect. */
  function AtLast(q: Parser): Parser {
    q.(flags := if q.state.HeaderFieldStart? then q.flags else HeaderFlags(q), state := HeadersAlmostDone)
  }

  lemma EndStep(p: Parser, ch: byte)
    ensures p.state.HeaderFieldStart? && ch == CR ==> Step(p, ch) == Go(p.(state := HeadersAlmostDone), None, None, None, false)
    ensures (p.state.HeaderValueLws? || p.state.HeaderValueDiscardLws?) && ch == CR ==>
      var a := Step(p, ch);
      a.Go? && a.next == p.(flags := HeaderFlags(p), state := HeaderFieldStart) && a.kind.None? && a.note.None? && a.again
    ensures p.state.HeadersAlmostDone? && ch == LF && p.flags.trailing ==>
      Step(p, ch) == Go(p.(state := NewMessage(p)), None, None, Some(MessageComplete), false)
  {
    hide StatusLine, RequestLine, Body, Start, HeaderFlags;
  }

  /** The CR of the empty line. */
  lemma LastLine(q: Parser, log: seq<Event>)
    requires AtLineStart(q.state)
    ensures Run(q, log, [CR], 0) == Done(AtLast(q), log) && AtLast(q).flags.trailing == q.flags.trailing
  {
    hide Step, HeaderFlags;
    EndStep(q, CR);
    HeaderStays(q, CR, CR);
    if q.state.HeaderFieldStart? {
      OneByte(q, log, CR);
      assert AtLast(q) == q.(state := HeadersAlmostDone);
    } else {
      var r := q.(flags := HeaderFlags(q), state := HeaderFieldStart);
      EndStep(r, CR);
      OneByte(r, log, CR);
      assert Run(q, log, [CR], 0) == Run(r, log, [CR], 0);
    }
  }

  /** The parser behind the last chunk, where the trailer begins. */
  function AtTrailer(p: Parser): Parser {
    p.(length := 0, flags := p.flags.(trailing := true), state := HeaderFieldStart)
  }

  /** Up to its last byte, an encoded body has called back all of its data and no end. */
  lemma BeforeLast(p: Parser, log: seq<Event>, cs: seq<Chunk>, end: Chunk, trailer: seq<byte>)
    requires p.state.ChunkSizeStart? && ChunksOk(cs) && ChunkOk(end) && end.bytes == []
    requires HeaderLines(AtTrailer(p), trailer, 0)
    ensures var e, l := Encode(cs, end, trailer), Join(log, OnData(BodyData, Bytes(cs)));
            var o := Run(AtTrailer(p), l, trailer, 0);
            && e == e[..|e| - 1] + [LF]
            && o.Done? && AtLineStart(o.next.state) && o.next.flags.trailing
            && Run(p, log, e[..|e| - 1], 0) == Done(AtLast(o.next), o.log)
            && BodyOf(o.log) == BodyOf(log) + Bytes(cs) && Completed(o.log) == Completed(log)
  {
    hide Step, Run, Join, Head, EncodeChunks, Bytes, BodyOf, Completed, HeaderLines, AtLast;
    var e := Encode(cs, end, trailer);
    var last := trailer + [CR];
    assert e == (EncodeChunks(cs) + (Head(end) + last)) + [LF];
    assert e[..|e| - 1] == EncodeChunks(cs) + (Head(end) + last);
    var q, l := if cs == [] then p else p.(length := 0), Join(log, OnData(BodyData, Bytes(cs)));
    ChunksRun(p, log, cs);
    BodyOfJoin(log, OnData(BodyData, Bytes(cs)));
    HeadRun(q, l, end);
    assert Run(q, l, Head(end), 0) == Done(AtTrailer(p), l);
    BlockRun(AtTrailer(p), l, trailer, 0);
    var o := Run(AtTrailer(p), l, trailer, 0);
    LastLine(o.next, o.log);
    RunAppend(AtTrailer(p), l, trailer, [CR]);
    RunAppend(q, l, Head(end), last);
    RunAppend(p, log, EncodeChunks(cs), Head(end) + last);
  }

  /** The parser after a chunked message whose trailer left it in q. */
  function AfterMessage(q: Parser): Parser {
    AtLast(q).(state := NewMessage(AtLast(q)))
  }

  /** Decoding inverts encoding: the body called back is that of the chunks, whatever the
      trailer; the message is complete exactly at the last LF, and what follows is left to
      the next message. */
  lemma ChunkedRoundTrip(p: Parser, log: seq<Event>, cs: seq<Chunk>, end: Chunk, trailer: seq<byte>, rest: seq<byte>)
    requires p.state.ChunkSizeStart? && ChunksOk(cs) && ChunkOk(end) && end.bytes == []
    requires HeaderLines(AtTrailer(p), trailer, 0)
    ensures var e := Encode(cs, end, trailer);
            var o := Run(AtTrailer(p), Join(log, OnData(BodyData, Bytes(cs))), trailer, 0);
            && o.Done?
            && var l := Join(o.log, MessageComplete);
            && BodyOf(o.log) == BodyOf(log) + Bytes(cs) && Completed(o.log) == Completed(log)
            && Run(p, log, e, 0) == Done(AfterMessage(o.next), l)
            && Run(p, log, e + rest, 0) == Shift(Run(AfterMessage(o.next), l, rest, 0), |e|)
  {
    hide Step, Run, Join, Encode, NewMessage, BodyOf, Completed, AtLast, HeaderLines;
    BeforeLast(p, log, cs, end, trailer);
    var e := Encode(cs, end, trailer);
    var o := Run(AtTrailer(p), Join(log, OnData(BodyData, Bytes(cs))), trailer, 0);
    var q := AtLast(o.next);
    AtLastState(o.next);
    EndStep(q, LF);
    OneByte(q, o.log, LF);
    RunAppend(p, log, e[..|e| - 1], [LF]);
    RunAppend(p, log, e, rest);
  }

  lemma AtLastState(q: Parser)
    ensures AtLast(q).state.HeadersAlmostDone? && AtLast(q).flags.trailing == q.flags.trailing
  {
    hide HeaderFlags;
    HeaderStays(q, CR, CR);
  }

  /** With printed header lines as the trailer: exactly the chunks are called back as body, one
      message is completed, by the last byte, and what follows is left to the next message. */
  lemma LinesRoundTrip(p: Parser, log: seq<Event>, cs: seq<Chunk>, end: Chunk, ls: seq<HeaderLine>, rest: seq<byte>)
    requires p.state.ChunkSizeStart? && ChunksOk(cs) && ChunkOk(end) && end.bytes == []
    requires forall l :: l in ls ==> TrailerLine(l)
    ensures var e := Encode(cs, end, PrintLines(ls));
            var o, b := Run(p, log, e, 0), Run(p, log, e[..|e| - 1], 0);
            && b.Done? && BodyOf(b.log) == BodyOf(log) + Bytes(cs) && Completed(b.log) == Completed(log)
            && o.Done? && BodyOf(o.log) == BodyOf(log) + Bytes(cs) && Completed(o.log) == Completed(log) + 1
            && Run(p, log, e + rest, 0) == Shift(Run(o.next, o.log, rest, 0), |e|)
  {
    hide Run, HeaderLines, BodyOf, Completed, Join, Encode, TrailerLine, AtLast, AfterMessage;
    LinesAccepted(AtTrailer(p), ls);
    BeforeLast(p, log, cs, end, PrintLines(ls));
    ChunkedRoundTrip(p, log, cs, end, PrintLines(ls), rest);
    BodyOfJoin(Run(AtTrailer(p), Join(log, OnData(BodyData, Bytes(cs))), PrintLines(ls), 0).log, MessageComplete);
  }

  /** Without a trailer, the log is that of the body and the end of the message. */
  lemma NoTrailer(p: Parser, log: seq<Event>, cs: seq<Chunk>, end: Chunk)
    requires p.state.ChunkSizeStart? && ChunksOk(cs) && ChunkOk(end) && end.bytes == []
    ensures Run(p, log, Encode(cs, end, []), 0) ==
            Done(AfterMessage(AtTrailer(p)), Join(Join(log, OnData(BodyData, Bytes(cs))), MessageComplete))
  {
    hide AfterMessage, Join, Encode;
    ChunkedRoundTrip(p, log, cs, end, [], []);
  }

  lemma StateOnly(p: Parser, s: State, q: Parser)
    requires p == q.(state := s)
    ensures NewMessage(p) == NewMessage(q)
  {
  }

  /** However the encoded body is cut into pieces. */
  lemma ChunkedPieces(p: Parser, log: seq<Event>, cs: seq<Chunk>, end: Chunk, trailer: seq<byte>, pieces: seq<seq<byte>>)
    requires p.state.ChunkSizeStart? && ChunksOk(cs) && ChunkOk(end) && end.bytes == []
    requires HeaderLines(AtTrailer(p), trailer, 0) && Concat(pieces) == Encode(cs, end, trailer)
    ensures var o := RunPieces(p, log, pieces);
            && o.Done? && o == Run(p, log, Encode(cs, end, trailer), 0)
            && BodyOf(o.log) == BodyOf(log) + Bytes(cs) && Completed(o.log) == Completed(log) + 1
  {
    hide Run, HeaderLines, BodyOf, Completed;
    ChunkedRoundTrip(p, log, cs, end, trailer, []);
    BodyOfJoin(Run(AtTrailer(p), Join(log, OnData(BodyData, Bytes(cs))), trailer, 0).log, MessageComplete);
    SegmentationIndependence(p, log, pieces);
  }

  // ---- Bodies of known length ----

  lemma CompleteStep(p: Parser, ch: byte)
    requires p.state.MessageDone?
    ensures Step(p, ch) == Go(p.(state := NewMessage(p)), None, None, Some(MessageComplete), false)
  {
  }

  /** A body of known length is called back, and the message ends with its last byte. */
  lemma IdentityRoundTrip(p: Parser, log: seq<Event>, s: seq<byte>, rest: seq<byte>)
    requires p.state.BodyIdentity? && p.length == |s| > 0
    ensures var q := p.(length := 0, state := NewMessage(p.(length := 0)));
            var l := Join(Join(log, OnData(BodyData, s)), MessageComplete);
            && Run(p, log, s, 0) == Done(q, l)
            && Run(p, log, s + rest, 0) == Shift(Run(q, l, rest, 0), |s|)
  {
    hide Step, Join, NewMessage;
    var q, l := p.(length := 0, state := MessageDone), Join(log, OnData(BodyData, s));
    EmptyJoined(log);
    assert s[0..0] == [] && s[0..|s|] == s;
    CountedRun(p, log, s, 0, 0, |s|);
    assert Run(p, log, s, 0) == Run(q, l, s, |s| - 1);
    CompleteStep(q, s[|s| - 1]);
    StateOnly(q, MessageDone, p.(length := 0));
    assert Run(q, l, s, |s| - 1) == Run(q.(state := NewMessage(q)), Join(l, MessageComplete), s, |s|);
    RunAppend(p, log, s, rest);
  }
}
