/** A printed header line, read by the automaton: which names and values it recognises. */
module HttpHeader {
  import opened Wrappers

  import opened HttpChars
  import opened HttpAutomaton
  import opened HttpRun
  import opened HttpText

  // ---- Names ----

  /** The name so far is the beginning of a word, or all of it. */
  predicate Begins(s: seq<byte>, word: seq<byte>) {
    |s| <= |word| && SameText(s, word[..|s|])
  }

  lemma BeginsMore(s: seq<byte>, ch: byte, word: seq<byte>)
    ensures Begins(s + [ch], word) <==> Begins(s, word) && |s| < |word| && LowerOf(ch) == word[|s|]
  {
    var t := s + [ch];
    if Begins(t, word) {
      assert LowerOf(t[|s|]) == word[..|t|][|s|];
      forall k | 0 <= k < |s| ensures LowerOf(s[k]) == word[..|s|][k] { assert LowerOf(t[k]) == word[..|t|][k]; }
    }
  }

  lemma BeginsAll(s: seq<byte>, word: seq<byte>)
    ensures SameText(s, word) <==> Begins(s, word) && |s| == |word|
    ensures Begins(s, word) ==> |s| <= |word|
  {
    if |s| == |word| { assert word[..|s|] == word; }
  }

  /** Where the matcher of names stands after a name. */
  function NameState(s: seq<byte>): HeaderState {
    if Begins(s, ['c', 'o', 'n']) then (if |s| == 1 then HC else if |s| == 2 then HCO else HCON)
    else if Begins(s, CONNECTION_TEXT) then (if |s| < 10 then HMatchingConnection else HConnection)
    else if Begins(s, LENGTH_TEXT) then (if |s| < 14 then HMatchingContentLength else HContentLength)
    else if Begins(s, PROXY_TEXT) then (if |s| < 16 then HMatchingProxyConnection else HConnection)
    else if Begins(s, TRANSFER_TEXT) then (if |s| < 17 then HMatchingTransferEncoding else HTransferEncoding)
    else if Begins(s, UPGRADE_TEXT) then (if |s| < 7 then HMatchingUpgrade else HUpgrade)
    else HGeneral
  }

  /** A state that goes by the index. */
  predicate Indexed(h: HeaderState) {
    h.HMatchingConnection? || h.HMatchingContentLength? || h.HMatchingProxyConnection? || h.HMatchingTransferEncoding?
    || h.HMatchingUpgrade? || h.HC? || h.HCO? || h.HCON?
  }

  ghost predicate NameRead(p: Parser, s: seq<byte>) {
    s != [] && p.hstate == NameState(s) && (Indexed(p.hstate) ==> p.index + 1 == |s|)
  }

  lemma NameFirst(p: Parser, ch: byte)
    requires IsToken(ch)
    ensures NameRead(p.(state := HeaderField, index := 0, hstate := NameStart(LowerOf(ch))), [ch])
  {
    var s := [ch];
    assert s == [] + [ch];
    BeginsMore([], ch, ['c', 'o', 'n']);
    BeginsMore([], ch, CONNECTION_TEXT);
    BeginsMore([], ch, LENGTH_TEXT);
    BeginsMore([], ch, PROXY_TEXT);
    BeginsMore([], ch, TRANSFER_TEXT);
    BeginsMore([], ch, UPGRADE_TEXT);
    hide LowerOf;
  }

  /** The constants of the parser are the words. */
  lemma Words()
    ensures CONNECTION == CONNECTION_TEXT && PROXY_CONNECTION == PROXY_TEXT && CONTENT_LENGTH == LENGTH_TEXT
    ensures TRANSFER_ENCODING == TRANSFER_TEXT && UPGRADE == UPGRADE_TEXT
    ensures CHUNKED == CHUNKED_TEXT && KEEP_ALIVE == KEEP_TEXT && CLOSE == CLOSE_TEXT
  {
  }

  lemma BeginsAt(s: seq<byte>, word: seq<byte>, k: nat)
    requires Begins(s, word) && k < |s|
    ensures LowerOf(s[k]) == word[k]
  {
    assert LowerOf(s[k]) == word[..|s|][k];
  }

  /** The names have different first letters, but for two that differ in the fourth. */
  lemma Apart(s: seq<byte>)
    requires s != []
    ensures Begins(s, CONNECTION_TEXT) || Begins(s, LENGTH_TEXT) ==>
              !Begins(s, PROXY_TEXT) && !Begins(s, TRANSFER_TEXT) && !Begins(s, UPGRADE_TEXT)
    ensures Begins(s, PROXY_TEXT) ==> !Begins(s, TRANSFER_TEXT) && !Begins(s, UPGRADE_TEXT)
    ensures Begins(s, TRANSFER_TEXT) ==> !Begins(s, UPGRADE_TEXT)
    ensures |s| > 3 ==> !Begins(s, CONNECTION_TEXT) || !Begins(s, LENGTH_TEXT)
  {
    if Begins(s, CONNECTION_TEXT) { BeginsAt(s, CONNECTION_TEXT, 0); if |s| > 3 { BeginsAt(s, CONNECTION_TEXT, 3); } }
    if Begins(s, LENGTH_TEXT) { BeginsAt(s, LENGTH_TEXT, 0); if |s| > 3 { BeginsAt(s, LENGTH_TEXT, 3); } }
    if Begins(s, PROXY_TEXT) { BeginsAt(s, PROXY_TEXT, 0); }
    if Begins(s, TRANSFER_TEXT) { BeginsAt(s, TRANSFER_TEXT, 0); }
    if Begins(s, UPGRADE_TEXT) { BeginsAt(s, UPGRADE_TEXT, 0); }
    hide Begins, LowerOf;
  }

  lemma ConBegins(s: seq<byte>)
    ensures Begins(s, ['c', 'o', 'n']) <==> Begins(s, CONNECTION_TEXT) && |s| <= 3
    ensures Begins(s, ['c', 'o', 'n']) <==> Begins(s, LENGTH_TEXT) && |s| <= 3
  {
    if |s| <= 3 {
      assert ['c', 'o', 'n'][..|s|] == CONNECTION_TEXT[..|s|] == LENGTH_TEXT[..|s|];
    }
  }

  /** All that one more character does to the words begun. */
  lemma MoreOfWords(s: seq<byte>, ch: byte)
    ensures Begins(s + [ch], CONNECTION_TEXT) <==> Begins(s, CONNECTION_TEXT) && |s| < 10 && LowerOf(ch) == CONNECTION_TEXT[|s|]
    ensures Begins(s + [ch], LENGTH_TEXT) <==> Begins(s, LENGTH_TEXT) && |s| < 14 && LowerOf(ch) == LENGTH_TEXT[|s|]
    ensures Begins(s + [ch], PROXY_TEXT) <==> Begins(s, PROXY_TEXT) && |s| < 16 && LowerOf(ch) == PROXY_TEXT[|s|]
    ensures Begins(s + [ch], TRANSFER_TEXT) <==> Begins(s, TRANSFER_TEXT) && |s| < 17 && LowerOf(ch) == TRANSFER_TEXT[|s|]
    ensures Begins(s + [ch], UPGRADE_TEXT) <==> Begins(s, UPGRADE_TEXT) && |s| < 7 && LowerOf(ch) == UPGRADE_TEXT[|s|]
  {
    BeginsMore(s, ch, CONNECTION_TEXT);
    BeginsMore(s, ch, LENGTH_TEXT);
    BeginsMore(s, ch, PROXY_TEXT);
    BeginsMore(s, ch, TRANSFER_TEXT);
    BeginsMore(s, ch, UPGRADE_TEXT);
    hide Begins, LowerOf;
  }

  /** One more character of a name. */
  lemma NameMore(p: Parser, s: seq<byte>, ch: byte)
    requires NameRead(p, s) && IsToken(ch)
    ensures NameRead(NameChar(p, ch, LowerOf(ch)), s + [ch])
    ensures NameChar(p, ch, LowerOf(ch)) == p.(index := NameChar(p, ch, LowerOf(ch)).index, hstate := NameChar(p, ch, LowerOf(ch)).hstate)
  {
    hide Begins, LowerOf, IsToken;
    TokenIs(ch);
    Words();
    Apart(s);
    ConBegins(s);
    ConBegins(s + [ch]);
    MoreOfWords(s, ch);
    assert CONNECTION_TEXT[1] == LENGTH_TEXT[1] == 'o' && CONNECTION_TEXT[2] == LENGTH_TEXT[2] == 'n' && CONNECTION_TEXT[3] == 'n' && LENGTH_TEXT[3] == 't';
  }

  /** The names that are recognised. */
  lemma NameMeans(s: seq<byte>)
    requires s != []
    ensures NameState(s).HConnection? <==> SameText(s, CONNECTION_TEXT) || SameText(s, PROXY_TEXT)
    ensures NameState(s).HContentLength? <==> SameText(s, LENGTH_TEXT)
    ensures NameState(s).HTransferEncoding? <==> SameText(s, TRANSFER_TEXT)
    ensures NameState(s).HUpgrade? <==> SameText(s, UPGRADE_TEXT)
  {
    hide Begins, SameText;
    Apart(s);
    ConBegins(s);
    BeginsAll(s, CONNECTION_TEXT);
    BeginsAll(s, LENGTH_TEXT);
    BeginsAll(s, PROXY_TEXT);
    BeginsAll(s, TRANSFER_TEXT);
    BeginsAll(s, UPGRADE_TEXT);
  }

  lemma HeadersStep(p: Parser, ch: byte)
    requires p.state.HeaderFieldStart? || p.state.HeaderField? || p.state.HeaderValueDiscardWs? || p.state.HeaderValueDiscardWsAlmostDone?
             || p.state.HeaderValueDiscardLws? || p.state.HeaderValueStart? || p.state.HeaderValue?
                 || p.state.HeaderValueLws? || p.state.HeaderAlmostDone?
             || p.state.HeadersAlmostDone? || p.state.HeadersDone?
    ensures Step(p, ch) == Headers(p, ch)
  {
    hide StatusLine, RequestLine, Headers, Body, Start;
  }

  lemma NameStep(p: Parser, ch: byte)
    requires IsToken(ch)
    ensures p.state.HeaderFieldStart? ==>
              Step(p, ch) == Go(p.(state := HeaderField, index := 0, hstate := NameStart(LowerOf(ch))), Some(FieldData), None, None, false)
    ensures p.state.HeaderField? ==> Step(p, ch) == Go(NameChar(p, ch, LowerOf(ch)), Some(FieldData), None, None, false)
  {
    hide Step, IsToken, NameChar, NameStart, Token, LowerOf;
    if p.state.HeaderFieldStart? || p.state.HeaderField? { HeadersStep(p, ch); }
    TokenIs(ch);
  }

  lemma ColonStep(p: Parser)
    requires p.state.HeaderField?
    ensures Step(p, ':') == Go(p.(state := HeaderValueDiscardWs), None, Some(FieldData), None, false)
  {
    HeadersStep(p, ':');
    TokenIs(':');
    hide Step, NameChar, Token;
  }

  /** The parser in another place of the header block. */
  predicate Moved(p: Parser, q: Parser) {
    q == p.(state := q.state, hstate := q.hstate, index := q.index)
  }

  /** A name is called back, and the matcher stands where it should. */
  lemma {:induction false} NameRun(p: Parser, log: seq<Event>, s: seq<byte>)
    requires p.state.HeaderFieldStart? && s != [] && forall k :: 0 <= k < |s| ==> IsToken(s[k])
    ensures var o := Run(p, log, s, 0);
            && o.Done? && o.log == Join(log, OnData(FieldData, s)) && o.next.state.HeaderField?
            && NameRead(o.next, s) && Moved(p, o.next)
    decreases |s|
  {
    hide Step, Run, Join, NameChar, LowerOf, IsToken, NameRead, NameStart;
    var n := |s| - 1;
    var a, ch := s[..n], s[n];
    assert s == a + [ch];
    NameStep(p, ch);
    if n == 0 {
      assert s == [ch];
      NameFirst(p, ch);
      OneByte(p, log, ch);
    } else {
      NameRun(p, log, a);
      var o := Run(p, log, a, 0);
      RunAppend(p, log, a, [ch]);
      NameStep(o.next, ch);
      NameMore(o.next, a, ch);
      OneByte(o.next, o.log, ch);
      JoinTwice(log, FieldData, a, [ch]);
    }
  }

  lemma NameColonRun(p: Parser, log: seq<Event>, s: seq<byte>)
    requires p.state.HeaderFieldStart? && s != [] && forall k :: 0 <= k < |s| ==> IsToken(s[k])
    ensures var o := Run(p, log, s + [':'], 0);
            && o.Done? && o.log == Join(log, OnData(FieldData, s)) && o.next.state.HeaderValueDiscardWs?
            && o.next.hstate == NameState(s) && Moved(p, o.next)
  {
    hide Step, Run, Join, IsToken, NameState;
    NameRun(p, log, s);
    var o := Run(p, log, s, 0);
    ColonStep(o.next);
    OneByte(o.next, o.log, ':');
    RunAppend(p, log, s, [':']);
  }

  // ---- Values ----

  lemma BlankStep(p: Parser, ch: byte)
    requires p.state.HeaderValueDiscardWs?
    ensures IsBlank(ch) ==> Step(p, ch) == Go(p, None, None, None, false)
    ensures ch == CR ==> Step(p, ch) == Go(p.(state := HeaderValueDiscardWsAlmostDone), None, None, None, false)
    ensures !IsBlank(ch) && ch != CR && ch != LF ==> Step(p, ch) == ValueStart(p, ch)
  {
    hide Step, ValueStart;
    HeadersStep(p, ch);
  }

  /** Blanks in front of a value are passed over. */
  lemma {:induction false} BlanksRun(p: Parser, log: seq<Event>, s: seq<byte>)
    requires p.state.HeaderValueDiscardWs? && forall k :: 0 <= k < |s| ==> IsBlank(s[k])
    ensures Run(p, log, s, 0) == Done(p, log)
    decreases |s|
  {
    hide Step;
    if s != [] {
      var n := |s| - 1;
      assert s == s[..n] + [s[n]];
      BlanksRun(p, log, s[..n]);
      BlankStep(p, s[n]);
      OneByte(p, log, s[n]);
      RunAppend(p, log, s[..n], [s[n]]);
    }
  }

  lemma LineEndStep(p: Parser, ch: byte)
    ensures p.state.HeaderValue? && ch == CR ==> Step(p, ch) == Go(p.(state := HeaderAlmostDone), None, Some(ValueData), None, false)
    ensures p.state.HeaderAlmostDone? && ch == LF ==> Step(p, ch) == Go(p.(state := HeaderValueLws), None, None, None, false)
    ensures p.state.HeaderValueDiscardWsAlmostDone? && ch == LF ==>
              Step(p, ch) == Go(p.(state := HeaderValueDiscardLws), None, None, None, false)
  {
    if p.state.HeaderValue? || p.state.HeaderAlmostDone? || p.state.HeaderValueDiscardWsAlmostDone? { HeadersStep(p, ch); }
    hide Step, ValueChar;
  }

  lemma LineEndRun(p: Parser, log: seq<Event>)
    requires p.state.HeaderValue? || p.state.HeaderValueDiscardWs?
    ensures Run(p, log, HttpText.CRLF, 0) ==
            Done(p.(state := if p.state.HeaderValue? then HeaderValueLws else HeaderValueDiscardLws), log)
  {
    hide Step, Run;
    LineEndStep(p, CR);
    if p.state.HeaderValueDiscardWs? { BlankStep(p, CR); }
    OneByte(p, log, CR);
    var q := p.(state := if p.state.HeaderValue? then HeaderAlmostDone else HeaderValueDiscardWsAlmostDone);
    LineEndStep(q, LF);
    OneByte(q, log, LF);
    assert HttpText.CRLF == [CR] + [LF];
    RunAppend(p, log, [CR], [LF]);
  }

  // ---- Transfer-Encoding ----

  /** Where the matcher of a Transfer-Encoding stands after a value that begins so. */
  function CodingState(s: seq<byte>): HeaderState {
    if |s| < 7 && Begins(s, CHUNKED_TEXT) then HMatchingChunked
    else if IsWord(s, CHUNKED_TEXT) then HChunked
    else HGeneral
  }

  ghost predicate CodingRead(p: Parser, s: seq<byte>) {
    s != [] && p.hstate == CodingState(s) && (p.hstate.HMatchingChunked? ==> p.index + 1 == |s|)
  }

  /** One more character after a word is a space. */
  lemma WordMore(s: seq<byte>, ch: byte, word: seq<byte>)
    requires word != []
    ensures IsWord(s + [ch], word) <==>
            || (Begins(s, word) && |s| + 1 == |word| && LowerOf(ch) == word[|s|])
            || (IsWord(s, word) && ch == ' ')
    ensures IsWord(s, word) ==> |s| >= |word|
  {
    var t := s + [ch];
    if |s| >= |word| {
      assert t[..|word|] == s[..|word|];
      if IsWord(t, word) {
        assert t[|s|] == ch;
        forall k | |word| <= k < |s| ensures s[k] == ' ' { assert t[k] == s[k]; }
      }
    } else if |s| + 1 == |word| {
      assert t[..|word|] == t;
      BeginsMore(s, ch, word);
      BeginsAll(t, word);
    }
  }

  lemma CodingFirst(p: Parser, ch: byte)
    requires p.hstate.HTransferEncoding? && ch != CR && ch != LF
    ensures var a := ValueStart(p, ch);
            && a == Go(a.next, Some(ValueData), None, None, false) && a.next.state.HeaderValue?
            && CodingRead(a.next, [ch]) && Moved(p, a.next)
  {
    assert [ch] == [] + [ch];
    BeginsMore([], ch, CHUNKED_TEXT);
    LowerIs(ch, 'c');
    hide Lower, LowerOf, Begins;
    assert Begins([], CHUNKED_TEXT) by { NothingBegins(CHUNKED_TEXT); }
  }

  lemma NothingBegins(word: seq<byte>)
    ensures Begins([], word)
  {
  }

  lemma CodingMore(p: Parser, s: seq<byte>, ch: byte)
    requires CodingRead(p, s) && ch != CR && ch != LF
    ensures var q := ValueChar(p, ch); q.Some? && CodingRead(q.value, s + [ch]) && Moved(p, q.value) && q.value.state == p.state
  {
    hide Lower, LowerOf, Begins, IsWord;
    BeginsMore(s, ch, CHUNKED_TEXT);
    WordMore(s, ch, CHUNKED_TEXT);
    Words();
    if |s| < 7 { LowerIs(ch, CHUNKED_TEXT[|s|]); }
  }

  // ---- Connection ----

  /** Where the matcher of Connection tokens stands after the element e so far. */
  function ElementState(e: seq<byte>): HeaderState {
    if e == [] then HMatchingTokenStart
    else if |e| < 10 && Begins(e, KEEP_TEXT) then HMatchingKeepAlive
    else if |e| < 5 && Begins(e, CLOSE_TEXT) then HMatchingClose
    else if |e| < 7 && Begins(e, UPGRADE_TEXT) then HMatchingConnUpgrade
    else if IsWord(e, KEEP_TEXT) then HKeepAlive
    else if IsWord(e, CLOSE_TEXT) then HClose
    else if IsWord(e, UPGRADE_TEXT) then HConnUpgrade
    else HMatchingToken
  }

  predicate TokenMatching(h: HeaderState) {
    h.HMatchingKeepAlive? || h.HMatchingClose? || h.HMatchingConnUpgrade?
  }

  ghost predicate ElementRead(p: Parser, e: seq<byte>) {
    && p.hstate == ElementState(e)
    && (TokenMatching(p.hstate) ==> p.index + 1 == |e|)
    && (p.hstate.HMatchingTokenStart? ==> p.index == 0)
  }

  lemma WordAt(s: seq<byte>, word: seq<byte>, k: nat)
    requires (IsWord(s, word) || Begins(s, word)) && k < |word| && k < |s|
    ensures LowerOf(s[k]) == word[k]
  {
    if Begins(s, word) { BeginsAt(s, word, k); } else { assert LowerOf(s[..|word|][k]) == word[k]; }
  }

  /** The three tokens have different first letters. */
  lemma TokensApart(e: seq<byte>)
    requires e != []
    ensures Begins(e, KEEP_TEXT) || IsWord(e, KEEP_TEXT) ==> LowerOf(e[0]) == 'k'
    ensures Begins(e, CLOSE_TEXT) || IsWord(e, CLOSE_TEXT) ==> LowerOf(e[0]) == 'c'
    ensures Begins(e, UPGRADE_TEXT) || IsWord(e, UPGRADE_TEXT) ==> LowerOf(e[0]) == 'u'
  {
    if Begins(e, KEEP_TEXT) || IsWord(e, KEEP_TEXT) { WordAt(e, KEEP_TEXT, 0); }
    if Begins(e, CLOSE_TEXT) || IsWord(e, CLOSE_TEXT) { WordAt(e, CLOSE_TEXT, 0); }
    if Begins(e, UPGRADE_TEXT) || IsWord(e, UPGRADE_TEXT) { WordAt(e, UPGRADE_TEXT, 0); }
  }

  lemma MoreOfTokens(e: seq<byte>, ch: byte)
    ensures Begins(e + [ch], KEEP_TEXT) <==> Begins(e, KEEP_TEXT) && |e| < 10 && LowerOf(ch) == KEEP_TEXT[|e|]
    ensures Begins(e + [ch], CLOSE_TEXT) <==> Begins(e, CLOSE_TEXT) && |e| < 5 && LowerOf(ch) == CLOSE_TEXT[|e|]
    ensures Begins(e + [ch], UPGRADE_TEXT) <==> Begins(e, UPGRADE_TEXT) && |e| < 7 && LowerOf(ch) == UPGRADE_TEXT[|e|]
    ensures IsWord(e + [ch], KEEP_TEXT) <==> (Begins(e + [ch], KEEP_TEXT) && |e| + 1 == 10) || (IsWord(e, KEEP_TEXT) && ch == ' ')
    ensures IsWord(e + [ch], CLOSE_TEXT) <==> (Begins(e + [ch], CLOSE_TEXT) && |e| + 1 == 5) || (IsWord(e, CLOSE_TEXT) && ch == ' ')
    ensures IsWord(e + [ch], UPGRADE_TEXT) <==> (Begins(e + [ch], UPGRADE_TEXT) && |e| + 1 == 7) || (IsWord(e, UPGRADE_TEXT) && ch == ' ')
    ensures IsWord(e, KEEP_TEXT) ==> |e| >= 10
    ensures IsWord(e, CLOSE_TEXT) ==> |e| >= 5
    ensures IsWord(e, UPGRADE_TEXT) ==> |e| >= 7
  {
    hide Begins, IsWord, LowerOf;
    BeginsMore(e, ch, KEEP_TEXT); WordMore(e, ch, KEEP_TEXT);
    BeginsMore(e, ch, CLOSE_TEXT); WordMore(e, ch, CLOSE_TEXT);
    BeginsMore(e, ch, UPGRADE_TEXT); WordMore(e, ch, UPGRADE_TEXT);
  }

  /** The character of the parser that a letter of a token is compared with. */
  lemma TokenLetter(ch: byte, word: seq<byte>, k: nat)
    requires ch != CR && k < |word| && (word == KEEP_TEXT || word == CLOSE_TEXT || word == UPGRADE_TEXT)
    ensures Lower(ch) == word[k] <==> LowerOf(ch) == word[k]
  {
    LowerOther(ch);
    if word[k] != '-' {
      assert 'a' <= word[k] <= 'z';
      LowerIs(ch, word[k]);
    }
    hide Lower, LowerOf;
  }

  lemma FirstLetters(ch: byte)
    requires ch != CR
    ensures Lower(ch) == 'k' <==> LowerOf(ch) == 'k'
    ensures Lower(ch) == 'c' <==> LowerOf(ch) == 'c'
    ensures Lower(ch) == 'u' <==> LowerOf(ch) == 'u'
  {
    LowerIs(ch, 'k'); LowerIs(ch, 'c'); LowerIs(ch, 'u');
    hide Lower, LowerOf;
  }

  /** The first character of an element. */
  lemma OneLetter(ch: byte)
    ensures ElementState([ch]) == if LowerOf(ch) == 'k' then HMatchingKeepAlive else if LowerOf(ch) == 'c' then HMatchingClose
                                  else if LowerOf(ch) == 'u' then HMatchingConnUpgrade else HMatchingToken
  {
    assert [ch] == [] + [ch];
    MoreOfTokens([], ch);
    NothingBegins(KEEP_TEXT); NothingBegins(CLOSE_TEXT); NothingBegins(UPGRADE_TEXT);
    hide Begins, IsWord, LowerOf;
  }

  lemma ElementFirst(p: Parser, ch: byte)
    requires p.hstate.HConnection? && ch != CR && ch != LF
    ensures var a := ValueStart(p, ch);
            && a == Go(a.next, Some(ValueData), None, None, false) && a.next.state.HeaderValue?
            && ElementRead(a.next, [ch]) && a.next == p.(state := HeaderValue, index := 0, hstate := a.next.hstate)
  {
    FirstLetters(ch);
    OneLetter(ch);
    hide Lower, LowerOf, ElementState;
  }

  /** The first character of an element behind a comma, and the spaces in front of it. */
  lemma ElementBegins(p: Parser, ch: byte)
    requires p.hstate.HMatchingTokenStart? && p.index == 0 && ch != CR && ch != LF
    ensures var q := ValueChar(p, ch);
            && q.Some? && q.value == p.(hstate := q.value.hstate)
            && if ch == ' ' || ch == '\0' then ElementRead(q.value, [])
               else if MayBegin(ch) then ElementRead(q.value, [ch]) else q.value.hstate.HGeneral?
  {
    hide Lower, LowerOf, Token, ElementState, MayBegin;
    BeginIs(ch);
    FirstLetters(ch);
    OneLetter(ch);
    NoElement();
  }

  lemma NoElement()
    ensures ElementState([]) == HMatchingTokenStart
  {
  }

  lemma BeginIs(ch: byte)
    requires ch != CR && ch != LF
    ensures var c := Lower(ch);
            if ch == ' ' || ch == '\0' then c == ' ' && Token(c) == '\0'
            else (MayBegin(ch) <==> Token(c) != '\0') && c != ' ' && c != '\t'
    ensures LowerOf(ch) == 'k' || LowerOf(ch) == 'c' || LowerOf(ch) == 'u' ==> MayBegin(ch) && ch != ' ' && ch != '\0'
  {
  }

  /** Any further character of an element. */
  lemma ElementMore(p: Parser, e: seq<byte>, ch: byte)
    requires ElementRead(p, e) && e != [] && (ch != ',' || !Uncut(e)) && ch != CR && ch != LF
    ensures var q := ValueChar(p, ch);
            q.Some? && ElementRead(q.value, e + [ch]) && q.value == p.(index := q.value.index, hstate := q.value.hstate)
  {
    hide Lower, LowerOf, Begins, IsWord, CutWord;
    TokensApart(e);
    MoreOfTokens(e, ch);
    CutBegins(e, KEEP_TEXT); CutBegins(e, CLOSE_TEXT); CutBegins(e, UPGRADE_TEXT);
    Words();
    if |e| < 10 { TokenLetter(ch, KEEP_TEXT, |e|); }
    if |e| < 5 { TokenLetter(ch, CLOSE_TEXT, |e|); }
    if |e| < 7 { TokenLetter(ch, UPGRADE_TEXT, |e|); }
  }

  /** The comma behind an element. */
  lemma ElementEnds(p: Parser, e: seq<byte>)
    requires ElementRead(p, e) && e != [] && Uncut(e)
    ensures var q := ValueChar(p, ',');
            && q.Some? && ElementRead(q.value, [])
            && q.value == p.(index := 0, hstate := HMatchingTokenStart,
                 flags := TokenFlags(p.flags, IsWord(e, KEEP_TEXT), IsWord(e, CLOSE_TEXT), IsWord(e, UPGRADE_TEXT)))
  {
    hide Lower, LowerOf, Begins, IsWord, CutWord;
    TokensApart(e);
    MoreOfTokens(e, ',');
    CutBegins(e, KEEP_TEXT); CutBegins(e, CLOSE_TEXT); CutBegins(e, UPGRADE_TEXT);
  }

  function TokenFlags(f: Flags, keepAlive: bool, close: bool, connUpgrade: bool): Flags {
    f.(keepAlive := f.keepAlive || keepAlive, close := f.close || close, connUpgrade := f.connUpgrade || connUpgrade)
  }

  lemma CutBegins(e: seq<byte>, word: seq<byte>)
    ensures CutWord(e, word) <==> e != [] && |e| < |word| && Begins(e, word)
  {
  }

  lemma CurrentStep(s: seq<byte>, ch: byte)
    requires s != []
    ensures var e := Current(s);
            Current(s + [ch]) ==
              if e.None? then None
              else if e.value == [] then
                if ch == ' ' || ch == '\0' then Some([]) else if MayBegin(ch) then Some([ch]) else None
              else if ch == ',' && Uncut(e.value) then Some([])
              else Some(e.value + [ch])
  {
    assert (s + [ch])[..|s|] == s;
    hide MayBegin, Uncut;
  }

  lemma SeenMore(s: seq<byte>, ch: byte, word: seq<byte>)
    ensures SeenBefore(s + [ch], word) <==> SeenBefore(s, word) || (ch == ',' && SeesWord(s, word))
  {
    hide SeesWord;
    var t := s + [ch];
    assert t[..|s|] == s;
    forall i | 0 <= i < |s| ensures t[..i] == s[..i] { }
    if SeenBefore(s, word) {
      var i :| 0 <= i < |s| && s[i] == ',' && SeesWord(s[..i], word);
      assert t[i] == ',' && SeesWord(t[..i], word);
    }
    if ch == ',' && SeesWord(s, word) { assert t[|s|] == ',' && SeesWord(t[..|s|], word); }
  }

  lemma SeesIs(s: seq<byte>, word: seq<byte>)
    requires word != []
    ensures SeesWord(s, word) <==> Current(s).Some? && Current(s).value != [] && IsWord(Current(s).value, word)
  {
    hide Current;
    EmptyWord(word);
  }

  /** A keyword is not cut off, nor empty. */
  lemma SeenUncut(e: seq<byte>)
    ensures IsWord(e, KEEP_TEXT) || IsWord(e, CLOSE_TEXT) || IsWord(e, UPGRADE_TEXT) ==> e != [] && Uncut(e)
  {
    hide Begins, IsWord, CutWord;
    EmptyWord(KEEP_TEXT); EmptyWord(CLOSE_TEXT); EmptyWord(UPGRADE_TEXT);
    if e != [] { TokensApart(e); MoreOfTokens(e, ' '); }
    CutBegins(e, KEEP_TEXT); CutBegins(e, CLOSE_TEXT); CutBegins(e, UPGRADE_TEXT);
  }

  ghost predicate CurrentRead(p: Parser, s: seq<byte>) {
    match Current(s) case None => p.hstate.HGeneral? case Some(e) => ElementRead(p, e)
  }

  ghost predicate ListRead(p: Parser, f: Flags, s: seq<byte>) {
    && CurrentRead(p, s)
    && p.flags == TokenFlags(f, SeenBefore(s, KEEP_TEXT), SeenBefore(s, CLOSE_TEXT), SeenBefore(s, UPGRADE_TEXT))
  }

  lemma NothingSeen(ch: byte, word: seq<byte>)
    requires word != []
    ensures !SeenBefore([ch], word)
  {
    EmptyWord(word);
    assert [ch][..0] == [];
  }

  lemma ListFirst(p: Parser, ch: byte)
    requires p.hstate.HConnection? && ch != CR && ch != LF
    ensures var a := ValueStart(p, ch);
            && a == Go(a.next, Some(ValueData), None, None, false) && a.next.state.HeaderValue?
            && ListRead(a.next, p.flags, [ch]) && a.next == p.(state := HeaderValue, index := 0, hstate := a.next.hstate)
  {
    hide ValueStart, ElementRead, SeenBefore;
    ElementFirst(p, ch);
    NothingSeen(ch, KEEP_TEXT); NothingSeen(ch, CLOSE_TEXT); NothingSeen(ch, UPGRADE_TEXT);
  }

  lemma CurrentMore(p: Parser, s: seq<byte>, ch: byte)
    requires CurrentRead(p, s) && s != [] && ch != CR && ch != LF
    ensures var q := ValueChar(p, ch);
            && q.Some? && CurrentRead(q.value, s + [ch])
            && q.value == p.(index := q.value.index, hstate := q.value.hstate,
                 flags := if ch == ',' then TokenFlags(p.flags, SeesWord(s, KEEP_TEXT), SeesWord(s, CLOSE_TEXT),
                     SeesWord(s, UPGRADE_TEXT)) else p.flags)
  {
    hide ValueChar, ElementRead, SeesWord, Current, Uncut, IsWord, MayBegin;
    SeesIs(s, KEEP_TEXT); SeesIs(s, CLOSE_TEXT); SeesIs(s, UPGRADE_TEXT);
    CurrentStep(s, ch);
    if Current(s).None? {
      OtherMore(p, ch);
    } else {
      var e := Current(s).value;
      SeenUncut(e);
      if e == [] {
        AtTokenStart(p);
        ElementBegins(p, ch);
      } else if ch == ',' && Uncut(e) {
        ElementEnds(p, e);
      } else {
        ElementMore(p, e, ch);
      }
    }
  }

  lemma ListMore(p: Parser, f: Flags, s: seq<byte>, ch: byte)
    requires ListRead(p, f, s) && s != [] && ch != CR && ch != LF
    ensures var q := ValueChar(p, ch);
            q.Some? && ListRead(q.value, f, s + [ch])
            && q.value == p.(index := q.value.index, hstate := q.value.hstate, flags := q.value.flags)
  {
    hide ValueChar, SeenBefore, SeesWord, CurrentRead;
    CurrentMore(p, s, ch);
    SeenMore(s, ch, KEEP_TEXT); SeenMore(s, ch, CLOSE_TEXT); SeenMore(s, ch, UPGRADE_TEXT);
  }

  lemma AtTokenStart(p: Parser)
    requires ElementRead(p, [])
    ensures p.hstate.HMatchingTokenStart? && p.index == 0
  {
  }

  // ---- Lists, and what the parser sees of them ----

  lemma ElementStep(s: seq<byte>, ch: byte)
    ensures Element(s + [ch]) == if ch == ',' || (ch == ' ' && Element(s) == []) then [] else Element(s) + [ch]
  {
    assert (s + [ch])[..|s|] == s;
  }

  /** An element without commas is one of the list. */
  lemma {:induction false} CurrentIsElement(s: seq<byte>)
    requires s != [] && s[0] != ' ' && '\0' !in s
    ensures Current(s).Some? && ',' !in Current(s).value ==> Element(s) == Current(s).value
    decreases |s|
  {
    hide Uncut, MayBegin;
    var n := |s| - 1;
    var a, ch := s[..n], s[n];
    assert s == a + [ch];
    ElementStep(a, ch);
    if n == 0 {
      assert a == [];
      assert ch !in [',', ' '] ==> Element(s) == [ch] == s;
      assert s[0] in s;
    } else {
      forall c | c in a ensures c in s { }
      CurrentIsElement(a);
      CurrentStep(a, ch);
      assert ch == s[n];
      assert [] + [ch] == [ch];
      if Current(a).Some? && Current(s).Some? && ',' !in Current(s).value { CommaFree(Current(a).value, ch); }
    }
  }

  lemma CommaFree(e: seq<byte>, ch: byte)
    ensures ',' !in e + [ch] ==> ',' !in e && ch != ','
    ensures ',' !in [ch] ==> ch != ','
  {
    assert ch == (e + [ch])[|e|] && ch == [ch][0];
    forall c | c in e ensures c in e + [ch] { }
  }

  lemma WordComma(e: seq<byte>, word: seq<byte>)
    requires IsWord(e, word) && (word == KEEP_TEXT || word == CLOSE_TEXT || word == UPGRADE_TEXT)
    ensures ',' !in e
  {
    forall k | 0 <= k < |e| ensures e[k] != ',' {
      if k < |word| { WordAt(e, word, k); assert word[k] != ','; }
    }
  }

  /** The parser sees nothing that is not listed. */
  lemma SeenIsListed(s: seq<byte>, word: seq<byte>)
    requires s != [] && s[0] != ' ' && '\0' !in s && (word == KEEP_TEXT || word == CLOSE_TEXT || word == UPGRADE_TEXT)
    ensures Seen(s, word) ==> Listed(s, word)
  {
    hide IsWord, Current, Element;
    SeesElement(s, word);
    NoneSeen(word);
    assert s[..0] == [];
    if SeenBefore(s, word) {
      var i :| 0 <= i < |s| && s[i] == ',' && SeesWord(s[..i], word);
      forall c | c in s[..i] ensures c in s { }
      if i > 0 { SeesElement(s[..i], word); }
    }
  }

  lemma NoneSeen(word: seq<byte>)
    requires word != []
    ensures !SeesWord([], word)
  {
    EmptyWord(word);
  }

  lemma SeesElement(s: seq<byte>, word: seq<byte>)
    requires s != [] && s[0] != ' ' && '\0' !in s && (word == KEEP_TEXT || word == CLOSE_TEXT || word == UPGRADE_TEXT)
    ensures SeesWord(s, word) ==> IsWord(Element(s), word)
  {
    hide IsWord, Current, Element;
    CurrentIsElement(s);
    if SeesWord(s, word) { WordComma(Current(s).value, word); }
  }

  /** Only behind a comma can an element be empty. */
  lemma {:induction false} EmptyElement(s: seq<byte>)
    requires s != [] && s[0] != ' ' && Element(s) == []
    ensures ',' in s
    decreases |s|
  {
    var n := |s| - 1;
    if s[n] != ',' && n > 0 {
      EmptyElement(s[..n]);
    }
  }

  lemma ListLess(s: seq<byte>, ch: byte)
    requires ListOk(s + [ch])
    ensures ListOk(s) && (ch == ',' ==> Element(s) != [] && Uncut(Element(s)))
    ensures ',' in s && Element(s) == [] && ch != ' ' ==> IsToken(ch) && ch != '_'
  {
    hide Uncut, Element, IsToken;
    var t := s + [ch];
    assert t[|s|] == ch && t[..|s|] == s;
    forall i | 0 <= i < |s| ensures t[..i] == s[..i] && t[i] == s[i] { }
  }

  /** Of a well-formed list it sees all. */
  lemma {:induction false} ListIsCurrent(s: seq<byte>)
    requires s != [] && s[0] != ' ' && ListOk(s)
    ensures Current(s) == Some(Element(s))
    decreases |s|
  {
    hide Uncut, ListOk, Element, IsToken;
    var n := |s| - 1;
    var a, ch := s[..n], s[n];
    assert s == a + [ch];
    ElementStep(a, ch);
    ListLess(a, ch);
    if n == 0 {
      assert a == [] && Element([]) == [] by { NoElements(); }
    } else {
      ListIsCurrent(a);
      CurrentStep(a, ch);
      assert [] + [ch] == [ch];
      if Element(a) == [] { EmptyElement(a); NoNul(ch); }
    }
  }

  lemma NoElements()
    ensures Element([]) == []
  {
  }

  lemma NoNul(ch: byte)
    ensures IsToken(ch) && ch != '_' ==> ch != '\0' && MayBegin(ch)
  {
  }

  lemma {:induction false} ListPrefix(s: seq<byte>, i: nat)
    requires ListOk(s) && i <= |s|
    ensures ListOk(s[..i])
  {
    hide Uncut, Element, IsToken;
    forall k | 0 <= k < i ensures s[..i][..k] == s[..k] && s[..i][k] == s[k] { }
  }

  lemma ListedIsSeen(s: seq<byte>, word: seq<byte>)
    requires s != [] && s[0] != ' ' && '\0' !in s && ListOk(s) && (word == KEEP_TEXT || word == CLOSE_TEXT || word == UPGRADE_TEXT)
    ensures Seen(s, word) <==> Listed(s, word)
  {
    hide IsWord, Current, Element, ListOk;
    SeenIsListed(s, word);
    ListIsCurrent(s);
    NoElements();
    EmptyWord(word);
    assert s[..0] == [];
    if Listed(s, word) && !IsWord(Element(s), word) {
      var i :| 0 <= i < |s| && s[i] == ',' && IsWord(Element(s[..i]), word);
      ListPrefix(s, i);
      if i > 0 { ListIsCurrent(s[..i]); }
      assert SeesWord(s[..i], word);
    }
  }

  /** The element behind a comma. */
  lemma {:induction false} ElementBehind(a: seq<byte>, b: seq<byte>)
    requires ',' !in b && (b != [] ==> b[0] != ' ')
    ensures Element(a + [','] + b) == b
    decreases |b|
  {
    if b == [] {
      assert a + [','] + b == a + [','];
      ElementStep(a, ',');
    } else {
      var n := |b| - 1;
      assert a + [','] + b == (a + [','] + b[..n]) + [b[n]] && b == b[..n] + [b[n]];
      forall c | c in b[..n] ensures c in b { }
      ElementBehind(a, b[..n]);
      assert b[n] in b;
      ElementStep(a + [','] + b[..n], b[n]);
    }
  }

  /** What stands behind commas that all follow the beginning of a keyword is one element. */
  lemma {:induction false} Glued(s: seq<byte>)
    requires s != [] && forall i :: 0 < i < |s| && s[i] == ',' ==> !Uncut(s[..i])
    ensures Current(s) == Some(s)
    decreases |s|
  {
    hide Uncut, MayBegin;
    var n := |s| - 1;
    if n > 0 {
      forall i | 0 < i < n ensures s[..n][..i] == s[..i] && s[..n][i] == s[i] { }
      Glued(s[..n]);
      assert s == s[..n] + [s[n]];
      CurrentStep(s[..n], s[n]);
    }
  }

  /** "clo,close" lists close, but the parser does not see it. */
  lemma CutOff()
    ensures var s := ['c', 'l', 'o', ',', 'c', 'l', 'o', 's', 'e'];
            Listed(s, CLOSE_TEXT) && !Seen(s, CLOSE_TEXT)
  {
    var a := ['c', 'l', 'o'];
    var s := a + [','] + CLOSE_TEXT;
    ElementBehind(a, CLOSE_TEXT);
    assert s[..3] == a && CutWord(a, CLOSE_TEXT);
    Glued(s);
    assert s[..5][3] == ',';
    assert !IsWord(s, CLOSE_TEXT);
    forall i | 0 <= i < |s| && s[i] == ',' ensures !SeesWord(s[..i], CLOSE_TEXT) { Glued(a); }
    assert CLOSE_TEXT[..5] == CLOSE_TEXT;
    assert IsWord(CLOSE_TEXT, CLOSE_TEXT);
    assert s == ['c', 'l', 'o', ',', 'c', 'l', 'o', 's', 'e'];
  }

  // ---- Content-Length ----

  /** What a length is before its last character. */
  lemma LengthLess(s: seq<byte>, ch: byte)
    requires s != []
    ensures IsLength(s + [ch]) <==> IsLength(s) && (IsDigit(ch) || ch == ' ')
    ensures LengthNumber(s + [ch]) == if IsDigit(ch) then 10 * LengthNumber(s) + (ch as int - 48) else LengthNumber(s)
  {
    var t := s + [ch];
    assert t[..|s|] == s && t[0] == s[0] && t[|s|] == ch;
    if IsLength(t) {
      forall k | 0 <= k < |s| ensures IsDigit(s[k]) || s[k] == ' ' { assert t[k] == s[k]; }
    }
  }

  lemma LengthFirst(p: Parser, ch: byte)
    requires p.hstate.HContentLength?
    ensures ValueStart(p, ch) ==
            if LengthOk([ch]) then Go(p.(state := HeaderValue, index := 0, length := LengthNumber([ch])),
                Some(ValueData), None, None, false)
            else Fail(InvalidContentLength)
  {
    assert [ch][0] == ch && [ch][..0] == [];
    assert IsDigit(ch) ==> LengthNumber([ch]) == ch as int - 48;
    assert forall k :: 0 <= k < |[ch]| ==> [ch][k] == ch;
  }

  lemma OneDigit(ch: byte)
    requires IsDigit(ch)
    ensures NumberOf([ch]) == ch as int - 48
  {
    assert IsDigit([ch][0]) && [ch][..0] == [];
  }

  lemma LengthMore(p: Parser, s: seq<byte>, ch: byte)
    requires p.hstate.HContentLength? && LengthOk(s) && p.length == LengthNumber(s)
    ensures ValueChar(p, ch) == if LengthOk(s + [ch]) then Some(p.(length := LengthNumber(s + [ch]))) else None
  {
    LengthLess(s, ch);
    hide IsLength, LengthNumber;
  }

  // ---- Any value ----

  /** Where the matcher of names can stand at the ':'. */
  predicate Named(h: HeaderState) {
    h.HGeneral? || h.HConnection? || h.HContentLength? || h.HTransferEncoding? || h.HUpgrade? || Indexed(h)
  }

  ghost predicate ValueFits(h: HeaderState, s: seq<byte>) {
    && s != [] && !IsBlank(s[0]) && CR !in s && LF !in s
    && (h.HContentLength? ==> LengthOk(s))
  }

  /** Parser p, after the value s of a name that left it in p0. */
  ghost predicate ValueRead(p0: Parser, p: Parser, s: seq<byte>) {
    && p == p0.(state := p.state, index := p.index, hstate := p.hstate, flags := p.flags, length := p.length)
    && p.state.HeaderValue? && (p.length == if p0.hstate.HContentLength? then LengthNumber(s) else p0.length)
    && (match p0.hstate
        case HTransferEncoding => CodingRead(p, s) && p.flags == p0.flags
        case HConnection => ListRead(p, p0.flags, s)
        case HContentLength => p.hstate.HContentLength? && p.flags == p0.flags
        case HUpgrade => p.hstate.HGeneral? && p.flags == p0.flags.(upgrade := true)
        case _ => p.hstate.HGeneral? && p.flags == p0.flags)
  }

  lemma OtherFirst(p: Parser, ch: byte)
    requires Named(p.hstate) && !p.hstate.HConnection? && !p.hstate.HContentLength? && !p.hstate.HTransferEncoding?
    ensures ValueStart(p, ch) ==
            Go(p.(state := HeaderValue, index := 0, hstate := HGeneral,
                flags := if p.hstate.HUpgrade? then p.flags.(upgrade := true) else p.flags),
               Some(ValueData), None, None, false)
  {
  }

  lemma OtherMore(p: Parser, ch: byte)
    requires p.hstate.HGeneral?
    ensures ValueChar(p, ch) == Some(p)
  {
  }

  lemma FirstFits(h: HeaderState, ch: byte)
    requires ValueFits(h, [ch])
    ensures !IsBlank(ch) && ch != CR && ch != LF
  {
    assert [ch][0] == ch && ch in [ch] && [ch][..0] == [];
  }

  lemma ValueFirst(p: Parser, ch: byte)
    requires p.state.HeaderValueDiscardWs? && Named(p.hstate) && ValueFits(p.hstate, [ch])
    ensures var a := Step(p, ch); a.Go? && a == Go(a.next, Some(ValueData), None, None, false) && ValueRead(p, a.next, [ch])
  {
    hide Step, ValueStart, LengthOk, CodingRead, ListRead, LengthNumber;
    FirstFits(p.hstate, ch);
    BlankStep(p, ch);
    match p.hstate
    case HTransferEncoding => CodingFirst(p, ch);
    case HConnection => ListFirst(p, ch);
    case HContentLength => LengthFirst(p, ch);
    case _ => OtherFirst(p, ch);
  }

  lemma ValueStep(p: Parser, ch: byte)
    requires p.state.HeaderValue? && ch != CR && ch != LF
    ensures ValueChar(p, ch).Some? ==> Step(p, ch) == Go(ValueChar(p, ch).value, Some(ValueData), None, None, false)
  {
    HeadersStep(p, ch);
    hide Step, ValueChar;
  }

  lemma ValueMore(p0: Parser, p: Parser, s: seq<byte>, ch: byte)
    requires Named(p0.hstate) && ValueRead(p0, p, s) && s != [] && ValueFits(p0.hstate, s + [ch])
    ensures var a := Step(p, ch); a.Go? && a == Go(a.next, Some(ValueData), None, None, false) && ValueRead(p0, a.next, s + [ch])
  {
    assert (s + [ch])[|s|] == ch && (s + [ch])[0] == s[0];
    hide Step, ValueChar, LengthOk, CodingRead, ListRead, LengthNumber;
    ValueStep(p, ch);
    match p0.hstate
    case HTransferEncoding => CodingMore(p, s, ch);
    case HConnection => ListMore(p, p0.flags, s, ch);
    case HContentLength => LengthMore(p, s, ch);
    case _ => OtherMore(p, ch);
  }

  lemma FitsLess(h: HeaderState, s: seq<byte>, ch: byte)
    requires ValueFits(h, s + [ch]) && s != []
    ensures ValueFits(h, s)
  {
    hide IsLength, LengthNumber;
    assert (s + [ch])[0] == s[0];
    forall c | c in s ensures c in s + [ch] { }
    if h.HContentLength? { LengthLess(s, ch); }
  }

  lemma {:induction false} ValueRun(p: Parser, log: seq<Event>, s: seq<byte>)
    requires p.state.HeaderValueDiscardWs? && Named(p.hstate) && ValueFits(p.hstate, s)
    ensures var o := Run(p, log, s, 0); o.Done? && o.log == Join(log, OnData(ValueData, s)) && ValueRead(p, o.next, s)
    decreases |s|
  {
    assert s != [];
    hide Step, Run, Join, ValueFits, ValueRead;
    var n := |s| - 1;
    var a, ch := s[..n], s[n];
    assert s == a + [ch];
    if n == 0 {
      assert s == [ch];
      ValueFirst(p, ch);
      OneByte(p, log, ch);
    } else {
      FitsLess(p.hstate, a, ch);
      ValueRun(p, log, a);
      var o := Run(p, log, a, 0);
      RunAppend(p, log, a, [ch]);
      ValueMore(p, o.next, a, ch);
      OneByte(o.next, o.log, ch);
      JoinTwice(log, ValueData, a, [ch]);
    }
  }

  // ---- A line ----

  /** The parser where the next line begins, with what the last one says taken into account. */
  function Settled(p: Parser): Parser {
    p.(flags := if p.state.HeaderFieldStart? then p.flags else HeaderFlags(p), state := HeaderFieldStart, hstate := HGeneral, index := 0)
  }

  /** What a header line does. */
  ghost function Effect(p: Parser, l: HeaderLine): Parser {
    p.(length := if SetsLength(l) then LengthSet(l) else p.length,
       flags := p.flags.(chunked := p.flags.chunked || SaysChunked(l), keepAlive := p.flags.keepAlive || SaysKeepAlive(l),
                         close := p.flags.close || SaysClose(l), connUpgrade := p.flags.connUpgrade || SaysUpgrade(l),
                         upgrade := p.flags.upgrade || NamesProtocol(l)))
  }

  lemma NamedState(s: seq<byte>)
    ensures Named(NameState(s))
  {
  }

  lemma ListedFlags(p: Parser, f: Flags, s: seq<byte>)
    requires ListRead(p, f, s)
    ensures HeaderFlags(p) == TokenFlags(f, Seen(s, KEEP_TEXT), Seen(s, CLOSE_TEXT), Seen(s, UPGRADE_TEXT))
  {
    hide SeenBefore, IsWord, Begins, Current;
    var e := if Current(s).Some? then Current(s).value else [];
    if e != [] { TokensApart(e); MoreOfTokens(e, ' '); } else { EmptyWord(KEEP_TEXT); EmptyWord(CLOSE_TEXT); EmptyWord(UPGRADE_TEXT); }
  }

  lemma EmptyWord(word: seq<byte>)
    requires word != []
    ensures !IsWord([], word) && !Seen([], word)
  {
  }

  lemma CodingFlags(p: Parser, s: seq<byte>)
    requires CodingRead(p, s)
    ensures HeaderFlags(p) == p.flags.(chunked := p.flags.chunked || IsWord(s, CHUNKED_TEXT))
  {
    WordMore(s, ' ', CHUNKED_TEXT);
    hide IsWord, Begins;
  }

  /** The value has had its effect. */
  lemma ValueMeans(p0: Parser, p: Parser, l: HeaderLine)
    requires l.name != [] && p0.hstate == NameState(l.name) && Trim(l.value) != [] && ValueRead(p0, p, Trim(l.value))
    ensures Settled(p) == Effect(p0, l).(state := HeaderFieldStart, hstate := HGeneral, index := 0)
  {
    hide NameState, CodingRead, ListRead, Seen, SameText, IsWord, Trim, HeaderFlags;
    NameMeans(l.name);
    DifferentNames(l.name);
    match p0.hstate
    case HTransferEncoding => CodingFlags(p, Trim(l.value));
    case HConnection => ListedFlags(p, p0.flags, Trim(l.value));
    case _ => NoMoreFlags(p);
  }

  lemma NoMoreFlags(p: Parser)
    requires p.hstate.HGeneral? || p.hstate.HContentLength? || Named(p.hstate)
    ensures HeaderFlags(p) == p.flags
  {
  }

  lemma DifferentNames(s: seq<byte>)
    ensures SameText(s, CONNECTION_TEXT) || SameText(s, PROXY_TEXT) ==>
              !SameText(s, LENGTH_TEXT) && !SameText(s, TRANSFER_TEXT) && !SameText(s, UPGRADE_TEXT)
    ensures SameText(s, LENGTH_TEXT) ==> !SameText(s, TRANSFER_TEXT) && !SameText(s, UPGRADE_TEXT)
    ensures SameText(s, TRANSFER_TEXT) ==> !SameText(s, UPGRADE_TEXT)
  {
  }

  /** A blank value has none. */
  lemma BlankMeans(p: Parser, l: HeaderLine)
    requires l.name != [] && p.hstate == NameState(l.name) && Trim(l.value) == [] && !p.state.HeaderFieldStart?
    ensures Settled(p) == Effect(p, l).(state := HeaderFieldStart, hstate := HGeneral, index := 0)
  {
    hide NameState, Seen, SameText, IsWord, Trim, HeaderFlags;
    NamedState(l.name);
    NoMoreFlags(p);
    EmptyWord(KEEP_TEXT); EmptyWord(CLOSE_TEXT); EmptyWord(UPGRADE_TEXT); EmptyWord(CHUNKED_TEXT);
  }

  lemma LineTrims(s: seq<byte>)
    ensures var v := Trim(s); var b := s[..|s| - |v|]; s == b + v && forall k :: 0 <= k < |b| ==> IsBlank(b[k])
  {
  }

  lemma LineFits(l: HeaderLine)
    requires LineOk(l) && Trim(l.value) != []
    ensures ValueFits(NameState(l.name), Trim(l.value))
  {
    hide NameState, LengthOk, SameText;
    NameMeans(l.name);
    var v := Trim(l.value);
    forall c | c in v ensures c in l.value { }
  }

  /** A blank value and its line end. */
  lemma BlankLineRun(p: Parser, log: seq<Event>, l: HeaderLine)
    requires p.state.HeaderValueDiscardWs? && l.name != [] && p.hstate == NameState(l.name) && Trim(l.value) == []
    ensures Run(p, log, l.value + HttpText.CRLF, 0) == Done(p.(state := HeaderValueDiscardLws), log)
    ensures Settled(p.(state := HeaderValueDiscardLws)) == Effect(p, l).(state := HeaderFieldStart, hstate := HGeneral, index := 0)
  {
    LineTrims(l.value);
    hide Step, Run, Join, NameState, Trim, Effect, Settled, IsBlank;
    assert l.value[..|l.value|] == l.value;
    BlanksRun(p, log, l.value);
    LineEndRun(p, log);
    RunAppend(p, log, l.value, HttpText.CRLF);
    BlankMeans(p.(state := HeaderValueDiscardLws), l);
    SameEffect(p, p.(state := HeaderValueDiscardLws), l);
  }

  /** Any other value and its line end. */
  lemma FullLineRun(p: Parser, log: seq<Event>, l: HeaderLine)
    requires p.state.HeaderValueDiscardWs? && p.hstate == NameState(l.name) && LineOk(l) && Trim(l.value) != []
    ensures var o := Run(p, log, l.value + HttpText.CRLF, 0);
            && o.Done? && o.log == Join(log, OnData(ValueData, Trim(l.value))) && o.next.state.HeaderValueLws?
            && Settled(o.next) == Effect(p, l).(state := HeaderFieldStart, hstate := HGeneral, index := 0)
  {
    LineTrims(l.value);
    hide Step, Run, Join, NameState, LineOk, Trim, Effect, Settled, ValueFits, ValueRead, Named, IsBlank;
    NameOfLine(l);
    NamedState(l.name);
    LineFits(l);
    var v := Trim(l.value);
    var b := l.value[..|l.value| - |v|];
    BlanksRun(p, log, b);
    ValueRun(p, log, v);
    var q := Run(p, log, v, 0).next;
    RunAppend(p, log, b, v);
    ReadState(p, q, v);
    LineEndRun(q, Join(log, OnData(ValueData, v)));
    RunAppend(p, log, l.value, HttpText.CRLF);
    ValueMeans(p, q, l);
    SameSettled(q, q.(state := HeaderValueLws));
  }

  lemma NothingJoined(log: seq<Event>, k: Data)
    ensures Join(log, OnData(k, [])) == log
  {
  }

  /** The value and its line end. */
  lemma ValueLineRun(p: Parser, log: seq<Event>, l: HeaderLine)
    requires p.state.HeaderValueDiscardWs? && p.hstate == NameState(l.name) && LineOk(l)
    ensures var o := Run(p, log, l.value + HttpText.CRLF, 0);
            && o.Done? && o.log == Join(log, OnData(ValueData, Trim(l.value)))
            && (o.next.state.HeaderValueLws? || o.next.state.HeaderValueDiscardLws?)
            && Settled(o.next) == Effect(p, l).(state := HeaderFieldStart, hstate := HGeneral, index := 0)
  {
    hide Step, Run, Join, NameState, LineOk, Trim, Effect, Settled;
    NameOfLine(l);
    if Trim(l.value) == [] {
      NothingJoined(log, ValueData);
      BlankLineRun(p, log, l);
    } else {
      FullLineRun(p, log, l);
    }
  }

  lemma ReadState(p0: Parser, p: Parser, s: seq<byte>)
    requires ValueRead(p0, p, s)
    ensures p.state.HeaderValue?
  {
  }

  lemma SameEffect(p: Parser, q: Parser, l: HeaderLine)
    requires Moved(p, q)
    ensures Effect(p, l).(state := HeaderFieldStart, hstate := HGeneral, index := 0) ==
            Effect(q, l).(state := HeaderFieldStart, hstate := HGeneral, index := 0)
  {
    hide SaysChunked, SaysKeepAlive, SaysClose, SaysUpgrade, NamesProtocol, SetsLength;
  }

  lemma SameSettled(p: Parser, q: Parser)
    requires q == p.(state := q.state) && !p.state.HeaderFieldStart? && !q.state.HeaderFieldStart?
    ensures Settled(p) == Settled(q)
  {
  }

  predicate AtLine(s: State) {
    s.HeaderFieldStart? || s.HeaderValueLws? || s.HeaderValueDiscardLws?
  }

  /** The first character of the next line settles the one before it. */
  lemma SettleStep(p: Parser, ch: byte)
    requires p.state.HeaderValueLws? || p.state.HeaderValueDiscardLws?
    requires !IsBlank(ch)
    ensures var a := Step(p, ch);
            a.Go? && a.again && a.next == p.(flags := HeaderFlags(p), state := HeaderFieldStart) && a.kind.None? && a.note.None?
  {
    HeadersStep(p, ch);
    hide Step, HeaderFlags;
  }

  lemma SettleRun(p: Parser, log: seq<Event>, s: seq<byte>)
    requires AtLine(p.state) && s != [] && !IsBlank(s[0])
    ensures var q := if p.state.HeaderFieldStart? then p else p.(flags := HeaderFlags(p), state := HeaderFieldStart);
            Run(p, log, s, 0) == Run(q, log, s, 0) && Settled(q) == Settled(p) && q.state.HeaderFieldStart?
  {
    hide Step, HeaderFlags;
    if !p.state.HeaderFieldStart? { SettleStep(p, s[0]); }
  }

  /** A printed line is called back, and has its effect. */
  lemma LineRun(p: Parser, log: seq<Event>, l: HeaderLine)
    requires AtLine(p.state) && LineOk(l)
    ensures var o := Run(p, log, PrintLine(l), 0);
            && o.Done? && o.log == Join(Join(log, OnData(FieldData, l.name)), OnData(ValueData, Trim(l.value)))
            && AtLine(o.next.state) && Settled(o.next) == Effect(Settled(p), l)
  {
    hide Step, Run, Join, Effect, LineOk, Trim, NameState, IsToken, IsBlank, HeaderFlags, Settled, PrintLine;
    FirstOfLine(l);
    SettleRun(p, log, PrintLine(l));
    var q := if p.state.HeaderFieldStart? then p else p.(flags := HeaderFlags(p), state := HeaderFieldStart);
    LineBody(q, log, l);
  }

  lemma LineBody(q: Parser, log: seq<Event>, l: HeaderLine)
    requires q.state.HeaderFieldStart? && LineOk(l)
    ensures var o := Run(q, log, PrintLine(l), 0);
            && o.Done? && o.log == Join(Join(log, OnData(FieldData, l.name)), OnData(ValueData, Trim(l.value)))
            && AtLine(o.next.state) && Settled(o.next) == Effect(Settled(q), l)
  {
    hide Step, Run, Join, Effect, LineOk, Trim, NameState, IsToken, HeaderFlags, Settled;
    NameOfLine(l);
    NameColonRun(q, log, l.name);
    var o := Run(q, log, l.name + [':'], 0);
    assert PrintLine(l) == (l.name + [':']) + (l.value + HttpText.CRLF);
    RunAppend(q, log, l.name + [':'], l.value + HttpText.CRLF);
    ValueLineRun(o.next, o.log, l);
    SettledEffect(q, o.next, l);
  }

  lemma NameOfLine(l: HeaderLine)
    requires LineOk(l)
    ensures l.name != [] && forall k :: 0 <= k < |l.name| ==> IsToken(l.name[k])
  {
  }

  lemma FirstOfLine(l: HeaderLine)
    requires LineOk(l)
    ensures PrintLine(l) != [] && !IsBlank(PrintLine(l)[0])
  {
    TokenIs(l.name[0]);
    assert IsToken(l.name[0]);
  }

  lemma SettledEffect(q: Parser, r: Parser, l: HeaderLine)
    requires q.state.HeaderFieldStart? && Moved(q, r)
    ensures Effect(r, l).(state := HeaderFieldStart, hstate := HGeneral, index := 0) == Effect(Settled(q), l)
  {
    hide SaysChunked, SaysKeepAlive, SaysClose, SaysUpgrade, NamesProtocol, SetsLength, HeaderFlags;
  }

  // ---- Lines ----

  ghost predicate LinesOk(ls: seq<HeaderLine>) {
    forall k :: 0 <= k < |ls| ==> LineOk(ls[k])
  }

  ghost function Effects(p: Parser, ls: seq<HeaderLine>): Parser
    decreases |ls|
  {
    if ls == [] then p else Effects(Effect(p, ls[0]), ls[1..])
  }

  /** The names and values that are called back. */
  function LineLog(log: seq<Event>, ls: seq<HeaderLine>): seq<Event>
    decreases |ls|
  {
    if ls == [] then log
    else LineLog(Join(Join(log, OnData(FieldData, ls[0].name)), OnData(ValueData, Trim(ls[0].value))), ls[1..])
  }

  lemma {:induction false} LinesRun(p: Parser, log: seq<Event>, ls: seq<HeaderLine>)
    requires AtLine(p.state) && LinesOk(ls)
    ensures var o := Run(p, log, PrintLines(ls), 0);
            o.Done? && o.log == LineLog(log, ls) && AtLine(o.next.state) && Settled(o.next) == Effects(Settled(p), ls)
    decreases |ls|
  {
    hide Step, Run, Join, Effect, LineOk, Trim, Settled, PrintLine;
    if ls == [] {
      EmptyRun(p, log);
    } else {
      LineRun(p, log, ls[0]);
      var o := Run(p, log, PrintLine(ls[0]), 0);
      RunAppend(p, log, PrintLine(ls[0]), PrintLines(ls[1..]));
      LinesRun(o.next, o.log, ls[1..]);
    }
  }

  lemma EmptyRun(p: Parser, log: seq<Event>)
    ensures Run(p, log, [], 0) == Done(p, log)
  {
  }

  /** What all lines together say: a flag is set exactly when one of them sets it. */
  lemma {:induction false} EffectsAre(p: Parser, ls: seq<HeaderLine>)
    ensures var q := Effects(p, ls);
            && q == p.(flags := q.flags, length := q.length) && q.flags.trailing == p.flags.trailing
            && (q.flags.chunked <==> p.flags.chunked || exists l :: l in ls && SaysChunked(l))
            && (q.flags.keepAlive <==> p.flags.keepAlive || exists l :: l in ls && SaysKeepAlive(l))
            && (q.flags.close <==> p.flags.close || exists l :: l in ls && SaysClose(l))
            && (q.flags.connUpgrade <==> p.flags.connUpgrade || exists l :: l in ls && SaysUpgrade(l))
            && (q.flags.upgrade <==> p.flags.upgrade || exists l :: l in ls && NamesProtocol(l))
    decreases |ls|
  {
    hide SaysChunked, SaysKeepAlive, SaysClose, SaysUpgrade, NamesProtocol, SetsLength, LengthSet;
    if ls != [] {
      EffectsAre(Effect(p, ls[0]), ls[1..]);
      assert ls == [ls[0]] + ls[1..];
      assert forall l :: l in ls <==> l == ls[0] || l in ls[1..];
    }
  }

  /** The length is that of the last line that has one. */
  lemma {:induction false} LengthIs(p: Parser, ls: seq<HeaderLine>)
    ensures (forall l :: l in ls ==> !SetsLength(l)) ==> Effects(p, ls).length == p.length
    ensures forall i :: 0 <= i < |ls| && LastLength(ls, i) ==> Effects(p, ls).length == LengthSet(ls[i])
    decreases |ls|
  {
    hide SaysChunked, SaysKeepAlive, SaysClose, SaysUpgrade, NamesProtocol, SetsLength, LengthSet;
    if ls != [] {
      var more := ls[1..];
      LengthIs(Effect(p, ls[0]), more);
      assert ls == [ls[0]] + more;
      forall i | 0 <= i < |ls| && LastLength(ls, i) ensures Effects(p, ls).length == LengthSet(ls[i]) {
        if i > 0 {
          assert ls[i] == more[i - 1];
          forall j | i - 1 < j < |more| ensures !SetsLength(more[j]) { assert more[j] == ls[j + 1]; }
          assert LastLength(more, i - 1);
        } else {
          forall l | l in more ensures !SetsLength(l) { var j :| 0 <= j < |more| && more[j] == l; assert ls[j + 1] == l; }
        }
      }
    }
  }

  predicate LastLength(ls: seq<HeaderLine>, i: nat)
    requires i < |ls|
  {
    SetsLength(ls[i]) && forall j :: i < j < |ls| ==> !SetsLength(ls[j])
  }
}
