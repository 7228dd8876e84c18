/** Names and values of header fields as text: which of them frame a message and govern
    the connection (sections 14.10, 14.13, 14.41 and 14.42 of RFC 2616). */
module HttpText {
  import opened Wrappers

  import opened HttpChars

  // ---- Letters ----

  function LowerOf(c: byte): byte {
    if 'A' <= c <= 'Z' then (c as int + 32) as char else c
  }

  /** The text is the lower-case word, in any letter case. */
  predicate SameText(s: seq<byte>, word: seq<byte>) {
    |s| == |word| && forall k :: 0 <= k < |s| ==> LowerOf(s[k]) == word[k]
  }

  /** A token character of section 2.2 of RFC 2616. */
  predicate IsToken(c: byte) {
    || 'a' <= c <= 'z' || 'A' <= c <= 'Z' || '0' <= c <= '9'
    || c == '!' || c == '#' || c == '$' || c == '%' || c == '&' || c == '\'' || c == '*' || c == '+'
    || c == '-' || c == '.' || c == '^' || c == '_' || c == '`' || c == '|' || c == '~'
  }

  predicate IsDigit(c: byte) {
    '0' <= c <= '9'
  }

  predicate IsBlank(c: byte) {
    c == ' ' || c == '\t'
  }

  /** The table of token characters. */
  lemma TokenIs(c: byte)
    ensures Token(c) == if IsToken(c) then LowerOf(c) else '\0'
    ensures IsToken(c) ==> LowerOf(c) != '\0' && c != ' ' && c != '\t' && c != ':' && c != CR && c != LF && c != ','
  {
  }

  /** The bit that makes letters lower-case makes nothing else a letter. */
  lemma LowerIs(c: byte, x: byte)
    requires 'a' <= x <= 'z'
    ensures Lower(c) == x <==> LowerOf(c) == x
  {
  }

  lemma LowerOther(c: byte)
    requires c != CR
    ensures Lower(c) == '-' <==> LowerOf(c) == '-'
    ensures Lower(c) == ' ' <==> c == ' ' || c == '\0'
    ensures Lower(c) != '\0'
  {
  }

  // ---- The words ----

  const CONNECTION_TEXT: seq<byte> := ['c', 'o', 'n', 'n', 'e', 'c', 't', 'i', 'o', 'n']
  const PROXY_TEXT: seq<byte> := ['p', 'r', 'o', 'x', 'y', '-', 'c', 'o', 'n', 'n', 'e', 'c', 't', 'i', 'o', 'n']
  const LENGTH_TEXT: seq<byte> := ['c', 'o', 'n', 't', 'e', 'n', 't', '-', 'l', 'e', 'n', 'g', 't', 'h']
  const TRANSFER_TEXT: seq<byte> := ['t', 'r', 'a', 'n', 's', 'f', 'e', 'r', '-', 'e', 'n', 'c', 'o', 'd', 'i', 'n', 'g']
  const UPGRADE_TEXT: seq<byte> := ['u', 'p', 'g', 'r', 'a', 'd', 'e']
  const CHUNKED_TEXT: seq<byte> := ['c', 'h', 'u', 'n', 'k', 'e', 'd']
  const KEEP_TEXT: seq<byte> := ['k', 'e', 'e', 'p', '-', 'a', 'l', 'i', 'v', 'e']
  const CLOSE_TEXT: seq<byte> := ['c', 'l', 'o', 's', 'e']

  // ---- Header lines ----

  datatype HeaderLine = HeaderLine(name: seq<byte>, value: seq<byte>)

  /** The value from its first character that is not blank. */
  function Trim(s: seq<byte>): (r: seq<byte>)
    ensures r != [] ==> !IsBlank(r[0])
    ensures |r| <= |s| && r == s[|s| - |r|..] && forall k :: 0 <= k < |s| - |r| ==> IsBlank(s[k])
  {
    if s == [] || !IsBlank(s[0]) then s else Trim(s[1..])
  }

  /** The word, and then only spaces. */
  predicate IsWord(s: seq<byte>, word: seq<byte>) {
    |s| >= |word| && SameText(s[..|word|], word) && forall k :: |word| <= k < |s| ==> s[k] == ' '
  }

  /** The element of a comma-separated list that s ends with, from its first character that
      is no space. */
  function Element(s: seq<byte>): seq<byte> {
    if s == [] || s[|s| - 1] == ',' then []
    else
      var e := Element(s[..|s| - 1]);
      if e == [] && s[|s| - 1] == ' ' then [] else e + [s[|s| - 1]]
  }

  /** The word is an element of the list: one that ends at a comma, or at the end. */
  ghost predicate Listed(s: seq<byte>, word: seq<byte>) {
    IsWord(Element(s), word) || exists i :: 0 <= i < |s| && s[i] == ',' && IsWord(Element(s[..i]), word)
  }

  /** The beginning of a word, but not all of it. */
  predicate CutWord(s: seq<byte>, word: seq<byte>) {
    0 < |s| < |word| && SameText(s, word[..|s|])
  }

  /** Not the beginning of a keyword. */
  predicate Uncut(e: seq<byte>) {
    !CutWord(e, KEEP_TEXT) && !CutWord(e, CLOSE_TEXT) && !CutWord(e, UPGRADE_TEXT)
  }

  /** What an element behind a comma may begin with: a token character other than '_', or
      another one that becomes a token character with the bit that makes letters lower-case. */
  predicate MayBegin(c: byte) {
    || (IsToken(c) && c != '_') || c == '@' || c == '\\'
    || c as int == 1 || 3 <= c as int <= 7 || c as int == 11 || c as int == 14 || 16 <= c as int <= 25
  }

  /** What the parser takes for the element that s ends with. It takes a comma for a part of
      the element when nothing, or the beginning of a keyword, is in front of it; and it loses
      track (None) when an element behind a comma begins with another comma, a tab, '_' or
      the like. */
  function Current(s: seq<byte>): (e: Option<seq<byte>>)
    ensures |s| <= 1 ==> e == Some(s)
  {
    if |s| <= 1 then Some(s)
    else
      var e, c := Current(s[..|s| - 1]), s[|s| - 1];
      if e.None? then None
      else if e.value == [] then
        if c == ' ' || c == '\0' then Some([]) else if MayBegin(c) then Some([c]) else None
      else if c == ',' && Uncut(e.value) then Some([])
      else Some(e.value + [c])
  }

  /** The parser sees the word as an element of the list. */
  ghost predicate Seen(s: seq<byte>, word: seq<byte>) {
    SeesWord(s, word) || SeenBefore(s, word)
  }

  predicate SeesWord(s: seq<byte>, word: seq<byte>) {
    Current(s).Some? && IsWord(Current(s).value, word)
  }

  ghost predicate SeenBefore(s: seq<byte>, word: seq<byte>) {
    exists i :: 0 <= i < |s| && s[i] == ',' && SeesWord(s[..i], word)
  }

  /** No element in front of a comma is empty or the beginning of a keyword, and those behind
      a comma begin with token characters other than '_'. */
  ghost predicate ListOk(s: seq<byte>) {
    && (forall i :: 0 <= i < |s| && s[i] == ',' ==> Element(s[..i]) != [] && Uncut(Element(s[..i])))
    && (forall i :: 0 <= i < |s| && ',' in s[..i] && Element(s[..i]) == [] && s[i] != ' ' ==> IsToken(s[i]) && s[i] != '_')
  }

  function NumberOf(s: seq<byte>): nat
    requires forall k :: 0 <= k < |s| ==> IsDigit(s[k])
  {
    if s == [] then 0
    else
      var n := |s| - 1;
      assert IsDigit(s[n]);
      10 * NumberOf(s[..n]) + (s[n] as int - 48)
  }

  /** A digit, and then digits and spaces. */
  predicate IsLength(s: seq<byte>) {
    s != [] && IsDigit(s[0]) && forall k :: 0 <= k < |s| ==> IsDigit(s[k]) || s[k] == ' '
  }

  /** The number of all digits, whatever spaces are between them. */
  function LengthNumber(s: seq<byte>): nat {
    if s == [] then 0
    else
      var n := |s| - 1;
      if IsDigit(s[n]) then 10 * LengthNumber(s[..n]) + (s[n] as int - 48) else LengthNumber(s[..n])
  }

  /** A length that the parser reads. */
  predicate LengthOk(s: seq<byte>) {
    IsLength(s) && LengthNumber(s) <= 0xFFFF_FFFF_FFFF_FFF9
  }

  /** A token as name, a value within its line, and no length that is malformed. */
  predicate LineOk(l: HeaderLine) {
    && l.name != [] && (forall k :: 0 <= k < |l.name| ==> IsToken(l.name[k])) && CR !in l.value && LF !in l.value
    && (SameText(l.name, LENGTH_TEXT) && Trim(l.value) != [] ==> LengthOk(Trim(l.value)))
  }

  predicate OfConnection(l: HeaderLine) {
    SameText(l.name, CONNECTION_TEXT) || SameText(l.name, PROXY_TEXT)
  }

  // ---- What a line says ----

  predicate SaysChunked(l: HeaderLine) {
    SameText(l.name, TRANSFER_TEXT) && IsWord(Trim(l.value), CHUNKED_TEXT)
  }

  ghost predicate SaysKeepAlive(l: HeaderLine) {
    OfConnection(l) && Seen(Trim(l.value), KEEP_TEXT)
  }

  ghost predicate SaysClose(l: HeaderLine) {
    OfConnection(l) && Seen(Trim(l.value), CLOSE_TEXT)
  }

  ghost predicate SaysUpgrade(l: HeaderLine) {
    OfConnection(l) && Seen(Trim(l.value), UPGRADE_TEXT)
  }

  predicate NamesProtocol(l: HeaderLine) {
    SameText(l.name, UPGRADE_TEXT) && Trim(l.value) != []
  }

  predicate SetsLength(l: HeaderLine) {
    SameText(l.name, LENGTH_TEXT) && Trim(l.value) != []
  }

  function LengthSet(l: HeaderLine): nat {
    LengthNumber(Trim(l.value))
  }

  // ---- Printing ----

  const CRLF: seq<byte> := [CR, LF]

  function PrintLine(l: HeaderLine): seq<byte> {
    l.name + ([':'] + (l.value + CRLF))
  }

  function PrintLines(ls: seq<HeaderLine>): seq<byte> {
    if ls == [] then [] else PrintLine(ls[0]) + PrintLines(ls[1..])
  }
}
