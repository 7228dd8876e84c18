/** Character classes of the HTTP parser in strict mode, and its URL automaton. */
module HttpChars {

  type byte = c: char | c as int < 256

  const CR := '\r'
  const LF := '\n'

  /** (unsigned char)(c | 0x20) */
  function Lower(c: byte): byte {
    if c as int / 32 % 2 == 0 then (c as int + 32) as char else c
  }

  predicate IsAlpha(c: byte) {
    'a' <= Lower(c) <= 'z'
  }

  predicate IsNum(c: byte) {
    '0' <= c <= '9'
  }

  predicate IsAlphaNum(c: byte) {
    IsAlpha(c) || IsNum(c)
  }

  predicate IsHex(c: byte) {
    IsNum(c) || 'a' <= Lower(c) <= 'f'
  }

  predicate IsMark(c: byte) {
    c in {'-', '_', '.', '!', '~', '*', '\'', '(', ')'}
  }

  predicate IsUserinfoChar(c: byte) {
    IsAlphaNum(c) || IsMark(c) || c in {'%', ';', ':', '&', '=', '+', '$', ','}
  }

  predicate IsHostChar(c: byte) {
    IsAlphaNum(c) || c == '.' || c == '-'
  }

  /** normal_url_char: printable and not '#' or '?' */
  predicate IsUrlChar(c: byte) {
    33 <= c as int <= 126 && c != '#' && c != '?'
  }

  /** The lower-case token character, or NUL when c cannot be in a token. */
  function Token(c: byte): byte {
    if 'A' <= c <= 'Z' then (c as int + 32) as char
    else if 'a' <= c <= 'z' || IsNum(c) then c
    else if c in {'!', '#', '$', '%', '&', '\'', '*', '+', '-', '.', '^', '_', '`', '|', '~'} then c
    else '\0'
  }

  function Digit(c: byte): nat
    requires IsNum(c)
  {
    c as int - '0' as int
  }

  predicate AllNum(s: seq<byte>) {
    forall k :: 0 <= k < |s| ==> '0' <= s[k] <= '9'
  }

  /** The number that decimal digits stand for. */
  function DecValue(s: seq<byte>): nat
    requires AllNum(s)
  {
    if s == [] then 0 else DecValue(s[..|s| - 1]) * 10 + (s[|s| - 1] as int - '0' as int)
  }

  /** The value of a hex digit, or -1. */
  function Unhex(c: byte): int {
    if IsNum(c) then c as int - '0' as int
    else if 'a' <= c <= 'f' then c as int - 'a' as int + 10
    else if 'A' <= c <= 'F' then c as int - 'A' as int + 10
    else -1
  }

  // ---- URLs ----

  datatype UrlState =
    | Dead | SpacesBeforeUrl
    | Schema | SchemaSlash | SchemaSlashSlash
    | ServerStart | Server | ServerWithAt
    | Path | QueryStart | Query | FragmentStart | Fragment

  /** parse_url_char */
  function ParseUrlChar(s: UrlState, ch: byte): UrlState {
    if ch == ' ' || ch == '\r' || ch == '\n' || ch == '\t' || ch as int == 12 then Dead
    else match s
      case SpacesBeforeUrl =>
        if ch == '/' || ch == '*' then Path else if IsAlpha(ch) then Schema else Dead
      case Schema =>
        if IsAlpha(ch) then Schema else if ch == ':' then SchemaSlash else Dead
      case SchemaSlash =>
        if ch == '/' then SchemaSlashSlash else Dead
      case SchemaSlashSlash =>
        if ch == '/' then ServerStart else Dead
      case ServerWithAt =>
        if ch == '@' then Dead else ParseServerChar(ch)
      case ServerStart => ParseServerChar(ch)
      case Server => ParseServerChar(ch)
      case Path =>
        if IsUrlChar(ch) then Path
        else if ch == '?' then QueryStart else if ch == '#' then FragmentStart else Dead
      case QueryStart => ParseQueryChar(ch)
      case Query => ParseQueryChar(ch)
      case FragmentStart =>
        if IsUrlChar(ch) then Fragment
        else if ch == '?' then Fragment else if ch == '#' then FragmentStart else Dead
      case Fragment =>
        if IsUrlChar(ch) || ch == '?' || ch == '#' then Fragment else Dead
      case Dead => Dead
  }

  function ParseServerChar(ch: byte): UrlState {
    if ch == '/' then Path
    else if ch == '?' then QueryStart
    else if ch == '@' then ServerWithAt
    else if IsUserinfoChar(ch) || ch == '[' || ch == ']' then Server
    else Dead
  }

  function ParseQueryChar(ch: byte): UrlState {
    if IsUrlChar(ch) then Query
    else if ch == '?' then Query else if ch == '#' then FragmentStart else Dead
  }
}
