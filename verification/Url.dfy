/** http_parser_parse_url: which bytes of a URL are its schema, host, port, path, query,
    fragment and userinfo. */
module Url {
  import opened Wrappers

  import opened HttpChars

  datatype Field = UfSchema | UfHost | UfPort | UfPath | UfQuery | UfFragment | UfUserinfo

  datatype Span = Span(off: nat, len: nat)

  /** field_set and field_data of struct http_parser_url. */
  datatype Fields = Fields(present: set<Field>, data: map<Field, Span>)

  ghost predicate Total(data: map<Field, Span>) {
    forall f: Field :: f in data
  }

  // ---- The URL state machine, field by field ----

  datatype Scan = Scan(s: UrlState, fields: Fields, foundAt: bool, last: Option<Field>)

  /** The field that a state belongs to. */
  function FieldOf(s: UrlState): Option<Field> {
    match s
    case Schema => Some(UfSchema)
    case Server => Some(UfHost)
    case ServerWithAt => Some(UfHost)
    case Path => Some(UfPath)
    case Query => Some(UfQuery)
    case Fragment => Some(UfFragment)
    case _ => None
  }

  /** n bytes of field f, from offset i on. */
  function Enter(sc: Scan, s: UrlState, f: Field, i: nat, n: nat): Scan
    requires f in sc.fields.data
  {
    var span := sc.fields.data[f];
    if sc.last == Some(f) then sc.(s := s, fields := sc.fields.(data := sc.fields.data[f := Span(span.off, span.len + n)]))
    else sc.(s := s, last := Some(f),
             fields := Fields(sc.fields.present + {f}, sc.fields.data[f := Span(i, n)]))
  }

  /** One byte of the loop; None is an invalid URL. */
  function ScanStep(sc: Scan, i: nat, ch: byte): Option<Scan>
    requires Total(sc.fields.data)
  {
    var s := ParseUrlChar(sc.s, ch);
    if s == Dead then None
    else match FieldOf(s)
      case None => Some(sc.(s := s))
      case Some(f) => Some(Enter(sc.(foundAt := sc.foundAt || s == ServerWithAt), s, f, i, 1))
  }

  ghost function ScanFrom(sc: Scan, buf: seq<byte>, i: nat): (r: Option<Scan>)
    requires i <= |buf| && Total(sc.fields.data)
    ensures r.Some? ==> Total(r.value.fields.data)
    decreases |buf| - i
  {
    if i == |buf| then Some(sc)
    else match ScanStep(sc, i, buf[i])
      case None => None
      case Some(sc') => ScanFrom(sc', buf, i + 1)
  }

  // ---- The host state machine ----

  datatype HostState =
    | HostDead | UserinfoStart | Userinfo | HostStart | V6Start | Host | V6 | V6End | PortStart | Port

  /** http_parse_host_char */
  function ParseHostChar(s: HostState, ch: byte): HostState {
    match s
    case UserinfoStart => if ch == '@' then HostStart else if IsUserinfoChar(ch) then Userinfo else HostDead
    case Userinfo => if ch == '@' then HostStart else if IsUserinfoChar(ch) then Userinfo else HostDead
    case HostStart => if ch == '[' then V6Start else if IsHostChar(ch) then Host else HostDead
    case Host => if IsHostChar(ch) then Host else if ch == ':' then PortStart else HostDead
    case V6End => if ch == ':' then PortStart else HostDead
    case V6 => if ch == ']' then V6End else if IsHex(ch) || ch == ':' || ch == '.' then V6 else HostDead
    case V6Start => if IsHex(ch) || ch == ':' || ch == '.' then V6 else HostDead
    case Port => if IsNum(ch) then Port else HostDead
    case PortStart => if IsNum(ch) then Port else HostDead
    case HostDead => HostDead
  }

  /** The field that a host state belongs to. */
  function HostFieldOf(s: HostState): Option<Field> {
    match s
    case Host => Some(UfHost)
    case V6 => Some(UfHost)
    case Port => Some(UfPort)
    case Userinfo => Some(UfUserinfo)
    case _ => None
  }

  datatype HostScan = HostScan(s: HostState, fields: Fields)

  /** n bytes in state s, from offset i on. The length of a host is not reset: it was
      cleared before the first byte. */
  function HostEnter(h: HostScan, s: HostState, f: Field, i: nat, n: nat): HostScan
    requires f in h.fields.data
  {
    var span := h.fields.data[f];
    if h.s == s then HostScan(s, h.fields.(data := h.fields.data[f := Span(span.off, span.len + n)]))
    else if f == UfHost then HostScan(s, h.fields.(data := h.fields.data[f := Span(i, span.len + n)]))
    else HostScan(s, Fields(h.fields.present + {f}, h.fields.data[f := Span(i, n)]))
  }

  function HostStep(h: HostScan, i: nat, ch: byte): Option<HostScan>
    requires Total(h.fields.data)
  {
    var s := ParseHostChar(h.s, ch);
    if s == HostDead then None
    else match HostFieldOf(s)
      case None => Some(h.(s := s))
      case Some(f) => Some(HostEnter(h, s, f, i, 1))
  }

  ghost function HostFrom(h: HostScan, buf: seq<byte>, i: nat, end: nat): (r: Option<HostScan>)
    requires i <= end <= |buf| && Total(h.fields.data)
    ensures r.Some? ==> Total(r.value.fields.data)
    decreases end - i
  {
    if i == end then Some(h)
    else match HostStep(h, i, buf[i])
      case None => None
      case Some(h') => HostFrom(h', buf, i + 1, end)
  }

  predicate HostComplete(s: HostState) {
    s == Host || s == V6End || s == Port
  }

  // ---- The whole parse ----

  /** The end of the digits that start at i. */
  function DigitsEnd(buf: seq<byte>, i: nat): (j: nat)
    requires i <= |buf|
    ensures i <= j <= |buf| && forall k :: i <= k < j ==> IsNum(buf[k])
    decreases |buf| - i
  {
    if i < |buf| && IsNum(buf[i]) then DigitsEnd(buf, i + 1) else i
  }

  ghost function HostPart(buf: seq<byte>, sc: Scan): (r: Option<Fields>)
    requires Total(sc.fields.data)
    ensures r.Some? ==> Total(r.value.data)
  {
    var host := sc.fields.data[UfHost];
    if UfSchema !in sc.fields.present && UfHost !in sc.fields.present then Some(sc.fields)
    else if host.off + host.len > |buf| then None
    else
      var start := HostScan(if sc.foundAt then UserinfoStart else HostStart,
                            sc.fields.(data := sc.fields.data[UfHost := Span(host.off, 0)]));
      match HostFrom(start, buf, host.off, host.off + host.len)
      case None => None
      case Some(h) => if HostComplete(h.s) then Some(h.fields) else None
  }

  /** The number whose digits start at i; None when the memory ends before they do. */
  function NumberAt(mem: seq<byte>, i: nat): (v: Option<nat>)
    requires i <= |mem|
  {
    var j := DigitsEnd(mem, i);
    if j == |mem| then None else Some(DecValue(mem[i..j]))
  }

  /** A parse fails, or reads on behind the memory that is known, or ends with a struct. */
  datatype Outcome = Refused | Unbounded | Parsed(fields: Fields, port: nat)

  /** What reading the port leaves. */
  function WithPort(fields: Fields, number: Option<nat>): Outcome {
    match number
    case None => Unbounded
    case Some(v) => if v > 0xffff then Refused else Parsed(fields, v)
  }

  /** What http_parser_parse_url leaves in a struct that held data. Its reading of the port
      has no length: it goes on in the memory behind the buffer while there are digits. */
  ghost function Parse(buf: seq<byte>, behind: seq<byte>, isConnect: bool, data: map<Field, Span>): Outcome
    requires Total(data)
  {
    var start := Scan(if isConnect then ServerStart else SpacesBeforeUrl, Fields({}, data), false, None);
    match ScanFrom(start, buf, 0)
    case None => Refused
    case Some(sc) =>
      match HostPart(buf, sc)
      case None => Refused
      case Some(fields) =>
        if isConnect && fields.present != {UfHost, UfPort} then Refused
        else if UfPort in fields.present then
          var off := fields.data[UfPort].off;
          if off > |buf| then Refused else WithPort(fields, NumberAt(buf + behind, off))
        else Parsed(fields, 0)
  }

  // ---- Printing ----

  /** The components of a URL; a v6 host is printed in brackets. */
  datatype Parts = Parts(schema: seq<byte>, userinfo: Option<seq<byte>>, host: seq<byte>, v6: bool,
                         port: Option<seq<byte>>, path: seq<byte>, query: Option<seq<byte>>,
                         fragment: Option<seq<byte>>)

  function Authority(p: Parts): seq<byte> {
    (if p.userinfo.Some? then p.userinfo.value + "@" else "") + HostPort(p)
  }

  function HostPort(p: Parts): seq<byte> {
    (if p.v6 then "[" + p.host + "]" else p.host) + (if p.port.Some? then ":" + p.port.value else "")
  }

  function Tail(p: Parts): seq<byte> {
    (if p.query.Some? then "?" + p.query.value else "") + (if p.fragment.Some? then "#" + p.fragment.value else "")
  }

  function Print(p: Parts): seq<byte> {
    p.schema + ("://" + (Authority(p) + (p.path + Tail(p))))
  }

  // ---- Runs of bytes in one state ----

  lemma Suffix(buf: seq<byte>, i: nat, seg: seq<byte>, rest: seq<byte>)
    requires i <= |buf| && buf[i..] == seg + rest
    ensures i + |seg| <= |buf| && buf[i + |seg|..] == rest && buf[i..i + |seg|] == seg
    ensures forall k :: 0 <= k < |seg| ==> buf[i + k] == seg[k]
  {
    assert |buf[i..]| == |seg| + |rest|;
    assert buf[i + |seg|..] == buf[i..][|seg|..];
    assert buf[i..i + |seg|] == buf[i..][..|seg|];
    forall k | 0 <= k < |seg| ensures buf[i + k] == seg[k] {
      assert buf[i + k] == buf[i..][k];
    }
  }

  /** Every byte of seg keeps the state s, which the first byte enters from t. */
  ghost predicate Stays(t: UrlState, s: UrlState, seg: seq<byte>) {
    && (forall k :: 0 < k < |seg| ==> ParseUrlChar(s, seg[k]) == s)
    && (seg != [] ==> ParseUrlChar(t, seg[0]) == s)
  }

  lemma ScanOne(sc: Scan, sc': Scan, buf: seq<byte>, i: nat)
    requires i < |buf| && Total(sc.fields.data) && ScanStep(sc, i, buf[i]) == Some(sc')
    ensures Total(sc'.fields.data) && ScanFrom(sc, buf, i) == ScanFrom(sc', buf, i + 1)
  {
    hide ParseUrlChar;
  }

  lemma EnterMore(sc: Scan, s: UrlState, f: Field, i: nat, n: nat)
    requires Total(sc.fields.data)
    ensures var sc' := Enter(sc, s, f, i, 1);
            Total(sc'.fields.data) && sc'.last == Some(f) && Enter(sc', s, f, i + 1, n) == Enter(sc, s, f, i, n + 1)
    ensures sc.last == Some(f) && sc.s == s ==> Enter(sc, s, f, i, 0) == sc
  {
    var d := sc.fields.data;
    assert d[f := d[f]] == d;
    SetTwice(d, f, Span(d[f].off, d[f].len + 1), Span(d[f].off, d[f].len + 1 + n));
    SetTwice(d, f, Span(i, 1), Span(i, 1 + n));
  }

  lemma SetTwice<K, V>(m: map<K, V>, k: K, a: V, b: V)
    ensures m[k := a][k := b] == m[k := b]
  {
  }

  lemma {:induction false} ScanGrow(sc: Scan, buf: seq<byte>, i: nat, j: nat, f: Field)
    requires i <= j <= |buf| && Total(sc.fields.data) && sc.last == Some(f) == FieldOf(sc.s) && sc.s != ServerWithAt
    requires forall k :: i <= k < j ==> ParseUrlChar(sc.s, buf[k]) == sc.s
    ensures ScanFrom(sc, buf, i) == ScanFrom(Enter(sc, sc.s, f, i, j - i), buf, j)
    decreases j - i
  {
    hide ParseUrlChar, ScanFrom, Enter;
    if i == j {
      EnterMore(sc, sc.s, f, i, 0);
    } else {
      var sc' := Enter(sc, sc.s, f, i, 1);
      EnterMore(sc, sc.s, f, i, j - i - 1);
      EnterState(sc, sc.s, f, i, 1);
      ScanOne(sc, sc', buf, i);
      ScanGrow(sc', buf, i + 1, j, f);
    }
  }

  lemma EnterState(sc: Scan, s: UrlState, f: Field, i: nat, n: nat)
    requires Total(sc.fields.data)
    ensures Enter(sc, s, f, i, n).s == s && Enter(sc, s, f, i, n).foundAt == sc.foundAt
    ensures sc.(foundAt := sc.foundAt || false) == sc
  {
  }

  /** A run of bytes in one state. */
  lemma ScanRun(sc: Scan, s: UrlState, buf: seq<byte>, i: nat, seg: seq<byte>, rest: seq<byte>, f: Field)
    requires i <= |buf| && Total(sc.fields.data) && buf[i..] == seg + rest && seg != []
    requires Stays(sc.s, s, seg) && FieldOf(s) == Some(f) && s != ServerWithAt
    ensures i + |seg| <= |buf| && buf[i + |seg|..] == rest
    ensures ScanFrom(sc, buf, i) == ScanFrom(Enter(sc, s, f, i, |seg|), buf, i + |seg|)
  {
    hide ParseUrlChar, ScanFrom, Enter;
    Suffix(buf, i, seg, rest);
    var j := i + |seg|;
    var sc' := Enter(sc, s, f, i, 1);
    EnterState(sc, s, f, i, 1);
    assert buf[i + 0] == seg[0];
    EnterMore(sc, s, f, i, |seg| - 1);
    ScanOne(sc, sc', buf, i);
    forall k | i + 1 <= k < j ensures ParseUrlChar(s, buf[k]) == s { assert buf[i + (k - i)] == seg[k - i]; }
    ScanGrow(sc', buf, i + 1, j, f);
  }

  /** A delimiter. */
  lemma ScanSkip(sc: Scan, buf: seq<byte>, i: nat, ch: byte, rest: seq<byte>)
    requires i <= |buf| && Total(sc.fields.data) && buf[i..] == [ch] + rest
    requires ParseUrlChar(sc.s, ch) != Dead && FieldOf(ParseUrlChar(sc.s, ch)).None?
    ensures i + 1 <= |buf| && buf[i + 1..] == rest
    ensures ScanFrom(sc, buf, i) == ScanFrom(sc.(s := ParseUrlChar(sc.s, ch)), buf, i + 1)
  {
    hide ParseUrlChar;
    Suffix(buf, i, [ch], rest);
    assert buf[i + 0] == [ch][0];
  }

  lemma ScanAt(sc: Scan, buf: seq<byte>, i: nat, rest: seq<byte>)
    requires i <= |buf| && Total(sc.fields.data) && buf[i..] == "@" + rest && (sc.s == Server || sc.s == ServerStart)
    ensures i + 1 <= |buf| && buf[i + 1..] == rest
    ensures ScanFrom(sc, buf, i) == ScanFrom(Enter(sc.(foundAt := true), ServerWithAt, UfHost, i, 1), buf, i + 1)
  {
    Suffix(buf, i, "@", rest);
    assert buf[i + 0] == "@"[0] == '@';
  }

  ghost predicate HostStays(t: HostState, s: HostState, seg: seq<byte>) {
    && (forall k :: 0 < k < |seg| ==> ParseHostChar(s, seg[k]) == s)
    && (seg != [] ==> ParseHostChar(t, seg[0]) == s)
  }

  lemma HostOne(h: HostScan, h': HostScan, buf: seq<byte>, i: nat, end: nat)
    requires i < end <= |buf| && Total(h.fields.data) && HostStep(h, i, buf[i]) == Some(h')
    ensures Total(h'.fields.data) && HostFrom(h, buf, i, end) == HostFrom(h', buf, i + 1, end)
  {
    hide ParseHostChar;
  }

  lemma HostEnterMore(h: HostScan, s: HostState, f: Field, i: nat, n: nat)
    requires Total(h.fields.data)
    ensures var h' := HostEnter(h, s, f, i, 1);
            Total(h'.fields.data) && h'.s == s && HostEnter(h', s, f, i + 1, n) == HostEnter(h, s, f, i, n + 1)
    ensures h.s == s ==> HostEnter(h, s, f, i, 0) == h
  {
    var d := h.fields.data;
    assert d[f := d[f]] == d;
    SetTwice(d, f, Span(d[f].off, d[f].len + 1), Span(d[f].off, d[f].len + 1 + n));
    SetTwice(d, f, Span(i, 1), Span(i, 1 + n));
    SetTwice(d, f, Span(i, d[f].len + 1), Span(i, d[f].len + 1 + n));
  }

  lemma {:induction false} HostGrow(h: HostScan, buf: seq<byte>, i: nat, j: nat, end: nat, f: Field)
    requires i <= j <= end <= |buf| && Total(h.fields.data) && HostFieldOf(h.s) == Some(f)
    requires forall k :: i <= k < j ==> ParseHostChar(h.s, buf[k]) == h.s
    ensures HostFrom(h, buf, i, end) == HostFrom(HostEnter(h, h.s, f, i, j - i), buf, j, end)
    decreases j - i
  {
    hide ParseHostChar, HostFrom, HostEnter;
    if i == j {
      HostEnterMore(h, h.s, f, i, 0);
    } else {
      HostEnterMore(h, h.s, f, i, j - i - 1);
      HostOne(h, HostEnter(h, h.s, f, i, 1), buf, i, end);
      HostGrow(HostEnter(h, h.s, f, i, 1), buf, i + 1, j, end, f);
    }
  }

  lemma HostRun(h: HostScan, s: HostState, buf: seq<byte>, i: nat, end: nat, seg: seq<byte>, rest: seq<byte>, f: Field)
    requires i <= end <= |buf| && Total(h.fields.data) && buf[i..end] == seg + rest && seg != []
    requires HostStays(h.s, s, seg) && HostFieldOf(s) == Some(f) && h.s != s
    ensures i + |seg| <= end && buf[i + |seg|..end] == rest
    ensures HostFrom(h, buf, i, end) == HostFrom(HostEnter(h, s, f, i, |seg|), buf, i + |seg|, end)
  {
    hide ParseHostChar, HostFrom, HostEnter;
    HostSuffix(buf, i, end, seg, rest);
    var j := i + |seg|;
    assert buf[i + 0] == seg[0];
    HostEnterMore(h, s, f, i, |seg| - 1);
    HostOne(h, HostEnter(h, s, f, i, 1), buf, i, end);
    forall k | i + 1 <= k < j ensures ParseHostChar(s, buf[k]) == s { assert buf[i + (k - i)] == seg[k - i]; }
    HostGrow(HostEnter(h, s, f, i, 1), buf, i + 1, j, end, f);
  }

  lemma HostSuffix(buf: seq<byte>, i: nat, end: nat, seg: seq<byte>, rest: seq<byte>)
    requires i <= end <= |buf| && buf[i..end] == seg + rest
    ensures i + |seg| <= end && buf[i + |seg|..end] == rest && buf[i..i + |seg|] == seg
    ensures forall k :: 0 <= k < |seg| ==> buf[i + k] == seg[k]
  {
    assert buf[..end][i..] == buf[i..end];
    Suffix(buf[..end], i, seg, rest);
    assert buf[..end][i + |seg|..] == buf[i + |seg|..end];
    assert buf[..end][i..i + |seg|] == buf[i..i + |seg|];
  }

  lemma HostSkip(h: HostScan, buf: seq<byte>, i: nat, end: nat, ch: byte, rest: seq<byte>)
    requires i <= end <= |buf| && Total(h.fields.data) && buf[i..end] == [ch] + rest
    requires ParseHostChar(h.s, ch) != HostDead && HostFieldOf(ParseHostChar(h.s, ch)).None?
    ensures i + 1 <= end && buf[i + 1..end] == rest
    ensures HostFrom(h, buf, i, end) == HostFrom(h.(s := ParseHostChar(h.s, ch)), buf, i + 1, end)
  {
    hide ParseHostChar;
    HostSuffix(buf, i, end, [ch], rest);
    assert buf[i + 0] == [ch][0];
  }

  // ---- Parsing what was printed ----

  /** The character classes that components are made of. */
  datatype Class = AlphaClass | SchemeClass | UserinfoClass | HostClass | V6Class | NumClass | UrlClass | QueryClass

  predicate Letter(c: byte) {
    'a' <= c <= 'z' || 'A' <= c <= 'Z'
  }

  predicate In(c: byte, cls: Class) {
    match cls
    case AlphaClass => Letter(c)
    case SchemeClass => Letter(c) || '0' <= c <= '9' || c == '+' || c == '-' || c == '.'
    case UserinfoClass =>
      || Letter(c) || '0' <= c <= '9' || c == '-' || c == '_' || c == '.' || c == '!' || c == '~' || c == '*' || c == '\''
      || c == '(' || c == ')' || c == '%' || c == ';' || c == ':' || c == '&' || c == '=' || c == '+' || c == '$' || c == ','
    case HostClass => Letter(c) || '0' <= c <= '9' || c == '.' || c == '-'
    case V6Class => '0' <= c <= '9' || 'a' <= c <= 'f' || 'A' <= c <= 'F' || c == ':' || c == '.'
    case NumClass => '0' <= c <= '9'
    case UrlClass => '!' <= c <= '~' && c != '#' && c != '?'
    case QueryClass => '!' <= c <= '~' && c != '#'
  }

  /** The tables of the parser have these characters and no others. */
  lemma TablesAre(c: byte)
    ensures IsAlpha(c) <==> In(c, AlphaClass)
    ensures IsAlphaNum(c) || c == '+' || c == '-' || c == '.' <==> In(c, SchemeClass)
    ensures IsUserinfoChar(c) <==> In(c, UserinfoClass)
    ensures IsHostChar(c) <==> In(c, HostClass)
    ensures IsHex(c) || c == ':' || c == '.' <==> In(c, V6Class)
    ensures IsNum(c) <==> In(c, NumClass)
    ensures IsUrlChar(c) <==> In(c, UrlClass)
    ensures IsUrlChar(c) || c == '?' <==> In(c, QueryClass)
  {
    AlphaIs(c);
    hide IsAlpha;
  }

  lemma AlphaIs(c: byte)
    ensures IsAlpha(c) <==> Letter(c)
    ensures 'a' <= Lower(c) <= 'f' <==> 'a' <= c <= 'f' || 'A' <= c <= 'F'
  {
  }

  predicate AllOf(s: seq<byte>, cls: Class) {
    forall k :: 0 <= k < |s| ==> In(s[k], cls)
  }

  /** The components fit the generic syntax (section 3 of RFC 3986), with hosts, paths,
      queries and fragments of the characters that this parser knows. */
  ghost predicate ShapeOk(p: Parts) {
    && p.schema != [] && Letter(p.schema[0]) && AllOf(p.schema, SchemeClass)
    && (p.userinfo.Some? ==> AllOf(p.userinfo.value, UserinfoClass))
    && p.host != [] && AllOf(p.host, if p.v6 then V6Class else HostClass)
    && (p.port.Some? ==> AllOf(p.port.value, NumClass))
    && (p.path != [] ==> p.path[0] == '/') && AllOf(p.path, UrlClass)
    && (p.query.Some? ==> AllOf(p.query.value, QueryClass))
    && (p.fragment.Some? ==> AllOf(p.fragment.value, QueryClass))
  }

  function PathOff(p: Parts): nat {
    |p.schema| + 3 + |Authority(p)|
  }

  function FragmentOff(p: Parts): nat {
    PathOff(p) + |p.path| + (if p.query.Some? then 1 + |p.query.value| else 0) + 1
  }

  /** The offset of the host in an authority at offset i. */
  function HostOff(p: Parts, i: nat): nat {
    i + (if p.userinfo.Some? then |p.userinfo.value| + 1 else 0) + (if p.v6 then 1 else 0)
  }

  function PortOff(p: Parts, i: nat): nat {
    HostOff(p, i) + |p.host| + (if p.v6 then 1 else 0) + 1
  }

  function At(comp: Option<seq<byte>>, off: nat): Option<Span> {
    if comp.Some? && comp.value != [] then Some(Span(off, |comp.value|)) else None
  }

  /** Where a non-empty component is in the printed URL. */
  function Where(p: Parts, f: Field): Option<Span> {
    match f
    case UfSchema => Some(Span(0, |p.schema|))
    case UfHost => Some(Span(HostOff(p, |p.schema| + 3), |p.host|))
    case UfPort => At(p.port, PortOff(p, |p.schema| + 3))
    case UfPath => At(Some(p.path), PathOff(p))
    case UfQuery => At(p.query, PathOff(p) + |p.path| + 1)
    case UfFragment => At(p.fragment, FragmentOff(p))
    case UfUserinfo => At(p.userinfo, |p.schema| + 3)
  }

  function Component(p: Parts, f: Field): seq<byte> {
    match f
    case UfSchema => p.schema
    case UfHost => p.host
    case UfPort => if p.port.Some? then p.port.value else []
    case UfPath => p.path
    case UfQuery => if p.query.Some? then p.query.value else []
    case UfFragment => if p.fragment.Some? then p.fragment.value else []
    case UfUserinfo => if p.userinfo.Some? then p.userinfo.value else []
  }

  function Put(fields: Fields, f: Field, span: Option<Span>): Fields {
    match span case None => fields case Some(s) => Fields(fields.present + {f}, fields.data[f := s])
  }

  /** The fields after the main loop: the host is still the whole authority. */
  function Scanned(p: Parts, data: map<Field, Span>): Fields {
    var fields := Put(Fields({}, data), UfSchema, Some(Span(0, |p.schema|)));
    var fields := Put(fields, UfHost, Some(Span(|p.schema| + 3, |Authority(p)|)));
    var fields := Put(fields, UfPath, Where(p, UfPath));
    var fields := Put(fields, UfQuery, Where(p, UfQuery));
    Put(fields, UfFragment, Where(p, UfFragment))
  }

  // The main loop, part by part.

  lemma SchemaChars()
    ensures ParseUrlChar(Schema, ':') == SchemaSlash && ParseUrlChar(SchemaSlash, '/') == SchemaSlashSlash
    ensures ParseUrlChar(SchemaSlashSlash, '/') == ServerStart
  {
  }

  lemma SchemaStays(seg: seq<byte>)
    requires AllOf(seg, AlphaClass)
    ensures Stays(SpacesBeforeUrl, Schema, seg)
  {
  }

  lemma SchemaScan(p: Parts, sc: Scan, buf: seq<byte>, rest: seq<byte>)
    requires Total(sc.fields.data) && sc.s == SpacesBeforeUrl && sc.last.None? && buf == p.schema + ("://" + rest)
    requires p.schema != [] && AllOf(p.schema, AlphaClass)
    ensures var n := |p.schema|;
            && n + 3 <= |buf| && buf[n + 3..] == rest
            && ScanFrom(sc, buf, 0) ==
               ScanFrom(sc.(s := ServerStart, last := Some(UfSchema), fields := Put(sc.fields, UfSchema, Some(Span(0, n)))), buf, n + 3)
  {
    hide ParseUrlChar, ScanFrom;
    var n := |p.schema|;
    assert buf[0..] == buf;
    SchemaStays(p.schema);
    ScanRun(sc, Schema, buf, 0, p.schema, "://" + rest, UfSchema);
    var sc1 := Enter(sc, Schema, UfSchema, 0, n);
    SchemaChars();
    assert "://" + rest == [':'] + ("//" + rest);
    ScanSkip(sc1, buf, n, ':', "//" + rest);
    assert "//" + rest == ['/'] + ("/" + rest);
    ScanSkip(sc1.(s := SchemaSlash), buf, n + 1, '/', "/" + rest);
    assert "/" + rest == ['/'] + rest;
    ScanSkip(sc1.(s := SchemaSlashSlash), buf, n + 2, '/', rest);
  }

  lemma HostPortChars(p: Parts)
    requires ShapeOk(p)
    ensures HostPort(p) != []
    ensures forall k :: 0 <= k < |HostPort(p)| ==> var c := HostPort(p)[k]; IsUserinfoChar(c) || c == '[' || c == ']'
  {
    var host := if p.v6 then "[" + p.host + "]" else p.host;
    forall k | 0 <= k < |host| ensures IsUserinfoChar(host[k]) || host[k] == '[' || host[k] == ']' {
      if p.v6 && 0 < k < |host| - 1 { assert host[k] == p.host[k - 1]; }
    }
    if p.port.Some? {
      var tail := ":" + p.port.value;
      forall k | 0 <= k < |tail| ensures IsUserinfoChar(tail[k]) {
        if k > 0 { assert tail[k] == p.port.value[k - 1]; }
      }
      assert HostPort(p) == host + tail;
    }
  }

  lemma ServerStays(t: UrlState, seg: seq<byte>)
    requires t == ServerStart || t == ServerWithAt || t == Server
    requires forall k :: 0 <= k < |seg| ==> IsUserinfoChar(seg[k]) || seg[k] == '[' || seg[k] == ']'
    ensures Stays(t, Server, seg)
  {
  }

  /** The userinfo and its '@'. */
  lemma UserinfoScan(sc: Scan, u: seq<byte>, buf: seq<byte>, i: nat, rest: seq<byte>)
    requires Total(sc.fields.data) && sc.s == ServerStart && sc.last != Some(UfHost) && AllOf(u, UserinfoClass)
    requires i <= |buf| && buf[i..] == u + ("@" + rest)
    ensures var n := |u| + 1;
            && i + n <= |buf| && buf[i + n..] == rest
            && ScanFrom(sc, buf, i) ==
               ScanFrom(Scan(ServerWithAt, Put(sc.fields, UfHost, Some(Span(i, n))), true, Some(UfHost)), buf, i + n)
  {
    hide ParseUrlChar, ScanFrom;
    var d := sc.fields.data;
    var sc1 := if u == [] then sc else Enter(sc, Server, UfHost, i, |u|);
    if u == [] {
      assert buf[i..] == "@" + rest;
    } else {
      ServerStays(ServerStart, u);
      ScanRun(sc, Server, buf, i, u, "@" + rest, UfHost);
    }
    ScanAt(sc1, buf, i + |u|, rest);
    assert d[UfHost := Span(i, |u|)][UfHost := Span(i, |u| + 1)] == d[UfHost := Span(i, |u| + 1)];
  }

  lemma AuthorityScan(p: Parts, sc: Scan, buf: seq<byte>, i: nat, rest: seq<byte>)
    requires ShapeOk(p) && Total(sc.fields.data) && sc.s == ServerStart && sc.last != Some(UfHost)
    requires i <= |buf| && buf[i..] == Authority(p) + rest && !sc.foundAt
    ensures var n := |Authority(p)|;
            && i + n <= |buf| && buf[i + n..] == rest
            && ScanFrom(sc, buf, i) ==
               ScanFrom(Scan(Server, Put(sc.fields, UfHost, Some(Span(i, n))), p.userinfo.Some?, Some(UfHost)), buf, i + n)
  {
    hide ParseUrlChar, ScanFrom, In;
    HostPortChars(p);
    var hp := HostPort(p);
    var d := sc.fields.data;
    hide HostPort, AllOf;
    if p.userinfo.None? {
      assert Authority(p) == hp;
      ServerStays(ServerStart, hp);
      ScanRun(sc, Server, buf, i, hp, rest, UfHost);
    } else {
      var u := p.userinfo.value;
      assert Authority(p) + rest == u + ("@" + (hp + rest));
      UserinfoScan(sc, u, buf, i, hp + rest);
      var sc2 := Scan(ServerWithAt, Put(sc.fields, UfHost, Some(Span(i, |u| + 1))), true, Some(UfHost));
      ServerStays(ServerWithAt, hp);
      ScanRun(sc2, Server, buf, i + |u| + 1, hp, rest, UfHost);
      assert d[UfHost := Span(i, |u| + 1)][UfHost := Span(i, |u| + 1 + |hp|)] == d[UfHost := Span(i, |u| + 1 + |hp|)];
    }
  }

  /** A component that may be empty. */
  lemma PartScan(sc: Scan, s: UrlState, buf: seq<byte>, i: nat, seg: seq<byte>, rest: seq<byte>, f: Field)
    requires i <= |buf| && Total(sc.fields.data) && buf[i..] == seg + rest && sc.last != Some(f)
    requires Stays(sc.s, s, seg) && FieldOf(s) == Some(f) && s != ServerWithAt
    ensures i + |seg| <= |buf| && buf[i + |seg|..] == rest
    ensures ScanFrom(sc, buf, i) ==
            ScanFrom(if seg == [] then sc else Scan(s, Put(sc.fields, f, Some(Span(i, |seg|))), sc.foundAt, Some(f)), buf, i + |seg|)
  {
    hide ParseUrlChar, ScanFrom;
    if seg == [] {
      assert buf[i..] == rest;
    } else {
      ScanRun(sc, s, buf, i, seg, rest, f);
    }
  }

  lemma TailChars(seg: seq<byte>)
    ensures AllOf(seg, UrlClass) && (seg != [] ==> seg[0] == '/') ==> Stays(Server, Path, seg)
    ensures AllOf(seg, QueryClass) ==> Stays(QueryStart, Query, seg) && Stays(FragmentStart, Fragment, seg)
    ensures ParseUrlChar(Server, '?') == ParseUrlChar(Path, '?') == QueryStart
    ensures ParseUrlChar(Path, '#') == ParseUrlChar(QueryStart, '#') == ParseUrlChar(Query, '#') == FragmentStart
    ensures ParseUrlChar(Server, '#') == Dead
  {
  }

  /** A fragment right after the authority is refused. */
  ghost predicate FragmentReachable(p: Parts) {
    p.fragment.Some? ==> p.path != [] || p.query.Some?
  }

  function FragmentPart(p: Parts): seq<byte> {
    if p.fragment.Some? then "#" + p.fragment.value else ""
  }

  lemma FragmentScan(p: Parts, sc: Scan, buf: seq<byte>, i: nat)
    requires ShapeOk(p) && Total(sc.fields.data) && sc.last != Some(UfFragment)
    requires i + 1 == FragmentOff(p) && i <= |buf| && buf[i..] == FragmentPart(p)
    requires sc.s == Path || sc.s == QueryStart || sc.s == Query || (sc.s == Server && !FragmentReachable(p))
             || (sc.s == Server && p.fragment.None?)
    ensures !FragmentReachable(p) && sc.s == Server ==> ScanFrom(sc, buf, i).None?
    ensures FragmentReachable(p) ==>
      && ScanFrom(sc, buf, i).Some?
      && ScanFrom(sc, buf, i).value.fields == Put(sc.fields, UfFragment, Where(p, UfFragment))
      && ScanFrom(sc, buf, i).value.foundAt == sc.foundAt
  {
    hide ParseUrlChar;
    if p.fragment.Some? {
      var seg := p.fragment.value;
      TailChars(seg);
      assert buf[i..] == ['#'] + seg;
      if sc.s == Server {
        assert buf[i] == buf[i..][0];
      } else {
        ScanSkip(sc, buf, i, '#', seg);
        assert seg == seg + [];
        PartScan(sc.(s := FragmentStart), Fragment, buf, i + 1, seg, [], UfFragment);
      }
    }
  }

  lemma QueryScan(p: Parts, sc: Scan, buf: seq<byte>, j: nat)
    requires ShapeOk(p) && Total(sc.fields.data) && sc.s == (if p.path == [] then Server else Path)
    requires sc.last != Some(UfQuery) && sc.last != Some(UfFragment)
    requires j == PathOff(p) + |p.path| <= |buf| && buf[j..] == Tail(p)
    ensures var r := ScanFrom(sc, buf, j);
            if FragmentReachable(p) then
              && r.Some? && r.value.foundAt == sc.foundAt
              && r.value.fields == Put(Put(sc.fields, UfQuery, Where(p, UfQuery)), UfFragment, Where(p, UfFragment))
            else r.None?
  {
    hide ParseUrlChar, ScanFrom, In, AllOf, Put;
    PutTotal(sc.fields, UfQuery, Where(p, UfQuery));
    if p.query.None? {
      assert Tail(p) == FragmentPart(p);
      FragmentScan(p, sc, buf, j);
    } else {
      var q := p.query.value;
      TailChars(q);
      assert Tail(p) == ['?'] + (q + FragmentPart(p));
      ScanSkip(sc, buf, j, '?', q + FragmentPart(p));
      PartScan(sc.(s := QueryStart), Query, buf, j + 1, q, FragmentPart(p), UfQuery);
      var sc2 := if q == [] then sc.(s := QueryStart)
                 else Scan(Query, Put(sc.fields, UfQuery, Where(p, UfQuery)), sc.foundAt, Some(UfQuery));
      FragmentScan(p, sc2, buf, j + 1 + |q|);
    }
  }

  lemma PutTotal(fields: Fields, f: Field, span: Option<Span>)
    requires Total(fields.data)
    ensures Total(Put(fields, f, span).data) && (span.None? ==> Put(fields, f, span) == fields)
  {
  }

  lemma TailScan(p: Parts, sc: Scan, buf: seq<byte>)
    requires ShapeOk(p) && Total(sc.fields.data) && sc.s == Server && sc.last == Some(UfHost)
    requires PathOff(p) <= |buf| && buf[PathOff(p)..] == p.path + Tail(p)
    ensures var r := ScanFrom(sc, buf, PathOff(p));
            if FragmentReachable(p) then
              && r.Some? && r.value.foundAt == sc.foundAt
              && r.value.fields == Put(Put(Put(sc.fields, UfPath, Where(p, UfPath)), UfQuery, Where(p, UfQuery)),
                                       UfFragment, Where(p, UfFragment))
            else r.None?
  {
    hide ParseUrlChar, ScanFrom, In, AllOf, Put;
    var i := PathOff(p);
    TailChars(p.path);
    PartScan(sc, Path, buf, i, p.path, Tail(p), UfPath);
    PutTotal(sc.fields, UfPath, Where(p, UfPath));
    var sc1 := if p.path == [] then sc else Scan(Path, Put(sc.fields, UfPath, Where(p, UfPath)), sc.foundAt, Some(UfPath));
    QueryScan(p, sc1, buf, i + |p.path|);
  }

  /** The main loop over a printed URL with an alphabetic schema. */
  lemma PrintScan(p: Parts, data: map<Field, Span>)
    requires ShapeOk(p) && Total(data) && AllOf(p.schema, AlphaClass)
    ensures var r := ScanFrom(Scan(SpacesBeforeUrl, Fields({}, data), false, None), Print(p), 0);
            if FragmentReachable(p) then r.Some? && r.value.foundAt == p.userinfo.Some? && r.value.fields == Scanned(p, data)
            else r.None?
  {
    hide ParseUrlChar, ScanFrom, In, AllOf;
    var sc := Scan(SpacesBeforeUrl, Fields({}, data), false, None);
    var buf := Print(p);
    SchemaScan(p, sc, buf, Authority(p) + (p.path + Tail(p)));
    var sc1 := Scan(ServerStart, Put(sc.fields, UfSchema, Some(Span(0, |p.schema|))), false, Some(UfSchema));
    AuthorityScan(p, sc1, buf, |p.schema| + 3, p.path + Tail(p));
    var sc2 := Scan(Server, Put(sc1.fields, UfHost, Some(Span(|p.schema| + 3, |Authority(p)|))), p.userinfo.Some?, Some(UfHost));
    TailScan(p, sc2, buf);
  }

  /** Where a schema stops being alphabetic. */
  lemma {:induction false} FirstOther(s: seq<byte>) returns (k: nat)
    requires s != [] && IsAlpha(s[0]) && AllOf(s, SchemeClass) && !AllOf(s, AlphaClass)
    ensures 0 < k < |s| && AllOf(s[..k], AlphaClass) && !IsAlpha(s[k]) && In(s[k], SchemeClass)
  {
    k := 1;
    while IsAlpha(s[k])
      invariant 0 < k < |s|
      invariant AllOf(s[..k], AlphaClass)
      decreases |s| - k
    {
      assert k + 1 == |s| ==> AllOf(s, AlphaClass);
      k := k + 1;
    }
  }

  lemma OtherEnds(sc: Scan, i: nat, ch: byte)
    requires Total(sc.fields.data) && sc.s == Schema && !IsAlpha(ch) && In(ch, SchemeClass)
    ensures ScanStep(sc, i, ch).None?
  {
  }

  /** A schema with a digit or a mark is refused. */
  lemma SchemaRefused(p: Parts, data: map<Field, Span>)
    requires ShapeOk(p) && Total(data) && !AllOf(p.schema, AlphaClass)
    ensures ScanFrom(Scan(SpacesBeforeUrl, Fields({}, data), false, None), Print(p), 0).None?
  {
    hide ParseUrlChar, In, ScanStep;
    var sc := Scan(SpacesBeforeUrl, Fields({}, data), false, None);
    var buf := Print(p);
    var k := FirstOther(p.schema);
    var seg := p.schema[..k];
    assert buf[0..] == buf == seg + buf[k..] && buf[k] == p.schema[k];
    hide Print, ShapeOk, AllOf, Enter;
    SchemaStays(seg);
    ScanRun(sc, Schema, buf, 0, seg, buf[k..], UfSchema);
    EnterState(sc, Schema, UfSchema, 0, k);
    EnterTotal(sc, Schema, UfSchema, 0, k);
    OtherEnds(Enter(sc, Schema, UfSchema, 0, k), k, buf[k]);
  }

  lemma EnterTotal(sc: Scan, s: UrlState, f: Field, i: nat, n: nat)
    requires Total(sc.fields.data)
    ensures Total(Enter(sc, s, f, i, n).fields.data)
  {
  }

  // The authority, part by part.

  ghost predicate PortOk(p: Parts) {
    p.port.Some? ==> p.port.value != []
  }

  function PortPart(p: Parts): seq<byte> {
    if p.port.Some? then ":" + p.port.value else ""
  }

  lemma HostChars(seg: seq<byte>)
    ensures AllOf(seg, UserinfoClass) ==> HostStays(UserinfoStart, Userinfo, seg)
    ensures AllOf(seg, HostClass) ==> HostStays(HostStart, Host, seg)
    ensures AllOf(seg, V6Class) ==> HostStays(V6Start, V6, seg)
    ensures AllOf(seg, NumClass) ==> HostStays(PortStart, Port, seg)
    ensures ParseHostChar(UserinfoStart, '@') == ParseHostChar(Userinfo, '@') == HostStart
    ensures ParseHostChar(HostStart, '[') == V6Start && ParseHostChar(V6, ']') == V6End
    ensures ParseHostChar(V6End, ':') == ParseHostChar(Host, ':') == PortStart
  {
    TablesAre('@'); TablesAre('['); TablesAre(']'); TablesAre(':');
    forall k | 0 <= k < |seg| ensures HostCharIs(seg[k]) { OneHostChar(seg[k]); }
    hide ParseHostChar, In;
  }

  /** What stays in a host state. */
  ghost predicate HostCharIs(c: byte) {
    && (In(c, UserinfoClass) ==> ParseHostChar(UserinfoStart, c) == ParseHostChar(Userinfo, c) == Userinfo)
    && (In(c, HostClass) ==> ParseHostChar(HostStart, c) == ParseHostChar(Host, c) == Host)
    && (In(c, V6Class) ==> ParseHostChar(V6Start, c) == ParseHostChar(V6, c) == V6)
    && (In(c, NumClass) ==> ParseHostChar(PortStart, c) == ParseHostChar(Port, c) == Port)
  }

  lemma OneHostChar(c: byte)
    ensures HostCharIs(c)
  {
    TablesAre(c);
    hide IsUserinfoChar, IsHostChar, IsHex, IsNum, IsAlpha, IsAlphaNum, IsUrlChar;
  }

  lemma PortHost(p: Parts, h: HostScan, buf: seq<byte>, i: nat, end: nat)
    requires ShapeOk(p) && Total(h.fields.data) && (h.s == Host || h.s == V6End)
    requires i <= end <= |buf| && buf[i..end] == PortPart(p)
    ensures var r := HostFrom(h, buf, i, end);
            && r.Some? && (HostComplete(r.value.s) <==> PortOk(p))
            && r.value.fields == Put(h.fields, UfPort, At(p.port, i + 1))
  {
    hide ParseHostChar;
    if p.port.Some? {
      var seg := p.port.value;
      HostChars(seg);
      assert buf[i..end] == [':'] + seg;
      HostSkip(h, buf, i, end, ':', seg);
      if seg != [] {
        assert seg == seg + [];
        HostRun(h.(s := PortStart), Port, buf, i + 1, end, seg, [], UfPort);
      }
    }
  }

  /** What a name or an address leaves: the host begins at j, what follows it at k. */
  ghost predicate HostEnds(p: Parts, h: HostScan, r: Option<HostScan>, j: nat, k: nat)
    requires Total(h.fields.data)
  {
    && r.Some? && (HostComplete(r.value.s) <==> PortOk(p))
    && r.value.fields == Put(h.fields.(data := h.fields.data[UfHost := Span(j, |p.host|)]), UfPort, At(p.port, k + 1))
  }

  lemma AddressHost(p: Parts, h: HostScan, buf: seq<byte>, i: nat, end: nat)
    requires ShapeOk(p) && p.v6 && Total(h.fields.data) && h.s == HostStart && h.fields.data[UfHost].len == 0
    requires i <= end <= |buf| && buf[i..end] == HostPort(p)
    ensures HostEnds(p, h, HostFrom(h, buf, i, end), i + 1, i + 2 + |p.host|)
  {
    hide ParseHostChar, HostFrom, In;
    HostChars(p.host);
    var h' := h.fields.(data := h.fields.data[UfHost := Span(i + 1, |p.host|)]);
    assert HostPort(p) == ['['] + (p.host + ("]" + PortPart(p)));
    HostSkip(h, buf, i, end, '[', p.host + ("]" + PortPart(p)));
    HostRun(h.(s := V6Start), V6, buf, i + 1, end, p.host, "]" + PortPart(p), UfHost);
    hide AllOf, ShapeOk;
    assert "]" + PortPart(p) == [']'] + PortPart(p);
    HostSkip(HostScan(V6, h'), buf, i + 1 + |p.host|, end, ']', PortPart(p));
    PortHost(p, HostScan(V6End, h'), buf, i + 2 + |p.host|, end);
  }

  /** A name, or an address in brackets. */
  lemma NameHost(p: Parts, h: HostScan, buf: seq<byte>, i: nat, end: nat)
    requires ShapeOk(p) && Total(h.fields.data) && h.s == HostStart && h.fields.data[UfHost].len == 0
    requires i <= end <= |buf| && buf[i..end] == HostPort(p)
    ensures var j := if p.v6 then i + 1 else i;
            HostEnds(p, h, HostFrom(h, buf, i, end), j, j + |p.host| + (if p.v6 then 1 else 0))
  {
    hide HostEnds, HostPort, ShapeOk, HostFrom;
    if p.v6 { AddressHost(p, h, buf, i, end); } else { RegNameHost(p, h, buf, i, end); }
  }

  lemma RegNameHost(p: Parts, h: HostScan, buf: seq<byte>, i: nat, end: nat)
    requires ShapeOk(p) && !p.v6 && Total(h.fields.data) && h.s == HostStart && h.fields.data[UfHost].len == 0
    requires i <= end <= |buf| && buf[i..end] == HostPort(p)
    ensures HostEnds(p, h, HostFrom(h, buf, i, end), i, i + |p.host|)
  {
    hide ParseHostChar, HostFrom, In;
    HostChars(p.host);
    var h' := h.fields.(data := h.fields.data[UfHost := Span(i, |p.host|)]);
    assert HostPort(p) == p.host + PortPart(p);
    HostRun(h, Host, buf, i, end, p.host, PortPart(p), UfHost);
    hide AllOf, HostPort;
    PortHost(p, HostScan(Host, h'), buf, i + |p.host|, end);
  }

  /** The fields after the host has been taken apart. */
  function Split(p: Parts, fields: Fields, i: nat): Fields {
    var fields := Put(fields, UfUserinfo, At(p.userinfo, i));
    var fields := fields.(data := fields.data[UfHost := Span(HostOff(p, i), |p.host|)]);
    Put(fields, UfPort, At(p.port, PortOff(p, i)))
  }

  lemma UserinfoHost(u: seq<byte>, f0: Fields, buf: seq<byte>, i: nat, end: nat, rest: seq<byte>)
    requires AllOf(u, UserinfoClass) && Total(f0.data)
    requires i <= end <= |buf| && buf[i..end] == u + (['@'] + rest)
    ensures i + |u| + 1 <= end && buf[i + |u| + 1..end] == rest
    ensures HostFrom(HostScan(UserinfoStart, f0), buf, i, end) ==
            HostFrom(HostScan(HostStart, Put(f0, UfUserinfo, At(Some(u), i))), buf, i + |u| + 1, end)
  {
    hide ParseHostChar, HostFrom, In;
    HostChars(u);
    if u == [] {
      assert buf[i..end] == ['@'] + rest;
      HostSkip(HostScan(UserinfoStart, f0), buf, i, end, '@', rest);
    } else {
      HostRun(HostScan(UserinfoStart, f0), Userinfo, buf, i, end, u, ['@'] + rest, UfUserinfo);
      HostSkip(HostScan(Userinfo, Put(f0, UfUserinfo, At(Some(u), i))), buf, i + |u|, end, '@', rest);
    }
  }

  lemma AuthorityHost(p: Parts, fields: Fields, buf: seq<byte>, i: nat, end: nat)
    requires ShapeOk(p) && Total(fields.data)
    requires i <= end <= |buf| && buf[i..end] == Authority(p)
    ensures var h := HostScan(if p.userinfo.Some? then UserinfoStart else HostStart,
                              fields.(data := fields.data[UfHost := Span(fields.data[UfHost].off, 0)]));
            var r := HostFrom(h, buf, i, end);
            r.Some? && (HostComplete(r.value.s) <==> PortOk(p)) && r.value.fields == Split(p, fields, i)
  {
    hide ParseHostChar, HostFrom, In, AllOf;
    var d := fields.data;
    var f0 := fields.(data := d[UfHost := Span(d[UfHost].off, 0)]);
    if p.userinfo.None? {
      assert Authority(p) == HostPort(p);
      hide HostPort, ShapeOk;
      NameHost(p, HostScan(HostStart, f0), buf, i, end);
      assert f0.data[UfHost := Span(HostOff(p, i), |p.host|)] == d[UfHost := Span(HostOff(p, i), |p.host|)];
    } else {
      var u := p.userinfo.value;
      assert Authority(p) == u + (['@'] + HostPort(p));
      UserinfoHost(u, f0, buf, i, end, HostPort(p));
      var f1 := Put(f0, UfUserinfo, At(p.userinfo, i));
      hide HostPort, ShapeOk;
      NameHost(p, HostScan(HostStart, f1), buf, i + |u| + 1, end);
      assert f1.data[UfHost := Span(HostOff(p, i), |p.host|)] ==
             Put(fields, UfUserinfo, At(p.userinfo, i)).data[UfHost := Span(HostOff(p, i), |p.host|)];
    }
  }

  lemma {:induction false} DigitsEndIs(buf: seq<byte>, i: nat, seg: seq<byte>, rest: seq<byte>)
    requires i <= |buf| && buf[i..] == seg + rest && AllOf(seg, NumClass) && (rest != [] ==> !IsNum(rest[0]))
    ensures DigitsEnd(buf, i) == i + |seg| && buf[i..i + |seg|] == seg
    decreases |seg|
  {
    Suffix(buf, i, seg, rest);
    if seg == [] {
      if rest != [] { assert buf[i] == buf[i..][0]; }
    } else {
      assert buf[i + 0] == seg[0] && In(seg[0], NumClass);
      assert buf[i + 1..] == buf[i..][1..] == seg[1..] + rest;
      assert forall k :: 0 <= k < |seg[1..]| ==> seg[1..][k] == seg[k + 1];
      DigitsEndIs(buf, i + 1, seg[1..], rest);
    }
  }

  // ---- The main results ----

  /** The loops over the printed URL accept it. */
  ghost predicate Scans(p: Parts) {
    AllOf(p.schema, AlphaClass) && FragmentReachable(p) && PortOk(p)
  }

  lemma Digits(s: seq<byte>)
    requires AllOf(s, NumClass)
    ensures AllNum(s)
  {
    assert forall k :: 0 <= k < |s| ==> In(s[k], NumClass);
  }

  function PortValue(p: Parts): nat
    requires p.port.Some? ==> AllOf(p.port.value, NumClass)
  {
    if p.port.Some? then Digits(p.port.value); DecValue(p.port.value) else 0
  }

  /** The number that is read for a port with rest behind it in the URL, and behind in the
      memory after the URL. */
  function PortRead(p: Parts, rest: seq<byte>, behind: seq<byte>): Option<nat>
    requires p.port.Some? && AllOf(p.port.value, NumClass)
  {
    var n := DigitsEnd(behind, 0);
    Digits(p.port.value);
    if rest != [] then Some(DecValue(p.port.value))
    else if n == |behind| then None
    else Some(DecValue(p.port.value + behind[..n]))
  }

  /** What the parse of a printed authority makes of its port. */
  function PortOutcome(p: Parts, rest: seq<byte>, behind: seq<byte>, fields: Fields): Outcome
    requires p.port.Some? ==> AllOf(p.port.value, NumClass)
  {
    if p.port.Some? then WithPort(fields, PortRead(p, rest, behind)) else Parsed(fields, 0)
  }

  /** What the printed components promise. */
  function Promised(p: Parts, fields: Fields): Outcome
    requires p.port.Some? ==> AllOf(p.port.value, NumClass)
  {
    if PortValue(p) > 0xffff then Refused else Parsed(fields, PortValue(p))
  }

  /** The memory behind the URL does not disturb the port: something follows the port in the
      URL, or the digits behind it end and leave the number, or its refusal, as it is. */
  ghost predicate Undisturbed(p: Parts, rest: seq<byte>, behind: seq<byte>)
    requires p.port.Some? ==> AllOf(p.port.value, NumClass)
  {
    || p.port.None? || rest != []
    || var n := DigitsEnd(behind, 0);
       n < |behind| && (n == 0 || PortValue(p) > 0xffff || (PortValue(p) == 0 && DecValue(behind[..n]) == 0))
  }

  lemma {:induction false} DecGrows(a: seq<byte>, b: seq<byte>)
    requires AllNum(a) && AllNum(b)
    ensures DecValue(a + b) >= DecValue(a)
    ensures DecValue(a + b) == DecValue(a) <==> b == [] || (DecValue(a) == 0 && DecValue(b) == 0)
    decreases |b|
  {
    if b == [] {
      assert a + b == a;
    } else {
      hide DecValue;
      var b' := b[..|b| - 1];
      DecGrows(a, b');
      assert (a + b)[..|a + b| - 1] == a + b';
      DecLast(a + b);
      DecLast(b);
    }
  }

  lemma DecLast(s: seq<byte>)
    requires AllNum(s) && s != []
    ensures AllNum(s[..|s| - 1]) && IsNum(s[|s| - 1])
    ensures DecValue(s) == DecValue(s[..|s| - 1]) * 10 + Digit(s[|s| - 1])
  {
  }

  /** The port is as printed exactly when the memory behind the URL does not disturb it. */
  lemma PortUndisturbed(p: Parts, rest: seq<byte>, behind: seq<byte>, fields: Fields)
    requires p.port.Some? ==> AllOf(p.port.value, NumClass)
    ensures PortOutcome(p, rest, behind, fields) == Promised(p, fields) <==> Undisturbed(p, rest, behind)
  {
    if p.port.Some? && rest == [] {
      var n := DigitsEnd(behind, 0);
      Digits(p.port.value);
      hide DecValue;
      DecGrows(p.port.value, behind[..n]);
    }
  }

  lemma PastUserinfo(p: Parts, buf: seq<byte>, i: nat, rest: seq<byte>)
    requires i <= |buf| && buf[i..] == Authority(p) + rest
    ensures var h := if p.userinfo.Some? then i + |p.userinfo.value| + 1 else i;
            h <= |buf| && buf[h..] == HostPort(p) + rest
    ensures p.userinfo.Some? ==> i + |p.userinfo.value| <= |buf| && buf[i..i + |p.userinfo.value|] == p.userinfo.value
  {
    hide HostPort;
    if p.userinfo.Some? {
      assert Authority(p) + rest == p.userinfo.value + ("@" + (HostPort(p) + rest));
      Suffix(buf, i, p.userinfo.value, "@" + (HostPort(p) + rest));
      Suffix(buf, i + |p.userinfo.value|, "@", HostPort(p) + rest);
    } else {
      assert Authority(p) + rest == HostPort(p) + rest;
    }
  }

  lemma PastHost(p: Parts, buf: seq<byte>, h: nat, rest: seq<byte>)
    requires h <= |buf| && buf[h..] == HostPort(p) + rest
    ensures var j := if p.v6 then h + 1 else h;
            var k := j + |p.host| + (if p.v6 then 1 else 0);
            && k <= |buf| && buf[j..j + |p.host|] == p.host && buf[k..] == PortPart(p) + rest
  {
    var tail := PortPart(p) + rest;
    if p.v6 {
      assert HostPort(p) + rest == "[" + (p.host + ("]" + tail));
      Suffix(buf, h, "[", p.host + ("]" + tail));
      Suffix(buf, h + 1, p.host, "]" + tail);
      Suffix(buf, h + 1 + |p.host|, "]", tail);
    } else {
      assert HostPort(p) + rest == p.host + tail;
      Suffix(buf, h, p.host, tail);
    }
  }

  lemma PastPort(p: Parts, buf: seq<byte>, k: nat, rest: seq<byte>)
    requires k <= |buf| && buf[k..] == PortPart(p) + rest && p.port.Some?
    ensures k + 1 + |p.port.value| <= |buf| && buf[k + 1..] == p.port.value + rest
    ensures buf[k + 1..k + 1 + |p.port.value|] == p.port.value
  {
    assert PortPart(p) + rest == ":" + (p.port.value + rest);
    Suffix(buf, k, ":", p.port.value + rest);
    Suffix(buf, k + 1, p.port.value, rest);
  }

  /** Where the parts of the authority lie in a buffer. */
  lemma AuthorityParts(p: Parts, buf: seq<byte>, i: nat, rest: seq<byte>)
    requires i <= |buf| && buf[i..] == Authority(p) + rest
    ensures i + |Authority(p)| <= |buf| && buf[i..i + |Authority(p)|] == Authority(p)
    ensures p.userinfo.Some? ==> i + |p.userinfo.value| <= |buf| && buf[i..i + |p.userinfo.value|] == p.userinfo.value
    ensures HostOff(p, i) + |p.host| <= |buf| && buf[HostOff(p, i)..HostOff(p, i) + |p.host|] == p.host
    ensures p.port.Some? ==> PortOff(p, i) + |p.port.value| <= |buf| && buf[PortOff(p, i)..] == p.port.value + rest
    ensures p.port.Some? ==> buf[PortOff(p, i)..PortOff(p, i) + |p.port.value|] == p.port.value
  {
    hide Authority, HostPort, PortPart;
    Suffix(buf, i, Authority(p), rest);
    PastUserinfo(p, buf, i, rest);
    var h := if p.userinfo.Some? then i + |p.userinfo.value| + 1 else i;
    PastHost(p, buf, h, rest);
    if p.port.Some? { PastPort(p, buf, PortOff(p, i) - 1, rest); }
  }

  /** The digits that are read from a port on: what follows it in the URL is no digit. */
  lemma AfterPort(p: Parts, buf: seq<byte>, behind: seq<byte>, i: nat, rest: seq<byte>)
    requires p.port.Some? && AllOf(p.port.value, NumClass) && i <= |buf| && buf[i..] == p.port.value + rest
    requires rest != [] ==> !IsNum(rest[0])
    ensures NumberAt(buf + behind, i) == PortRead(p, rest, behind)
  {
    hide DecValue, DigitsEnd;
    var mem, port := buf + behind, p.port.value;
    assert mem[i..] == port + (rest + behind);
    Digits(port);
    if rest != [] {
      DigitsEndIs(mem, i, port, rest + behind);
    } else {
      var n := DigitsEnd(behind, 0);
      DigitsStop(behind, 0);
      assert mem[i..] == (port + behind[..n]) + behind[n..];
      assert AllOf(behind[..n], NumClass) && AllOf(port + behind[..n], NumClass);
      DigitsEndIs(mem, i, port + behind[..n], behind[n..]);
      assert i + n + |port| == |mem| <==> n == |behind|;
    }
  }

  lemma {:induction false} DigitsStop(buf: seq<byte>, i: nat)
    requires i <= |buf|
    ensures DigitsEnd(buf, i) < |buf| ==> !IsNum(buf[DigitsEnd(buf, i)])
    decreases |buf| - i
  {
    if i < |buf| && IsNum(buf[i]) { DigitsStop(buf, i + 1); }
  }

  function Final(p: Parts, data: map<Field, Span>): Fields {
    Split(p, Scanned(p, data), |p.schema| + 3)
  }

  lemma PutIs(fields: Fields, g: Field, span: Option<Span>, f: Field)
    ensures var r := Put(fields, g, span);
            && (f in r.present <==> f in fields.present || (f == g && span.Some?))
            && (f in fields.data ==> f in r.data)
            && (f == g && span.Some? ==> f in r.data && r.data[f] == span.value)
            && (f != g || span.None? ==> (f in r.data <==> f in fields.data) && (f in r.data ==> r.data[f] == fields.data[f]))
  {
  }

  lemma FinalField(p: Parts, data: map<Field, Span>, f: Field)
    ensures Where(p, f).Some? <==> f in Final(p, data).present
    ensures Where(p, f).Some? ==> f in Final(p, data).data && Final(p, data).data[f] == Where(p, f).value
    ensures f in data ==> f in Final(p, data).data
  {
    hide Authority, PathOff, FragmentOff, HostOff, PortOff, Put, At;
    var f0 := Fields({}, data);
    var i := |p.schema| + 3;
    PutIs(f0, UfSchema, Some(Span(0, |p.schema|)), f);
    var f1 := Put(f0, UfSchema, Some(Span(0, |p.schema|)));
    PutIs(f1, UfHost, Some(Span(i, |Authority(p)|)), f);
    var f2 := Put(f1, UfHost, Some(Span(i, |Authority(p)|)));
    PutIs(f2, UfPath, Where(p, UfPath), f);
    var f3 := Put(f2, UfPath, Where(p, UfPath));
    PutIs(f3, UfQuery, Where(p, UfQuery), f);
    var f4 := Put(f3, UfQuery, Where(p, UfQuery));
    PutIs(f4, UfFragment, Where(p, UfFragment), f);
    assert Scanned(p, data) == Put(f4, UfFragment, Where(p, UfFragment));
    SplitField(p, Scanned(p, data), i, f);
  }

  lemma SplitField(p: Parts, fields: Fields, i: nat, f: Field)
    ensures var r := Split(p, fields, i);
            && (f in r.present <==> f in fields.present || (f == UfUserinfo && At(p.userinfo, i).Some?)
                                    || (f == UfPort && At(p.port, PortOff(p, i)).Some?))
            && (f in fields.data ==> f in r.data)
            && (f == UfUserinfo && At(p.userinfo, i).Some? ==> f in r.data && r.data[f] == At(p.userinfo, i).value)
            && (f == UfPort && At(p.port, PortOff(p, i)).Some? ==> f in r.data && r.data[f] == At(p.port, PortOff(p, i)).value)
            && (f == UfHost ==> f in r.data && r.data[f] == Span(HostOff(p, i), |p.host|))
            && (f !in {UfUserinfo, UfHost, UfPort} && f in fields.data ==> r.data[f] == fields.data[f])
  {
    hide HostOff, PortOff, Put, At;
    var f1 := Put(fields, UfUserinfo, At(p.userinfo, i));
    PutIs(fields, UfUserinfo, At(p.userinfo, i), f);
    var f2 := f1.(data := f1.data[UfHost := Span(HostOff(p, i), |p.host|)]);
    PutIs(f2, UfPort, At(p.port, PortOff(p, i)), f);
  }

  lemma ScannedTotal(p: Parts, data: map<Field, Span>)
    requires Total(data)
    ensures var s := Scanned(p, data);
            Total(s.data) && UfHost in s.present && UfPort !in s.present && s.data[UfHost] == Span(|p.schema| + 3, |Authority(p)|)
  {
    hide Authority, PathOff, FragmentOff;
  }

  /** The host part of a printed URL that the main loop has accepted. */
  lemma PrintHost(p: Parts, data: map<Field, Span>)
    requires ShapeOk(p) && Total(data)
    ensures Total(Scanned(p, data).data)
    ensures HostPart(Print(p), Scan(Fragment, Scanned(p, data), p.userinfo.Some?, None)) ==
            if PortOk(p) then Some(Final(p, data)) else None
  {
    hide HostFrom, In, AllOf, Authority, Tail, Scanned, Split, PortOk;
    ScannedTotal(p, data);
    var i := |p.schema| + 3;
    var buf := Print(p);
    assert buf[i..] == Authority(p) + (p.path + Tail(p));
    AuthorityParts(p, buf, i, p.path + Tail(p));
    AuthorityHost(p, Scanned(p, data), buf, i, i + |Authority(p)|);
  }

  lemma HostPartOf(buf: seq<byte>, sc: Scan, sc': Scan)
    requires Total(sc.fields.data) && sc'.fields == sc.fields && sc'.foundAt == sc.foundAt
    ensures HostPart(buf, sc) == HostPart(buf, sc')
  {
  }

  lemma PrintPort(p: Parts, behind: seq<byte>)
    requires ShapeOk(p) && p.port.Some? && p.port.value != []
    ensures var k := PortOff(p, |p.schema| + 3);
            k <= |Print(p)| && NumberAt(Print(p) + behind, k) == PortRead(p, p.path + Tail(p), behind)
  {
    hide DecValue, DigitsEnd, In, Authority, Tail;
    var i, rest := |p.schema| + 3, p.path + Tail(p);
    assert Print(p)[i..] == Authority(p) + rest;
    AuthorityParts(p, Print(p), i, rest);
    RestStart(p);
    AfterPort(p, Print(p), behind, PortOff(p, i), rest);
  }

  lemma ParsePrint(p: Parts, behind: seq<byte>, data: map<Field, Span>)
    requires ShapeOk(p) && Total(data)
    ensures Parse(Print(p), behind, false, data) ==
            if Scans(p) then PortOutcome(p, p.path + Tail(p), behind, Final(p, data)) else Refused
  {
    hide ScanFrom, HostPart, In, AllOf, DecValue, DigitsEnd, NumberAt, PortRead, Tail, Print, Scanned, Final, ShapeOk,
        FragmentReachable, PortOff, ParseUrlChar;
    if !AllOf(p.schema, AlphaClass) {
      SchemaRefused(p, data);
    } else {
      PrintScan(p, data);
      if FragmentReachable(p) {
        PrintHost(p, data);
        var r := ScanFrom(Scan(SpacesBeforeUrl, Fields({}, data), false, None), Print(p), 0);
        HostPartOf(Print(p), r.value, Scan(Fragment, Scanned(p, data), p.userinfo.Some?, None));
        FinalField(p, data, UfPort);
        if p.port.Some? && p.port.value != [] { PrintPort(p, behind); }
      }
    }
  }

  /** Parsing a printed URL, with anything behind it in memory: it ends exactly when the
      number read for the port does, it succeeds exactly when the URL scans and that number
      fits, and then every field is exactly where its component was printed. */
  lemma RoundTrip(p: Parts, behind: seq<byte>, data: map<Field, Span>)
    requires ShapeOk(p) && Total(data)
    ensures var r := Parse(Print(p), behind, false, data);
            var read := if p.port.Some? then PortRead(p, p.path + Tail(p), behind) else Some(0);
            && (r.Unbounded? <==> Scans(p) && read.None?)
            && (r.Parsed? <==> Scans(p) && read.Some? && read.value <= 0xffff)
            && (r.Parsed? ==>
                  && r.port == read.value
                  && forall f :: && (Where(p, f).Some? <==> f in r.fields.present)
                                 && (Where(p, f).Some? ==> f in r.fields.data && r.fields.data[f] == Where(p, f).value))
  {
    hide Parse, Print, Scans, Final, Where, ShapeOk, PortRead, Tail;
    assert p.port.Some? ==> AllOf(p.port.value, NumClass) by { ShapeHasPort(p); }
    ParsePrint(p, behind, data);
    forall f ensures (Where(p, f).Some? <==> f in Final(p, data).present)
                     && (Where(p, f).Some? ==> f in Final(p, data).data && Final(p, data).data[f] == Where(p, f).value)
    {
      FinalField(p, data, f);
    }
  }

  /** The parse of a printed URL is the one that its components promise exactly when the
      loops refuse it anyway or the memory behind it does not disturb the port. That the next
      byte is no digit is enough, as is anything in the URL behind the port. */
  lemma AsPrinted(p: Parts, behind: seq<byte>, data: map<Field, Span>)
    requires ShapeOk(p) && Total(data)
    ensures Parse(Print(p), behind, false, data) == (if Scans(p) then Promised(p, Final(p, data)) else Refused)
            <==> !Scans(p) || Undisturbed(p, p.path + Tail(p), behind)
    ensures p.path != [] || p.query.Some? || (behind != [] && !IsNum(behind[0])) ==> Undisturbed(p, p.path + Tail(p), behind)
  {
    hide Parse, Print, Scans, Final, ShapeOk, PortOutcome, Promised;
    assert p.port.Some? ==> AllOf(p.port.value, NumClass) by { ShapeHasPort(p); }
    ParsePrint(p, behind, data);
    PortUndisturbed(p, p.path + Tail(p), behind, Final(p, data));
  }

  /** http://h:80 */
  function Eighty(): Parts {
    Parts("http", None, "h", false, Some("80"), [], None, None)
  }

  lemma EightyPrinted()
    ensures var p := Eighty(); ShapeOk(p) && Scans(p) && Print(p) == "http://h:80" && p.port == Some("80") && p.path + Tail(p) == []
  {
  }

  // Bytes that may lie behind a URL in memory.
  const ONE: seq<byte> := ['1']
  const NINES: seq<byte> := ['9', '9', '9']
  const NEWLINE: seq<byte> := ['\n']

  /** A URL that ends with the port 80, and the digits d, then perhaps a newline, behind it in memory. */
  lemma EightyAnd(d: seq<byte>, data: map<Field, Span>)
    requires Total(data) && AllNum(d) && AllNum(['8', '0'] + d)
    ensures Parse(Print(Eighty()), d, false, data) == Unbounded
    ensures Parse(Print(Eighty()), d + NEWLINE, false, data) ==
            WithPort(Final(Eighty(), data), Some(DecValue(['8', '0'] + d)))
  {
    var p, n := Eighty(), |d|;
    EightyPrinted();
    hide Parse, Print, ShapeOk, Scans, Where, Tail, Final, DecValue, DigitsEnd, AllOf, Eighty;
    ShapeHasPort(p);
    ParsePrint(p, d, data);
    DigitsEndStep(d, 0, n);
    ParsePrint(p, d + NEWLINE, data);
    assert (d + NEWLINE)[..n] == d && !IsNum(NEWLINE[0]);
    DigitsEndStep(d + NEWLINE, 0, n);
  }

  /** The port 80 of a URL that ends with it is read as 801, is refused, or is read from
      beyond the known memory, as other bytes follow it in memory. */
  lemma PortReadsOn(data: map<Field, Span>)
    requires Total(data)
    ensures Print(Eighty()) == "http://h:80"
    ensures Parse(Print(Eighty()), ONE + NEWLINE, false, data) == Parsed(Final(Eighty(), data), 801)
    ensures Parse(Print(Eighty()), NINES + NEWLINE, false, data) == Refused
    ensures Parse(Print(Eighty()), NINES, false, data) == Unbounded
  {
    NumberValues();
    EightyPrinted();
    hide Parse, Print, Eighty, DecValue, Final;
    EightyAnd(ONE, data);
    EightyAnd(NINES, data);
  }

  lemma NumberValues()
    ensures AllNum(ONE) && AllNum(['8', '0'] + ONE) && DecValue(['8', '0'] + ONE) == 801
    ensures AllNum(NINES) && AllNum(['8', '0'] + NINES) && DecValue(['8', '0'] + NINES) == 80999
  {
    hide DecValue;
    DecValueEmpty();
    DecNext([], '8', ['8']);
    DecNext(['8'], '0', ['8', '0']);
    DecNext(['8', '0'], '1', ['8', '0'] + ONE);
    DecNext(['8', '0'], '9', ['8', '0', '9']);
    DecNext(['8', '0', '9'], '9', ['8', '0', '9', '9']);
    DecNext(['8', '0', '9', '9'], '9', ['8', '0'] + NINES);
  }

  lemma DecNext(s: seq<byte>, c: byte, t: seq<byte>)
    requires AllNum(s) && IsNum(c) && t == s + [c]
    ensures AllNum(t) && DecValue(t) == DecValue(s) * 10 + Digit(c)
  {
    DecValueStep(s, c);
  }

  lemma RestStart(p: Parts)
    requires ShapeOk(p)
    ensures var rest := p.path + Tail(p); rest != [] ==> !IsNum(rest[0])
  {
    if p.path != [] { assert (p.path + Tail(p))[0] == p.path[0]; } else { assert p.path + Tail(p) == Tail(p); }
  }

  lemma AuthorityPicks(p: Parts)
    requires ShapeOk(p)
    ensures PathOff(p) <= |Print(p)| && Print(p)[PathOff(p)..] == p.path + Tail(p)
    ensures p.userinfo.Some? ==> |p.schema| + 3 + |p.userinfo.value| <= |Print(p)|
    ensures p.userinfo.Some? ==> Print(p)[|p.schema| + 3..|p.schema| + 3 + |p.userinfo.value|] == p.userinfo.value
    ensures var h := HostOff(p, |p.schema| + 3); h + |p.host| <= |Print(p)| && Print(p)[h..h + |p.host|] == p.host
    ensures var k := PortOff(p, |p.schema| + 3);
            p.port.Some? ==> k + |p.port.value| <= |Print(p)| && Print(p)[k..k + |p.port.value|] == p.port.value
  {
    hide Authority, Tail, In, AllOf, ShapeOk, HostOff, PortOff;
    var buf, i, rest := Print(p), |p.schema| + 3, p.path + Tail(p);
    assert buf[i..] == Authority(p) + rest;
    AuthorityParts(p, buf, i, rest);
    Suffix(buf, i, Authority(p), rest);
  }

  lemma TailPicks(p: Parts, buf: seq<byte>)
    requires PathOff(p) <= |buf| && buf[PathOff(p)..] == p.path + Tail(p)
    ensures PathOff(p) + |p.path| <= |buf| && buf[PathOff(p)..PathOff(p) + |p.path|] == p.path
    ensures var j := PathOff(p) + |p.path| + 1;
            p.query.Some? ==> j + |p.query.value| <= |buf| && buf[j..j + |p.query.value|] == p.query.value
    ensures var j := FragmentOff(p);
            p.fragment.Some? ==> j + |p.fragment.value| <= |buf| && buf[j..j + |p.fragment.value|] == p.fragment.value
  {
    var i := PathOff(p);
    hide PathOff, Tail, FragmentPart;
    Suffix(buf, i, p.path, Tail(p));
    QueryPicks(p, buf, i + |p.path|);
    if p.fragment.Some? { FragmentPicks(p, buf, FragmentOff(p) - 1); }
  }

  lemma QueryPicks(p: Parts, buf: seq<byte>, j: nat)
    requires j <= |buf| && buf[j..] == Tail(p)
    ensures p.query.Some? ==> j + 1 + |p.query.value| <= |buf| && buf[j + 1..j + 1 + |p.query.value|] == p.query.value
    ensures var k := j + (if p.query.Some? then 1 + |p.query.value| else 0); k <= |buf| && buf[k..] == FragmentPart(p)
  {
    if p.query.Some? {
      assert Tail(p) == "?" + (p.query.value + FragmentPart(p));
      hide FragmentPart;
      Suffix(buf, j, "?", p.query.value + FragmentPart(p));
      Suffix(buf, j + 1, p.query.value, FragmentPart(p));
    } else {
      assert Tail(p) == FragmentPart(p);
    }
  }

  lemma FragmentPicks(p: Parts, buf: seq<byte>, j: nat)
    requires j <= |buf| && buf[j..] == FragmentPart(p) && p.fragment.Some?
    ensures j + 1 + |p.fragment.value| <= |buf| && buf[j + 1..j + 1 + |p.fragment.value|] == p.fragment.value
  {
    Suffix(buf, j, "#", p.fragment.value);
    assert p.fragment.value == p.fragment.value + [];
    Suffix(buf, j + 1, p.fragment.value, []);
  }

  lemma SchemaPicks(p: Parts)
    ensures |p.schema| <= |Print(p)| && Print(p)[0..|p.schema|] == p.schema
  {
    hide Authority, Tail;
  }

  /** The fields of a parsed URL pick out exactly the components it was printed from. */
  lemma PicksOut(p: Parts, f: Field)
    requires ShapeOk(p)
    ensures Where(p, f).None? <==> Component(p, f) == []
    ensures Where(p, f).Some? ==>
      var s := Where(p, f).value;
      s.off + s.len <= |Print(p)| && Print(p)[s.off..s.off + s.len] == Component(p, f)
  {
    hide In, Authority, Tail, HostOff, PortOff, PathOff, FragmentOff, AllOf, Print;
    if f == UfSchema {
      SchemaPicks(p);
    } else {
      AuthorityPicks(p);
      if f == UfPath || f == UfQuery || f == UfFragment { TailPicks(p, Print(p)); }
    }
  }

  /** Well-formed by RFC 3986, and refused: a fragment without a path. */
  lemma FragmentAfterHost(data: map<Field, Span>)
    requires Total(data)
    ensures forall behind :: Parse("http://h#f", behind, false, data).Refused?
  {
    var p := Parts("http", None, "h", false, None, [], None, Some("f"));
    assert Print(p) == "http://h#f";
    hide Parse;
    forall behind ensures Parse("http://h#f", behind, false, data).Refused? { RoundTrip(p, behind, data); }
  }

  /** Well-formed by RFC 3986, and refused: an empty port. */
  lemma EmptyPort(data: map<Field, Span>)
    requires Total(data)
    ensures forall behind :: Parse("http://h:/", behind, false, data).Refused?
  {
    var p := Parts("http", None, "h", false, Some([]), "/", None, None);
    assert Print(p) == "http://h:/";
    hide Parse;
    forall behind ensures Parse("http://h:/", behind, false, data).Refused? { RoundTrip(p, behind, data); }
  }

  /** Well-formed by RFC 3986, and refused: a scheme with a digit. */
  lemma SchemeWithDigit(data: map<Field, Span>)
    requires Total(data)
    ensures forall behind :: Parse("h2://h/", behind, false, data).Refused?
  {
    var p := Parts("h2", None, "h", false, None, "/", None, None);
    assert Print(p) == "h2://h/";
    assert !In(p.schema[1], AlphaClass);
    hide Parse;
    forall behind ensures Parse("h2://h/", behind, false, data).Refused? { RoundTrip(p, behind, data); }
  }

  /** The target of a CONNECT request scans exactly when it is host and port. Its port is
      always the last thing in it, so that it is as printed exactly when the memory behind
      it does not disturb it. */
  lemma ConnectRoundTrip(p: Parts, behind: seq<byte>, data: map<Field, Span>)
    requires ShapeOk(p) && Total(data)
    ensures var r := Parse(Authority(p), behind, true, data);
            if At(p.userinfo, 0).Some? || At(p.port, 0).None? then r.Refused?
            else
              var read := PortRead(p, [], behind);
              && (r.Unbounded? <==> read.None?)
              && (r.Parsed? <==> read.Some? && read.value <= 0xffff)
              && (r.Parsed? ==>
                    && r.port == read.value && r.fields.present == {UfHost, UfPort}
                    && UfHost in r.fields.data && r.fields.data[UfHost] == Span(HostOff(p, 0), |p.host|)
                    && UfPort in r.fields.data && r.fields.data[UfPort] == Span(PortOff(p, 0), |p.port.value|))
              && (Undisturbed(p, [], behind) <==> if r.Parsed? then r.port == PortValue(p) else r.Refused? && PortValue(p) > 0xffff)
  {
    hide ScanFrom, NumberAt, PortRead, Undisturbed, HostFrom, In, AllOf, DecValue, DigitsEnd, ShapeOk, ParseUrlChar,
        Authority, PortOff, HostOff;
    var buf, n := Authority(p), |Authority(p)|;
    assert buf[0..] == buf == Authority(p) + [];
    AuthorityScan(p, Scan(ServerStart, Fields({}, data), false, None), buf, 0, []);
    var fields := Put(Fields({}, data), UfHost, Some(Span(0, n)));
    ScanEnd(Scan(Server, fields, p.userinfo.Some?, Some(UfHost)), buf);
    assert buf[0..n] == buf;
    AuthorityHost(p, fields, buf, 0, n);
    AuthorityParts(p, buf, 0, []);
    ConnectFields(p, fields);
    if p.port.Some? && p.port.value != [] {
      assert ShapePort(p) by { ShapeHasPort(p); }
      AfterPort(p, buf, behind, PortOff(p, 0), []);
      PortUndisturbed(p, [], behind, Split(p, fields, 0));
    }
  }

  ghost predicate ShapePort(p: Parts) {
    p.port.Some? ==> AllOf(p.port.value, NumClass)
  }

  lemma ShapeHasPort(p: Parts)
    requires ShapeOk(p)
    ensures ShapePort(p)
  {
  }

  lemma ScanEnd(sc: Scan, buf: seq<byte>)
    requires Total(sc.fields.data)
    ensures ScanFrom(sc, buf, |buf|) == Some(sc)
  {
  }

  lemma ConnectFields(p: Parts, fields: Fields)
    requires Total(fields.data) && fields.present == {UfHost}
    ensures var f := Split(p, fields, 0);
            && Total(f.data)
            && (f.present == {UfHost, UfPort} <==> At(p.userinfo, 0).None? && At(p.port, 0).Some?)
            && (UfPort in f.present <==> At(p.port, 0).Some?)
            && f.data[UfHost] == Span(HostOff(p, 0), |p.host|)
            && (At(p.port, 0).Some? ==> f.data[UfPort] == Span(PortOff(p, 0), |p.port.value|))
  {
    hide HostOff, PortOff;
    var f := Split(p, fields, 0);
    if At(p.userinfo, 0).Some? { assert UfUserinfo in f.present; }
    if At(p.port, 0).None? { assert UfPort !in f.present; }
  }

  // ---- The parser over a struct ----

  ghost predicate InBuffer(data: map<Field, Span>, n: nat)
    requires Total(data)
  {
    data[UfHost].off + data[UfHost].len <= n
  }

  ghost predicate ScanIn(sc: Scan, i: nat, n: nat) {
    && Total(sc.fields.data) && InBuffer(sc.fields.data, n) && UfPort !in sc.fields.present
    && (sc.last.Some? ==> sc.fields.data[sc.last.value].off + sc.fields.data[sc.last.value].len <= i)
  }

  lemma ScanStepIn(sc: Scan, i: nat, ch: byte, n: nat)
    requires ScanIn(sc, i, n) && i < n
    ensures ScanStep(sc, i, ch).Some? ==> ScanIn(ScanStep(sc, i, ch).value, i + 1, n)
  {
    hide ParseUrlChar;
  }

  /** A port field begins with a digit of the buffer. */
  ghost predicate PortIn(fields: Fields, buf: seq<byte>) {
    Total(fields.data) &&
    (UfPort in fields.present ==> fields.data[UfPort].off < |buf| && IsNum(buf[fields.data[UfPort].off]))
  }

  lemma PortChar(s: HostState, ch: byte)
    requires ParseHostChar(s, ch) == Port
    ensures IsNum(ch)
  {
  }

  lemma HostStepIn(h: HostScan, buf: seq<byte>, i: nat)
    requires PortIn(h.fields, buf) && i < |buf| && (h.s == Port ==> UfPort in h.fields.present)
    ensures var r := HostStep(h, i, buf[i]);
            r.Some? ==> PortIn(r.value.fields, buf) && (r.value.s == Port ==> UfPort in r.value.fields.present)
  {
    hide ParseHostChar;
    if ParseHostChar(h.s, buf[i]) == Port { PortChar(h.s, buf[i]); }
  }

  const ULONG_MAX: nat := 0xFFFF_FFFF_FFFF_FFFF

  lemma DecValueStep(s: seq<byte>, c: byte)
    requires AllNum(s) && IsNum(c)
    ensures AllNum(s + [c]) && DecValue(s + [c]) == DecValue(s) * 10 + Digit(c)
  {
    assert (s + [c])[..|s|] == s;
  }

  lemma DigitsEndStep(buf: seq<byte>, i: nat, j: nat)
    requires i <= j <= |buf| && forall k :: i <= k < j ==> IsNum(buf[k])
    requires j == |buf| || !IsNum(buf[j])
    ensures DigitsEnd(buf, i) == j
    decreases j - i
  {
    if i < j { DigitsEndStep(buf, i + 1, j); }
  }

  /** strtoul in base 10, from a digit on: it saturates, and knows no end but that of the
      digits. None is that the memory ends first. */
  method Strtoul(mem: seq<byte>, i: nat) returns (r: Option<nat>)
    requires i < |mem| && IsNum(mem[i])
    ensures r == match NumberAt(mem, i) case None => None case Some(n) => Some(if n <= ULONG_MAX then n else ULONG_MAX)
  {
    hide DecValue;
    var v := 0;
    var j := i;
    DecValueEmpty();
    assert mem[i..i] == [];
    while j < |mem| && IsNum(mem[j])
      invariant i <= j <= |mem| && forall k :: i <= k < j ==> IsNum(mem[k])
      invariant v == (var n := DecValue(mem[i..j]); if n <= ULONG_MAX then n else ULONG_MAX)
    {
      DecValueStep(mem[i..j], mem[j]);
      assert mem[i..j] + [mem[j]] == mem[i..j + 1];
      v := if v * 10 + Digit(mem[j]) <= ULONG_MAX then v * 10 + Digit(mem[j]) else ULONG_MAX;
      j := j + 1;
    }
    DigitsEndStep(mem, i, j);
    r := if j == |mem| then None else Some(v);
  }

  lemma DecValueEmpty()
    ensures DecValue([]) == 0
  {
  }

  /** struct http_parser_url */
  class HttpParserUrl {
    var fields: Fields
    var port: nat

    ghost predicate Valid()
      reads this
    {
      Total(fields.data) && port <= 0xffff
    }

    /** A zeroed struct. */
    constructor ()
      ensures Valid() && InBuffer(fields.data, 0)
    {
      var zero := Span(0, 0);
      fields := Fields({}, map[UfSchema := zero, UfHost := zero, UfPort := zero, UfPath := zero, UfQuery := zero,
                               UfFragment := zero, UfUserinfo := zero]);
      port := 0;
      new;
      assert Total(fields.data) by { forall f: Field ensures f in fields.data { match f case UfSchema => case _ => } }
    }

    /** http_parse_host; true is failure. */
    method ParseHost(buf: seq<byte>, foundAt: bool, ghost s: UrlState) returns (failed: bool)
      requires Valid() && InBuffer(fields.data, |buf|) && PortIn(fields, buf)
      requires UfSchema in fields.present || UfHost in fields.present
      modifies `fields
      ensures Valid() && PortIn(fields, buf)
      ensures var r := HostPart(buf, Scan(s, old(fields), foundAt, None));
              failed == r.None? && (!failed ==> fields == r.value)
    {
      hide ParseHostChar, HostStep;
      var i := fields.data[UfHost].off;
      var end := i + fields.data[UfHost].len;
      fields := fields.(data := fields.data[UfHost := Span(i, 0)]);
      var st := if foundAt then UserinfoStart else HostStart;
      ghost var target := HostFrom(HostScan(st, fields), buf, i, end);
      while i < end
        invariant i <= end <= |buf| && Valid() && PortIn(fields, buf) && (st == Port ==> UfPort in fields.present)
        invariant HostFrom(HostScan(st, fields), buf, i, end) == target
      {
        HostStepIn(HostScan(st, fields), buf, i);
        match HostStep(HostScan(st, fields), i, buf[i])
        case None => return true;
        case Some(h) => st, fields := h.s, h.fields;
        i := i + 1;
      }
      failed := !HostComplete(st);
    }

    /** http_parser_parse_url of the first buflen bytes of the memory mem; true is failure,
        and None that it reads on behind mem. */
    method ParseUrl(mem: seq<byte>, buflen: nat, isConnect: bool) returns (failed: Option<bool>)
      requires Valid() && buflen <= |mem| && buflen < 0x1_0000 && InBuffer(fields.data, buflen)
      modifies this
      ensures Valid()
      ensures match Parse(mem[..buflen], mem[buflen..], isConnect, old(fields.data))
              case Refused => failed == Some(true)
              case Unbounded => failed == None
              case Parsed(f, n) => failed == Some(false) && fields == f && port == n
    {
      var buf := mem[..buflen];
      assert mem == buf + mem[buflen..];
      hide ParseUrlChar, ScanStep, HostPart;
      port, fields := 0, fields.(present := {});
      var sc := Scan(if isConnect then ServerStart else SpacesBeforeUrl, fields, false, None);
      ghost var target := ScanFrom(sc, buf, 0);
      var i := 0;
      while i < |buf|
        invariant i <= |buf| && ScanIn(sc, i, |buf|) && port == 0 && fields == sc.fields
        invariant ScanFrom(sc, buf, i) == target
      {
        ScanStepIn(sc, i, buf[i], |buf|);
        match ScanStep(sc, i, buf[i])
        case None => return Some(true);
        case Some(next) => sc, fields := next, next.fields;
        i := i + 1;
      }
      HostSkipped(buf, sc);
      HostPartOf(buf, sc, Scan(sc.s, sc.fields, sc.foundAt, None));
      if UfSchema in fields.present || UfHost in fields.present {
        var bad := ParseHost(buf, sc.foundAt, sc.s);
        if bad { return Some(true); }
      }
      if isConnect && fields.present != {UfHost, UfPort} { return Some(true); }
      if UfPort in fields.present {
        var v := Strtoul(mem, fields.data[UfPort].off);
        if v.None? { return None; }
        if v.value > 0xffff { return Some(true); }
        port := v.value;
      }
      failed := Some(false);
    }
  }

  lemma HostSkipped(buf: seq<byte>, sc: Scan)
    requires Total(sc.fields.data)
    ensures UfSchema !in sc.fields.present && UfHost !in sc.fields.present ==> HostPart(buf, sc) == Some(sc.fields)
  {
  }
}
