/** Lua patterns: what they match, as an ordered list of successes and as a relation. */
module LuaPattern {
  import opened Wrappers

  const LUA_MAXCAPTURES: nat := 32
  const NUL := '\0'
  const L_ESC := '%'

  /** *p, in a string that ends with NUL */
  function At(s: string, i: nat): char {
    if i < |s| then s[i] else NUL
  }

  // ---- Character classes ----

  predicate IsDigit(c: char) {
    '0' <= c <= '9'
  }

  predicate IsUpper(c: char) {
    'A' <= c <= 'Z'
  }

  predicate IsLower(c: char) {
    'a' <= c <= 'z'
  }

  predicate IsAlnum(c: char) {
    IsUpper(c) || IsLower(c) || IsDigit(c)
  }

  predicate IsPunct(c: char) {
    '!' <= c <= '~' && !IsAlnum(c)
  }

  /** lj_char_isa with the mask that the lower-case letter of a class stands for. */
  predicate Isa(c: char, letter: char) {
    match letter
    case 'a' => IsUpper(c) || IsLower(c)
    case 'c' => c as int < 32 || c as int == 127
    case 'd' => IsDigit(c)
    case 'g' => IsAlnum(c) || IsPunct(c)
    case 'l' => IsLower(c)
    case 'p' => IsPunct(c)
    case 's' => c == ' ' || 9 <= c as int <= 13
    case 'u' => IsUpper(c)
    case 'w' => IsAlnum(c)
    case 'x' => IsDigit(c) || 'A' <= c <= 'F' || 'a' <= c <= 'f'
    case _ => false
  }

  predicate IsClassLetter(c: char) {
    c in "acdglpsuwx"
  }

  /** match_class */
  predicate MatchClass(c: char, cl: char) {
    var lower := if IsUpper(cl) then (cl as int + 32) as char else cl;
    if IsClassLetter(lower) then Isa(c, lower) == IsLower(cl)
    else if cl == 'z' then c == NUL
    else if cl == 'Z' then c != NUL
    else cl == c
  }

  /** The codes that the class of a lower-case letter has. */
  ghost predicate LetterHas(letter: char, n: int) {
    match letter
    case 'a' => 65 <= n <= 90 || 97 <= n <= 122
    case 'c' => 0 <= n <= 31 || n == 127
    case 'd' => 48 <= n <= 57
    case 'g' => 33 <= n <= 126
    case 'l' => 97 <= n <= 122
    case 'p' => 33 <= n <= 47 || 58 <= n <= 64 || 91 <= n <= 96 || 123 <= n <= 126
    case 's' => 9 <= n <= 13 || n == 32
    case 'u' => 65 <= n <= 90
    case 'w' => 48 <= n <= 57 || 65 <= n <= 90 || 97 <= n <= 122
    case 'x' => 48 <= n <= 57 || 65 <= n <= 70 || 97 <= n <= 102
    case 'z' => n == 0
    case _ => false
  }

  /** The codes that '%' and a character stand for: a class, the complement of one for an
      upper-case letter, and otherwise the character itself. */
  ghost predicate EscapeHas(cl: char, n: int) {
    match cl
    case 'a' => LetterHas('a', n) case 'A' => !LetterHas('a', n)
    case 'c' => LetterHas('c', n) case 'C' => !LetterHas('c', n)
    case 'd' => LetterHas('d', n) case 'D' => !LetterHas('d', n)
    case 'g' => LetterHas('g', n) case 'G' => !LetterHas('g', n)
    case 'l' => LetterHas('l', n) case 'L' => !LetterHas('l', n)
    case 'p' => LetterHas('p', n) case 'P' => !LetterHas('p', n)
    case 's' => LetterHas('s', n) case 'S' => !LetterHas('s', n)
    case 'u' => LetterHas('u', n) case 'U' => !LetterHas('u', n)
    case 'w' => LetterHas('w', n) case 'W' => !LetterHas('w', n)
    case 'x' => LetterHas('x', n) case 'X' => !LetterHas('x', n)
    case 'z' => LetterHas('z', n) case 'Z' => !LetterHas('z', n)
    case _ => n == cl as int
  }

  /** An escape matches the codes that it stands for. */
  lemma ClassIs(c: char, cl: char)
    ensures MatchClass(c, cl) <==> EscapeHas(cl, c as int)
  {
    if 'A' <= cl <= 'Z' {
      assert (cl as int + 32) as char as int == cl as int + 32;
      UpperClass(c, cl);
    } else {
      LowerClass(c, cl);
    }
  }

  lemma LowerClass(c: char, cl: char)
    requires !('A' <= cl <= 'Z')
    ensures MatchClass(c, cl) <==> EscapeHas(cl, c as int)
  {
  }

  lemma UpperClass(c: char, cl: char)
    requires 'A' <= cl <= 'Z'
    ensures MatchClass(c, cl) <==> EscapeHas(cl, c as int)
  {
    var lower := (cl as int + 32) as char;
    assert 'a' <= lower <= 'z';
  }

  /** A member of a bracket class. */
  datatype Item = Escaped(cl: char) | Range(lo: char, hi: char) | Plain(ch: char)

  predicate ItemHas(it: Item, c: char) {
    match it
    case Escaped(cl) => MatchClass(c, cl)
    case Range(lo, hi) => lo <= c <= hi
    case Plain(ch) => ch == c
  }

  /** The members between i and ec. */
  function Items(pat: string, i: nat, ec: nat): seq<Item>
    decreases ec - i
  {
    if i >= ec then []
    else if At(pat, i) == L_ESC then [Escaped(At(pat, i + 1))] + Items(pat, i + 2, ec)
    else if At(pat, i + 1) == '-' && i + 2 < ec then [Range(At(pat, i), At(pat, i + 2))] + Items(pat, i + 3, ec)
    else [Plain(At(pat, i))] + Items(pat, i + 1, ec)
  }

  /** The bracket class that opens at p and closes at ec. */
  ghost predicate BracketHas(c: char, pat: string, p: nat, ec: nat) {
    if At(pat, p + 1) == '^' then forall it :: it in Items(pat, p + 2, ec) ==> !ItemHas(it, c)
    else exists it :: it in Items(pat, p + 1, ec) && ItemHas(it, c)
  }

  /** The character after the members that start at p; None is a missing ']'. */
  function BracketEnd(pat: string, p: nat): (r: Option<nat>)
    ensures r.Some? ==> p + 1 < r.value <= |pat|
    decreases |pat| - p
  {
    if At(pat, p) == NUL then None
    else
      var q := if At(pat, p) == L_ESC && At(pat, p + 1) != NUL then p + 2 else p + 1;
      if At(pat, q) == ']' then Some(q + 1) else BracketEnd(pat, q)
  }

  /** classend; None is a malformed pattern. */
  function ClassEnd(pat: string, p: nat): (r: Option<nat>)
    requires At(pat, p) != NUL
    ensures r.Some? ==> p < r.value <= |pat|
  {
    if At(pat, p) == L_ESC then (if At(pat, p + 1) == NUL then None else Some(p + 2))
    else if At(pat, p) == '[' then BracketEnd(pat, if At(pat, p + 1) == '^' then p + 2 else p + 1)
    else Some(p + 1)
  }

  /** singlematch */
  ghost predicate Single(c: char, pat: string, p: nat, ep: nat)
    requires ep > 0
  {
    match At(pat, p)
    case '.' => true
    case '%' => MatchClass(c, At(pat, p + 1))
    case '[' => BracketHas(c, pat, p, ep - 1)
    case ch => ch == c
  }

  // ---- Balanced strings, frontiers, back references ----

  /** The nesting depth before i, of a string that opened at s. */
  function Depth(src: string, s: nat, i: nat, b: char, e: char): int
    requires s < i <= |src|
    decreases i
  {
    if i == s + 1 then 1
    else Depth(src, s, i - 1, b, e) + if src[i - 1] == e then -1 else if src[i - 1] == b then 1 else 0
  }

  /** j is where the balanced string that starts at s ends for the first time. */
  ghost predicate BalancedTo(src: string, s: nat, j: nat, b: char, e: char) {
    && s + 1 < j <= |src| && src[s] == b && Depth(src, s, j, b, e) == 0
    && forall i :: s < i < j ==> Depth(src, s, i, b, e) > 0
  }

  lemma BalancedUnique(src: string, s: nat, j: nat, k: nat, b: char, e: char)
    requires BalancedTo(src, s, j, b, e) && BalancedTo(src, s, k, b, e)
    ensures j == k
  {
  }

  /** The end of the balanced string at s, if there is one. */
  ghost function Balance(src: string, s: nat, b: char, e: char): (r: Option<nat>)
    ensures r.Some? ==> BalancedTo(src, s, r.value, b, e)
    ensures r.None? ==> forall j :: !BalancedTo(src, s, j, b, e)
  {
    if j :| BalancedTo(src, s, j, b, e) then Some(j) else None
  }

  ghost predicate Frontier(src: string, s: nat, pat: string, p: nat, ep: nat)
    requires s <= |src| && ep > 0
  {
    !BracketHas(if s == 0 then NUL else src[s - 1], pat, p, ep - 1) && BracketHas(At(src, s), pat, p, ep - 1)
  }

  // ---- Captures ----

  const CAP_UNFINISHED := -1
  const CAP_POSITION := -2

  datatype Cap = Cap(init: nat, len: int)

  datatype CapKind = Open | Position | Closed

  function KindOf(c: Cap): CapKind {
    if c.len == CAP_UNFINISHED then Open else if c.len == CAP_POSITION then Position else Closed
  }

  function Shape(caps: seq<Cap>): (r: seq<CapKind>)
    ensures |r| == |caps|
  {
    seq(|caps|, i requires 0 <= i < |caps| => KindOf(caps[i]))
  }

  ghost predicate CapOk(c: Cap, s: nat) {
    c.len >= CAP_POSITION && c.init <= s && (c.len >= 0 ==> c.init + c.len <= s)
  }

  ghost predicate CapsOk(caps: seq<Cap>, s: nat) {
    |caps| <= LUA_MAXCAPTURES && forall i :: 0 <= i < |caps| ==> CapOk(caps[i], s)
  }

  /** The capture that ')' closes: the last open one, or -1. */
  function LastOpen(kinds: seq<CapKind>): (l: int)
    ensures -1 <= l < |kinds| && (l >= 0 ==> kinds[l] == Open)
    ensures forall i :: l < i < |kinds| ==> kinds[i] != Open
  {
    if kinds == [] then -1
    else if kinds[|kinds| - 1] == Open then |kinds| - 1
    else LastOpen(kinds[..|kinds| - 1])
  }

  /** The end of the text of capture c, when it is repeated at s; a position never is. */
  function BackRef(src: string, s: nat, c: Cap): (r: Option<nat>)
    requires s <= |src|
    ensures r.Some? ==> s <= r.value <= |src|
  {
    if c.len >= 0 && c.init + c.len <= |src| && |src| - s >= c.len && src[c.init..c.init + c.len] == src[s..s + c.len]
    then Some(s + c.len) else None
  }

  // ---- Syntax ----

  predicate IsRepeat(c: char) {
    c == '?' || c == '*' || c == '+' || c == '-'
  }

  /** What stands at p in a pattern, and where the rest begins. */
  datatype Syntax =
    | End | Bad | EndAnchor
    | OpenCap(next: nat) | PositionCap(next: nat) | CloseCap(next: nat)
    | BalancedStr(b: char, e: char, next: nat)
    | FrontierSet(start: nat, next: nat)
    | BackReference(l: int, next: nat)
    | SingleItem(ep: nat, rep: char, next: nat)

  function SyntaxAt(pat: string, p: nat): (r: Syntax)
    requires p <= |pat|
    ensures !r.End? && !r.Bad? && !r.EndAnchor? ==> p < r.next <= |pat|
    ensures r.FrontierSet? ==> r.start < r.next
    ensures r.SingleItem? ==> p < r.ep
  {
    var ch, ch' := At(pat, p), At(pat, p + 1);
    if ch == NUL then End
    else if ch == '(' then (if ch' == ')' then PositionCap(p + 2) else OpenCap(p + 1))
    else if ch == ')' then CloseCap(p + 1)
    else if ch == L_ESC && ch' == 'b' then
      (if At(pat, p + 2) == NUL || At(pat, p + 3) == NUL then Bad
       else BalancedStr(At(pat, p + 2), At(pat, p + 3), p + 4))
    else if ch == L_ESC && ch' == 'f' then
      (if At(pat, p + 2) != '[' then Bad
       else match ClassEnd(pat, p + 2) case None => Bad case Some(ep) => FrontierSet(p + 2, ep))
    else if ch == L_ESC && IsDigit(ch') then BackReference(ch' as int - '1' as int, p + 2)
    else if ch == '$' && ch' == NUL then EndAnchor
    else match ClassEnd(pat, p)
      case None => Bad
      case Some(ep) => if IsRepeat(At(pat, ep)) then SingleItem(ep, At(pat, ep), ep + 1) else SingleItem(ep, NUL, ep)
  }

  /** The pattern from p on raises no error, with captures of these kinds so far. */
  ghost predicate WellFormed(pat: string, p: nat, kinds: seq<CapKind>)
    requires p <= |pat|
    decreases |pat| - p
  {
    match SyntaxAt(pat, p)
    case Bad => false
    case End => true
    case EndAnchor => true
    case OpenCap(q) => |kinds| < LUA_MAXCAPTURES && WellFormed(pat, q, kinds + [Open])
    case PositionCap(q) => |kinds| < LUA_MAXCAPTURES && WellFormed(pat, q, kinds + [Position])
    case CloseCap(q) => LastOpen(kinds) >= 0 && WellFormed(pat, q, kinds[LastOpen(kinds) := Closed])
    case BackReference(l, q) => 0 <= l < |kinds| && kinds[l] != Open && WellFormed(pat, q, kinds)
    case BalancedStr(_, _, q) => WellFormed(pat, q, kinds)
    case FrontierSet(_, q) => WellFormed(pat, q, kinds)
    case SingleItem(_, _, q) => WellFormed(pat, q, kinds)
  }

  // ---- The ordered successes ----

  /** A match: where it ends and what it captured. */
  datatype Res = Res(end: nat, caps: seq<Cap>)

  /** The item from p to ep matches the character at i. */
  ghost predicate ItemAt(src: string, i: nat, pat: string, p: nat, ep: nat)
    requires p < ep
  {
    i < |src| && Single(src[i], pat, p, ep)
  }

  /** The largest number of times that the item matches from s on. */
  ghost function MaxRep(src: string, s: nat, pat: string, p: nat, ep: nat): (n: nat)
    requires p < ep && s <= |src|
    ensures s + n <= |src| && !ItemAt(src, s + n, pat, p, ep)
    ensures forall i :: s <= i < s + n ==> ItemAt(src, i, pat, p, ep)
    decreases |src| - s
  {
    if ItemAt(src, s, pat, p, ep) then 1 + MaxRep(src, s + 1, pat, p, ep) else 0
  }

  /** All matches of the rest of the pattern, in the order in which they are tried. */
  ghost function All(src: string, pat: string, s: nat, p: nat, caps: seq<Cap>): seq<Res>
    requires s <= |src| && p <= |pat|
    decreases |pat| - p, 0
  {
    match SyntaxAt(pat, p)
    case Bad => []
    case End => [Res(s, caps)]
    case EndAnchor => if s == |src| then [Res(s, caps)] else []
    case OpenCap(q) => All(src, pat, s, q, caps + [Cap(s, CAP_UNFINISHED)])
    case PositionCap(q) => All(src, pat, s, q, caps + [Cap(s, CAP_POSITION)])
    case CloseCap(q) =>
      var l := LastOpen(Shape(caps));
      if l < 0 then [] else All(src, pat, s, q, caps[l := Cap(caps[l].init, s - caps[l].init)])
    case BalancedStr(b, e, q) =>
      (match Balance(src, s, b, e) case None => [] case Some(j) => All(src, pat, j, q, caps))
    case FrontierSet(start, q) => if Frontier(src, s, pat, start, q) then All(src, pat, s, q, caps) else []
    case BackReference(l, q) =>
      if 0 <= l < |caps| then (match BackRef(src, s, caps[l]) case None => [] case Some(j) => All(src, pat, j, q, caps)) else []
    case SingleItem(ep, rep, q) =>
      var m := ItemAt(src, s, pat, p, ep);
      if rep == '?' then (if m then All(src, pat, s + 1, q, caps) else []) + All(src, pat, s, q, caps)
      else if rep == '*' then Longest(src, pat, s, MaxRep(src, s, pat, p, ep), q, caps)
      else if rep == '+' then (if m then Longest(src, pat, s + 1, MaxRep(src, s + 1, pat, p, ep), q, caps) else [])
      else if rep == '-' then Shortest(src, pat, s, MaxRep(src, s, pat, p, ep), q, caps)
      else if m then All(src, pat, s + 1, q, caps) else []
  }

  /** n repetitions before the rest, then n - 1, and so on. */
  ghost function Longest(src: string, pat: string, s: nat, n: nat, q: nat, caps: seq<Cap>): seq<Res>
    requires s + n <= |src| && q <= |pat|
    decreases |pat| - q, n + 1
  {
    All(src, pat, s + n, q, caps) + if n == 0 then [] else Longest(src, pat, s, n - 1, q, caps)
  }

  /** No repetition before the rest, then one, and so on up to n. */
  ghost function Shortest(src: string, pat: string, s: nat, n: nat, q: nat, caps: seq<Cap>): seq<Res>
    requires s + n <= |src| && q <= |pat|
    decreases |pat| - q, n + 1
  {
    All(src, pat, s, q, caps) + if n == 0 then [] else Shortest(src, pat, s + 1, n - 1, q, caps)
  }

  // ---- The relation ----

  /** The item matches every character from s up to t. */
  ghost predicate Repeated(src: string, s: nat, t: nat, pat: string, p: nat, ep: nat)
    requires p < ep
  {
    s <= t <= |src| && forall i :: s <= i < t ==> ItemAt(src, i, pat, p, ep)
  }

  /** The rest of the pattern matches from s to r.end with captures r.caps, in some way. */
  ghost predicate Matches(src: string, pat: string, s: nat, p: nat, caps: seq<Cap>, r: Res)
    requires s <= |src| && p <= |pat|
    decreases |pat| - p
  {
    match SyntaxAt(pat, p)
    case Bad => false
    case End => r == Res(s, caps)
    case EndAnchor => s == |src| && r == Res(s, caps)
    case OpenCap(q) => Matches(src, pat, s, q, caps + [Cap(s, CAP_UNFINISHED)], r)
    case PositionCap(q) => Matches(src, pat, s, q, caps + [Cap(s, CAP_POSITION)], r)
    case CloseCap(q) =>
      var l := LastOpen(Shape(caps));
      l >= 0 && Matches(src, pat, s, q, caps[l := Cap(caps[l].init, s - caps[l].init)], r)
    case BalancedStr(b, e, q) => exists j :: BalancedTo(src, s, j, b, e) && Matches(src, pat, j, q, caps, r)
    case FrontierSet(start, q) => Frontier(src, s, pat, start, q) && Matches(src, pat, s, q, caps, r)
    case BackReference(l, q) =>
      0 <= l < |caps| && BackRef(src, s, caps[l]).Some? && Matches(src, pat, BackRef(src, s, caps[l]).value, q, caps, r)
    case SingleItem(ep, rep, q) =>
      exists t: nat :: Repeated(src, s, t, pat, p, ep) && RepeatOk(rep, t - s) && Matches(src, pat, t, q, caps, r)
  }

  /** How often an item may be repeated. */
  predicate RepeatOk(rep: char, n: int) {
    match rep
    case '?' => n <= 1
    case '*' => true
    case '+' => n >= 1
    case '-' => true
    case _ => n == 1
  }

  // ---- The list holds exactly the matches ----

  lemma RepeatedIff(src: string, s: nat, t: nat, pat: string, p: nat, ep: nat)
    requires p < ep && s <= |src|
    ensures Repeated(src, s, t, pat, p, ep) <==> s <= t <= s + MaxRep(src, s, pat, p, ep)
  {
    var m := s + MaxRep(src, s, pat, p, ep);
    if m < t { NotThere(src, s, m, t, pat, p, ep); }
  }

  lemma NotThere(src: string, s: nat, m: nat, t: nat, pat: string, p: nat, ep: nat)
    requires p < ep && s <= m < t && !ItemAt(src, m, pat, p, ep)
    ensures !Repeated(src, s, t, pat, p, ep)
  {
  }

  ghost predicate Holds(src: string, pat: string, t: nat, q: nat, caps: seq<Cap>, r: Res)
    requires q <= |pat|
  {
    t <= |src| && r in All(src, pat, t, q, caps)
  }

  lemma {:induction false} LongestHolds(src: string, pat: string, s: nat, n: nat, q: nat, caps: seq<Cap>, r: Res)
    requires s + n <= |src| && q <= |pat|
    ensures r in Longest(src, pat, s, n, q, caps) <==> exists t: nat :: s <= t <= s + n && Holds(src, pat, t, q, caps, r)
    decreases n
  {
    hide All;
    if n == 0 {
      assert Longest(src, pat, s, 0, q, caps) == All(src, pat, s, q, caps);
      assert r in All(src, pat, s, q, caps) <==> Holds(src, pat, s, q, caps, r);
    } else {
      LongestHolds(src, pat, s, n - 1, q, caps, r);
      assert r in All(src, pat, s + n, q, caps) <==> Holds(src, pat, s + n, q, caps, r);
    }
  }

  lemma {:induction false} ShortestHolds(src: string, pat: string, s: nat, n: nat, q: nat, caps: seq<Cap>, r: Res)
    requires s + n <= |src| && q <= |pat|
    ensures r in Shortest(src, pat, s, n, q, caps) <==> exists t: nat :: s <= t <= s + n && Holds(src, pat, t, q, caps, r)
    decreases n
  {
    hide All;
    if n == 0 {
      assert Shortest(src, pat, s, 0, q, caps) == All(src, pat, s, q, caps);
    } else {
      ShortestHolds(src, pat, s + 1, n - 1, q, caps, r);
    }
    assert r in All(src, pat, s, q, caps) <==> Holds(src, pat, s, q, caps, r);
  }

  /** The list of successes holds exactly the matches. */
  lemma {:induction false} AllMatches(src: string, pat: string, s: nat, p: nat, caps: seq<Cap>, r: Res)
    requires s <= |src| && p <= |pat|
    ensures r in All(src, pat, s, p, caps) <==> Matches(src, pat, s, p, caps, r)
    decreases |pat| - p, 0
  {
    hide SyntaxAt, Balance, BalancedTo, Frontier, BackRef, Shape, Longest, Shortest, ItemAt, MaxRep;
    match SyntaxAt(pat, p) {
      case Bad =>
      case End =>
      case EndAnchor =>
      case OpenCap(q) => AllMatches(src, pat, s, q, caps + [Cap(s, CAP_UNFINISHED)], r);
      case PositionCap(q) => AllMatches(src, pat, s, q, caps + [Cap(s, CAP_POSITION)], r);
      case CloseCap(q) =>
        var l := LastOpen(Shape(caps));
        if l >= 0 { AllMatches(src, pat, s, q, caps[l := Cap(caps[l].init, s - caps[l].init)], r); }
      case BalancedStr(b, e, q) => BalancedMatches(src, pat, s, b, e, q, caps, r);
      case FrontierSet(start, q) => AllMatches(src, pat, s, q, caps, r);
      case BackReference(l, q) =>
        if 0 <= l < |caps| && BackRef(src, s, caps[l]).Some? {
          AllMatches(src, pat, BackRef(src, s, caps[l]).value, q, caps, r);
        }
      case SingleItem(ep, rep, q) => ItemMatches(src, pat, s, p, ep, rep, q, caps, r);
    }
  }

  lemma {:induction false} BalancedMatches(src: string, pat: string, s: nat, b: char, e: char, q: nat, caps: seq<Cap>, r: Res)
    requires s <= |src| && q <= |pat|
    ensures (exists j :: BalancedTo(src, s, j, b, e) && Matches(src, pat, j, q, caps, r)) <==>
            (Balance(src, s, b, e).Some? && r in All(src, pat, Balance(src, s, b, e).value, q, caps))
    decreases |pat| - q, 1
  {
    hide Matches, All, Depth;
    match Balance(src, s, b, e) {
      case None =>
      case Some(j) =>
        AllMatches(src, pat, j, q, caps, r);
        forall k | BalancedTo(src, s, k, b, e) ensures k == j { BalancedUnique(src, s, j, k, b, e); }
    }
  }

  /** Some repetition count is allowed and lets the rest match. */
  ghost predicate SomeRepeat(src: string, pat: string, s: nat, p: nat, ep: nat, rep: char, q: nat, caps: seq<Cap>, r: Res)
    requires s <= |src| && p < ep && q <= |pat|
  {
    exists t: nat :: Repeated(src, s, t, pat, p, ep) && RepeatOk(rep, t - s) && Holds(src, pat, t, q, caps, r)
  }

  lemma {:induction false} ItemMatches(src: string, pat: string, s: nat, p: nat, ep: nat, rep: char, q: nat, caps: seq<Cap>, r: Res)
    requires s <= |src| && p <= |pat| && SyntaxAt(pat, p) == SingleItem(ep, rep, q)
    ensures r in All(src, pat, s, p, caps) <==> Matches(src, pat, s, p, caps, r)
    decreases |pat| - q, 1
  {
    hide SyntaxAt, ItemAt, MaxRep, Longest, Shortest, Repeated;
    ItemHolds(src, pat, s, p, ep, rep, q, caps, r);
    forall t: nat | Repeated(src, s, t, pat, p, ep)
      ensures t <= |src| && (Matches(src, pat, t, q, caps, r) <==> Holds(src, pat, t, q, caps, r))
    {
      RepeatedIff(src, s, t, pat, p, ep);
      AllMatches(src, pat, t, q, caps, r);
    }
    hide All, Holds;
  }

  /** The successes of an item, by the positions that its repetitions can end at. */
  lemma ItemHolds(src: string, pat: string, s: nat, p: nat, ep: nat, rep: char, q: nat, caps: seq<Cap>, r: Res)
    requires s <= |src| && p <= |pat| && SyntaxAt(pat, p) == SingleItem(ep, rep, q)
    ensures r in All(src, pat, s, p, caps) <==> SomeRepeat(src, pat, s, p, ep, rep, q, caps, r)
  {
    hide SyntaxAt, ItemAt, MaxRep, Repeated, Longest, Shortest, Holds;
    var n := MaxRep(src, s, pat, p, ep);
    forall t: nat ensures Repeated(src, s, t, pat, p, ep) <==> s <= t <= s + n { RepeatedIff(src, s, t, pat, p, ep); }
    MoreRep(src, s, pat, p, ep);
    if rep == '*' {
      LongestHolds(src, pat, s, n, q, caps, r);
    } else if rep == '-' {
      ShortestHolds(src, pat, s, n, q, caps, r);
    } else if rep == '+' {
      if n > 0 { LongestHolds(src, pat, s + 1, n - 1, q, caps, r); }
    } else {
      HoldsIff(src, pat, s, q, caps, r);
      if n > 0 { HoldsIff(src, pat, s + 1, q, caps, r); }
      OneOrNone(src, pat, s, n, p, ep, rep, q, caps, r);
    }
  }

  lemma MoreRep(src: string, s: nat, pat: string, p: nat, ep: nat)
    requires p < ep && s <= |src|
    ensures ItemAt(src, s, pat, p, ep) <==> MaxRep(src, s, pat, p, ep) > 0
    ensures ItemAt(src, s, pat, p, ep) ==> s < |src| && MaxRep(src, s, pat, p, ep) == 1 + MaxRep(src, s + 1, pat, p, ep)
  {
  }

  lemma HoldsIff(src: string, pat: string, t: nat, q: nat, caps: seq<Cap>, r: Res)
    requires q <= |pat| && t <= |src|
    ensures r in All(src, pat, t, q, caps) <==> Holds(src, pat, t, q, caps, r)
  {
  }

  lemma OneOrNone(src: string, pat: string, s: nat, n: nat, p: nat, ep: nat, rep: char, q: nat, caps: seq<Cap>, r: Res)
    requires s + n <= |src| && p < ep && q <= |pat| && rep != '*' && rep != '+' && rep != '-'
    requires forall t: nat :: Repeated(src, s, t, pat, p, ep) <==> s <= t <= s + n
    ensures SomeRepeat(src, pat, s, p, ep, rep, q, caps, r) <==>
            (n > 0 && Holds(src, pat, s + 1, q, caps, r)) || (rep == '?' && Holds(src, pat, s, q, caps, r))
  {
    hide Repeated, Holds;
    assert Repeated(src, s, s, pat, p, ep);
    assert n > 0 ==> Repeated(src, s, s + 1, pat, p, ep);
  }
}
