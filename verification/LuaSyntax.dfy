/** Lua patterns as they are written: what a printed pattern is read as, and what it means. */
module LuaSyntax {
  import opened Wrappers
  import opened LuaPattern

  // ---- Patterns ----

  /** What matches one character; items are the members of a bracket class. */
  datatype Class = Any | Char(ch: char) | Escape(cl: char) | Set(negated: bool, items: seq<Item>)

  datatype Repeat = Once | Optional | Greedy | Positive | Lazy

  datatype Element =
    | Chars(cls: Class, rep: Repeat)
    | Between(b: char, e: char)                    // %bxy
    | Border(negated: bool, items: seq<Item>)      // %f[set]
    | Again(n: nat)                                // %1 to %9
    | OpenCapture | PositionCapture | CloseCapture

  /** The elements in a row; toEnd: and then the end of the subject. */
  datatype Pattern = Pattern(elements: seq<Element>, toEnd: bool)

  // ---- Printing ----

  function PrintItem(it: Item): string {
    match it
    case Escaped(cl) => ['%', cl]
    case Range(lo, hi) => [lo, '-', hi]
    case Plain(ch) => [ch]
  }

  function PrintItems(items: seq<Item>): string {
    if items == [] then [] else PrintItem(items[0]) + PrintItems(items[1..])
  }

  function PrintSet(negated: bool, items: seq<Item>): string {
    (if negated then ['[', '^'] else ['[']) + PrintItems(items) + [']']
  }

  function PrintClass(cls: Class): string {
    match cls
    case Any => ['.']
    case Char(ch) => [ch]
    case Escape(cl) => ['%', cl]
    case Set(negated, items) => PrintSet(negated, items)
  }

  function PrintRepeat(rep: Repeat): string {
    match rep
    case Once => []
    case Optional => ['?']
    case Greedy => ['*']
    case Positive => ['+']
    case Lazy => ['-']
  }

  function PrintElement(e: Element): string {
    match e
    case Chars(cls, rep) => PrintClass(cls) + PrintRepeat(rep)
    case Between(b, e) => ['%', 'b', b, e]
    case Border(negated, items) => ['%', 'f'] + PrintSet(negated, items)
    case Again(n) => ['%', (48 + n % 10) as char]
    case OpenCapture => ['(']
    case PositionCapture => ['(', ')']
    case CloseCapture => [')']
  }

  function Print(p: Pattern): string
    decreases |p.elements|
  {
    if p.elements == [] then (if p.toEnd then ['$'] else [])
    else PrintElement(p.elements[0]) + Print(p.(elements := p.elements[1..]))
  }

  // ---- What can be printed: what would be read as something else is written with '%' ----

  predicate ItemOk(it: Item) {
    match it
    case Escaped(cl) => cl != '\0'
    case Range(lo, hi) => lo !in ['\0', '%'] && hi !in ['\0', '%', ']']
    case Plain(ch) => ch !in ['\0', '%']
  }

  /** The first character of a member. */
  function ItemStart(it: Item): char {
    match it case Escaped(_) => '%' case Range(lo, _) => lo case Plain(ch) => ch
  }

  /** Only the first member begins with ']', and '-' follows a single character only as the
      last member. */
  predicate ItemsOk(items: seq<Item>, first: bool) {
    items == [] ||
    (&& ItemOk(items[0]) && (first || ItemStart(items[0]) != ']')
     && (items[0].Plain? && |items| > 1 && ItemStart(items[1]) == '-' ==> |items| == 2 && items[1].Plain?)
     && ItemsOk(items[1..], false))
  }

  predicate SetOk(negated: bool, items: seq<Item>) {
    items != [] && ItemsOk(items, true) && (!negated ==> ItemStart(items[0]) != '^')
  }

  predicate ClassOk(cls: Class) {
    match cls
    case Any => true
    case Char(ch) => ch !in ['\0', '.', '(', ')', '[', '%']
    case Escape(cl) => cl !in ['\0', 'b', 'f'] && !('0' <= cl <= '9')
    case Set(negated, items) => SetOk(negated, items)
  }

  predicate ElementOk(e: Element) {
    match e
    case Chars(cls, _) => ClassOk(cls)
    case Between(b, e) => b != '\0' && e != '\0'
    case Border(negated, items) => SetOk(negated, items)
    case Again(n) => 1 <= n <= 9
    case _ => true
  }

  /** What follows an element is not taken for a part of it; the last '$' is the end. */
  predicate FollowOk(e: Element, next: string) {
    match e
    case Chars(cls, rep) => rep.Once? ==> if next == [] then cls != Char('$') else next[0] !in ['?', '*', '+', '-']
    case OpenCapture => next == [] || next[0] != ')'
    case _ => true
  }

  predicate PatternOk(p: Pattern)
    decreases |p.elements|
  {
    p.elements == [] ||
    var rest := p.(elements := p.elements[1..]);
    ElementOk(p.elements[0]) && FollowOk(p.elements[0], Print(rest)) && PatternOk(rest)
  }

  // ---- Meaning ----

  ghost predicate ItemAccepts(it: Item, n: int) {
    match it
    case Escaped(cl) => EscapeHas(cl, n)
    case Range(lo, hi) => lo as int <= n <= hi as int
    case Plain(ch) => n == ch as int
  }

  ghost predicate SetAccepts(negated: bool, items: seq<Item>, n: int) {
    negated != exists i :: 0 <= i < |items| && ItemAccepts(items[i], n)
  }

  ghost predicate Accepts(cls: Class, n: int) {
    match cls
    case Any => true
    case Char(ch) => n == ch as int
    case Escape(cl) => EscapeHas(cl, n)
    case Set(negated, items) => SetAccepts(negated, items, n)
  }

  ghost predicate TimesOk(rep: Repeat, n: int) {
    match rep
    case Once => n == 1
    case Optional => n <= 1
    case Greedy => true
    case Positive => n >= 1
    case Lazy => true
  }

  /** From s to t, b and e enclose a text in which they balance, and not a shorter one. */
  ghost predicate Enclosed(src: string, s: nat, t: nat, b: char, e: char)
    requires s <= t <= |src|
  {
    && s + 1 < t && src[s] == b && src[t - 1] == e
    && if b == e then forall i :: s < i < t - 1 ==> src[i] != e
       else multiset(src[s..t])[b] == multiset(src[s..t])[e]
            && forall i :: s < i < t ==> multiset(src[s..i])[b] > multiset(src[s..i])[e]
  }

  /** Each character from s to t is one that the class accepts. */
  ghost predicate AllAccepted(src: string, s: nat, t: nat, cls: Class)
    requires s <= t <= |src|
  {
    forall i :: s <= i < t ==> Accepts(cls, src[i] as int)
  }

  ghost predicate LastUnfinished(caps: seq<Cap>, l: int) {
    0 <= l < |caps| && caps[l].len == -1 && forall i :: l < i < |caps| ==> caps[i].len != -1
  }

  /** The pattern matches from s to r.end, when captures caps were made before it. */
  ghost predicate Means(src: string, p: Pattern, s: nat, caps: seq<Cap>, r: Res)
    requires s <= |src|
    decreases |p.elements|
  {
    if p.elements == [] then r == Res(s, caps) && (p.toEnd ==> s == |src|)
    else
      var rest := p.(elements := p.elements[1..]);
      match p.elements[0]
      case Chars(cls, rep) => exists t :: s <= t <= |src| && AllAccepted(src, s, t, cls) && TimesOk(rep, t - s) && Means(src, rest, t, caps, r)
      case Between(b, e) => exists t :: s <= t <= |src| && Enclosed(src, s, t, b, e) && Means(src, rest, t, caps, r)
      case Border(negated, items) =>
        && !SetAccepts(negated, items, if s == 0 then 0 else src[s - 1] as int)
        && SetAccepts(negated, items, if s == |src| then 0 else src[s] as int)
        && Means(src, rest, s, caps, r)
      case Again(n) =>
        && 1 <= n <= |caps| && caps[n - 1].len >= 0
        && var c := caps[n - 1];
           c.init + c.len <= |src| && s + c.len <= |src| && src[s..s + c.len] == src[c.init..c.init + c.len]
           && Means(src, rest, s + c.len, caps, r)
      case OpenCapture => Means(src, rest, s, caps + [Cap(s, -1)], r)
      case PositionCapture => Means(src, rest, s, caps + [Cap(s, -2)], r)
      case CloseCapture => exists l :: LastUnfinished(caps, l) && Means(src, rest, s, caps[l := Cap(caps[l].init, s - caps[l].init)], r)
  }

  /** No error: captures that are closed and repeated exist, and there are at most 32. */
  ghost predicate Proper(p: Pattern, kinds: seq<CapKind>)
    decreases |p.elements|
  {
    p.elements == [] ||
    var rest := p.(elements := p.elements[1..]);
    match p.elements[0]
    case OpenCapture => |kinds| < 32 && Proper(rest, kinds + [Open])
    case PositionCapture => |kinds| < 32 && Proper(rest, kinds + [Position])
    case CloseCapture => exists l :: LastOpenAt(kinds, l) && Proper(rest, kinds[l := Closed])
    case Again(n) => 1 <= n <= |kinds| && kinds[n - 1] != Open && Proper(rest, kinds)
    case _ => Proper(rest, kinds)
  }

  ghost predicate LastOpenAt(kinds: seq<CapKind>, l: int) {
    0 <= l < |kinds| && kinds[l] == Open && forall i :: l < i < |kinds| ==> kinds[i] != Open
  }

  // ---- Reading a bracket class ----

  /** The text stands at i. */
  predicate Here(pat: string, i: nat, text: string) {
    i + |text| <= |pat| && pat[i..i + |text|] == text
  }

  lemma HereAt(pat: string, i: nat, text: string, k: nat)
    requires Here(pat, i, text) && k < |text|
    ensures At(pat, i + k) == text[k]
  {
    assert pat[i..i + |text|][k] == text[k];
  }

  lemma HereParts(pat: string, i: nat, a: string, b: string)
    requires Here(pat, i, a + b)
    ensures Here(pat, i, a) && Here(pat, i + |a|, b)
  {
    assert (a + b)[..|a|] == a && (a + b)[|a|..] == b;
    assert pat[i..i + |a|] == pat[i..i + |a + b|][..|a|];
    assert pat[i + |a|..i + |a + b|] == pat[i..i + |a + b|][|a|..];
  }

  /** A member is read back. */
  lemma ItemRead(pat: string, i: nat, it: Item)
    requires Here(pat, i, PrintItem(it)) && ItemOk(it)
    ensures At(pat, i) == ItemStart(it) != '\0' && (At(pat, i) == '%' <==> it.Escaped?)
    ensures it.Escaped? ==> At(pat, i + 1) == it.cl
    ensures it.Range? ==> At(pat, i + 1) == '-' && At(pat, i + 2) == it.hi
  {
    var text := PrintItem(it);
    HereAt(pat, i, text, 0);
    if |text| > 1 { HereAt(pat, i, text, 1); }
    if |text| > 2 { HereAt(pat, i, text, 2); }
  }

  /** The members stand from i on, and the bracket that closes them at ec. */
  ghost predicate ItemsAre(pat: string, i: nat, ec: nat, items: seq<Item>) {
    && i <= ec && At(pat, ec) == ']' && Items(pat, i, ec) == items
    && (if items == [] then i == ec else At(pat, i) == ItemStart(items[0]) && BracketEnd(pat, i) == Some(ec + 1))
  }

  /** The members, and the bracket after them. */
  lemma {:induction false} ItemsRead(pat: string, i: nat, items: seq<Item>, first: bool)
    requires Here(pat, i, PrintItems(items) + [']']) && ItemsOk(items, first)
    ensures ItemsAre(pat, i, i + |PrintItems(items)|, items)
    decreases |items|
  {
    hide Here, PrintItem, ItemOk, ItemsAre, Items, BracketEnd, ItemStart;
    if items == [] {
      NoneRead(pat, i);
    } else {
      var it, more := items[0], items[1..];
      var j := FirstHere(pat, i, items, first);
      ItemsRead(pat, j, more, false);
      LastDash(pat, j, more);
      FirstRead(pat, i, it, j, j + |PrintItems(more)|, more);
      assert items == [it] + more;
    }
  }

  lemma LastDash(pat: string, j: nat, more: seq<Item>)
    ensures |more| == 1 && more[0].Plain? ==> |PrintItems(more)| == 1
  {
    if |more| == 1 { assert more[1..] == []; }
  }

  lemma NoneRead(pat: string, i: nat)
    requires Here(pat, i, [] + [']'])
    ensures ItemsAre(pat, i, i, [])
  {
    HereAt(pat, i, [']'], 0);
  }

  lemma FirstHere(pat: string, i: nat, items: seq<Item>, first: bool) returns (j: nat)
    requires Here(pat, i, PrintItems(items) + [']']) && ItemsOk(items, first) && items != []
    ensures j == i + |PrintItem(items[0])| && j + |PrintItems(items[1..])| == i + |PrintItems(items)|
    ensures items[1..] == [] ==> j == i + |PrintItems(items)|
    ensures Here(pat, i, PrintItem(items[0])) && Here(pat, j, PrintItems(items[1..]) + [']'])
    ensures ItemOk(items[0]) && ItemsOk(items[1..], false)
  {
    var it, more := items[0], items[1..];
    hide ItemOk, PrintItem;
    j := i + |PrintItem(it)|;
    assert PrintItems(items) + [']'] == PrintItem(it) + (PrintItems(more) + [']']);
    HereParts(pat, i, PrintItem(it), PrintItems(more) + [']']);
  }

  lemma FirstRead(pat: string, i: nat, it: Item, j: nat, ec: nat, more: seq<Item>)
    requires ItemOk(it) && Here(pat, i, PrintItem(it)) && j == i + |PrintItem(it)|
    requires ItemsAre(pat, j, ec, more) && (more != [] ==> ItemStart(more[0]) != ']')
    requires it.Plain? && more != [] && ItemStart(more[0]) == '-' ==> ec == j + 1
    ensures ItemsAre(pat, i, ec, [it] + more)
  {
    ItemRead(pat, i, it);
    if it.Range? {
      assert BracketEnd(pat, i + 2) == Some(ec + 1);
      assert BracketEnd(pat, i + 1) == Some(ec + 1);
    }
  }

  /** A printed bracket class: where it ends, and what it has. */
  lemma SetRead(pat: string, p: nat, negated: bool, items: seq<Item>, c: char)
    requires Here(pat, p, PrintSet(negated, items)) && SetOk(negated, items)
    ensures At(pat, p) == '[' && ClassEnd(pat, p) == Some(p + |PrintSet(negated, items)|)
    ensures BracketHas(c, pat, p, p + |PrintSet(negated, items)| - 1) <==> SetAccepts(negated, items, c as int)
  {
    hide ItemHas, ItemAccepts, Items, BracketEnd, Here, PrintItems, PrintSet, ItemsOk, ItemStart;
    SetHere(pat, p, negated, items);
    ItemsRead(pat, p + if negated then 2 else 1, items, true);
    ItemsAccept(items, c);
  }

  lemma SetHere(pat: string, p: nat, negated: bool, items: seq<Item>)
    requires Here(pat, p, PrintSet(negated, items))
    ensures At(pat, p) == '[' && (negated ==> At(pat, p + 1) == '^')
    ensures Here(pat, p + if negated then 2 else 1, PrintItems(items) + [']'])
    ensures |PrintSet(negated, items)| == |PrintItems(items)| + if negated then 3 else 2
  {
    var start := if negated then ['[', '^'] else ['['];
    assert PrintSet(negated, items) == start + (PrintItems(items) + [']']);
    HereParts(pat, p, start, PrintItems(items) + [']']);
    HereAt(pat, p, start, 0);
    if negated { HereAt(pat, p, start, 1); }
  }

  lemma ItemsAccept(items: seq<Item>, c: char)
    ensures (exists it :: it in items && ItemHas(it, c)) <==> exists i :: 0 <= i < |items| && ItemAccepts(items[i], c as int)
  {
    forall i | 0 <= i < |items| ensures ItemHas(items[i], c) <==> ItemAccepts(items[i], c as int) {
      if items[i].Escaped? { ClassIs(c, items[i].cl); }
    }
    hide ItemHas, ItemAccepts;
    assert (exists it :: it in items && ItemHas(it, c)) <==> exists i :: 0 <= i < |items| && ItemHas(items[i], c);
  }

  /** A printed class of characters: where it ends, and what it matches. */
  lemma ClassRead(pat: string, p: nat, cls: Class, c: char)
    requires Here(pat, p, PrintClass(cls)) && ClassOk(cls)
    ensures At(pat, p) != '\0' && ClassEnd(pat, p) == Some(p + |PrintClass(cls)|)
    ensures Single(c, pat, p, p + |PrintClass(cls)|) <==> Accepts(cls, c as int)
  {
    HereAt(pat, p, PrintClass(cls), 0);
    match cls
    case Escape(cl) => HereAt(pat, p, PrintClass(cls), 1); ClassIs(c, cl);
    case Set(negated, items) => SetRead(pat, p, negated, items, c);
    case _ =>
  }

  // ---- Reading an element ----

  /** How the program reads an element that stands from p to q. */
  ghost predicate ReadAs(syn: Syntax, e: Element, p: nat, q: nat) {
    match e
    case Chars(cls, rep) =>
      && syn == SingleItem(p + |PrintClass(cls)|, RepeatChar(rep), q)
    case Between(b, e) => syn == BalancedStr(b, e, q)
    case Border(_, _) => syn == FrontierSet(p + 2, q)
    case Again(n) => syn == BackReference(n - 1, q)
    case OpenCapture => syn == OpenCap(q)
    case PositionCapture => syn == LuaPattern.PositionCap(q)
    case CloseCapture => syn == CloseCap(q)
  }

  predicate Follows(e: Element, next: char) {
    match e
    case Chars(cls, rep) => rep.Once? ==> next !in ['?', '*', '+', '-'] && (next == '\0' ==> cls != Char('$'))
    case OpenCapture => next != ')'
    case _ => true
  }

  lemma ElementRead(pat: string, p: nat, e: Element)
    requires ElementOk(e) && Here(pat, p, PrintElement(e))
    requires Follows(e, At(pat, p + |PrintElement(e)|))
    ensures ReadAs(SyntaxAt(pat, p), e, p, p + |PrintElement(e)|)
  {
    hide ClassEnd, Single, Accepts, BracketHas, SetAccepts;
    var text := PrintElement(e);
    match e
    case Chars(cls, rep) => CharsRead(pat, p, cls, rep);
    case Border(negated, items) =>
      HereParts(pat, p, ['%', 'f'], PrintSet(negated, items));
      HereAt(pat, p, ['%', 'f'], 0);
      HereAt(pat, p, ['%', 'f'], 1);
      SetRead(pat, p + 2, negated, items, ' ');
    case Between(b, e) =>
      HereAt(pat, p, text, 0); HereAt(pat, p, text, 1); HereAt(pat, p, text, 2); HereAt(pat, p, text, 3);
    case Again(n) =>
      HereAt(pat, p, text, 0); HereAt(pat, p, text, 1);
    case PositionCapture =>
      HereAt(pat, p, text, 0); HereAt(pat, p, text, 1);
    case _ => HereAt(pat, p, text, 0);
  }

  lemma CharsRead(pat: string, p: nat, cls: Class, rep: Repeat)
    requires ClassOk(cls) && Here(pat, p, PrintClass(cls) + PrintRepeat(rep))
    requires Follows(Chars(cls, rep), At(pat, p + |PrintClass(cls) + PrintRepeat(rep)|))
    ensures ReadAs(SyntaxAt(pat, p), Chars(cls, rep), p, p + |PrintClass(cls) + PrintRepeat(rep)|)
  {
    hide ClassEnd, Single, Accepts, PrintSet;
    HereParts(pat, p, PrintClass(cls), PrintRepeat(rep));
    ClassRead(pat, p, cls, ' ');
    ClassStart(cls);
    HereAt(pat, p, PrintClass(cls), 0);
    if cls.Escape? { HereAt(pat, p, PrintClass(cls), 1); }
    if rep != Once { HereAt(pat, p + |PrintClass(cls)|, PrintRepeat(rep), 0); }
  }

  // ---- A printed pattern means what it was printed from ----

  /** The pattern stands at p, up to the end. */
  ghost predicate Printed(pat: string, p: nat, pattern: Pattern) {
    PatternOk(pattern) && Here(pat, p, Print(pattern)) && p + |Print(pattern)| == |pat|
  }

  lemma PrintedStart(pat: string, p: nat, pattern: Pattern)
    requires Printed(pat, p, pattern)
    ensures At(pat, p) == (if Print(pattern) == [] then '\0' else Print(pattern)[0])
    ensures Print(pattern) != [] ==> At(pat, p) != '\0'
  {
    if Print(pattern) != [] { HereAt(pat, p, Print(pattern), 0); }
    if pattern.elements != [] {
      var e := pattern.elements[0];
      ElementStart(e);
      assert Print(pattern)[0] == PrintElement(e)[0];
    }
  }

  lemma ElementStart(e: Element)
    requires ElementOk(e)
    ensures |PrintElement(e)| > 0 && PrintElement(e)[0] != '\0'
  {
    if e.Chars? { ClassStart(e.cls); }
  }

  lemma ClassStart(cls: Class)
    requires ClassOk(cls)
    ensures |PrintClass(cls)| > 0 && PrintClass(cls)[0] !in ['(', ')', '\0']
    ensures PrintClass(cls)[0] == '%' <==> cls.Escape?
    ensures PrintClass(cls)[0] == '$' <==> cls == Char('$')
  {
  }

  /** The first element of a printed pattern is read, and the rest is printed after it. */
  lemma FirstElement(pat: string, p: nat, pattern: Pattern) returns (q: nat)
    requires Printed(pat, p, pattern) && pattern.elements != []
    ensures p < q <= |pat| && Printed(pat, q, pattern.(elements := pattern.elements[1..]))
    ensures ElementOk(pattern.elements[0]) && Here(pat, p, PrintElement(pattern.elements[0]))
    ensures ReadAs(SyntaxAt(pat, p), pattern.elements[0], p, q) && q == p + |PrintElement(pattern.elements[0])|
  {
    hide SyntaxAt, ReadAs, PrintElement, ElementOk;
    var e, rest := pattern.elements[0], pattern.(elements := pattern.elements[1..]);
    assert Print(pattern) == PrintElement(e) + Print(rest);
    HereParts(pat, p, PrintElement(e), Print(rest));
    q := p + |PrintElement(e)|;
    PrintedStart(pat, q, rest);
    ElementStart(e);
    ElementRead(pat, p, e);
  }

  lemma LastElement(pat: string, p: nat, pattern: Pattern)
    requires Printed(pat, p, pattern) && pattern.elements == []
    ensures p <= |pat| && SyntaxAt(pat, p) == if pattern.toEnd then EndAnchor else End
  {
    if pattern.toEnd { HereAt(pat, p, ['$'], 0); }
  }

  /** The relation on the pattern as it is written is the meaning of what was printed. */
  lemma {:induction false} MatchesMeans(src: string, pat: string, p: nat, pattern: Pattern, s: nat, caps: seq<Cap>, r: Res)
    requires Printed(pat, p, pattern) && p <= |pat| && s <= |src|
    ensures Matches(src, pat, s, p, caps, r) <==> Means(src, pattern, s, caps, r)
    decreases |pattern.elements|, 1
  {
    hide SyntaxAt, Printed;
    if pattern.elements == [] {
      LastElement(pat, p, pattern);
    } else {
      var q := FirstElement(pat, p, pattern);
      ElementMeans(src, pat, p, q, pattern, s, caps, r);
    }
  }

  lemma {:induction false} ElementMeans(src: string, pat: string, p: nat, q: nat, pattern: Pattern, s: nat, caps: seq<Cap>, r: Res)
    requires pattern.elements != [] && p < q <= |pat| && s <= |src|
    requires var e := pattern.elements[0];
             ElementOk(e) && Here(pat, p, PrintElement(e)) && ReadAs(SyntaxAt(pat, p), e, p, q)
    requires Printed(pat, q, pattern.(elements := pattern.elements[1..])) && q == p + |PrintElement(pattern.elements[0])|
    ensures Matches(src, pat, s, p, caps, r) <==> Means(src, pattern, s, caps, r)
    decreases |pattern.elements|, 0
  {
    hide RepeatChar, Repeated, AllAccepted, TimesOk, RepeatOk, Here, PrintSet, PrintClass, ClassOk, SyntaxAt, Printed,
        Accepts, SetAccepts, BalancedTo, Enclosed, Frontier, BackRef, Shape, LastUnfinished;
    var rest := pattern.(elements := pattern.elements[1..]);
    match pattern.elements[0]
    case Chars(cls, rep) =>
      ClassStart(cls);
      CharsElementMeans(src, pat, p, p + |PrintClass(cls)|, q, rest, cls, rep, s, caps, r);
    case Between(b, e) =>
      BetweenMeans(src, pat, q, rest, b, e, s, caps, r);
    case Border(negated, items) =>
      BorderMeans(src, s, pat, p, negated, items, q);
      MatchesMeans(src, pat, q, rest, s, caps, r);
    case Again(n) =>
      if 1 <= n <= |caps| {
        AgainMeans(src, s, caps[n - 1]);
        if BackRef(src, s, caps[n - 1]).Some? { MatchesMeans(src, pat, q, rest, s + caps[n - 1].len, caps, r); }
      }
    case OpenCapture => MatchesMeans(src, pat, q, rest, s, caps + [Cap(s, -1)], r);
    case PositionCapture => MatchesMeans(src, pat, q, rest, s, caps + [Cap(s, -2)], r);
    case CloseCapture =>
      CloseMeans(caps);
      var l := LastOpen(Shape(caps));
      if l >= 0 { MatchesMeans(src, pat, q, rest, s, caps[l := Cap(caps[l].init, s - caps[l].init)], r); }
  }

  function RepeatChar(rep: Repeat): char {
    if rep == Once then '\0' else PrintRepeat(rep)[0]
  }

  lemma {:induction false} CharsElementMeans(src: string, pat: string, p: nat, ep: nat, q: nat, rest: Pattern,
      cls: Class, rep: Repeat, s: nat, caps: seq<Cap>, r: Res)
    requires Printed(pat, q, rest) && q <= |pat| && s <= |src|
    requires ElementOk(Chars(cls, rep)) && Here(pat, p, PrintElement(Chars(cls, rep)))
    requires p < ep == p + |PrintClass(cls)|
    ensures (exists t: nat :: Repeated(src, s, t, pat, p, ep) && RepeatOk(RepeatChar(rep), t - s) && Matches(src, pat, t, q, caps, r)) <==>
            exists t :: s <= t <= |src| && AllAccepted(src, s, t, cls) && TimesOk(rep, t - s) && Means(src, rest, t, caps, r)
    decreases |rest.elements|, 2
  {
    hide Printed, AllAccepted, Means, Matches, ClassOk, Here, PrintClass, ItemAt;
    forall t: nat ensures Repeated(src, s, t, pat, p, ep) <==> s <= t <= |src| && AllAccepted(src, s, t, cls) {
      CharsMeans(src, s, t, pat, p, cls, PrintRepeat(rep));
    }
    forall t | s <= t <= |src| ensures Matches(src, pat, t, q, caps, r) <==> Means(src, rest, t, caps, r) {
      MatchesMeans(src, pat, q, rest, t, caps, r);
    }
    RepeatMeans(rep);
    hide Repeated, RepeatOk, TimesOk, RepeatChar;
  }

  lemma {:induction false} BetweenMeans(src: string, pat: string, q: nat, rest: Pattern, b: char, e: char, s: nat, caps: seq<Cap>, r: Res)
    requires Printed(pat, q, rest) && q <= |pat| && s <= |src|
    ensures (exists t :: BalancedTo(src, s, t, b, e) && Matches(src, pat, t, q, caps, r)) <==>
            exists t :: s <= t <= |src| && Enclosed(src, s, t, b, e) && Means(src, rest, t, caps, r)
    decreases |rest.elements|, 2
  {
    hide Printed, Enclosed, Means, Matches, Depth;
    forall t | s <= t <= |src| ensures BalancedTo(src, s, t, b, e) <==> Enclosed(src, s, t, b, e) { BalancedMeans(src, s, t, b, e); }
    forall t | s <= t <= |src| ensures Matches(src, pat, t, q, caps, r) <==> Means(src, rest, t, caps, r) {
      MatchesMeans(src, pat, q, rest, t, caps, r);
    }
  }

  lemma CharsMeans(src: string, s: nat, t: nat, pat: string, p: nat, cls: Class, more: string)
    requires Here(pat, p, PrintClass(cls) + more) && ClassOk(cls)
    ensures p < p + |PrintClass(cls)| && (Repeated(src, s, t, pat, p, p + |PrintClass(cls)|) <==> s <= t <= |src| && AllAccepted(src, s, t, cls))
  {
    hide Single, Accepts, ClassOk, Here;
    HereParts(pat, p, PrintClass(cls), more);
    ClassStart(cls);
    forall i: nat | i < |src| ensures ItemAt(src, i, pat, p, p + |PrintClass(cls)|) <==> Accepts(cls, src[i] as int) {
      ClassRead(pat, p, cls, src[i]);
    }
  }

  lemma RepeatMeans(rep: Repeat)
    ensures forall n: int :: RepeatOk(RepeatChar(rep), n) <==> TimesOk(rep, n)
  {
  }

  lemma BorderMeans(src: string, s: nat, pat: string, p: nat, negated: bool, items: seq<Item>, q: nat)
    requires s <= |src| && ElementOk(Border(negated, items)) && Here(pat, p, PrintElement(Border(negated, items)))
    requires q == p + |PrintElement(Border(negated, items))|
    ensures Frontier(src, s, pat, p + 2, q) <==>
            && !SetAccepts(negated, items, if s == 0 then 0 else src[s - 1] as int)
            && SetAccepts(negated, items, if s == |src| then 0 else src[s] as int)
  {
    hide BracketHas, SetAccepts, Here, PrintSet, ClassEnd, SetOk, PrintElement;
    BorderParts(pat, p, negated, items);
    var before, behind := if s == 0 then '\0' else src[s - 1], At(src, s);
    SetRead(pat, p + 2, negated, items, before);
    SetRead(pat, p + 2, negated, items, behind);
    assert before as int == if s == 0 then 0 else src[s - 1] as int;
    assert behind as int == if s == |src| then 0 else src[s] as int;
  }

  lemma BorderParts(pat: string, p: nat, negated: bool, items: seq<Item>)
    requires ElementOk(Border(negated, items)) && Here(pat, p, PrintElement(Border(negated, items)))
    ensures SetOk(negated, items) && Here(pat, p + 2, PrintSet(negated, items))
    ensures |PrintElement(Border(negated, items))| == 2 + |PrintSet(negated, items)|
  {
    HereParts(pat, p, ['%', 'f'], PrintSet(negated, items));
  }

  lemma AgainMeans(src: string, s: nat, c: Cap)
    requires s <= |src|
    ensures BackRef(src, s, c).Some? <==>
            c.len >= 0 && c.init + c.len <= |src| && s + c.len <= |src| && src[s..s + c.len] == src[c.init..c.init + c.len]
    ensures BackRef(src, s, c).Some? ==> BackRef(src, s, c).value == s + c.len
  {
  }

  lemma CloseMeans(caps: seq<Cap>)
    ensures var l := LastOpen(Shape(caps));
            if l >= 0 then LastUnfinished(caps, l) && forall k :: LastUnfinished(caps, k) ==> k == l
            else forall k :: !LastUnfinished(caps, k)
  {
    forall i | 0 <= i < |caps| ensures Shape(caps)[i] == Open <==> caps[i].len == -1 { }
  }

  // ---- Balanced strings ----

  /** The depth before i is the surplus of the opening character. */
  lemma {:induction false} DepthCounts(src: string, s: nat, i: nat, b: char, e: char)
    requires s < i <= |src| && src[s] == b && b != e
    ensures Depth(src, s, i, b, e) + multiset(src[s..i])[e] == multiset(src[s..i])[b]
    decreases i
  {
    if i == s + 1 {
      assert src[s..i] == [b];
    } else {
      DepthCounts(src, s, i - 1, b, e);
      assert src[s..i] == src[s..i - 1] + [src[i - 1]];
    }
  }

  /** When both characters are the same, the next one closes. */
  lemma {:induction false} DepthSame(src: string, s: nat, i: nat, e: char)
    requires s < i <= |src| && forall k :: s < k < i ==> src[k] != e
    ensures Depth(src, s, i, e, e) == 1
    decreases i
  {
    if i > s + 1 { DepthSame(src, s, i - 1, e); }
  }

  lemma {:induction false} DepthOver(src: string, s: nat, k: nat, i: nat, e: char)
    requires s < k < i <= |src| && src[k] == e
    ensures Depth(src, s, i, e, e) <= 0
    decreases i
  {
    if k < i - 1 { DepthOver(src, s, k, i - 1, e); } else { DepthAtMost(src, s, k, e); }
  }

  lemma {:induction false} DepthAtMost(src: string, s: nat, i: nat, e: char)
    requires s < i <= |src|
    ensures Depth(src, s, i, e, e) <= 1
    decreases i
  {
    if i > s + 1 { DepthAtMost(src, s, i - 1, e); }
  }

  lemma BalancedMeans(src: string, s: nat, t: nat, b: char, e: char)
    ensures BalancedTo(src, s, t, b, e) <==> s <= t <= |src| && Enclosed(src, s, t, b, e)
  {
    if s + 1 < t <= |src| && src[s] == b {
      if b == e { SameMeans(src, s, t, e); } else { OtherMeans(src, s, t, b, e); }
    }
  }

  lemma OtherMeans(src: string, s: nat, t: nat, b: char, e: char)
    requires s + 1 < t <= |src| && src[s] == b && b != e
    ensures BalancedTo(src, s, t, b, e) <==> Enclosed(src, s, t, b, e)
  {
    forall i | s < i <= t ensures Depth(src, s, i, b, e) + multiset(src[s..i])[e] == multiset(src[s..i])[b] {
      DepthCounts(src, s, i, b, e);
    }
    assert Depth(src, s, t, b, e) == Depth(src, s, t - 1, b, e) + if src[t - 1] == e then -1 else if src[t - 1] == b then 1 else 0;
    hide Depth;
  }

  lemma SameMeans(src: string, s: nat, t: nat, e: char)
    requires s + 1 < t <= |src| && src[s] == e
    ensures BalancedTo(src, s, t, e, e) <==> Enclosed(src, s, t, e, e)
  {
    if Enclosed(src, s, t, e, e) {
      forall i | s < i < t ensures Depth(src, s, i, e, e) == 1 { DepthSame(src, s, i, e); }
    }
    assert Depth(src, s, t, e, e) == Depth(src, s, t - 1, e, e) + if src[t - 1] == e then -1 else 0;
    if BalancedTo(src, s, t, e, e) {
      forall i | s < i < t - 1 ensures src[i] != e {
        if src[i] == e { DepthOver(src, s, i, t - 1, e); }
      }
      DepthSame(src, s, t - 1, e);
    }
  }

  // ---- Errors ----

  /** A printed pattern raises no error exactly when it is proper. */
  lemma {:induction false} WellFormedIff(pat: string, p: nat, pattern: Pattern, kinds: seq<CapKind>)
    requires Printed(pat, p, pattern) && p <= |pat|
    ensures WellFormed(pat, p, kinds) <==> Proper(pattern, kinds)
    decreases |pattern.elements|
  {
    hide SyntaxAt, Printed, Here, LastOpenAt;
    if pattern.elements == [] {
      LastElement(pat, p, pattern);
    } else {
      var q := FirstElement(pat, p, pattern);
      var rest := pattern.(elements := pattern.elements[1..]);
      match pattern.elements[0]
      case OpenCapture => WellFormedIff(pat, q, rest, kinds + [Open]);
      case PositionCapture => WellFormedIff(pat, q, rest, kinds + [Position]);
      case CloseCapture =>
        var l := LastOpen(kinds);
        LastOpenIs(kinds);
        if l >= 0 { WellFormedIff(pat, q, rest, kinds[l := Closed]); }
      case _ => WellFormedIff(pat, q, rest, kinds);
    }
  }

  lemma LastOpenIs(kinds: seq<CapKind>)
    ensures var l := LastOpen(kinds);
            if l >= 0 then LastOpenAt(kinds, l) && forall k :: LastOpenAt(kinds, k) ==> k == l
            else forall k :: !LastOpenAt(kinds, k)
  {
  }
}
