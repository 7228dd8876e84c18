/** The backtracking matcher of Lua patterns, with captures that are undone on failure. */
module LuaMatch {
  import opened Wrappers

  import opened LuaPattern
  import opened LuaSyntax

  // ---- The first success ----

  /** The answer of a matcher whose successes are l: the first one, or failure with the
      captures as they were. */
  ghost predicate Answered(l: seq<Res>, res: Option<nat>, before: seq<Cap>, after: seq<Cap>) {
    if l == [] then res.None? && after == before else res == Some(l[0].end) && after == l[0].caps
  }

  ghost predicate SameAnswer(l: seq<Res>, k: seq<Res>) {
    (l == [] <==> k == []) && (l != [] ==> l[0] == k[0])
  }

  /** Greedy repetition: the first success is with the largest repetition that has one. */
  lemma {:induction false} LongestFirst(src: string, pat: string, s: nat, n: nat, q: nat, caps: seq<Cap>) returns (t: nat)
    requires s + n <= |src| && q <= |pat| && Longest(src, pat, s, n, q, caps) != []
    ensures s <= t <= s + n && All(src, pat, t, q, caps) != []
    ensures Longest(src, pat, s, n, q, caps)[0] == All(src, pat, t, q, caps)[0]
    ensures forall u :: t < u <= s + n ==> All(src, pat, u, q, caps) == []
    decreases n
  {
    hide All;
    t := s + n;
    if All(src, pat, t, q, caps) == [] {
      assert n > 0;
      t := LongestFirst(src, pat, s, n - 1, q, caps);
    }
  }

  /** Lazy repetition: the first success is with the smallest repetition that has one. */
  lemma {:induction false} ShortestFirst(src: string, pat: string, s: nat, n: nat, q: nat, caps: seq<Cap>) returns (t: nat)
    requires s + n <= |src| && q <= |pat| && Shortest(src, pat, s, n, q, caps) != []
    ensures s <= t <= s + n && All(src, pat, t, q, caps) != []
    ensures Shortest(src, pat, s, n, q, caps)[0] == All(src, pat, t, q, caps)[0]
    ensures forall u :: s <= u < t ==> All(src, pat, u, q, caps) == []
    decreases n
  {
    hide All;
    t := s;
    if All(src, pat, t, q, caps) == [] {
      assert n > 0;
      t := ShortestFirst(src, pat, s + 1, n - 1, q, caps);
    }
  }

  lemma LongestStep(src: string, pat: string, s: nat, n: nat, q: nat, caps: seq<Cap>)
    requires s + n <= |src| && q <= |pat|
    ensures var l := All(src, pat, s + n, q, caps);
            if l != [] || n == 0 then SameAnswer(l, Longest(src, pat, s, n, q, caps))
            else SameAnswer(Longest(src, pat, s, n - 1, q, caps), Longest(src, pat, s, n, q, caps))
  {
    hide All;
  }

  lemma ShortestStep(src: string, pat: string, s: nat, n: nat, q: nat, caps: seq<Cap>)
    requires s + n <= |src| && q <= |pat|
    ensures var l := All(src, pat, s, q, caps);
            if l != [] || n == 0 then SameAnswer(l, Shortest(src, pat, s, n, q, caps))
            else SameAnswer(Shortest(src, pat, s + 1, n - 1, q, caps), Shortest(src, pat, s, n, q, caps))
  {
    hide All;
  }

  lemma RepStep(src: string, s: nat, pat: string, p: nat, ep: nat)
    requires s <= |src| && p < ep
    ensures s + MaxRep(src, s, pat, p, ep) <= |src|
    ensures MaxRep(src, s, pat, p, ep) ==
            if s < |src| && Single(src[s], pat, p, ep) then 1 + MaxRep(src, s + 1, pat, p, ep) else 0
  {
    hide Single;
  }

  /** The rest of the pattern matches in no way. */
  ghost predicate NoMatch(src: string, pat: string, s: nat, q: nat, caps: seq<Cap>) {
    s <= |src| && q <= |pat| ==> forall r :: !Matches(src, pat, s, q, caps, r)
  }

  lemma NoneMatch(src: string, pat: string, s: nat, q: nat, caps: seq<Cap>)
    requires s <= |src| && q <= |pat|
    ensures All(src, pat, s, q, caps) == [] <==> NoMatch(src, pat, s, q, caps)
  {
    hide All, Matches;
    var l := All(src, pat, s, q, caps);
    if l == [] {
      forall r ensures !Matches(src, pat, s, q, caps, r) { AllMatches(src, pat, s, q, caps, r); }
    } else {
      AllMatches(src, pat, s, q, caps, l[0]);
    }
  }

  /** A matcher that answers with the first success finds a match exactly when the relation
      has one, and one that fails leaves the captures alone. */
  lemma AnswerIff(src: string, pat: string, s: nat, p: nat, caps: seq<Cap>, res: Option<nat>, after: seq<Cap>)
    requires s <= |src| && p <= |pat| && Answered(All(src, pat, s, p, caps), res, caps, after)
    ensures res.Some? <==> exists r :: Matches(src, pat, s, p, caps, r)
    ensures res.Some? ==> Matches(src, pat, s, p, caps, Res(res.value, after))
    ensures res.None? ==> after == caps
  {
    hide All, Matches;
    NoneMatch(src, pat, s, p, caps);
    var l := All(src, pat, s, p, caps);
    if l != [] { AllMatches(src, pat, s, p, caps, l[0]); }
  }

  /** '*' takes the largest repetition for which the rest of the pattern matches. */
  lemma StarIsGreedy(src: string, pat: string, s: nat, p: nat, ep: nat, q: nat, caps: seq<Cap>) returns (t: nat)
    requires s <= |src| && p <= |pat| && SyntaxAt(pat, p) == SingleItem(ep, '*', q) && All(src, pat, s, p, caps) != []
    ensures Repeated(src, s, t, pat, p, ep) && t <= |src| && All(src, pat, t, q, caps) != []
    ensures All(src, pat, s, p, caps)[0] == All(src, pat, t, q, caps)[0]
    ensures forall u :: t < u && Repeated(src, s, u, pat, p, ep) ==> NoMatch(src, pat, u, q, caps)
  {
    hide SyntaxAt, ItemAt, Repeated, MaxRep, NoMatch;
    var n := MaxRep(src, s, pat, p, ep);
    t := LongestFirst(src, pat, s, n, q, caps);
    RepeatedIff(src, s, t, pat, p, ep);
    forall u: nat | t < u && Repeated(src, s, u, pat, p, ep) ensures NoMatch(src, pat, u, q, caps) {
      RepeatedIff(src, s, u, pat, p, ep);
      NoneMatch(src, pat, u, q, caps);
    }
  }

  /** '+' takes the largest positive repetition for which the rest of the pattern matches. */
  lemma PlusIsGreedy(src: string, pat: string, s: nat, p: nat, ep: nat, q: nat, caps: seq<Cap>) returns (t: nat)
    requires s <= |src| && p <= |pat| && SyntaxAt(pat, p) == SingleItem(ep, '+', q) && All(src, pat, s, p, caps) != []
    ensures s < t && Repeated(src, s, t, pat, p, ep) && t <= |src| && All(src, pat, t, q, caps) != []
    ensures All(src, pat, s, p, caps)[0] == All(src, pat, t, q, caps)[0]
    ensures forall u :: t < u && Repeated(src, s, u, pat, p, ep) ==> NoMatch(src, pat, u, q, caps)
  {
    hide SyntaxAt, ItemAt, Repeated, MaxRep, NoMatch;
    MoreRep(src, s, pat, p, ep);
    t := LongestFirst(src, pat, s + 1, MaxRep(src, s + 1, pat, p, ep), q, caps);
    RepeatedIff(src, s, t, pat, p, ep);
    forall u: nat | t < u && Repeated(src, s, u, pat, p, ep) ensures NoMatch(src, pat, u, q, caps) {
      RepeatedIff(src, s, u, pat, p, ep);
      NoneMatch(src, pat, u, q, caps);
    }
  }

  /** '-' takes the smallest repetition for which the rest of the pattern matches. */
  lemma MinusIsLazy(src: string, pat: string, s: nat, p: nat, ep: nat, q: nat, caps: seq<Cap>) returns (t: nat)
    requires s <= |src| && p <= |pat| && SyntaxAt(pat, p) == SingleItem(ep, '-', q) && All(src, pat, s, p, caps) != []
    ensures Repeated(src, s, t, pat, p, ep) && t <= |src| && All(src, pat, t, q, caps) != []
    ensures All(src, pat, s, p, caps)[0] == All(src, pat, t, q, caps)[0]
    ensures forall u :: s <= u < t ==> NoMatch(src, pat, u, q, caps)
  {
    hide SyntaxAt, ItemAt, Repeated, MaxRep, NoMatch;
    t := ShortestFirst(src, pat, s, MaxRep(src, s, pat, p, ep), q, caps);
    RepeatedIff(src, s, t, pat, p, ep);
    forall u: nat | s <= u < t ensures NoMatch(src, pat, u, q, caps) { NoneMatch(src, pat, u, q, caps); }
  }

  /** '?' takes the character when the rest of the pattern matches after it. */
  lemma OptionalIsGreedy(src: string, pat: string, s: nat, p: nat, ep: nat, q: nat, caps: seq<Cap>)
    requires s <= |src| && p <= |pat| && SyntaxAt(pat, p) == SingleItem(ep, '?', q) && All(src, pat, s, p, caps) != []
    ensures if ItemAt(src, s, pat, p, ep) && !NoMatch(src, pat, s + 1, q, caps)
            then All(src, pat, s + 1, q, caps) != [] && All(src, pat, s, p, caps)[0] == All(src, pat, s + 1, q, caps)[0]
            else All(src, pat, s, q, caps) != [] && All(src, pat, s, p, caps)[0] == All(src, pat, s, q, caps)[0]
  {
    hide SyntaxAt, NoMatch, Single, Longest, Shortest, MaxRep;
    if ItemAt(src, s, pat, p, ep) { NoneMatch(src, pat, s + 1, q, caps); }
  }

  // ---- Captures ----

  lemma ShapePush(caps: seq<Cap>, c: Cap)
    ensures Shape(caps + [c]) == Shape(caps) + [KindOf(c)]
  {
  }

  lemma ShapeClose(caps: seq<Cap>, l: nat, c: Cap)
    requires l < |caps|
    ensures Shape(caps[l := c]) == Shape(caps)[l := KindOf(c)]
  {
  }

  /** The member at p, where the next one begins, and when it has c. */
  lemma FirstItem(pat: string, p: nat, ec: nat, c: char) returns (it: Item, q: nat)
    requires p < ec
    ensures Items(pat, p, ec) == [it] + Items(pat, q, ec)
    ensures if At(pat, p) == L_ESC then q == p + 2 && (ItemHas(it, c) <==> MatchClass(c, At(pat, p + 1)))
            else if At(pat, p + 1) == '-' && p + 2 < ec then q == p + 3 && (ItemHas(it, c) <==> At(pat, p) <= c <= At(pat, p + 2))
            else q == p + 1 && (ItemHas(it, c) <==> At(pat, p) == c)
  {
    hide MatchClass;
    if At(pat, p) == L_ESC { it, q := Escaped(At(pat, p + 1)), p + 2; }
    else if At(pat, p + 1) == '-' && p + 2 < ec { it, q := Range(At(pat, p), At(pat, p + 2)), p + 3; }
    else { it, q := Plain(At(pat, p)), p + 1; }
  }

  lemma NoItems(pat: string, p: nat, ec: nat)
    requires p >= ec
    ensures Items(pat, p, ec) == []
  {
  }

  lemma BracketIs(c: char, pat: string, p: nat, ec: nat, items: seq<Item>)
    requires items == Items(pat, if At(pat, p + 1) == '^' then p + 2 else p + 1, ec)
    ensures BracketHas(c, pat, p, ec) == ((exists it :: it in items && ItemHas(it, c)) == (At(pat, p + 1) != '^'))
  {
    hide Items, ItemHas;
  }

  lemma CapsPush(caps: seq<Cap>, c: Cap, s: nat)
    requires CapsOk(caps, s) && |caps| < LUA_MAXCAPTURES && c.init == s && CAP_POSITION <= c.len < 0
    ensures CapsOk(caps + [c], s)
  {
  }

  lemma CapsClose(caps: seq<Cap>, l: nat, s: nat)
    requires CapsOk(caps, s) && l < |caps|
    ensures caps[l].init <= s && CapsOk(caps[l := Cap(caps[l].init, s - caps[l].init)], s)
  {
  }

  lemma CapsAt(caps: seq<Cap>, l: nat, s: nat)
    requires CapsOk(caps, s) && l < |caps|
    ensures CapOk(caps[l], s)
  {
  }

  lemma CapsLater(caps: seq<Cap>, s: nat, t: nat)
    requires CapsOk(caps, s) && s <= t
    ensures CapsOk(caps, t)
  {
  }

  /** The successes of an item, case by case, and that the rest is well-formed. */
  lemma ItemAll(src: string, pat: string, s: nat, p: nat, caps: seq<Cap>, ep: nat, rep: char, q: nat, m: bool)
    requires s <= |src| && p <= |pat| && SyntaxAt(pat, p) == SingleItem(ep, rep, q) && WellFormed(pat, p, Shape(caps))
    requires m == ItemAt(src, s, pat, p, ep)
    ensures WellFormed(pat, q, Shape(caps)) && (rep == NUL ==> q == ep && !IsRepeat(At(pat, ep))) && (rep != NUL
        ==> q == ep + 1 && rep == At(pat, ep))
    ensures All(src, pat, s, p, caps) ==
      (if rep == '?' then (if m then All(src, pat, s + 1, q, caps) else []) + All(src, pat, s, q, caps)
       else if rep == '*' then Longest(src, pat, s, MaxRep(src, s, pat, p, ep), q, caps)
       else if rep == '+' then (if m then Longest(src, pat, s + 1, MaxRep(src, s + 1, pat, p, ep), q, caps) else [])
       else if rep == '-' then Shortest(src, pat, s, MaxRep(src, s, pat, p, ep), q, caps)
       else if m then All(src, pat, s + 1, q, caps) else [])
  {
    hide ItemAt, Longest, Shortest;
  }

  /** struct MatchState */
  class MatchState {
    const src: string
    const pat: string
    const capture: array<Cap>
    var level: nat

    ghost predicate Valid()
      reads this, capture
    {
      capture.Length == LUA_MAXCAPTURES && level <= LUA_MAXCAPTURES
    }

    ghost function Caps(): seq<Cap>
      requires Valid()
      reads this, capture
    {
      capture[..level]
    }

    /** The state before a match is tried. */
    constructor (src: string, pat: string)
      ensures Valid() && this.src == src && this.pat == pat && Caps() == [] && fresh(capture)
    {
      this.src, this.pat := src, pat;
      capture := new Cap[LUA_MAXCAPTURES](_ => Cap(0, 0));
      level := 0;
    }

    /** classend */
    method FindClassEnd(p0: nat) returns (ep: nat)
      requires At(pat, p0) != NUL && ClassEnd(pat, p0).Some?
      ensures ep == ClassEnd(pat, p0).value
    {
      var p := p0 + 1;
      match At(pat, p0) {
        case '%' => ep := p + 1;
        case '[' =>
          if At(pat, p) == '^' { p := p + 1; }
          var first := true;
          ghost var end := BracketEnd(pat, p);
          while first || At(pat, p) != ']'
            invariant if first || At(pat, p) != ']' then BracketEnd(pat, p) == end else end == Some(p + 1)
            invariant end.Some?
            decreases |pat| - p
          {
            first := false;
            p := p + 1;
            if At(pat, p - 1) == L_ESC && At(pat, p) != NUL { p := p + 1; }
          }
          ep := p + 1;
        case _ => ep := p;
      }
    }

    /** matchbracketclass */
    method MatchBracketClass(c: char, p0: nat, ec: nat) returns (b: bool)
      ensures b == BracketHas(c, pat, p0, ec)
    {
      hide MatchClass, Items, ItemHas, BracketHas;
      var sig := At(pat, p0 + 1) != '^';
      var p := if sig then p0 + 1 else p0 + 2;
      ghost var all := Items(pat, p, ec);
      ghost var seen: seq<Item> := [];
      while p < ec
        invariant all == seen + Items(pat, p, ec)
        invariant forall it :: it in seen ==> !ItemHas(it, c)
        decreases ec - p
      {
        ghost var it, q := FirstItem(pat, p, ec, c);
        ghost var rest := Items(pat, q, ec);
        assert all == seen + [it] + rest && it in all;
        var hit: bool;
        if At(pat, p) == L_ESC {
          p := p + 1;
          hit := MatchClass(c, At(pat, p));
        } else if At(pat, p + 1) == '-' && p + 2 < ec {
          p := p + 2;
          hit := At(pat, p - 2) <= c <= At(pat, p);
        } else {
          hit := At(pat, p) == c;
        }
        if hit {
          BracketIs(c, pat, p0, ec, all);
          return sig;
        }
        p := p + 1;
        seen := seen + [it];
      }
      NoItems(pat, p, ec);
      BracketIs(c, pat, p0, ec, all);
      b := !sig;
    }

    /** singlematch */
    method SingleMatch(c: char, p: nat, ep: nat) returns (b: bool)
      requires ep > 0
      ensures b == Single(c, pat, p, ep)
      ensures match At(pat, p)
              case '.' => b
              case '%' => b == EscapeHas(At(pat, p + 1), c as int)
              case '[' => b == BracketHas(c, pat, p, ep - 1)
              case ch => b == (c == ch)
    {
      ClassIs(c, At(pat, p + 1));
      hide MatchClass, EscapeHas, BracketHas;
      match At(pat, p)
      case '.' => b := true;
      case '%' => b := MatchClass(c, At(pat, p + 1));
      case '[' => b := MatchBracketClass(c, p, ep - 1);
      case ch => b := ch == c;
    }

    /** matchbalance, with its two characters at p */
    method MatchBalance(s0: nat, p: nat) returns (res: Option<nat>)
      requires s0 <= |src| && At(pat, p) != NUL
      ensures res == Balance(src, s0, At(pat, p), At(pat, p + 1))
    {
      if At(src, s0) != At(pat, p) { return None; }
      var b, e := At(pat, p), At(pat, p + 1);
      var s := s0 + 1;
      var cont := 1;
      while s < |src|
        invariant s0 < s <= |src| && cont == Depth(src, s0, s, b, e) > 0
        invariant forall i :: s0 < i <= s ==> Depth(src, s0, i, b, e) > 0
      {
        if src[s] == e {
          cont := cont - 1;
          if cont == 0 {
            assert BalancedTo(src, s0, s + 1, b, e);
            if Balance(src, s0, b, e).Some? { BalancedUnique(src, s0, s + 1, Balance(src, s0, b, e).value, b, e); }
            return Some(s + 1);
          }
        } else if src[s] == b {
          cont := cont + 1;
        }
        s := s + 1;
      }
      res := None;
    }

    /** match_capture, for capture number l */
    method MatchCapture(s: nat, l: nat) returns (res: Option<nat>)
      requires Valid() && s <= |src| && l < level && CapOk(capture[l], s) && KindOf(capture[l]) != Open
      ensures res == BackRef(src, s, capture[l])
    {
      var len := capture[l].len;
      if len >= 0 && |src| - s >= len && src[capture[l].init..capture[l].init + len] == src[s..s + len] {
        res := Some(s + len);
      } else {
        res := None;
      }
    }

    /** The matcher may go on from s and p. */
    ghost predicate Ready(s: nat, p: nat)
      requires Valid()
      reads this, capture
    {
      s <= |src| && p <= |pat| && CapsOk(Caps(), s) && WellFormed(pat, p, Shape(Caps()))
    }

    /** The result and the captures are those of the first success. */
    ghost predicate First(l: seq<Res>, res: Option<nat>, before: seq<Cap>)
      requires Valid()
      reads this, capture
    {
      Answered(l, res, before, Caps())
    }

    /** start_capture */
    method StartCapture(s: nat, q: nat, what: int) returns (res: Option<nat>)
      requires Valid() && s <= |src| && q <= |pat| && (what == CAP_UNFINISHED || what == CAP_POSITION)
      requires CapsOk(Caps(), s) && level < LUA_MAXCAPTURES && WellFormed(pat, q, Shape(Caps()) + [KindOf(Cap(s, what))])
      modifies `level, capture
      ensures Valid() && First(All(src, pat, s, q, old(Caps()) + [Cap(s, what)]), res, old(Caps()))
      decreases |pat| - q, 4
    {
      hide All, WellFormed, CapsOk;
      ghost var caps := Caps();
      capture[level] := Cap(s, what);
      level := level + 1;
      assert Caps() == caps + [Cap(s, what)];
      ShapePush(caps, Cap(s, what));
      CapsPush(caps, Cap(s, what), s);
      res := Match(s, q);
      if res.None? {
        level := level - 1;
        assert Caps() == (caps + [Cap(s, what)])[..level];
      }
    }

    /** end_capture */
    method EndCapture(s: nat, q: nat) returns (res: Option<nat>)
      requires Valid() && s <= |src| && q <= |pat| && CapsOk(Caps(), s)
      requires var l := LastOpen(Shape(Caps())); l >= 0 && WellFormed(pat, q, Shape(Caps())[l := Closed])
      modifies `level, capture
      ensures Valid()
      ensures var caps := old(Caps());
              var l := LastOpen(Shape(caps));
              First(All(src, pat, s, q, caps[l := Cap(caps[l].init, s - caps[l].init)]), res, caps)
      decreases |pat| - q, 4
    {
      hide All, WellFormed, CapsOk;
      ghost var caps := Caps();
      var l := CaptureToClose();
      CapsClose(caps, l, s);
      ghost var c := Cap(caps[l].init, s - caps[l].init);
      capture[l] := Cap(capture[l].init, s - capture[l].init);
      assert Caps() == caps[l := c];
      ShapeClose(caps, l, c);
      res := Match(s, q);
      if res.None? {
        assert Caps() == caps[l := c];
        capture[l] := Cap(capture[l].init, CAP_UNFINISHED);
        assert Caps() == caps;
      }
    }

    /** capture_to_close */
    method CaptureToClose() returns (l: nat)
      requires Valid() && LastOpen(Shape(Caps())) >= 0
      ensures l < level && l == LastOpen(Shape(Caps()))
    {
      ghost var kinds := Shape(Caps());
      ghost var last := LastOpen(kinds);
      l := level - 1;
      while capture[l].len != CAP_UNFINISHED
        invariant last <= l < level
        decreases l
      {
        assert kinds[l] == KindOf(capture[l]);
        l := l - 1;
      }
      assert kinds[l] == KindOf(capture[l]);
    }

    /** The first loop of max_expand: the maximum number of repetitions. */
    method CountItems(s: nat, p: nat, ep: nat) returns (i: nat)
      requires s <= |src| && p < ep
      ensures i == MaxRep(src, s, pat, p, ep)
    {
      hide Single;
      i := 0;
      while s + i < |src|
        invariant s + i <= |src|
        invariant MaxRep(src, s, pat, p, ep) == i + MaxRep(src, s + i, pat, p, ep)
      {
        var m := SingleMatch(src[s + i], p, ep);
        if !m { return; }
        i := i + 1;
      }
    }

    /** max_expand */
    method MaxExpand(s: nat, p: nat, ep: nat, q: nat) returns (res: Option<nat>)
      requires Valid() && p < ep && q <= |pat| && Ready(s, q)
      modifies `level, capture
      ensures Valid() && First(Longest(src, pat, s, MaxRep(src, s, pat, p, ep), q, old(Caps())), res, old(Caps()))
      decreases |pat| - q, 4
    {
      hide All, WellFormed, CapsOk, MaxRep, Longest;
      ghost var caps := Caps();
      var i := CountItems(s, p, ep);
      ghost var all := Longest(src, pat, s, i, q, caps);
      while true
        invariant 0 <= i && s + i <= |src| && Valid() && Caps() == caps
        invariant SameAnswer(Longest(src, pat, s, i, q, caps), all)
        decreases i
      {
        LongestStep(src, pat, s, i, q, caps);
        CapsLater(caps, s, s + i);
        res := Match(s + i, q);
        if res.Some? || i == 0 { return; }
        i := i - 1;
      }
    }

    /** min_expand */
    method MinExpand(s0: nat, p: nat, ep: nat, q: nat) returns (res: Option<nat>)
      requires Valid() && p < ep && q <= |pat| && Ready(s0, q)
      modifies `level, capture
      ensures Valid() && First(Shortest(src, pat, s0, MaxRep(src, s0, pat, p, ep), q, old(Caps())), res, old(Caps()))
      decreases |pat| - q, 4
    {
      hide All, WellFormed, CapsOk, Single, MaxRep, Shortest;
      ghost var caps := Caps();
      var s := s0;
      ghost var n := MaxRep(src, s, pat, p, ep);
      ghost var all := Shortest(src, pat, s, n, q, caps);
      while true
        invariant s0 <= s <= |src| && Valid() && Caps() == caps && n == MaxRep(src, s, pat, p, ep)
        invariant SameAnswer(Shortest(src, pat, s, n, q, caps), all)
        decreases |src| - s
      {
        CapsLater(caps, s0, s);
        RepStep(src, s, pat, p, ep);
        ShortestStep(src, pat, s, n, q, caps);
        res := Match(s, q);
        if res.Some? || s == |src| { return; }
        var m := SingleMatch(src[s], p, ep);
        if !m { return; }
        s, n := s + 1, n - 1;
      }
    }

    /** One pattern item: the answer, or where to go on. */
    method MatchItem(s: nat, p: nat, ep: nat, ghost q: nat, ghost rep: char) returns (res: Option<nat>, goOn: bool, s': nat, p': nat)
      requires Valid() && Ready(s, p) && SyntaxAt(pat, p) == SingleItem(ep, rep, q)
      modifies `level, capture
      ensures Valid() && s' >= s && (goOn ==> p' == q && s' <= |src| && Caps() == old(Caps()))
      ensures !goOn ==> First(All(src, pat, s, p, old(Caps())), res, old(Caps()))
      ensures goOn ==> SameAnswer(All(src, pat, s', q, old(Caps())), All(src, pat, s, p, old(Caps())))
      decreases |pat| - p, 1
    {
      hide All, CapsOk, Single;
      ghost var caps := Caps();
      s', p', goOn, res := s, ep, false, None;
      var m := s < |src|;
      if m { m := SingleMatch(src[s], p, ep); }
      ItemAll(src, pat, s, p, caps, ep, rep, q, m);
      hide WellFormed;
      match At(pat, ep)
      case '?' =>
        if m {
          CapsLater(caps, s, s + 1);
          res := Match(s + 1, ep + 1);
          if res.Some? { return; }
        }
        goOn, p' := true, ep + 1;
      case '*' => res := MaxExpand(s, p, ep, ep + 1);
      case '+' =>
        if m {
          CapsLater(caps, s, s + 1);
          res := MaxExpand(s + 1, p, ep, ep + 1);
        }
      case '-' => res := MinExpand(s, p, ep, ep + 1);
      case _ =>
        if m { goOn, s' := true, s + 1; }
    }

    /** '%b', '%f' and '%1': the answer, or where to go on. */
    method Escape(s: nat, p: nat) returns (res: Option<nat>, goOn: bool, s': nat, p': nat)
      requires Valid() && Ready(s, p) && At(pat, p) == L_ESC
      requires At(pat, p + 1) == 'b' || At(pat, p + 1) == 'f' || IsDigit(At(pat, p + 1))
      ensures res.None? && (goOn ==> p < p' && Ready(s', p'))
      ensures !goOn ==> All(src, pat, s, p, Caps()) == []
      ensures goOn ==> All(src, pat, s', p', Caps()) == All(src, pat, s, p, Caps())
    {
      hide CapsOk, Balance, BackRef, ClassEnd, BracketHas;
      ghost var caps := Caps();
      ghost var syn := SyntaxAt(pat, p);
      s', p', goOn, res := s, p, false, None;
      if At(pat, p + 1) == 'b' {
        var r := MatchBalance(s, p + 2);
        if r.None? { return; }
        goOn, s', p' := true, r.value, p + 4;
        CapsLater(caps, s, s');
      } else if At(pat, p + 1) == 'f' {
        var ep := FindClassEnd(p + 2);
        var before := MatchBracketClass(if s == 0 then NUL else src[s - 1], p + 2, ep - 1);
        var here := MatchBracketClass(At(src, s), p + 2, ep - 1);
        if before || !here { return; }
        goOn, p' := true, ep;
      } else {
        var l := At(pat, p + 1) as int - '1' as int;
        CapsAt(caps, l, s);
        var r := MatchCapture(s, l);
        if r.None? { return; }
        goOn, s', p' := true, r.value, p + 2;
        CapsLater(caps, s, s');
      }
    }

    /** One turn of match: the answer, or where to go on. */
    method Turn(s: nat, p: nat) returns (res: Option<nat>, goOn: bool, s': nat, p': nat)
      requires Valid() && Ready(s, p)
      modifies `level, capture
      ensures Valid() && (goOn ==> p < p' && Caps() == old(Caps()) && Ready(s', p'))
      ensures !goOn ==> First(All(src, pat, s, p, old(Caps())), res, old(Caps()))
      ensures goOn ==> SameAnswer(All(src, pat, s', p', old(Caps())), All(src, pat, s, p, old(Caps())))
      decreases |pat| - p, 2
    {
      hide CapsOk, Balance, BackRef, ClassEnd, BracketHas, Longest, Shortest, ItemAt, Frontier;
      ghost var caps := Caps();
      ghost var syn := SyntaxAt(pat, p);
      s', p', goOn, res := s, p, false, None;
      match At(pat, p)
      case '(' =>
        if At(pat, p + 1) == ')' {
          res := StartCapture(s, p + 2, CAP_POSITION);
        } else {
          res := StartCapture(s, p + 1, CAP_UNFINISHED);
        }
      case ')' => res := EndCapture(s, p + 1);
      case '\0' => res := Some(s);
      case _ =>
        if At(pat, p) == L_ESC && (At(pat, p + 1) == 'b' || At(pat, p + 1) == 'f' || IsDigit(At(pat, p + 1))) {
          res, goOn, s', p' := Escape(s, p);
        } else if At(pat, p) == '$' && At(pat, p + 1) == NUL {
          if s == |src| { res := Some(s); }
        } else {
          var ep := FindClassEnd(p);
          res, goOn, s', p' := MatchItem(s, p, ep, syn.next, syn.rep);
          if goOn { CapsLater(caps, s, s'); }
        }
    }

    /** match */
    method Match(s0: nat, p0: nat) returns (res: Option<nat>)
      requires Valid() && Ready(s0, p0)
      modifies `level, capture
      ensures Valid() && First(All(src, pat, s0, p0, old(Caps())), res, old(Caps()))
      decreases |pat| - p0, 3
    {
      hide All, CapsOk, WellFormed;
      ghost var caps := Caps();
      ghost var all := All(src, pat, s0, p0, caps);
      var s, p := s0, p0;
      while true
        invariant Valid() && Caps() == caps && p0 <= p && Ready(s, p)
        invariant SameAnswer(All(src, pat, s, p, caps), all)
        decreases |pat| - p
      {
        var goOn: bool;
        res, goOn, s, p := Turn(s, p);
        if !goOn { return; }
      }
    }

    /** The loop of str_find_aux over starting positions: the first success at the first one
        that has a match. */
    method Search(init: nat) returns (start: nat, res: Option<nat>)
      requires Valid() && init <= |src|
      requires var p := if At(pat, 0) == '^' then 1 else 0; WellFormed(pat, p, [])
      modifies `level, capture
      ensures Valid() && init <= start
      ensures var p := if At(pat, 0) == '^' then 1 else 0;
              && (res.Some? ==> start <= |src| && (p == 1 ==> start == init)
                                && All(src, pat, start, p, []) != []
                                && All(src, pat, start, p, [])[0] == Res(res.value, Caps())
                                && Matches(src, pat, start, p, [], Res(res.value, Caps())))
              && (forall t :: init <= t <= |src| && (t < start || res.None?) && (p == 1 ==> t == init) ==> NoMatch(src, pat, t, p, []))
    {
      hide All, WellFormed, Matches, NoMatch;
      var p := if At(pat, 0) == '^' then 1 else 0;
      start := init;
      while true
        invariant Valid() && init <= start <= |src| && (p == 1 ==> start == init)
        invariant forall t :: init <= t < start ==> NoMatch(src, pat, t, p, [])
        decreases |src| - start
      {
        level := 0;
        assert Caps() == [] && Shape(Caps()) == [];
        res := Match(start, p);
        NoneMatch(src, pat, start, p, []);
        if res.Some? {
          AllMatches(src, pat, start, p, [], All(src, pat, start, p, [])[0]);
          return;
        }
        if start == |src| || p == 1 { return; }
        start := start + 1;
      }
    }
  }

  /** The pattern, after '^' when it is anchored, as it is written. */
  function Write(anchored: bool, pattern: Pattern): string {
    (if anchored then ['^'] else []) + Print(pattern)
  }

  /** What is written is not taken for an anchored pattern. */
  predicate Free(pattern: Pattern) {
    Print(pattern) == [] || Print(pattern)[0] != '^'
  }

  lemma Written(anchored: bool, pattern: Pattern)
    requires PatternOk(pattern) && Proper(pattern, []) && (anchored || Free(pattern))
    ensures var pat := Write(anchored, pattern);
            var p := if At(pat, 0) == '^' then 1 else 0;
            p <= |pat| && (p == 1 <==> anchored) && Printed(pat, p, pattern) && WellFormed(pat, p, [])
  {
    hide WellFormed, Proper, PatternOk, Print, Printed;
    var pat, p := Write(anchored, pattern), if anchored then 1 else 0;
    assert pat[p..] == Print(pattern);
    WholePrinted(pat, p, pattern);
    if !anchored { PrintedStart(pat, 0, pattern); }
    WellFormedIff(pat, p, pattern, []);
  }

  lemma WholePrinted(pat: string, p: nat, pattern: Pattern)
    requires PatternOk(pattern) && p <= |pat| && pat[p..] == Print(pattern)
    ensures Printed(pat, p, pattern)
  {
    hide PatternOk, Print;
  }

  /** Searching for a pattern that was written: the first position from which it matches,
      in its meaning, and one such match; or no position has one. */
  method Find(src: string, anchored: bool, pattern: Pattern, init: nat) returns (start: nat, res: Option<nat>, captures: seq<Cap>)
    requires PatternOk(pattern) && Proper(pattern, []) && (anchored || Free(pattern)) && init <= |src|
    ensures res.Some? ==> init <= start <= |src| && (anchored ==> start == init) && Means(src, pattern, start, [], Res(res.value, captures))
    ensures forall t, r :: init <= t <= |src| && (t < start || res.None?) && (anchored ==> t == init) ==> !Means(src, pattern, t, [], r)
  {
    hide PatternOk, Proper, Means, Matches, All, WellFormed, Print, Printed;
    Written(anchored, pattern);
    var pat := Write(anchored, pattern);
    ghost var p := if anchored then 1 else 0;
    var ms := new MatchState(src, pat);
    start, res := ms.Search(init);
    captures := ms.capture[..ms.level];
    forall t, r | init <= t <= |src| && (t < start || res.None?) && (anchored ==> t == init) ensures !Means(src, pattern, t, [], r) {
      assert NoMatch(src, pat, t, p, []);
      MatchesMeans(src, pat, p, pattern, t, [], r);
    }
    if res.Some? { MatchesMeans(src, pat, p, pattern, start, [], Res(res.value, captures)); }
  }
}
