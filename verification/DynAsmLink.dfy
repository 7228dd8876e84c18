/** Pass 2 of the DynASM x86 encoder on values: what `dasm_link` keeps true of the
    section buffers while it walks over them. */
module DynAsmLinking {
  import opened DynAsmLayout
  import opened DynAsmLabels
  import opened DynAsmState

  /** The element of the label that a branch means. */
  ghost function TargetOf(v: View, s: nat, k: nat): (t: (nat, nat))
    requires s < |v.trs| && k < |v.trs[s]| && v.trs[s][k].Rel?
  {
    var i := v.trs[s][k].ev;
    if i < |v.hist| && Target(v.hist, i) >= 0 then
      var e := v.hist[Target(v.hist, i)];
      (e.s, e.k)
    else (0, 0)
  }

  ghost predicate AllDefined(pclabels: seq<int>) {
    forall pc :: 0 <= pc < |pclabels| ==> pclabels[pc] <= 0
  }

  /** When no label is left undefined, every branch holds the position of a label. */
  lemma TargetsKnown(v: View, s: nat, k: nat)
    requires v.Ok() && AllDefined(v.pclabels)
    requires s < |v.trs| && k < |v.trs[s]| && v.trs[s][k].Rel?
    ensures HoldsTarget(v, s, k)
  {
    assert SlotOk(v.trs[s], v.mem, v.own, v.hist, s, k);
    var i := v.trs[s][k].ev;
    EventResolved(v, i);
    var e := v.hist[Target(v.hist, i)];
    TargetMeaning(v.hist, i, Target(v.hist, i));
  }

  ghost predicate HoldsTarget(v: View, s: nat, k: nat)
    requires s < |v.trs| && k < |v.trs[s]| && v.trs[s][k].Rel?
  {
    var q := Pos(v.trs[s], s, k);
    var (ts, tk) := TargetOf(v, s, k);
    && ts < |v.trs| && tk < |v.trs[ts]| && v.trs[ts][tk].Label? && v.trs[ts][tk].pc == v.trs[s][k].pc
    && q in v.mem && v.mem[q] == Pos(v.trs[ts], ts, tk)
  }

  lemma EventResolved(v: View, i: nat)
    requires v.Ok() && AllDefined(v.pclabels) && i < |v.hist| && v.hist[i].Ref?
    ensures 0 <= Target(v.hist, i) < |v.hist|
  {
    var h, pc := v.hist, v.hist[i].pc;
    assert LabelOk(v.mem, h, pc, v.pclabels[pc], v.chains[pc]);
    TargetAfter(h, h[i], i);
    assert forall j :: 0 <= j < |h| ==> h[j].pos > 0;
  }

  /** Positions order elements the way the output does. */
  lemma PosOrder(v: View, s: nat, k: nat, s': nat, k': nat)
    requires v.Ok() && s < |v.trs| && k < |v.trs[s]| && s' < |v.trs| && k' < |v.trs[s']|
    requires v.trs[s][k].Slots() > 0 && v.trs[s'][k'].Slots() > 0
    ensures Pos(v.trs[s], s, k) < Pos(v.trs[s'], s', k') <==> s < s' || (s == s' && k < k')
    ensures Pos(v.trs[s], s, k) / SECTION_BIAS == s
  {
    SlotsMonotone(v.trs[s], k, |v.trs[s]|);
    SlotsMonotone(v.trs[s'], k', |v.trs[s']|);
    if s == s' {
      if k < k' { SlotsMonotone(v.trs[s], k, k'); }
      if k' < k { SlotsMonotone(v.trs[s], k', k); }
    }
  }

  /** The distance that link weighs for branch k of section s: the final one back to
      a label that is already fixed, the estimated one ahead. */
  ghost function Weighed(v: View, L: Layout, s: nat, k: nat): int
    requires LayoutOk(v.trs, L) && s < |L.sh| && k < |L.at[s]| && k < |v.trs[s]| && v.trs[s][k].Rel?
  {
    var (ts, tk) := TargetOf(v, s, k);
    if !(ts < |v.trs| && tk <= |v.trs[ts]|) then 0
    else if ts > s || (ts == s && tk > k) then
      EstSections(v.trs, s, ts) - EstTo(v.trs[s], k + 1) + EstTo(v.trs[ts], tk)
    else if ts < |L.at| && tk < |L.at[ts]| then (L.at[ts][tk] as int) - (L.at[s][k] + 4)
    else 0
  }

  /** Branch k of section s was shrunk exactly when its opcode has a short form and
      the weighed distance fits. */
  ghost predicate ShrinkRule(v: View, L: Layout, s: nat, k: nat)
    requires LayoutOk(v.trs, L) && s < |L.sh| && k < |L.sh[s]|
  {
    if v.trs[s][k].Rel? && k > 0 && v.trs[s][k - 1].Emits() then
      var sv := Saving(v.trs[s][k - 1].b);
      var w := Weighed(v, L, s, k);
      L.sh[s][k] == if sv > 0 && -128 - sv <= w <= 127 then sv else 0
    else L.sh[s][k] == 0
  }

  /** Slots of element k of section s while link has come as far as L. */
  ghost predicate LinkSlot(v: View, mem: map<int, int>, L: Layout, s: nat, k: nat)
    requires LayoutOk(v.trs, L) && s < |v.trs| && k < |v.trs[s]|
  {
    var q := Pos(v.trs[s], s, k);
    var done := s < |L.sh| && k < |L.sh[s]|;
    && (v.trs[s][k].Slots() > 0 ==> q in v.mem && q in mem)
    && match v.trs[s][k] {
         case Start(_) => mem[q] == v.mem[q]
         case Align(_, _) => mem[q] == v.mem[q]
         case Label(_, _, _) => mem[q] == if done then L.at[s][k] else EstTo(v.trs[s], k)
         case Rel(_, _, _) =>
           && q + 1 in mem && mem[q] == v.mem[q]
           && mem[q + 1] == if done then L.sh[s][k] else EstTo(v.trs[s], k + 1)
         case _ => true
       }
  }

  ghost predicate LinkOk(v: View, mem: map<int, int>, L: Layout) {
    && LayoutOk(v.trs, L)
    && (forall s, k :: 0 <= s < |v.trs| && 0 <= k < |v.trs[s]| ==> LinkSlot(v, mem, L, s, k))
    && (forall s, k :: 0 <= s < |L.sh| && 0 <= k < |L.sh[s]| ==> ShrinkRule(v, L, s, k))
  }

  lemma LinkStart(v: View)
    requires v.Ok() && |v.trs| > 0
    ensures LinkOk(v, v.mem, Layout([[]], [[0]]))
  {
    var L := Layout([[]], [[0]]);
    forall s, k | 0 <= s < |v.trs| && 0 <= k < |v.trs[s]|
      ensures LinkSlot(v, v.mem, L, s, k)
    {
      assert SlotOk(v.trs[s], v.mem, v.own, v.hist, s, k);
    }
    assert forall k :: 0 <= k < |v.trs[0]| ==> Decodes(v.A, v.trs[0][k]);
  }

  /** The layout after one more element of the last section. */
  ghost function Extend(trs: seq<seq<Elem>>, L: Layout, shrink: nat): Layout
    requires LayoutOk(trs, L) && L.sh != [] && |L.sh[|L.sh| - 1]| < |trs[|L.sh| - 1]| && shrink <= 4
  {
    var s := |L.sh| - 1;
    var k := |L.sh[s]|;
    Layout(L.sh[s := L.sh[s] + [shrink]], L.at[s := L.at[s] + [SizeAfter(trs[s][k], shrink, L.at[s][k])]])
  }

  lemma Extended(trs: seq<seq<Elem>>, L: Layout, shrink: nat)
    requires LayoutOk(trs, L) && L.sh != [] && |L.sh[|L.sh| - 1]| < |trs[|L.sh| - 1]| && shrink <= 4
    ensures var s, L' := |L.sh| - 1, Extend(trs, L, shrink);
            && |L'.sh| == |L.sh| && |L'.at| == |L.at|
            && |L'.sh[s]| == |L.sh[s]| + 1 && |L'.at[s]| == |L.at[s]| + 1
  {
  }

  /** What the step over element k of the last section stores. */
  ghost predicate Stores(v: View, mem: map<int, int>, L: Layout, shrink: nat, mem': map<int, int>)
    requires LayoutOk(v.trs, L) && L.sh != [] && |L.sh[|L.sh| - 1]| < |v.trs[|L.sh| - 1]|
  {
    var s := |L.sh| - 1;
    var k := |L.sh[s]|;
    var q := Pos(v.trs[s], s, k);
    match v.trs[s][k] {
      case Label(_, _, _) => mem' == mem[q := L.at[s][k]]
      case Rel(_, _, _) => mem' == mem[q + 1 := shrink]
      case _ => mem' == mem
    }
  }

  lemma LinkStep(v: View, mem: map<int, int>, L: Layout, shrink: nat, mem': map<int, int>)
    requires v.Ok() && LinkOk(v, mem, L) && shrink <= 4
    requires L.sh != [] && |L.sh[|L.sh| - 1]| < |v.trs[|L.sh| - 1]|
    requires Stores(v, mem, L, shrink, mem')
    requires LayoutOk(v.trs, Extend(v.trs, L, shrink))
    requires ShrinkRule(v, Extend(v.trs, L, shrink), |L.sh| - 1, |L.sh[|L.sh| - 1]|)
    ensures LinkOk(v, mem', Extend(v.trs, L, shrink))
  {
    hide View.Ok;
    var L' := Extend(v.trs, L, shrink);
    forall s, k | 0 <= s < |v.trs| && 0 <= k < |v.trs[s]|
      ensures LinkSlot(v, mem', L', s, k)
    {
      LinkStepSlot(v, mem, L, shrink, mem', s, k);
    }
    LinkStepRules(v, mem, L, shrink);
    hide LinkSlot, ShrinkRule, LayoutOk;
  }

  lemma LinkStepRules(v: View, mem: map<int, int>, L: Layout, shrink: nat)
    requires v.Ok() && LinkOk(v, mem, L) && shrink <= 4
    requires L.sh != [] && |L.sh[|L.sh| - 1]| < |v.trs[|L.sh| - 1]|
    requires LayoutOk(v.trs, Extend(v.trs, L, shrink))
    requires ShrinkRule(v, Extend(v.trs, L, shrink), |L.sh| - 1, |L.sh[|L.sh| - 1]|)
    ensures var L' := Extend(v.trs, L, shrink);
            forall s, k :: 0 <= s < |L'.sh| && 0 <= k < |L'.sh[s]| ==> ShrinkRule(v, L', s, k)
  {
    hide View.Ok, LinkSlot, ShrinkRule, LayoutOk;
    var L' := Extend(v.trs, L, shrink);
    forall s, k | 0 <= s < |L'.sh| && 0 <= k < |L'.sh[s]|
      ensures ShrinkRule(v, L', s, k)
    {
      if s < |L.sh| - 1 || k < |L.sh[s]| {
        assert ShrinkRule(v, L, s, k);
        RuleKept(v, L, shrink, s, k);
      }
    }
  }

  /** The rule for an earlier element does not look at the new one. */
  lemma RuleKept(v: View, L: Layout, shrink: nat, s: nat, k: nat)
    requires LayoutOk(v.trs, L) && shrink <= 4
    requires L.sh != [] && |L.sh[|L.sh| - 1]| < |v.trs[|L.sh| - 1]| && LayoutOk(v.trs, Extend(v.trs, L, shrink))
    requires s < |L.sh| && k < |L.sh[s]| && ShrinkRule(v, L, s, k)
    ensures s < |Extend(v.trs, L, shrink).sh| && k < |Extend(v.trs, L, shrink).sh[s]|
    ensures ShrinkRule(v, Extend(v.trs, L, shrink), s, k)
  {
    var L' := Extend(v.trs, L, shrink);
    assert v.trs[s][k].Rel? ==> Weighed(v, L', s, k) == Weighed(v, L, s, k);
  }

  lemma ExtendOk(trs: seq<seq<Elem>>, L: Layout, shrink: nat)
    requires LayoutOk(trs, L) && L.sh != [] && |L.sh[|L.sh| - 1]| < |trs[|L.sh| - 1]| && shrink <= 4
    ensures LayoutOk(trs, Extend(trs, L, shrink))
  {
    var s, L' := |L.sh| - 1, Extend(trs, L, shrink);
    assert SectionOk(trs[s], L'.sh[s], L'.at[s]);
  }

  /** Distinct elements have distinct slots. */
  lemma DistinctSlots(v: View, s: nat, k: nat, s': nat, k': nat, i: nat, j: nat)
    requires v.Ok() && s < |v.trs| && k < |v.trs[s]| && s' < |v.trs| && k' < |v.trs[s']|
    requires i < v.trs[s][k].Slots() && j < v.trs[s'][k'].Slots()
    requires Pos(v.trs[s], s, k) + i == Pos(v.trs[s'], s', k') + j
    ensures s == s' && k == k' && i == j
  {
    hide View.Ok;
    OwnerOf(v, s, k, i);
    OwnerOf(v, s', k', j);
  }

  lemma OwnerOf(v: View, s: nat, k: nat, i: nat)
    requires v.Ok() && s < |v.trs| && k < |v.trs[s]| && i < v.trs[s][k].Slots()
    ensures var q := Pos(v.trs[s], s, k) + i; q in v.own && v.own[q] == (s, k, i)
  {
    hide CursorsOk, TraceOk, EventsOk, LabelsOk, ResolvedOk;
    assert SlotOk(v.trs[s], v.mem, v.own, v.hist, s, k);
  }

  lemma LinkStepSlot(v: View, mem: map<int, int>, L: Layout, shrink: nat, mem': map<int, int>, s: nat, k: nat)
    requires v.Ok() && LinkOk(v, mem, L) && shrink <= 4
    requires L.sh != [] && |L.sh[|L.sh| - 1]| < |v.trs[|L.sh| - 1]|
    requires Stores(v, mem, L, shrink, mem') && LayoutOk(v.trs, Extend(v.trs, L, shrink))
    requires s < |v.trs| && k < |v.trs[s]|
    ensures LinkSlot(v, mem', Extend(v.trs, L, shrink), s, k)
  {
    hide View.Ok;
    var s0 := |L.sh| - 1;
    var k0 := |L.sh[s0]|;
    assert LinkSlot(v, mem, L, s, k) && LinkSlot(v, mem, L, s0, k0);
    hide LinkOk, LayoutOk;
    if v.trs[s0][k0].Label? || v.trs[s0][k0].Rel? {
      var w := Pos(v.trs[s0], s0, k0) + if v.trs[s0][k0].Label? then 0 else 1;
      var q := Pos(v.trs[s], s, k);
      if (s, k) != (s0, k0) {
        if v.trs[s][k].Slots() > 0 && q == w { DistinctSlots(v, s, k, s0, k0, 0, w - Pos(v.trs[s0], s0, k0)); }
        if v.trs[s][k].Rel? && q + 1 == w { DistinctSlots(v, s, k, s0, k0, 1, w - Pos(v.trs[s0], s0, k0)); }
      }
    }
  }

  /** Whether a branch leads ahead shows in the order of buffer positions. */
  lemma BranchAhead(v: View, s: nat, k: nat)
    requires v.Ok() && AllDefined(v.pclabels)
    requires s < |v.trs| && k < |v.trs[s]| && v.trs[s][k].Rel?
    ensures HoldsTarget(v, s, k)
    ensures var q, (ts, tk) := Pos(v.trs[s], s, k), TargetOf(v, s, k);
            && v.mem[q] / SECTION_BIAS == ts
            && (v.mem[q] > q <==> ts > s || (ts == s && tk > k))
            && (ts, tk) != (s, k)
  {
    hide View.Ok;
    TargetsKnown(v, s, k);
    var (ts, tk) := TargetOf(v, s, k);
    PosOrder(v, s, k, ts, tk);
    PosOrder(v, ts, tk, s, k);
  }

  /** What link reads when it weighs the next branch. */
  lemma LookUp(v: View, mem: map<int, int>, L: Layout, s: nat, k: nat)
    requires v.Ok() && AllDefined(v.pclabels) && LinkOk(v, mem, L)
    requires |L.sh| == s + 1 && |L.sh[s]| == k < |v.trs[s]| && v.trs[s][k].Rel?
    ensures var q := Pos(v.trs[s], s, k);
            var (ts, tk) := TargetOf(v, s, k);
            && q in mem && q + 1 in mem && mem[q] in mem && mem[q] >= 0
            && ts < |v.trs| && tk < |v.trs[ts]|
            && mem[q + 1] == EstTo(v.trs[s], k) + 4
            && mem[q] / SECTION_BIAS == ts
            && (mem[q] > q ==> s <= ts && Weighed(v, L, s, k) == EstSections(v.trs, s, ts) + mem[mem[q]] - mem[q + 1])
            && (mem[q] <= q ==> Weighed(v, L, s, k) == mem[mem[q]] - L.at[s][k] - 4)
  {
    hide View.Ok;
    BranchAhead(v, s, k);
    var (ts, tk) := TargetOf(v, s, k);
    assert LinkSlot(v, mem, L, s, k) && LinkSlot(v, mem, L, ts, tk);
    Passed(v.trs, L, s, k, ts, tk);
  }

  /** Elements that link has passed have an offset. */
  lemma Passed(trs: seq<seq<Elem>>, L: Layout, s: nat, k: nat, ts: nat, tk: nat)
    requires LayoutOk(trs, L) && |L.sh| == s + 1 && |L.sh[s]| == k
    requires ts < |trs| && tk < |trs[ts]|
    ensures (ts < |L.sh| && tk < |L.sh[ts]|) == (ts < s || (ts == s && tk < k))
    ensures ts <= s ==> |L.at[ts]| == |L.sh[ts]| + 1
  {
    if ts < s { assert |L.sh[ts]| == |trs[ts]|; }
    if ts <= s { assert SectionOk(trs[ts], L.sh[ts], L.at[ts]); }
  }

  /** The layout that the decision is made in, and the one that records it, weigh
      the branch alike. */
  lemma Decided(v: View, L: Layout, shrink: nat, s: nat, k: nat)
    requires LayoutOk(v.trs, L) && |L.sh| == s + 1 && |L.sh[s]| == k < |v.trs[s]| && shrink <= 4
    requires LayoutOk(v.trs, Extend(v.trs, L, shrink))
    requires if v.trs[s][k].Rel? && k > 0 && v.trs[s][k - 1].Emits() then
               var sv, w := Saving(v.trs[s][k - 1].b), Weighed(v, L, s, k);
               shrink == if sv > 0 && -128 - sv <= w <= 127 then sv else 0
             else shrink == 0
    ensures ShrinkRule(v, Extend(v.trs, L, shrink), s, k)
  {
  }

  /** The opcode byte that link looks at is the byte emitted last. */
  lemma OpcodeBehind(v: View, s: nat, k: nat)
    requires v.Ok() && s < |v.trs| && k < |v.trs[s]| && v.trs[s][k].Rel?
    ensures k > 0 && v.trs[s][k - 1].Emits() && 0 < v.trs[s][k].p < |v.A|
    ensures v.A[v.trs[s][k].p - 1] == v.trs[s][k - 1].b
  {
    assert TraceOk(v.A, v.trs[s]);
    assert BehindOpcode(v.trs[s], k);
    assert v.trs[s][k - 1 + 1].p == v.trs[s][k - 1].Next();
    assert Decodes(v.A, v.trs[s][k - 1]) && Decodes(v.A, v.trs[s][k]);
  }

  lemma EstSectionsSplit(trs: seq<seq<Elem>>, i: nat, j: nat)
    requires i <= j < |trs|
    ensures EstSections(trs, i, j + 1) == EstSections(trs, i, j) + EstTo(trs[j], |trs[j]|)
  {
  }

  lemma SectionSize(v: View, s: nat)
    requires v.Ok() && s < |v.trs|
    ensures |v.trs| == |v.ofs| == |v.pos| && v.ofs[s] == EstTo(v.trs[s], |v.trs[s]|)
    ensures v.pos[s] == Pos(v.trs[s], s, |v.trs[s]|)
  {
  }

  lemma SectionEnds(v: View, s: nat, k: nat)
    requires v.Ok() && s < |v.trs| && k <= |v.trs[s]|
    requires k < |v.trs[s]| && k > 0 ==> v.trs[s][k].Start?
    ensures |v.trs| == |v.pos| && (Pos(v.trs[s], s, k) == v.pos[s]) == (k == |v.trs[s]|)
    ensures k < |v.trs[s]| ==> v.trs[s][k].Start?
  {
    assert TraceOk(v.A, v.trs[s]);
    if k < |v.trs[s]| { SlotsMonotone(v.trs[s], k, |v.trs[s]|); }
  }

  /** Where the actions of a put go on behind element k - 1. */
  lemma TraceNext(v: View, s: nat, k: nat)
    requires v.Ok() && s < |v.trs| && 0 < k <= |v.trs[s]| && Closed(v.A, v.trs[s])
    ensures var p := v.trs[s][k - 1].Next();
            && p < |v.A|
            && Ends(v.A, p) == (k == |v.trs[s]| || v.trs[s][k].Start?)
            && (k < |v.trs[s]| && !v.trs[s][k].Start? ==> v.trs[s][k].p == p)
  {
    var tr := v.trs[s];
    assert TraceOk(v.A, tr);
    if k < |tr| {
      assert Decodes(v.A, tr[k]);
      assert if tr[k - 1 + 1].Start? then Ends(v.A, tr[k - 1].Next()) else tr[k - 1 + 1].p == tr[k - 1].Next();
    }
  }

  lemma StartSlot(v: View, mem: map<int, int>, L: Layout, s: nat, k: nat)
    requires v.Ok() && LinkOk(v, mem, L) && |L.sh| == s + 1 && |L.sh[s]| == k < |v.trs[s]| && v.trs[s][k].Start?
    ensures var q := Pos(v.trs[s], s, k); q in mem && mem[q] == v.trs[s][k].p
    ensures Stores(v, mem, L, 0, mem) && LayoutOk(v.trs, Extend(v.trs, L, 0))
    ensures ShrinkRule(v, Extend(v.trs, L, 0), s, k)
  {
    assert LinkSlot(v, mem, L, s, k);
    assert SlotOk(v.trs[s], v.mem, v.own, v.hist, s, k);
    ExtendOk(v.trs, L, 0);
  }

  /** The step over the slot of a put. */
  lemma StartStep(v: View, mem: map<int, int>, L: Layout, s: nat, k: nat)
    requires v.Ok() && LinkOk(v, mem, L) && |L.sh| == s + 1 && |L.sh[s]| == k < |v.trs[s]| && v.trs[s][k].Start?
    ensures var q := Pos(v.trs[s], s, k); q in mem && mem[q] == v.trs[s][k].p
    ensures LayoutOk(v.trs, Extend(v.trs, L, 0)) && LinkOk(v, mem, Extend(v.trs, L, 0))
  {
    StartSlot(v, mem, L, s, k);
    hide View.Ok;
    LinkStep(v, mem, L, 0, mem);
  }

  lemma ElementAt(v: View, mem: map<int, int>, L: Layout, s: nat, k: nat)
    requires v.Ok() && LinkOk(v, mem, L) && |L.sh| == s + 1 && |L.sh[s]| == k < |v.trs[s]|
    ensures Decodes(v.A, v.trs[s][k]) && LinkSlot(v, mem, L, s, k)
    ensures v.trs[s][k].Align? ==> mem[Pos(v.trs[s], s, k)] == EstTo(v.trs[s], k) + v.trs[s][k].mask
    ensures forall shrink: nat :: shrink <= 4 ==> LayoutOk(v.trs, Extend(v.trs, L, shrink))
  {
    assert TraceOk(v.A, v.trs[s]);
    assert SlotOk(v.trs[s], v.mem, v.own, v.hist, s, k);
    forall shrink: nat | shrink <= 4 ensures LayoutOk(v.trs, Extend(v.trs, L, shrink)) {
      ExtendOk(v.trs, L, shrink);
    }
  }

  /** The layout in front of the next section. */
  ghost function Opened(trs: seq<seq<Elem>>, L: Layout): Layout
    requires LayoutOk(trs, L) && 0 < |L.sh| < |trs| && |L.sh[|L.sh| - 1]| == |trs[|L.sh| - 1]|
  {
    Layout(L.sh + [[]], L.at + [[L.at[|L.sh| - 1][|trs[|L.sh| - 1]|]]])
  }

  lemma NextSection(v: View, mem: map<int, int>, L: Layout)
    requires v.Ok() && LinkOk(v, mem, L) && 0 < |L.sh| < |v.trs| && |L.sh[|L.sh| - 1]| == |v.trs[|L.sh| - 1]|
    ensures LayoutOk(v.trs, Opened(v.trs, L)) && LinkOk(v, mem, Opened(v.trs, L))
  {
    assert forall k :: 0 <= k < |v.trs[|L.sh|]| ==> Decodes(v.A, v.trs[|L.sh|][k]) by { assert TraceOk(v.A, v.trs[|L.sh|]); }
    hide View.Ok;
    NextSectionLayout(v.trs, L);
    NextSectionSlots(v, mem, L);
    NextSectionRules(v, mem, L);
    hide LinkSlot, ShrinkRule, LayoutOk;
  }

  lemma NextSectionSlots(v: View, mem: map<int, int>, L: Layout)
    requires LinkOk(v, mem, L) && 0 < |L.sh| < |v.trs| && |L.sh[|L.sh| - 1]| == |v.trs[|L.sh| - 1]|
    requires LayoutOk(v.trs, Opened(v.trs, L))
    ensures forall i, k :: 0 <= i < |v.trs| && 0 <= k < |v.trs[i]| ==> LinkSlot(v, mem, Opened(v.trs, L), i, k)
  {
    forall i, k | 0 <= i < |v.trs| && 0 <= k < |v.trs[i]| ensures LinkSlot(v, mem, Opened(v.trs, L), i, k) {
      assert LinkSlot(v, mem, L, i, k);
    }
  }

  lemma NextSectionRules(v: View, mem: map<int, int>, L: Layout)
    requires LinkOk(v, mem, L) && 0 < |L.sh| < |v.trs| && |L.sh[|L.sh| - 1]| == |v.trs[|L.sh| - 1]|
    requires LayoutOk(v.trs, Opened(v.trs, L))
    ensures var L' := Opened(v.trs, L); forall i, k :: 0 <= i < |L'.sh| && 0 <= k < |L'.sh[i]| ==> ShrinkRule(v, L', i, k)
  {
    hide LinkSlot;
    var L' := Opened(v.trs, L);
    forall i, k | 0 <= i < |L'.sh| && 0 <= k < |L'.sh[i]| ensures ShrinkRule(v, L', i, k) {
      assert ShrinkRule(v, L, i, k);
    }
  }

  lemma NextSectionLayout(trs: seq<seq<Elem>>, L: Layout)
    requires LayoutOk(trs, L) && 0 < |L.sh| < |trs| && |L.sh[|L.sh| - 1]| == |trs[|L.sh| - 1]|
    requires forall k :: 0 <= k < |trs[|L.sh|]| && trs[|L.sh|][k].Align? ==> IsMask(trs[|L.sh|][k].mask)
    ensures LayoutOk(trs, Opened(trs, L))
  {
    var s, L' := |L.sh|, Opened(trs, L);
    assert SectionOk(trs[s], L'.sh[s], L'.at[s]);
  }
}
