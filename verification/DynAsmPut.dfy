/** Pass 1 of the DynASM x86 encoder: the encoding state, its invariant, and
    `dasm_put`. */
module DynAsmState {
  import opened DynAsmLayout
  import opened DynAsmLabels

  /** What an action list must offer from p on, for these label arguments, when the
      two bytes emitted last are `last` and `prev` (-1: none): supported actions
      only, a branch only behind its opcode, a stop at the end. */
  ghost predicate Runs(A: seq<uint8>, p: nat, prev: int, last: int, args: seq<nat>, labels: nat, sections: nat)
    decreases |A| - p
  {
    && p < |A|
    && match A[p] {
         case 255 => args == []
         case 254 => args == [] && p + 1 < |A| && A[p + 1] < sections
         case 252 => p + 1 < |A| && Runs(A, p + 2, last, A[p + 1], args, labels, sections)
         case 250 => p + 1 < |A| && IsMask(A[p + 1]) && Runs(A, p + 2, -1, -1, args, labels, sections)
         case 249 => args != [] && args[0] < labels && Runs(A, p + 1, -1, -1, args[1..], labels, sections)
         case 245 =>
           && args != [] && args[0] < labels
           && last >= 0 && (0x80 <= last <= 0x8f ==> prev == 0x0f)
           && Runs(A, p + 1, -1, -1, args[1..], labels, sections)
         case a => a < 233 && Runs(A, p + 1, last, a, args, labels, sections)
       }
  }

  predicate Supported(A: seq<uint8>, p: nat) {
    && p < |A|
    && (A[p] < DASM_DISP || A[p] == DASM_REL_PC || A[p] == DASM_LABEL_PC
        || (A[p] in {DASM_ESC, DASM_ALIGN} && p + 1 < |A|))
  }

  /** The element for the action at p; `n` is the number of the next branch or label,
      `pc` its label. */
  function ElemAt(A: seq<uint8>, p: nat, pc: nat, n: nat): Elem
    requires Supported(A, p)
  {
    match A[p]
    case 252 => Esc(p, A[p + 1])
    case 250 => Align(p, A[p + 1])
    case 249 => Label(p, pc, n)
    case 245 => Rel(p, pc, n)
    case a => Byte(p, a)
  }

  predicate TakesLabel(a: uint8) {
    a == DASM_LABEL_PC || a == DASM_REL_PC
  }

  /** The elements that a put with these arguments appends; `n` is the number of
      its first branch or label. */
  ghost function Decoded(A: seq<uint8>, p: nat, args: seq<nat>, n: nat): seq<Elem>
    decreases |A| - p
  {
    if !Supported(A, p) then []
    else if !TakesLabel(A[p]) then
      var e := ElemAt(A, p, 0, n);
      [e] + Decoded(A, e.Next(), args, n)
    else if args != [] then [ElemAt(A, p, args[0], n)] + Decoded(A, p + 1, args[1..], n + 1)
    else []
  }

  /** The section that is active after a put. */
  ghost function SectionAfter(A: seq<uint8>, p: nat, section: nat): nat
    decreases |A| - p
  {
    if p >= |A| then section else
    match A[p] {
      case 255 => section
      case 254 => if p + 1 < |A| then A[p + 1] else section
      case 252 => SectionAfter(A, p + 2, section)
      case 250 => SectionAfter(A, p + 2, section)
      case _ => SectionAfter(A, p + 1, section)
    }
  }

  predicate Ends(A: seq<uint8>, p: nat) {
    p < |A| && (A[p] == DASM_STOP || A[p] == DASM_SECTION)
  }

  /** What a put does at action p, unless it ends there. */
  lemma RunsStep(A: seq<uint8>, p: nat, prev: int, last: int, args: seq<nat>, labels: nat, sections: nat,
                 n: nat, section: nat)
    requires Runs(A, p, prev, last, args, labels, sections) && !Ends(A, p)
    ensures Supported(A, p)
    ensures TakesLabel(A[p]) ==> args != [] && args[0] < labels
    ensures var e := ElemAt(A, p, if args != [] then args[0] else 0, n);
            var args', n' := if TakesLabel(A[p]) then args[1..] else args, if TakesLabel(A[p]) then n + 1 else n;
            && Decodes(A, e)
            && (e.Rel? ==> last >= 0 && (0x80 <= last <= 0x8f ==> prev == 0x0f))
            && Runs(A, e.Next(), if e.Emits() then last else -1, if e.Emits() then e.b else -1, args', labels, sections)
            && Decoded(A, p, args, n) == [e] + Decoded(A, e.Next(), args', n')
            && SectionAfter(A, p, section) == SectionAfter(A, e.Next(), section)
  {
  }

  lemma RunsEnd(A: seq<uint8>, p: nat, prev: int, last: int, args: seq<nat>, labels: nat, sections: nat, n: nat, section: nat)
    requires Runs(A, p, prev, last, args, labels, sections)
    ensures p < |A|
    ensures Ends(A, p) ==> args == [] && Decoded(A, p, args, n) == []
    ensures Ends(A, p) ==> if A[p] == DASM_STOP then SectionAfter(A, p, section) == section
                           else p + 1 < |A| && A[p + 1] < sections && SectionAfter(A, p, section) == A[p + 1]
  {
  }

  // ---- Invariant ----

  /** The element is what the action list says at its index. */
  predicate Decodes(A: seq<uint8>, e: Elem) {
    match e
    case Start(p) => p < |A|
    case Byte(p, b) => p < |A| && A[p] == b && b < DASM_DISP
    case Esc(p, b) => p + 1 < |A| && A[p] == DASM_ESC && A[p + 1] == b
    case Rel(p, _, _) => p < |A| && A[p] == DASM_REL_PC
    case Label(p, _, _) => p < |A| && A[p] == DASM_LABEL_PC
    case Align(p, m) => p + 1 < |A| && A[p] == DASM_ALIGN && A[p + 1] == m && IsMask(m)
  }

  /** A branch follows its opcode bytes. */
  predicate BehindOpcode(tr: seq<Elem>, k: nat)
    requires k < |tr|
  {
    tr[k].Rel? ==>
      && k > 0 && tr[k - 1].Emits()
      && (0x80 <= tr[k - 1].b <= 0x8f ==> k > 1 && tr[k - 2].Emits() && tr[k - 2].b == 0x0f)
  }

  /** The trace of a section follows the action list, one put after the other. */
  ghost predicate TraceOk(A: seq<uint8>, tr: seq<Elem>) {
    && (tr != [] ==> tr[0].Start?)
    && (forall k :: 0 <= k < |tr| ==> Decodes(A, tr[k]) && BehindOpcode(tr, k))
    && (forall k :: 0 <= k < |tr| - 1 ==>
          if tr[k + 1].Start? then Ends(A, tr[k].Next()) else tr[k + 1].p == tr[k].Next())
  }

  predicate Closed(A: seq<uint8>, tr: seq<Elem>) {
    tr != [] ==> Ends(A, tr[|tr| - 1].Next())
  }

  /** Which element, and which of its slots, a buffer position belongs to. */
  type Owner = map<int, (nat, nat, nat)>

  /** The slots of element k of section s hold what pass 1 stores. */
  ghost predicate SlotOk(tr: seq<Elem>, mem: map<int, int>, own: Owner, h: seq<Event>, s: nat, k: nat)
    requires k < |tr|
  {
    var q := Pos(tr, s, k);
    && (tr[k].Slots() > 0 ==> q in mem && q in own && own[q] == (s, k, 0))
    && match tr[k] {
         case Start(p) => mem[q] == p
         case Rel(_, pc, ev) =>
           && q + 1 in mem && mem[q + 1] == EstTo(tr, k + 1)
           && q + 1 in own && own[q + 1] == (s, k, 1)
           && ev < |h| && h[ev] == Ref(q, pc, s, k)
         case Label(_, pc, ev) => mem[q] == EstTo(tr, k) && ev < |h| && h[ev] == Def(q, pc, s, k)
         case Align(_, _) => mem[q] == EstTo(tr, k + 1)
         case _ => true
       }
  }

  ghost predicate SlotsOk(trs: seq<seq<Elem>>, mem: map<int, int>, own: Owner, h: seq<Event>) {
    forall s, k :: 0 <= s < |trs| && 0 <= k < |trs[s]| ==> SlotOk(trs[s], mem, own, h, s, k)
  }

  /** Section cursors stand right behind the elements of their section. */
  ghost predicate CursorsOk(trs: seq<seq<Elem>>, mem: map<int, int>, own: Owner, poss: seq<int>, ofss: seq<int>) {
    && |trs| == |poss| == |ofss|
    && mem.Keys == own.Keys
    && (forall s :: 0 <= s < |trs| ==>
          && poss[s] == Pos(trs[s], s, |trs[s]|) <= (s + 1) * SECTION_BIAS
          && ofss[s] == EstTo(trs[s], |trs[s]|))
    && (forall s, x :: 0 <= s < |trs| && poss[s] <= x < (s + 1) * SECTION_BIAS ==> x !in mem)
  }

  /** Every label event belongs to the element that caused it. */
  ghost predicate EventsOk(trs: seq<seq<Elem>>, h: seq<Event>, labels: nat) {
    forall i :: 0 <= i < |h| ==>
      var e := h[i];
      && e.pc < labels && e.s < |trs| && e.k < |trs[e.s]|
      && 0 < e.pos == Pos(trs[e.s], e.s, e.k)
      && match trs[e.s][e.k] {
           case Rel(_, pc, ev) => e.Ref? && pc == e.pc && ev == i
           case Label(_, pc, ev) => e.Def? && pc == e.pc && ev == i
           case _ => false
         }
  }

  /** The chain of pending branches that starts at position n, newest first. */
  ghost predicate IsChain(mem: map<int, int>, h: seq<Event>, n: int, c: seq<nat>) {
    && (forall j :: 0 <= j < |c| ==> c[j] < |h| && h[c[j]].Ref? && h[c[j]].pos in mem)
    && (forall i, j :: 0 <= i < j < |c| ==> c[i] > c[j])
    && n == ChainPos(h, c, 0)
    && (forall j :: 0 <= j < |c| ==> mem[h[c[j]].pos] == ChainPos(h, c, j + 1))
  }

  ghost function ChainPos(h: seq<Event>, c: seq<nat>, j: nat): int {
    if j < |c| && c[j] < |h| then h[c[j]].pos else 0
  }

  /** Label pc is either defined, at its latest definition, or anchors the chain of
      all branches that wait for it. */
  ghost predicate LabelOk(mem: map<int, int>, h: seq<Event>, pc: nat, n: int, c: seq<nat>) {
    var d := LastDef(h, |h|, pc);
    if d >= 0 then n == -(h[d].pos as int) && c == []
    else
      && IsChain(mem, h, n, c)
      && (forall i :: 0 <= i < |h| && h[i].Ref? && h[i].pc == pc ==> i in c)
      && (forall j :: 0 <= j < |c| ==> h[c[j]].pc == pc)
  }

  ghost predicate LabelsOk(mem: map<int, int>, h: seq<Event>, pclabels: seq<int>, chains: seq<seq<nat>>) {
    && |chains| == |pclabels|
    && (forall pc :: 0 <= pc < |pclabels| ==> LabelOk(mem, h, pc, pclabels[pc], chains[pc]))
  }

  /** A branch whose label is known holds the position of its definition. */
  ghost predicate ResolvedOk(mem: map<int, int>, h: seq<Event>) {
    forall i :: 0 <= i < |h| && h[i].Ref? && Target(h, i) >= 0 ==>
      h[i].pos in mem && mem[h[i].pos] == h[Target(h, i)].pos
  }

  /** The whole encoding state as a value. */
  datatype View = View(A: seq<uint8>, mem: map<int, int>, pclabels: seq<int>, pos: seq<int>, ofs: seq<int>,
                       trs: seq<seq<Elem>>, own: Owner, hist: seq<Event>, chains: seq<seq<nat>>)
  {
    ghost predicate Ok() {
      && CursorsOk(trs, mem, own, pos, ofs)
      && SlotsOk(trs, mem, own, hist)
      && (forall s :: 0 <= s < |trs| ==> TraceOk(A, trs[s]))
      && EventsOk(trs, hist, |pclabels|)
      && LabelsOk(mem, hist, pclabels, chains)
      && ResolvedOk(mem, hist)
    }

    ghost predicate CanAppend(s: nat, e: Elem) {
      && s < |trs| == |pos| == |ofs|
      && Fits(A, trs[s], e) && pos[s] + e.Slots() <= (s + 1) * SECTION_BIAS
    }

    /** One more element, not a branch or label, whose slot holds `first`. */
    ghost function Append(s: nat, e: Elem, first: int): View
      requires CanAppend(s, e)
    {
      var q := pos[s];
      this.(mem := if e.Slots() > 0 then mem[q := first] else mem,
            own := if e.Slots() > 0 then own[q := (s, |trs[s]|, 0)] else own,
            pos := pos[s := q + e.Slots()], ofs := ofs[s := ofs[s] + e.MaxSize()],
            trs := trs[s := trs[s] + [e]])
    }

    /** One more branch to pc: it takes the label's position, or joins its chain. */
    ghost function Branch(s: nat, p: nat, pc: nat): View
      requires s < |trs| == |pos| == |ofs| && pc < |pclabels| == |chains| && 0 <= pos[s]
    {
      var q, n, k := pos[s], |hist|, |trs[s]|;
      var l := pclabels[pc];
      this.(mem := mem[q := if l < 0 then -l else l][q + 1 := ofs[s] + 4],
            own := own[q := (s, k, 0)][q + 1 := (s, k, 1)],
            pclabels := if l < 0 then pclabels else pclabels[pc := q],
            chains := if l < 0 then chains else chains[pc := [n] + chains[pc]],
            pos := pos[s := q + 2], ofs := ofs[s := ofs[s] + 4],
            trs := trs[s := trs[s] + [Rel(p, pc, n)]], hist := hist + [Ref(q, pc, s, k)])
    }

    /** One more label pc: every branch of its chain gets its position. */
    ghost function Define(s: nat, p: nat, pc: nat): View
      requires s < |trs| == |pos| == |ofs| && pc < |pclabels| == |chains| && 0 <= pos[s]
    {
      var q, k := pos[s], |trs[s]|;
      this.(mem := Collapsed(mem, hist, chains[pc], q)[q := ofs[s]],
            own := own[q := (s, k, 0)],
            pclabels := pclabels[pc := -q], chains := chains[pc := []],
            pos := pos[s := q + 1],
            trs := trs[s := trs[s] + [Label(p, pc, |hist|)]], hist := hist + [Def(q, pc, s, k)])
    }
  }

  ghost function Positions(h: seq<Event>, c: seq<nat>): set<int> {
    set j | 0 <= j < |c| && c[j] < |h| :: h[c[j]].pos as int
  }

  /** Memory after every branch of chain c got position q. */
  ghost function Collapsed(mem: map<int, int>, h: seq<Event>, c: seq<nat>, q: int): map<int, int> {
    map x | x in mem :: if x in Positions(h, c) then q else mem[x]
  }

  lemma OkShape(v: View)
    requires v.Ok()
    ensures |v.trs| == |v.pos| == |v.ofs| && |v.chains| == |v.pclabels|
    ensures forall s :: 0 <= s < |v.pos| ==> 0 <= v.pos[s] && 0 <= v.ofs[s]
  {
  }

  lemma BranchOk(v: View, s: nat, p: nat, pc: nat)
    requires v.Ok() && pc < |v.pclabels| && v.CanAppend(s, Rel(p, pc, |v.hist|))
    ensures v.Branch(s, p, pc).Ok()
  {
    BranchCursorsOk(v, s, p, pc);
    BranchSlotsOk(v, s, p, pc);
    BranchEventsOk(v, s, p, pc);
    BranchLabels(v, s, p, pc);
    hide CursorsOk, SlotsOk, TraceOk, EventsOk, LabelsOk, ResolvedOk;
  }

  /** A section with elements begins with the slot of a put. */
  lemma StartsPositive(v: View, s: nat)
    requires v.Ok() && s < |v.trs| && v.trs[s] != []
    ensures v.pos[s] > 0
  {
    assert TraceOk(v.A, v.trs[s]);
    hide SlotsOk, EventsOk, LabelsOk, ResolvedOk;
    SlotsMonotone(v.trs[s], 0, |v.trs[s]|);
  }

  lemma BranchCursorsOk(v: View, s: nat, p: nat, pc: nat)
    requires v.Ok() && pc < |v.pclabels| && v.CanAppend(s, Rel(p, pc, |v.hist|))
    ensures var w := v.Branch(s, p, pc); CursorsOk(w.trs, w.mem, w.own, w.pos, w.ofs)
    ensures v.pos[s] > 0 && v.pos[s] !in v.mem && v.pos[s] + 1 !in v.mem
  {
    hide SlotsOk, TraceOk, EventsOk, LabelsOk, ResolvedOk;
    OkShape(v);
    StartsPositive(v, s);
    var w := v.Branch(s, p, pc);
    CursorsExtended(v.trs, v.mem, v.own, v.pos, v.ofs, s, Rel(p, pc, |v.hist|), w.mem, w.own);
  }

  lemma BranchSlotsOk(v: View, s: nat, p: nat, pc: nat)
    requires v.Ok() && pc < |v.pclabels| && v.CanAppend(s, Rel(p, pc, |v.hist|))
    ensures var w := v.Branch(s, p, pc); SlotsOk(w.trs, w.mem, w.own, w.hist)
  {
    BranchCursorsOk(v, s, p, pc);
    assert v.pos[s] == Pos(v.trs[s], s, |v.trs[s]|) && v.ofs[s] == EstTo(v.trs[s], |v.trs[s]|) && v.mem.Keys == v.own.Keys;
    hide CursorsOk, TraceOk, EventsOk, LabelsOk, ResolvedOk, SlotsOk;
    var e := Rel(p, pc, |v.hist|);
    var w := v.Branch(s, p, pc);
    NewRelSlot(v.trs[s], e, w.mem, w.own, w.hist, s);
    SlotsExtended(v.trs, v.mem, v.own, v.hist, s, e, w.mem, w.own, w.hist);
  }

  lemma BranchEventsOk(v: View, s: nat, p: nat, pc: nat)
    requires v.Ok() && pc < |v.pclabels| && v.CanAppend(s, Rel(p, pc, |v.hist|))
    ensures var w := v.Branch(s, p, pc);
            EventsOk(w.trs, w.hist, |w.pclabels|) && forall t :: 0 <= t < |w.trs| ==> TraceOk(w.A, w.trs[t])
  {
    BranchCursorsOk(v, s, p, pc);
    var e := Rel(p, pc, |v.hist|);
    var w := v.Branch(s, p, pc);
    TraceExtended(v.A, v.trs[s], e);
    EventsExtended(v.trs, v.hist, |v.pclabels|, s, e);
    PrefixesStable(v.trs[s], e);
    hide SlotsOk, TraceOk, EventsOk, LabelsOk, ResolvedOk;
    EventsAfter(w.trs, v.hist, Ref(v.pos[s], pc, s, |v.trs[s]|), |v.pclabels|);
  }

  lemma NewRelSlot(tr: seq<Elem>, e: Elem, mem: map<int, int>, own: Owner, h: seq<Event>, s: nat)
    requires e.Rel? && e.ev < |h|
    requires var q := Pos(tr, s, |tr|);
             && q in mem && q + 1 in mem && mem[q + 1] == EstTo(tr, |tr|) + 4
             && q in own && own[q] == (s, |tr|, 0) && q + 1 in own && own[q + 1] == (s, |tr|, 1)
             && h[e.ev] == Ref(q, e.pc, s, |tr|)
    ensures SlotOk(tr + [e], mem, own, h, s, |tr|)
  {
    PrefixesStable(tr, e);
  }

  lemma BranchLabels(v: View, s: nat, p: nat, pc: nat)
    requires v.Ok() && pc < |v.pclabels| && v.CanAppend(s, Rel(p, pc, |v.hist|)) && v.pos[s] > 0
    ensures var w := v.Branch(s, p, pc); LabelsOk(w.mem, w.hist, w.pclabels, w.chains) && ResolvedOk(w.mem, w.hist)
  {
    hide SlotsOk, TraceOk;
    var w := v.Branch(s, p, pc);
    var ev := Ref(v.pos[s], pc, s, |v.trs[s]|);
    assert forall i :: 0 <= i < |v.hist| ==> v.hist[i].pos > 0;
    LabelsFramed(v.mem, w.mem, v.hist, v.pclabels, v.chains);
    hide View.Ok, CursorsOk, EventsOk, LabelsOk, ResolvedOk;
    LabelsAfterRef(w.mem, v.hist, ev, v.pclabels, v.chains);
  }

  /** All labels, and what is resolved, after a branch at ev.pos whose slots are stored. */
  lemma LabelsAfterRef(mem: map<int, int>, h: seq<Event>, ev: Event, pclabels: seq<int>, chains: seq<seq<nat>>)
    requires ev.Ref? && ev.pc < |pclabels| && LabelsOk(mem, h, pclabels, chains) && ResolvedOk(mem, h)
    requires forall i :: 0 <= i < |h| ==> h[i].pos > 0
    requires ev.pos > 0 && ev.pos in mem
    requires var n := pclabels[ev.pc]; mem[ev.pos] == if n < 0 then -n else n
    ensures var n := pclabels[ev.pc];
            && LabelsOk(mem, h + [ev], if n < 0 then pclabels else pclabels[ev.pc := ev.pos],
                        if n < 0 then chains else chains[ev.pc := [|h|] + chains[ev.pc]])
            && ResolvedOk(mem, h + [ev])
  {
    hide ResolvedOk;
    var n, pc := pclabels[ev.pc], ev.pc;
    var pclabels', chains' := if n < 0 then pclabels else pclabels[pc := ev.pos],
        if n < 0 then chains else chains[pc := [|h|] + chains[pc]];
    forall c | 0 <= c < |pclabels'|
      ensures LabelOk(mem, h + [ev], c, pclabels'[c], chains'[c])
    {
      assert LabelOk(mem, h, c, pclabels[c], chains[c]);
      hide LabelOk;
      if c == pc {
        LabelAfterRef(mem, h, ev, pclabels[c], chains[c]);
      } else {
        LabelAfterOther(mem, h, ev, c, pclabels[c], chains[c]);
      }
    }
    assert LabelOk(mem, h, pc, pclabels[pc], chains[pc]);
    ResolvedAfterRef(mem, h, ev, pclabels[pc], chains[pc]);
  }

  lemma LabelAfterOther(mem: map<int, int>, h: seq<Event>, e: Event, pc: nat, n: int, c: seq<nat>)
    requires LabelOk(mem, h, pc, n, c) && e.pc != pc
    ensures LabelOk(mem, h + [e], pc, n, c)
  {
    LastDefStable(h, e, |h|, pc);
  }

  lemma LabelAfterRef(mem: map<int, int>, h: seq<Event>, e: Event, n: int, c: seq<nat>)
    requires LabelOk(mem, h, e.pc, n, c) && e.Ref? && e.pos in mem
    requires forall i :: 0 <= i < |h| ==> h[i].pos > 0
    requires mem[e.pos] == if n < 0 then -n else n
    ensures n < 0 ==> LabelOk(mem, h + [e], e.pc, n, c)
    ensures n >= 0 ==> LabelOk(mem, h + [e], e.pc, e.pos, [|h|] + c)
  {
    LastDefStable(h, e, |h|, e.pc);
    if n >= 0 {
      var h', c' := h + [e], [|h|] + c;
      ChainGrows(mem, h, e, n, c);
      forall i | 0 <= i < |h'| && h'[i].Ref? && h'[i].pc == e.pc ensures i in c' {
        if i == |h| { assert c'[0] == i; } else { assert i in c; }
      }
      forall j | 0 <= j < |c'| ensures h'[c'[j]].pc == e.pc {
        if j > 0 { assert c'[j] == c[j - 1]; }
      }
    }
  }

  lemma ChainGrows(mem: map<int, int>, h: seq<Event>, e: Event, n: int, c: seq<nat>)
    requires IsChain(mem, h, n, c) && e.Ref? && e.pos in mem && mem[e.pos] == n
    ensures IsChain(mem, h + [e], e.pos, [|h|] + c)
  {
    var h', c' := h + [e], [|h|] + c;
    forall j | 0 <= j < |c'|
      ensures c'[j] < |h'| && h'[c'[j]].Ref? && h'[c'[j]].pos in mem
      ensures mem[h'[c'[j]].pos] == ChainPos(h', c', j + 1)
    {
      if j > 0 { assert c'[j] == c[j - 1]; }
    }
  }

  lemma ResolvedAfterRef(mem: map<int, int>, h: seq<Event>, e: Event, n: int, c: seq<nat>)
    requires LabelOk(mem, h, e.pc, n, c) && e.Ref? && e.pos in mem && ResolvedOk(mem, h)
    requires forall i :: 0 <= i < |h| ==> h[i].pos > 0
    requires mem[e.pos] == if n < 0 then -n else n
    ensures ResolvedOk(mem, h + [e])
  {
    forall i | 0 <= i < |h + [e]| && (h + [e])[i].Ref? && Target(h + [e], i) >= 0
      ensures (h + [e])[i].pos in mem && mem[(h + [e])[i].pos] == (h + [e])[Target(h + [e], i)].pos
    {
      if i < |h| {
        TargetAfter(h, e, i);
      } else {
        LastDefStable(h, e, |h|, e.pc);
      }
    }
  }

  lemma EventsAfter(trs: seq<seq<Elem>>, h: seq<Event>, e: Event, labels: nat)
    requires EventsOk(trs, h, labels)
    requires e.pc < labels && e.s < |trs| && e.k < |trs[e.s]| && 0 < e.pos == Pos(trs[e.s], e.s, e.k)
    requires match trs[e.s][e.k] {
        case Rel(_, pc, ev) => e.Ref? && pc == e.pc && ev == |h|
        case Label(_, pc, ev) => e.Def? && pc == e.pc && ev == |h|
        case _ => false
      }
    ensures EventsOk(trs, h + [e], labels)
  {
  }

  /** Distinct events have distinct positions. */
  lemma EventPositions(v: View, i: nat, j: nat)
    requires v.Ok() && i < |v.hist| && j < |v.hist| && v.hist[i].pos == v.hist[j].pos
    ensures i == j
  {
    var e, f := v.hist[i], v.hist[j];
    assert SlotOk(v.trs[e.s], v.mem, v.own, v.hist, e.s, e.k);
    assert SlotOk(v.trs[f.s], v.mem, v.own, v.hist, f.s, f.k);
  }

  /** Collapsing a chain writes to the first slots of branches only. */
  lemma CollapseKeepsSlots(v: View, c: seq<nat>, q: int)
    requires v.Ok() && forall j :: 0 <= j < |c| ==> c[j] < |v.hist| && v.hist[c[j]].Ref?
    ensures SlotsOk(v.trs, Collapsed(v.mem, v.hist, c, q), v.own, v.hist)
  {
    var mem' := Collapsed(v.mem, v.hist, c, q);
    forall s, k | 0 <= s < |v.trs| && 0 <= k < |v.trs[s]|
      ensures SlotOk(v.trs[s], mem', v.own, v.hist, s, k)
    {
      CollapseKeepsSlot(v, c, q, s, k);
    }
  }

  lemma CollapseKeepsSlot(v: View, c: seq<nat>, q: int, s: nat, k: nat)
    requires v.Ok() && forall j :: 0 <= j < |c| ==> c[j] < |v.hist| && v.hist[c[j]].Ref?
    requires s < |v.trs| && k < |v.trs[s]|
    ensures SlotOk(v.trs[s], Collapsed(v.mem, v.hist, c, q), v.own, v.hist, s, k)
  {
    assert SlotOk(v.trs[s], v.mem, v.own, v.hist, s, k);
    forall x | x in Positions(v.hist, c)
      ensures x in v.own && v.own[x].2 == 0 && v.own[x].0 < |v.trs| && v.own[x].1 < |v.trs[v.own[x].0]|
      ensures v.trs[v.own[x].0][v.own[x].1].Rel?
    {
      var j :| 0 <= j < |c| && c[j] < |v.hist| && v.hist[c[j]].pos == x;
      var e := v.hist[c[j]];
      assert SlotOk(v.trs[e.s], v.mem, v.own, v.hist, e.s, e.k);
    }
  }

  /** Collapsing the chain of one label leaves the chains of the others alone. */
  lemma CollapseKeepsOther(v: View, pc: nat, q: int, pc': nat)
    requires v.Ok() && pc < |v.pclabels| && pc' < |v.pclabels| && pc != pc'
    ensures LabelOk(Collapsed(v.mem, v.hist, v.chains[pc], q), v.hist, pc', v.pclabels[pc'], v.chains[pc'])
  {
    var h, c, c' := v.hist, v.chains[pc], v.chains[pc'];
    assert LabelOk(v.mem, h, pc', v.pclabels[pc'], c') && LabelOk(v.mem, h, pc, v.pclabels[pc], c);
    forall j | 0 <= j < |c'| ensures h[c'[j]].pos !in Positions(h, c) {
      NotCollapsed(v, pc, c'[j]);
    }
  }

  lemma NotCollapsed(v: View, pc: nat, i: nat)
    requires v.Ok() && pc < |v.pclabels| && i < |v.hist| && v.hist[i].pc != pc
    ensures v.hist[i].pos !in Positions(v.hist, v.chains[pc])
  {
    assert LabelOk(v.mem, v.hist, pc, v.pclabels[pc], v.chains[pc]);
    if v.hist[i].pos in Positions(v.hist, v.chains[pc]) {
      var j :| 0 <= j < |v.chains[pc]| && v.chains[pc][j] < |v.hist| && v.hist[v.chains[pc][j]].pos == v.hist[i].pos;
      EventPositions(v, i, v.chains[pc][j]);
    }
  }

  lemma CollapseResolves(v: View, pc: nat, e: Event)
    requires v.Ok() && pc < |v.pclabels| && e.Def? && e.pc == pc
    ensures ResolvedOk(Collapsed(v.mem, v.hist, v.chains[pc], e.pos), v.hist + [e])
  {
    hide SlotsOk, CursorsOk, TraceOk, EventsOk;
    var h, c := v.hist, v.chains[pc];
    var mem', h' := Collapsed(v.mem, h, c, e.pos), h + [e];
    assert LabelOk(v.mem, h, pc, v.pclabels[pc], c);
    forall i | 0 <= i < |h'| && h'[i].Ref? && Target(h', i) >= 0
      ensures h'[i].pos in mem' && mem'[h'[i].pos] == h'[Target(h', i)].pos
    {
      TargetAfter(h, e, i);
      if Target(h, i) < 0 {
        var j :| 0 <= j < |c| && c[j] == i;
        assert h[i].pos in Positions(h, c);
      } else if h[i].pc != pc {
        NotCollapsed(v, pc, i);
      } else {
        assert c == [];
      }
    }
  }

  /** A label anchors its chain; a defined one has none left. */
  lemma ChainHead(v: View, pc: nat, q: int)
    requires v.Ok() && pc < |v.pclabels|
    ensures var n, c := v.pclabels[pc], v.chains[pc];
            if n > 0 then n == ChainPos(v.hist, c, 0) && c != [] else c == []
    ensures Collapsed(v.mem, v.hist, [], q) == v.mem
  {
    assert LabelOk(v.mem, v.hist, pc, v.pclabels[pc], v.chains[pc]);
    assert Positions(v.hist, []) == {};
  }

  lemma PositionsSnoc(h: seq<Event>, c: seq<nat>, j: nat)
    requires j < |c| && c[j] < |h|
    ensures Positions(h, c[..j + 1]) == Positions(h, c[..j]) + {h[c[j]].pos}
  {
    var x := h[c[j]].pos as int;
    forall y | y in Positions(h, c[..j + 1]) ensures y in Positions(h, c[..j]) + {x} {
      var i :| 0 <= i < |c[..j + 1]| && c[..j + 1][i] < |h| && h[c[..j + 1][i]].pos == y;
      if i < j { assert c[..j][i] == c[i]; }
    }
    forall y | y in Positions(h, c[..j]) ensures y in Positions(h, c[..j + 1]) {
      var i :| 0 <= i < |c[..j]| && c[..j][i] < |h| && h[c[..j][i]].pos == y;
      assert c[..j + 1][i] == c[i];
    }
    assert c[..j + 1][j] == c[j];
  }

  /** One step of walking and collapsing a chain. */
  lemma ChainStep(v: View, pc: nat, j: nat, q: int)
    requires v.Ok() && pc < |v.pclabels| == |v.chains| && j < |v.chains[pc]|
    ensures var h, c := v.hist, v.chains[pc];
            var m, x := Collapsed(v.mem, h, c[..j], q), ChainPos(h, c, j);
            && x > 0 && x in m && m[x] == ChainPos(h, c, j + 1)
            && (j + 1 < |c| ==> m[x] > 0) && (j + 1 == |c| ==> m[x] == 0)
            && Collapsed(v.mem, h, c[..j + 1], q) == m[x := q]
  {
    hide View.Ok;
    OkShape(v);
    var h, c := v.hist, v.chains[pc];
    ChainAt(v, pc, j);
    if j + 1 < |c| { ChainAt(v, pc, j + 1); }
    var x := ChainPos(h, c, j);
    if x in Positions(h, c[..j]) {
      var i :| 0 <= i < |c[..j]| && c[..j][i] < |h| && h[c[..j][i]].pos == x;
      ChainAt(v, pc, i);
      EventPositions(v, c[i], c[j]);
    }
    PositionsSnoc(h, c, j);
  }

  lemma ChainAt(v: View, pc: nat, j: nat)
    requires v.Ok() && pc < |v.pclabels| == |v.chains| && j < |v.chains[pc]|
    ensures var h, c := v.hist, v.chains[pc];
            && c[j] < |h| && 0 < ChainPos(h, c, j) == h[c[j]].pos && h[c[j]].pos in v.mem
            && v.mem[h[c[j]].pos] == ChainPos(h, c, j + 1)
            && (forall i :: 0 <= i < j ==> c[i] != c[j])
  {
    assert LabelOk(v.mem, v.hist, pc, v.pclabels[pc], v.chains[pc]);
  }

  lemma DefineOk(v: View, s: nat, p: nat, pc: nat)
    requires v.Ok() && pc < |v.pclabels| && v.CanAppend(s, Label(p, pc, |v.hist|))
    ensures v.Define(s, p, pc).Ok()
  {
    var n, q, k := |v.hist|, v.pos[s], |v.trs[s]|;
    var e, ev := Label(p, pc, n), Def(q, pc, s, k);
    var w := v.Define(s, p, pc);
    var mem1 := Collapsed(v.mem, v.hist, v.chains[pc], q);
    PrefixesStable(v.trs[s], e);
    SlotsMonotone(v.trs[s], 0, k);
    assert LabelOk(v.mem, v.hist, pc, v.pclabels[pc], v.chains[pc]);
    CursorsExtended(v.trs, v.mem, v.own, v.pos, v.ofs, s, e, w.mem, w.own);
    assert w.trs[s] == v.trs[s] + [e];
    CollapseKeepsSlots(v, v.chains[pc], q);
    NewLabelSlot(v.trs[s], e, w.mem, w.own, w.hist, s);
    SlotsExtended(v.trs, mem1, v.own, v.hist, s, e, w.mem, w.own, w.hist);
    TraceExtended(v.A, v.trs[s], e);
    EventsExtended(v.trs, v.hist, |v.pclabels|, s, e);
    EventsAfter(w.trs, v.hist, ev, |v.pclabels|);
    DefineLabels(v, s, p, pc);
  }

  lemma NewLabelSlot(tr: seq<Elem>, e: Elem, mem: map<int, int>, own: Owner, h: seq<Event>, s: nat)
    requires e.Label? && e.ev < |h|
    requires var q := Pos(tr, s, |tr|);
             && q in mem && mem[q] == EstTo(tr, |tr|) && q in own && own[q] == (s, |tr|, 0)
             && h[e.ev] == Def(q, e.pc, s, |tr|)
    ensures SlotOk(tr + [e], mem, own, h, s, |tr|)
  {
    PrefixesStable(tr, e);
  }

  lemma DefineLabels(v: View, s: nat, p: nat, pc: nat)
    requires v.Ok() && pc < |v.pclabels| && v.CanAppend(s, Label(p, pc, |v.hist|)) && v.pos[s] > 0
    ensures var w := v.Define(s, p, pc); LabelsOk(w.mem, w.hist, w.pclabels, w.chains) && ResolvedOk(w.mem, w.hist)
  {
    var q := v.pos[s];
    var w, ev := v.Define(s, p, pc), Def(q, pc, s, |v.trs[s]|);
    var mem1 := Collapsed(v.mem, v.hist, v.chains[pc], q);
    CollapseResolves(v, pc, ev);
    assert ResolvedOk(w.mem, w.hist);
    forall c | 0 <= c < |w.pclabels|
      ensures LabelOk(w.mem, w.hist, c, w.pclabels[c], w.chains[c])
    {
      if c == pc {
        assert LastDef(w.hist, |w.hist|, pc) == |v.hist|;
      } else {
        CollapseKeepsOther(v, pc, q, c);
        LabelAfterOther(mem1, v.hist, ev, c, v.pclabels[c], v.chains[c]);
      }
    }
  }

  lemma AppendOk(v: View, s: nat, e: Elem, first: int)
    requires v.Ok() && v.CanAppend(s, e) && !e.Rel? && !e.Label?
    requires e.Start? ==> first == e.p
    requires e.Align? ==> first == v.ofs[s] + e.mask
    ensures v.Append(s, e, first).Ok()
  {
    var w := v.Append(s, e, first);
    PrefixesStable(v.trs[s], e);
    CursorsExtended(v.trs, v.mem, v.own, v.pos, v.ofs, s, e, w.mem, w.own);
    assert SlotOk(v.trs[s] + [e], w.mem, w.own, v.hist, s, |v.trs[s]|);
    SlotsExtended(v.trs, v.mem, v.own, v.hist, s, e, w.mem, w.own, v.hist);
    TraceExtended(v.A, v.trs[s], e);
    EventsExtended(v.trs, v.hist, |v.pclabels|, s, e);
    LabelsFramed(v.mem, w.mem, v.hist, v.pclabels, v.chains);
  }

  // ---- What one more element keeps ----

  /** Element e may follow the trace. */
  ghost predicate Fits(A: seq<uint8>, tr: seq<Elem>, e: Elem) {
    && Decodes(A, e) && BehindOpcode(tr + [e], |tr|)
    && if tr == [] then e.Start?
       else if e.Start? then Ends(A, tr[|tr| - 1].Next())
       else e.p == tr[|tr| - 1].Next()
  }

  ghost predicate Agrees<K, V>(m: map<K, V>, m': map<K, V>) {
    forall x :: x in m ==> x in m' && m'[x] == m[x]
  }

  lemma PrefixesStable(tr: seq<Elem>, e: Elem)
    ensures forall k :: 0 <= k <= |tr| ==> SlotsTo(tr + [e], k) == SlotsTo(tr, k) && EstTo(tr + [e], k) == EstTo(tr, k)
    ensures SlotsTo(tr + [e], |tr| + 1) == SlotsTo(tr, |tr|) + e.Slots()
    ensures EstTo(tr + [e], |tr| + 1) == EstTo(tr, |tr|) + e.MaxSize()
  {
    forall k | 0 <= k <= |tr|
      ensures SlotsTo(tr + [e], k) == SlotsTo(tr, k) && EstTo(tr + [e], k) == EstTo(tr, k)
    {
      PrefixStable(tr, [e], k);
    }
  }

  lemma TraceExtended(A: seq<uint8>, tr: seq<Elem>, e: Elem)
    requires TraceOk(A, tr) && Fits(A, tr, e)
    ensures TraceOk(A, tr + [e])
  {
    forall k | 0 <= k < |tr + [e]|
      ensures Decodes(A, (tr + [e])[k]) && BehindOpcode(tr + [e], k)
    {
      if k < |tr| { assert BehindOpcode(tr, k); }
    }
  }

  lemma SlotsExtended(trs: seq<seq<Elem>>, mem: map<int, int>, own: Owner, h: seq<Event>, s: nat, e: Elem,
                      mem': map<int, int>, own': Owner, h': seq<Event>)
    requires s < |trs| && SlotsOk(trs, mem, own, h)
    requires Agrees(mem, mem') && Agrees(own, own') && h <= h'
    requires SlotOk(trs[s] + [e], mem', own', h', s, |trs[s]|)
    ensures SlotsOk(trs[s := trs[s] + [e]], mem', own', h')
  {
    var trs' := trs[s := trs[s] + [e]];
    PrefixesStable(trs[s], e);
    forall s1, k1 | 0 <= s1 < |trs'| && 0 <= k1 < |trs'[s1]|
      ensures SlotOk(trs'[s1], mem', own', h', s1, k1)
    {
      if k1 < |trs[s1]| { assert SlotOk(trs[s1], mem, own, h, s1, k1); }
    }
  }

  lemma CursorsExtended(trs: seq<seq<Elem>>, mem: map<int, int>, own: Owner, pos: seq<int>, ofs: seq<int>,
                        s: nat, e: Elem, mem': map<int, int>, own': Owner)
    requires s < |trs| && CursorsOk(trs, mem, own, pos, ofs)
    requires pos[s] + e.Slots() <= (s + 1) * SECTION_BIAS
    requires mem'.Keys == own'.Keys
    requires forall x :: x in mem' ==> x in mem || pos[s] <= x < pos[s] + e.Slots()
    ensures CursorsOk(trs[s := trs[s] + [e]], mem', own', pos[s := pos[s] + e.Slots()], ofs[s := ofs[s] + e.MaxSize()])
  {
    PrefixesStable(trs[s], e);
  }

  lemma EventsExtended(trs: seq<seq<Elem>>, h: seq<Event>, labels: nat, s: nat, e: Elem)
    requires s < |trs| && EventsOk(trs, h, labels)
    ensures EventsOk(trs[s := trs[s] + [e]], h, labels)
  {
    PrefixesStable(trs[s], e);
  }

  /** Labels and branches do not notice slots that are not theirs. */
  lemma LabelsFramed(mem: map<int, int>, mem': map<int, int>, h: seq<Event>, pclabels: seq<int>, chains: seq<seq<nat>>)
    requires LabelsOk(mem, h, pclabels, chains) && ResolvedOk(mem, h) && Agrees(mem, mem')
    ensures LabelsOk(mem', h, pclabels, chains) && ResolvedOk(mem', h)
  {
    forall pc | 0 <= pc < |pclabels|
      ensures LabelOk(mem', h, pc, pclabels[pc], chains[pc])
    {
      assert LabelOk(mem, h, pc, pclabels[pc], chains[pc]);
    }
  }
}
