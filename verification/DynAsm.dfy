/** The three passes of the DynASM x86 encoder over its encoding state. */
module DynAsm {
  import opened DynAsmLayout
  import opened DynAsmLabels
  import opened DynAsmState
  import opened DynAsmLinking
  import opened DynAsmCode

  function SlotsOf(es: seq<Elem>): nat {
    if es == [] then 0 else es[0].Slots() + SlotsOf(es[1..])
  }

  /** The put has come to action p; `prev` and `last` are the two bytes behind it. */
  ghost predicate AtEnd(tr: seq<Elem>, p: nat, prev: int, last: int) {
    && tr != [] && tr[|tr| - 1].Next() == p
    && (last >= 0 ==> tr[|tr| - 1].Emits() && tr[|tr| - 1].b == last)
    && (prev >= 0 ==> |tr| > 1 && tr[|tr| - 2].Emits() && tr[|tr| - 2].b == prev)
  }

  lemma Reassociate(tr: seq<Elem>, e: Elem, rest: seq<Elem>)
    ensures (tr + [e]) + rest == tr + ([e] + rest)
    ensures SlotsOf([e] + rest) == e.Slots() + SlotsOf(rest)
  {
    assert ([e] + rest)[1..] == rest;
  }

  class State {
    const actionlist: seq<uint8>
    var mem: map<int, int>      // all section buffers, by biased position
    var pclabels: seq<int>      // chain anchors (> 0), label positions (< 0), unused (0)
    var section: nat            // active section
    var pos: seq<int>           // per section: biased buffer position
    var ofs: seq<int>           // per section: uint8 offset
    var codesize: nat
    ghost var trs: seq<seq<Elem>>
    ghost var own: Owner
    ghost var hist: seq<Event>
    ghost var chains: seq<seq<nat>>
    ghost var lay: Layout       // final layout, from link on

    ghost function V(): View
      reads this
    {
      View(actionlist, mem, pclabels, pos, ofs, trs, own, hist, chains)
    }

    /** Between two puts. */
    ghost predicate Valid()
      reads this
    {
      V().Ok() && section < |trs| && forall s :: 0 <= s < |trs| ==> Closed(actionlist, trs[s])
    }

    constructor (actionlist: seq<uint8>, maxsection: nat, maxpc: nat)
      requires maxsection > 0
      ensures Valid()
      ensures this.actionlist == actionlist && |trs| == maxsection && |pclabels| == maxpc
      ensures section == 0 && hist == [] && forall s :: 0 <= s < maxsection ==> trs[s] == []
    {
      this.actionlist := actionlist;
      mem, own := map[], map[];
      pclabels, chains := seq(maxpc, _ => 0), seq(maxpc, _ => []);
      section, codesize := 0, 0;
      pos := seq(maxsection, s => s * SECTION_BIAS);
      ofs := seq(maxsection, _ => 0);
      trs := seq(maxsection, _ => []);
      hist := [];
      lay := Layout([], []);
    }

    /** Pass 1: stores the actions and label arguments of one put in the active
        section, links branches and labels, estimates offsets. */
    method Put(start: nat, args: seq<nat>)
      requires Valid()
      requires Runs(actionlist, start, -1, -1, args, |pclabels|, |trs|)
      requires pos[section] + 1 + SlotsOf(Decoded(actionlist, start, args, |hist|)) <= (section + 1) * SECTION_BIAS
      modifies this
      ensures Valid()
      ensures trs == old(trs[section := trs[section] + [Start(start)] + Decoded(actionlist, start, args, |hist|)])
      ensures section == SectionAfter(actionlist, start, old(section))
      ensures old(hist) <= hist && |hist| == |old(hist)| + |args|
      ensures |pclabels| == old(|pclabels|)
    {
      hide View.Ok, Runs, Decoded, SectionAfter;
      OkShape(V());
      RunsEnd(actionlist, start, -1, -1, args, |pclabels|, |trs|, |hist|, section);
      ghost var tr := trs[section] + [Start(start)];
      AppendOk(V(), section, Start(start), start);
      Store(section, Start(start), start);
      var p := PutActions(start, args);
      if actionlist[p] == DASM_SECTION {
        section := actionlist[p + 1];
      }
    }

    /** The actions of a put, up to its end. */
    method PutActions(start: nat, args: seq<nat>) returns (p: nat)
      requires V().Ok() && section < |trs| == |pos|
      requires Runs(actionlist, start, -1, -1, args, |pclabels|, |trs|)
      requires AtEnd(trs[section], start, -1, -1)
      requires pos[section] + SlotsOf(Decoded(actionlist, start, args, |hist|)) <= (section + 1) * SECTION_BIAS
      modifies this
      ensures V().Ok() && section == old(section)
      ensures trs == old(trs[section := trs[section] + Decoded(actionlist, start, args, |hist|)])
      ensures old(hist) <= hist && |hist| == |old(hist)| + |args|
      ensures |pclabels| == old(|pclabels|)
      ensures Ends(actionlist, p) && Closed(actionlist, trs[section])
      ensures if actionlist[p] == DASM_STOP then SectionAfter(actionlist, start, section) == section
              else p + 1 < |actionlist| && actionlist[p + 1] < |trs|
                   && SectionAfter(actionlist, start, section) == actionlist[p + 1]
    {
      hide View.Ok, Runs, Decoded, SectionAfter;
      OkShape(V());
      var sec := section;
      var ap := args;
      p := start;
      ghost var prev, last := -1, -1;
      ghost var todo := Decoded(actionlist, start, args, |hist|);
      RunsEnd(actionlist, start, -1, -1, args, |pclabels|, |trs|, |hist|, sec);
      while actionlist[p] != DASM_STOP && actionlist[p] != DASM_SECTION
        invariant V().Ok() && sec == section < |trs| == |pos| == |ofs|
        invariant p < |actionlist|
        invariant Runs(actionlist, p, prev, last, ap, |pclabels|, |trs|)
        invariant todo == Decoded(actionlist, p, ap, |hist|)
        invariant trs == old(trs)[sec := trs[sec]]
        invariant trs[sec] + todo == old(trs[section] + Decoded(actionlist, start, args, |hist|))
        invariant pos[sec] + SlotsOf(todo) <= (sec + 1) * SECTION_BIAS
        invariant AtEnd(trs[sec], p, prev, last)
        invariant old(hist) <= hist && |hist| == |old(hist)| + |args| - |ap|
        invariant |pclabels| == old(|pclabels|)
        invariant SectionAfter(actionlist, p, sec) == SectionAfter(actionlist, start, sec)
        decreases |actionlist| - p
      {
        RunsStep(actionlist, p, prev, last, ap, |pclabels|, |trs|, |hist|, sec);
        ghost var tr, e := trs[sec], todo[0];
        Reassociate(tr, e, todo[1..]);
        todo := todo[1..];
        prev, last := if e.Emits() then last else -1, if e.Emits() then e.b else -1;
        p, ap := PutAction(sec, p, ap);
        RunsEnd(actionlist, p, prev, last, ap, |pclabels|, |trs|, |hist|, sec);
      }
      RunsEnd(actionlist, p, prev, last, ap, |pclabels|, |trs|, |hist|, sec);
      assert trs[sec] + [] == trs[sec];
    }

    /** One action of a put; `ap` holds the arguments that are left. */
    method PutAction(sec: nat, p: nat, ap: seq<nat>) returns (p': nat, ap': seq<nat>)
      requires V().Ok() && sec < |trs|
      requires Supported(actionlist, p)
      requires TakesLabel(actionlist[p]) ==> ap != [] && ap[0] < |pclabels|
      requires var e := ElemAt(actionlist, p, if ap != [] then ap[0] else 0, |hist|);
               V().CanAppend(sec, e)
      modifies this
      ensures V().Ok() && |trs| == |pos| == |ofs|
      ensures var takes := TakesLabel(actionlist[p]);
              var e := ElemAt(actionlist, p, if ap != [] then ap[0] else 0, |old(hist)|);
              && trs == old(trs[sec := trs[sec] + [e]])
              && pos[sec] == old(pos[sec]) + e.Slots()
              && p' == e.Next() && ap' == (if takes then ap[1..] else ap)
              && old(hist) <= hist && |hist| == |old(hist)| + (if takes then 1 else 0)
      ensures section == old(section) && |pclabels| == old(|pclabels|)
    {
      hide View.Ok;
      OkShape(V());
      var action := actionlist[p];
      p', ap' := p + 1, ap;
      if action < DASM_DISP {
        AppendOk(V(), sec, Byte(p, action), 0);
        Store(sec, Byte(p, action), 0);
      } else if action == DASM_REL_PC {
        BranchOk(V(), sec, p, ap[0]);
        StoreBranch(sec, p, ap[0]);
        ap' := ap[1..];
      } else if action == DASM_LABEL_PC {
        DefineOk(V(), sec, p, ap[0]);
        StoreLabel(sec, p, ap[0]);
        ap' := ap[1..];
      } else if action == DASM_ALIGN {
        var mask := actionlist[p'];
        AppendOk(V(), sec, Align(p, mask), ofs[sec] + mask);
        Store(sec, Align(p, mask), ofs[sec] + mask);
        p' := p + 2;
      } else {
        var b := actionlist[p'];
        AppendOk(V(), sec, Esc(p, b), 0);
        Store(sec, Esc(p, b), 0);
        p' := p + 2;
      }
      OkShape(V());
    }

    /** Stores the slot of an element that is neither branch nor label. */
    method Store(sec: nat, e: Elem, first: int)
      requires V().CanAppend(sec, e)
      modifies this
      ensures V() == old(V().Append(sec, e, first)) && section == old(section)
    {
      ghost var k := |trs[sec]|;
      var q := pos[sec];
      if e.Slots() > 0 {
        mem := mem[q := first];
        own := own[q := (sec, k, 0)];
      }
      pos := pos[sec := q + e.Slots()];
      ofs := ofs[sec := ofs[sec] + e.MaxSize()];
      trs := trs[sec := trs[sec] + [e]];
    }

    /** Stores a branch: the position of its label, or a link of its chain. */
    method StoreBranch(sec: nat, p: nat, pc: nat)
      requires sec < |trs| == |pos| == |ofs| && pc < |pclabels| == |chains| && 0 <= pos[sec]
      modifies this
      ensures V() == old(V().Branch(sec, p, pc)) && section == old(section)
    {
      ghost var k, ev := |trs[sec]|, |hist|;
      var q, n := pos[sec], pclabels[pc];
      if n < 0 {
        mem := mem[q := -n];
      } else {
        mem := mem[q := n];
        pclabels := pclabels[pc := q];
        chains := chains[pc := [ev] + chains[pc]];
      }
      ofs := ofs[sec := ofs[sec] + 4];
      mem := mem[q + 1 := ofs[sec]];
      pos := pos[sec := q + 2];
      own := own[q := (sec, k, 0)][q + 1 := (sec, k, 1)];
      trs := trs[sec := trs[sec] + [Rel(p, pc, ev)]];
      hist := hist + [Ref(q, pc, sec, k)];
    }

    /** Follows the chain of a label and stores the label's position in its branches. */
    method Collapse(pc: nat, q: int)
      requires V().Ok() && pc < |pclabels| == |chains|
      modifies `mem
      ensures mem == Collapsed(old(mem), hist, chains[pc], q)
    {
      hide View.Ok;
      var n := pclabels[pc];
      ghost var v0, j, c := V(), 0, chains[pc];
      ChainHead(v0, pc, q);
      while n > 0
        invariant 0 <= j <= |c|
        invariant mem == Collapsed(v0.mem, hist, c[..j], q)
        invariant if n > 0 then n == ChainPos(hist, c, j) else j == |c|
        decreases |c| - j
      {
        ChainStep(v0, pc, j, q);
        var pb := n;
        n := mem[pb];
        mem := mem[pb := q];
        j := j + 1;
      }
      assert c[..j] == c;
    }

    /** Stores a label: collapses its chain onto the label's position. */
    method StoreLabel(sec: nat, p: nat, pc: nat)
      requires V().Ok() && sec < |trs| && pc < |pclabels|
      modifies this
      ensures V() == old(V().Define(sec, p, pc)) && section == old(section)
    {
      hide View.Ok;
      OkShape(V());
      ghost var k := |trs[sec]|;
      var q := pos[sec];
      Collapse(pc, q);
      mem := mem[q := ofs[sec]];
      pclabels := pclabels[pc := -q];
      chains := chains[pc := []];
      own := own[q := (sec, k, 0)];
      pos := pos[sec := q + 1];
      trs := trs[sec := trs[sec] + [Label(p, pc, |hist|)]];
      hist := hist + [Def(q, pc, sec, k)];
    }

    /** Link has come as far as `lay` from the pass 1 state v. */
    ghost predicate Linking(v: View)
      reads this
    {
      && v.Ok() && AllDefined(v.pclabels)
      && V() == v.(mem := mem)
      && LayoutOk(trs, lay) && LinkOk(v, mem, lay)
      && forall s :: 0 <= s < |trs| ==> Closed(actionlist, trs[s])
    }

    /** Pass 2: links sections, shrinks branches and alignments, fixes labels. */
    method Link() returns (sz: int)
      requires Valid() && AllDefined(pclabels)
      modifies `mem, `lay, `codesize
      ensures Linking(old(V())) && Complete(trs, lay)
      ensures sz == codesize == lay.at[|trs| - 1][|trs[|trs| - 1]|]
    {
      hide View.Ok, LinkOk, Closed;
      ghost var v := V();
      OkShape(v);
      var o := 0;
      LinkStart(v);
      lay := Layout([[]], [[0]]);
      for secnum := 0 to |pos|
        invariant Linking(v)
        invariant secnum < |pos| ==> LinkAt(secnum, 0, secnum * SECTION_BIAS, o)
        invariant secnum == |pos| ==> Complete(trs, lay) && o == lay.at[|trs| - 1][|trs[|trs| - 1]|]
      {
        o := LinkOn(secnum, o, v);
      }
      codesize := o;
      return o;
    }

    /** The layout goes on with the next section. */
    ghost method OpenSection(s: nat, o: int, v: View)
      requires Linking(v) && s + 1 < |trs| && |lay.sh| == s + 1 && |lay.sh[s]| == |trs[s]| && o == lay.at[s][|trs[s]|]
      modifies `lay
      ensures Linking(v) && LinkAt(s + 1, 0, (s + 1) * SECTION_BIAS, o)
    {
      hide View.Ok, LinkOk, Closed;
      NextSection(v, mem, lay);
      lay := Opened(trs, lay);
    }

    /** Links one section, and goes on to the next one. */
    method LinkOn(secnum: nat, o: int, ghost v: View) returns (o': int)
      requires Linking(v) && secnum < |trs| && LinkAt(secnum, 0, secnum * SECTION_BIAS, o)
      modifies `mem, `lay
      ensures Linking(v)
      ensures secnum + 1 < |trs| ==> LinkAt(secnum + 1, 0, (secnum + 1) * SECTION_BIAS, o')
      ensures secnum + 1 == |trs| ==> Complete(trs, lay) && o' == lay.at[|trs| - 1][|trs[|trs| - 1]|]
    {
      hide View.Ok, LinkOk, Closed, LayoutOk;
      OkShape(v);
      o' := LinkSection(secnum, o, v);
      SectionSize(v, secnum);
      o' := o' + ofs[secnum];
      if secnum + 1 < |pos| { OpenSection(secnum, o', v); }
    }

    /** Where link stands: in front of element k of section s, at buffer position q,
        with the correction o of estimated offsets. */
    ghost predicate LinkAt(s: nat, k: nat, q: int, o: int)
      reads this
    {
      && |lay.sh| == |lay.at| == s + 1 <= |trs| && |lay.sh[s]| == k <= |trs[s]| && |lay.at[s]| == k + 1
      && q == Pos(trs[s], s, k) && o + EstTo(trs[s], k) == lay.at[s][k]
    }

    method LinkSection(secnum: nat, o: int, ghost v: View) returns (o': int)
      requires Linking(v) && LinkAt(secnum, 0, secnum * SECTION_BIAS, o)
      modifies `mem, `lay
      ensures Linking(v) && LinkAt(secnum, |trs[secnum]|, pos[secnum], o')
    {
      hide View.Ok, LinkOk;
      ghost var k, tr := 0, trs[secnum];
      SectionEnds(v, secnum, 0);
      var q, lastpos := secnum * SECTION_BIAS, pos[secnum];
      o' := o;
      while q != lastpos
        invariant Linking(v) && k <= |tr| && LinkAt(secnum, k, q, o')
        invariant k < |tr| ==> tr[k].Start?
        invariant (q == lastpos) == (k == |tr|)
        decreases |tr| - k
      {
        StartStep(v, mem, lay, secnum, k);
        var p := mem[q];
        lay := Extend(trs, lay, 0);
        q, o', k := LinkPut(secnum, k + 1, q + 1, p, o', v);
        SectionEnds(v, secnum, k);
      }
    }

    /** The actions of one put. */
    method LinkPut(secnum: nat, ghost k: nat, q: int, p: int, o: int, ghost v: View) returns (q': int, o': int, ghost k': nat)
      requires Linking(v) && LinkAt(secnum, k, q, o)
      requires 0 < k <= |trs[secnum]| && p >= 0 && trs[secnum][k - 1] == Start(p)
      modifies `mem, `lay
      ensures Linking(v) && LinkAt(secnum, k', q', o') && k <= k' <= |trs[secnum]|
      ensures k' < |trs[secnum]| ==> trs[secnum][k'].Start?
    {
      hide View.Ok, LinkOk, LayoutOk;
      ghost var tr := trs[secnum];
      var a := p;
      q', o', k' := q, o, k;
      TraceNext(v, secnum, k);
      while actionlist[a] != DASM_STOP && actionlist[a] != DASM_SECTION
        invariant Linking(v) && k <= k' <= |tr| && LinkAt(secnum, k', q', o')
        invariant 0 <= a < |actionlist| && a == tr[k' - 1].Next()
        invariant Ends(actionlist, a) == (k' == |tr| || tr[k'].Start?)
        invariant k' < |tr| && !Ends(actionlist, a) ==> tr[k'].p == a
        decreases |tr| - k'
      {
        q', a, o' := LinkAction(secnum, k', q', a, o', v);
        k' := k' + 1;
        TraceNext(v, secnum, k');
      }
    }

    method LinkAction(secnum: nat, ghost k: nat, q: int, p: nat, o: int, ghost v: View) returns (q': int, p': nat, o': int)
      requires Linking(v) && LinkAt(secnum, k, q, o)
      requires k < |trs[secnum]| && !trs[secnum][k].Start? && p == trs[secnum][k].p < |actionlist|
      modifies `mem, `lay
      ensures Linking(v) && LinkAt(secnum, k + 1, q', o')
      ensures p' == trs[secnum][k].Next()
    {
      hide View.Ok, LinkOk, LayoutOk, Stores, ShrinkRule, Extend;
      ghost var mem0 := mem;
      ghost var shrink: nat;
      q', p', o', shrink := LinkElement(secnum, k, q, p, o, v);
      Extended(trs, lay, shrink);
      LinkStep(v, mem0, lay, shrink, mem);
      lay := Extend(trs, lay, shrink);
    }

    /** The switch over actions of pass 2. */
    method LinkElement(secnum: nat, ghost k: nat, q: int, p: nat, o: int, ghost v: View)
      returns (q': int, p': nat, o': int, ghost shrink: nat)
      requires Linking(v) && LinkAt(secnum, k, q, o)
      requires k < |trs[secnum]| && !trs[secnum][k].Start? && p == trs[secnum][k].p < |actionlist|
      modifies `mem
      ensures p' == trs[secnum][k].Next() && q' == Pos(trs[secnum], secnum, k + 1)
      ensures shrink <= 4 && Stores(v, old(mem), lay, shrink, mem)
      ensures var L := Extend(trs, lay, shrink);
              && LayoutOk(trs, L) && ShrinkRule(v, L, secnum, k)
              && secnum < |L.at| && |L.at[secnum]| == k + 2 && o' + EstTo(trs[secnum], k + 1) == L.at[secnum][k + 1]
    {
      hide View.Ok, LinkOk, LayoutOk;
      shrink := 0;
      ElementAt(v, mem, lay, secnum, k);
      q', p', o' := q, p + 1, o;
      var action := actionlist[p];
      if action == DASM_REL_PC {
        OpcodeBehind(v, secnum, k);
        var op := actionlist[p - 1];
        var s := LinkBranch(secnum, k, q, op, o, v);
        o' := o - s;
        mem := mem[q + 1 := s];
        q' := q + 2;
        shrink := s;
      } else if action == DASM_LABEL_PC {
        mem := mem[q := mem[q] + o];
        q' := q + 1;
      } else if action == DASM_ALIGN {
        o' := o - And(mem[q] + o, actionlist[p']);
        q' := q + 1;
        p' := p + 2;
      } else if action == DASM_ESC {
        p' := p + 2;
      }
      Decided(v, lay, shrink, secnum, k);
    }

    /** Decides whether branch k of the section takes its short form. */
    method LinkBranch(secnum: nat, ghost k: nat, q: int, op: int, o: int, ghost v: View) returns (shrink: nat)
      requires Linking(v) && LinkAt(secnum, k, q, o)
      requires k < |trs[secnum]| && trs[secnum][k].Rel?
      ensures var w := Weighed(v, lay, secnum, k);
              shrink == if Saving(op) > 0 && -128 - Saving(op) <= w <= 127 then Saving(op) else 0
    {
      hide View.Ok, LinkOk;
      LookUp(v, mem, lay, secnum, k);
      shrink := Saving(op);
      if shrink > 0 {
        var lpos := mem[q];
        var lofs := mem[lpos];
        if lpos > q {
          var last := lpos / SECTION_BIAS;
          var i := secnum;
          while i < last
            invariant secnum <= i <= last
            invariant lofs == mem[lpos] + EstSections(trs, secnum, i)
          {
            EstSectionsSplit(trs, secnum, i);
            SectionSize(v, i);
            lofs := lofs + ofs[i];
            i := i + 1;
          }
        } else {
          lofs := lofs - o;
        }
        lofs := lofs - mem[q + 1];
        if !(-128 - shrink <= lofs <= 127) {
          shrink := 0;
        }
      }
    }

    /** Pass 3: encodes all sections into the buffer. */
    method Encode(buffer: array<uint8>, ghost v: View) returns (status: int)
      requires Linking(v) && Complete(trs, lay)
      requires codesize == lay.at[|trs| - 1][|trs[|trs| - 1]|] <= buffer.Length
      modifies buffer
      ensures status == DASM_S_OK
      ensures Linked(v, lay) && codesize == |Final(v, lay)| && buffer[..codesize] == Final(v, lay)
      ensures buffer[codesize..] == old(buffer[codesize..])
    {
      hide View.Ok, LinkOk;
      LinkedBy(v, mem, lay);
      var cp := 0;
      assert buffer[..0] == [];
      for secnum := 0 to |pos|
        invariant secnum < |pos| ==> CodeAt(v, secnum, 0, cp, buffer)
        invariant secnum == |pos| ==> CodeAt(v, |trs| - 1, |trs[|trs| - 1]|, cp, buffer)
        invariant buffer[codesize..] == old(buffer[codesize..])
      {
        cp := EncodeSection(secnum, cp, buffer, v);
      }
      status := if codesize != cp then DASM_S_PHASE else DASM_S_OK;
    }

    /** The buffer holds the output in front of element k of section s, and cp ends it. */
    ghost predicate CodeAt(v: View, s: nat, k: nat, cp: nat, buffer: array<uint8>)
      requires Linked(v, lay)
      reads this, buffer
    {
      s < |v.trs| && k <= |v.trs[s]| && cp <= buffer.Length && buffer[..cp] == Code(v, lay, s, k)
    }

    /** Encoding may go on: v is linked and the buffer is large enough. */
    ghost predicate Encoding(v: View, buffer: array<uint8>)
      reads this
    {
      && Linking(v) && Complete(trs, lay)
      && codesize == lay.at[|trs| - 1][|trs[|trs| - 1]|] <= buffer.Length
      && Linked(v, lay)
    }

    method EncodeSection(secnum: nat, cp: nat, buffer: array<uint8>, ghost v: View) returns (cp': nat)
      requires Encoding(v, buffer) && CodeAt(v, secnum, 0, cp, buffer)
      modifies buffer
      ensures if secnum + 1 < |trs| then CodeAt(v, secnum + 1, 0, cp', buffer)
              else CodeAt(v, secnum, |trs[secnum]|, cp', buffer)
      ensures buffer[codesize..] == old(buffer[codesize..])
    {
      hide View.Ok, LinkOk, Linked, LayoutOk;
      ghost var k, tr := 0, trs[secnum];
      SectionEnds(v, secnum, 0);
      var q := secnum * SECTION_BIAS;
      cp' := cp;
      while q != pos[secnum]
        invariant k <= |tr| && q == Pos(tr, secnum, k) && CodeAt(v, secnum, k, cp', buffer)
        invariant k < |tr| ==> tr[k].Start?
        invariant (q == pos[secnum]) == (k == |tr|)
        invariant buffer[codesize..] == old(buffer[codesize..])
        decreases |tr| - k
      {
        LinkedSlots(v, mem, lay, secnum, k);
        CodeStep(v, lay, secnum, k);
        var p := mem[q];
        q, cp', k := EncodePut(secnum, k + 1, q + 1, p, cp', buffer, v);
        SectionEnds(v, secnum, k);
      }
      if secnum + 1 < |trs| { CodeStep(v, lay, secnum, |tr|); }
    }

    /** The actions of one put. */
    method EncodePut(secnum: nat, ghost k: nat, q: int, p: int, cp: nat, buffer: array<uint8>, ghost v: View)
      returns (q': int, cp': nat, ghost k': nat)
      requires Encoding(v, buffer) && CodeAt(v, secnum, k, cp, buffer)
      requires q == Pos(trs[secnum], secnum, k)
      requires 0 < k && p >= 0 && trs[secnum][k - 1] == Start(p)
      modifies buffer
      ensures k <= k' <= |trs[secnum]| && CodeAt(v, secnum, k', cp', buffer)
      ensures q' == Pos(trs[secnum], secnum, k')
      ensures k' < |trs[secnum]| ==> trs[secnum][k'].Start?
      ensures buffer[codesize..] == old(buffer[codesize..])
    {
      hide View.Ok, LinkOk, Linked, LayoutOk;
      ghost var tr := trs[secnum];
      var a := p;
      q', cp', k' := q, cp, k;
      TraceNext(v, secnum, k);
      while actionlist[a] != DASM_STOP && actionlist[a] != DASM_SECTION
        invariant k <= k' <= |tr| && q' == Pos(tr, secnum, k') && CodeAt(v, secnum, k', cp', buffer)
        invariant 0 <= a < |actionlist| && a == tr[k' - 1].Next()
        invariant Ends(actionlist, a) == (k' == |tr| || tr[k'].Start?)
        invariant k' < |tr| && !Ends(actionlist, a) ==> tr[k'].p == a
        invariant buffer[codesize..] == old(buffer[codesize..])
        decreases |tr| - k'
      {
        q', a, cp' := EncodeAction(secnum, k', q', a, cp', buffer, v);
        k' := k' + 1;
        TraceNext(v, secnum, k');
      }
    }

    method EncodeAction(secnum: nat, ghost k: nat, q: int, p: nat, cp: nat, buffer: array<uint8>, ghost v: View)
      returns (q': int, p': nat, cp': nat)
      requires Encoding(v, buffer) && CodeAt(v, secnum, k, cp, buffer)
      requires q == Pos(trs[secnum], secnum, k)
      requires k < |trs[secnum]| && !trs[secnum][k].Start? && p == trs[secnum][k].p
      modifies buffer
      ensures CodeAt(v, secnum, k + 1, cp', buffer)
      ensures q' == Pos(trs[secnum], secnum, k + 1) && p' == trs[secnum][k].Next()
      ensures buffer[codesize..] == old(buffer[codesize..])
    {
      hide View.Ok, LinkOk, Linked, LayoutOk;
      CodeStep(v, lay, secnum, k);
      LinkedSlots(v, mem, lay, secnum, k);
      var action := actionlist[p];
      q', p', cp' := q, p + 1, cp;
      if action == DASM_REL_PC {
        cp' := EncodeBranch(secnum, k, q, cp, buffer, v);
        q' := q + 2;
      } else if action == DASM_LABEL_PC {
        q' := q + 1;
      } else if action == DASM_ALIGN {
        cp' := EncodeNops(secnum, k, actionlist[p'], cp, buffer, v);
        q' := q + 1;
        p' := p + 2;
      } else {
        if action == DASM_ESC {
          action := actionlist[p'];
          p' := p + 2;
        }
        buffer[cp] := action;
        cp' := cp + 1;
      }
    }

    method EncodeNops(secnum: nat, ghost k: nat, mask: nat, cp: nat, buffer: array<uint8>, ghost v: View) returns (cp': nat)
      requires Encoding(v, buffer) && CodeAt(v, secnum, k, cp, buffer)
      requires k < |trs[secnum]| && trs[secnum][k].Align? && trs[secnum][k].mask == mask
      modifies buffer
      ensures CodeAt(v, secnum, k + 1, cp', buffer)
      ensures buffer[codesize..] == old(buffer[codesize..])
    {
      hide View.Ok, LinkOk, Linked, LayoutOk;
      CodeStep(v, lay, secnum, k);
      ghost var c := Code(v, lay, secnum, k);
      ghost var e := cp + mask - And(cp + mask, mask);
      cp' := cp;
      AlignedUp(cp, mask, cp);
      while And(cp', mask) != 0
        invariant cp <= cp' <= e && (And(cp', mask) == 0 <==> cp' == e)
        invariant buffer[..cp'] == c + Nops(cp' - cp)
        invariant buffer[codesize..] == old(buffer[codesize..])
        decreases e - cp'
      {
        buffer[cp'] := 0x90;
        cp' := cp' + 1;
        AlignedUp(cp, mask, cp');
      }
    }

    method EncodeBranch(secnum: nat, ghost k: nat, q: int, cp: nat, buffer: array<uint8>, ghost v: View) returns (cp': nat)
      requires Encoding(v, buffer) && CodeAt(v, secnum, k, cp, buffer)
      requires q == Pos(trs[secnum], secnum, k)
      requires k < |trs[secnum]| && trs[secnum][k].Rel?
      modifies buffer
      ensures CodeAt(v, secnum, k + 1, cp', buffer)
      ensures buffer[codesize..] == old(buffer[codesize..])
    {
      hide View.Ok, LinkOk, Linked, LayoutOk;
      CodeStep(v, lay, secnum, k);
      BranchSlots(v, mem, lay, secnum, k);
      ghost var c, d := Code(v, lay, secnum, k), Displacement(v, lay, secnum, k);
      var shrink := mem[q + 1];
      var n := mem[mem[q]] - (cp + 4 - shrink);
      assert n == d;
      hide *;
      if shrink == 0 {
        PutWord(buffer, cp, n);
        cp' := cp + 4;
      } else {
        PutShort(buffer, cp, shrink, n);
        cp' := cp + 4 - shrink;
      }
    }

    /** The long form: a 32-bit word. */
    method PutWord(buffer: array<uint8>, cp: nat, n: int)
      requires cp + 4 <= buffer.Length
      modifies buffer
      ensures buffer[..cp + 4] == old(buffer[..cp]) + Word(n)
      ensures buffer[cp + 4..] == old(buffer[cp + 4..])
    {
      buffer[cp], buffer[cp + 1] := Low8(n), Low8(n / 0x100);
      buffer[cp + 2], buffer[cp + 3] := Low8(n / 0x1_0000), Low8(n / 0x100_0000);
    }

    /** The short form: rewrites the opcode bytes and appends a byte. */
    method PutShort(buffer: array<uint8>, cp: nat, shrink: nat, n: int)
      requires shrink in {3, 4} && shrink - 2 <= cp && cp + 4 - shrink <= buffer.Length
      modifies buffer
      ensures buffer[..cp + 4 - shrink] == Branched(old(buffer[..cp]), shrink, n)
      ensures buffer[cp + 4 - shrink..] == old(buffer[cp + 4 - shrink..])
    {
      var p := cp;
      if shrink == 4 {
        p := p - 1;
        buffer[p - 1] := Low8((buffer[p] as int) - 0x10);
      } else {
        buffer[p - 1] := 0xeb;
      }
      buffer[p] := Low8(n);
    }

    /** Final offset of a PC label: -1 when it is undefined, -2 when it is unused or
        out of range. */
    method GetPcLabel(pc: nat, ghost v: View) returns (o: int)
      requires Linking(v) && Complete(trs, lay)
      ensures pc >= |pclabels| ==> o == -2
      ensures pc < |pclabels| ==>
                var d := LastDef(hist, |hist|, pc);
                if d < 0 then o == -2
                else hist[d].s < |lay.at| && hist[d].k < |lay.at[hist[d].s]| && o == lay.at[hist[d].s][hist[d].k]
    {
      hide View.Ok, LinkOk;
      OkShape(v);
      if pc < |pclabels| {
        LabelSlot(v, mem, lay, pc);
        var p := pclabels[pc];
        if p < 0 { return mem[-p]; }
        if p > 0 { return -1; }
      }
      return -2;
    }
  }
}
