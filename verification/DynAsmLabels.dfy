/** The meaning of PC labels: which definition a branch refers to, given the order
    in which branches and labels were put. A defined label may be defined again;
    a branch means the latest definition before it, else the first one after it. */
module DynAsmLabels {

  /** A branch to label `pc`, or a definition of it, at buffer position `pos`,
      which belongs to element k of section s. */
  datatype Event =
    | Ref(pos: nat, pc: nat, s: nat, k: nat)
    | Def(pos: nat, pc: nat, s: nat, k: nat)

  predicate Defines(e: Event, pc: nat) {
    e.Def? && e.pc == pc
  }

  /** Index of the last definition of pc among the first n events, or -1. */
  function LastDef(h: seq<Event>, n: nat, pc: nat): (d: int)
    requires n <= |h|
    ensures -1 <= d < n
    ensures d >= 0 ==> Defines(h[d], pc)
    ensures forall j :: d < j < n ==> !Defines(h[j], pc)
  {
    if n == 0 then -1 else if Defines(h[n - 1], pc) then n - 1 else LastDef(h, n - 1, pc)
  }

  /** Index of the first definition of pc at or after event i, or -1. */
  function NextDef(h: seq<Event>, i: nat, pc: nat): (d: int)
    requires i <= |h|
    ensures d == -1 || i <= d < |h|
    ensures d >= 0 ==> Defines(h[d], pc)
    ensures forall j :: i <= j < (if d < 0 then |h| else d) ==> !Defines(h[j], pc)
    decreases |h| - i
  {
    if i == |h| then -1 else if Defines(h[i], pc) then i else NextDef(h, i + 1, pc)
  }

  /** The definition that event i refers to, or -1 if there is none yet. */
  function Target(h: seq<Event>, i: nat): int
    requires i < |h|
  {
    var d := LastDef(h, i, h[i].pc);
    if d >= 0 then d else NextDef(h, i, h[i].pc)
  }

  /** What `Target` means, without its recursion. */
  lemma TargetMeaning(h: seq<Event>, i: nat, j: nat)
    requires i < |h| && j < |h| && h[i].Ref?
    ensures Target(h, i) == j <==>
              && Defines(h[j], h[i].pc)
              && if j < i then forall m :: j < m < i ==> !Defines(h[m], h[i].pc)
                 else forall m :: 0 <= m < j ==> !Defines(h[m], h[i].pc)
  {
    var d := LastDef(h, i, h[i].pc);
    var e := NextDef(h, i, h[i].pc);
  }

  lemma LastDefStable(h: seq<Event>, e: Event, n: nat, pc: nat)
    requires n <= |h|
    ensures LastDef(h + [e], n, pc) == LastDef(h, n, pc)
  {
    var d, d' := LastDef(h, n, pc), LastDef(h + [e], n, pc);
    assert forall j :: 0 <= j < n ==> (h + [e])[j] == h[j];
  }

  /** Adding an event keeps every resolved target, and resolves exactly the
      pending branches of the label that it defines. */
  lemma TargetAfter(h: seq<Event>, e: Event, i: nat)
    requires i < |h| && h[i].Ref?
    ensures Target(h + [e], i) == if Target(h, i) >= 0 then Target(h, i)
                                  else if Defines(e, h[i].pc) then |h| else -1
    ensures Target(h, i) >= 0 <==> LastDef(h, |h|, h[i].pc) >= 0
  {
    var pc := h[i].pc;
    LastDefStable(h, e, i, pc);
    var d, d' := NextDef(h, i, pc), NextDef(h + [e], i, pc);
    assert forall j :: 0 <= j < |h| ==> (h + [e])[j] == h[j];
    assert (h + [e])[|h|] == e;
    var l := LastDef(h, |h|, pc);
    var l' := LastDef(h, i, pc);
  }
}
