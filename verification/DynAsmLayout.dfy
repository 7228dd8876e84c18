/** The vocabulary of the DynASM x86 encoder: action codes, the elements that a
    run of `dasm_put` calls leaves in a section, and the two layouts of those
    elements, the over-estimate of pass 1 and the final one of passes 2 and 3. */
module DynAsmLayout {

  type uint8 = x: int | 0 <= x < 256

  // Action codes that the model supports, with their values in the enum.
  const DASM_DISP := 233
  const DASM_REL_PC := 245
  const DASM_LABEL_PC := 249
  const DASM_ALIGN := 250
  const DASM_ESC := 252
  const DASM_SECTION := 254
  const DASM_STOP := 255

  const DASM_S_OK := 0
  const DASM_S_PHASE := 0x0200_0000

  /** Buffer positions are biased: 8 bits of section, 24 bits of index. */
  const SECTION_BIAS := 0x100_0000

  /** One element of a section. `p` is the index of its action byte in the action
      list; `ev` numbers the branches and labels in the order in which they were put. */
  datatype Elem =
    | Start(p: nat)
    | Byte(p: nat, b: uint8)
    | Esc(p: nat, b: uint8)
    | Rel(p: nat, pc: nat, ev: nat)
    | Label(p: nat, pc: nat, ev: nat)
    | Align(p: nat, mask: nat)
  {
    predicate Emits() {
      Byte? || Esc?
    }

    /** Index of the action that follows this element. */
    function Next(): nat {
      match this
      case Start(p) => p
      case Esc(p, _) => p + 2
      case Align(p, _) => p + 2
      case _ => p + 1
    }

    /** Buffer slots taken in pass 1. */
    function Slots(): nat {
      match this
      case Start(_) => 1
      case Rel(_, _, _) => 2
      case Label(_, _, _) => 1
      case Align(_, _) => 1
      case _ => 0
    }

    /** Most bytes the element can take: the estimate of pass 1. */
    function MaxSize(): nat {
      match this
      case Byte(_, _) => 1
      case Esc(_, _) => 1
      case Rel(_, _, _) => 4
      case Align(_, mask) => mask
      case _ => 0
    }
  }

  /** An alignment argument is 2**n-1. */
  predicate IsMask(m: nat) {
    m in {0, 1, 3, 7, 15, 31, 63, 127, 255}
  }

  /** `x & mask` for a mask of the form 2**n-1 and x >= 0. */
  function And(x: nat, mask: nat): (r: nat)
    ensures r <= mask
  {
    x % (mask + 1)
  }

  /** Bytes saved by the short form of the branch with this opcode byte. */
  function Saving(op: int): (r: nat)
    ensures r in {0, 3, 4}
  {
    if op == 0xe9 then 3 else if 0x80 <= op < 0x90 then 4 else 0
  }

  // ---- Pass 1 layout ----

  function SlotsTo(tr: seq<Elem>, k: nat): nat
    requires k <= |tr|
  {
    if k == 0 then 0 else SlotsTo(tr, k - 1) + tr[k - 1].Slots()
  }

  function EstTo(tr: seq<Elem>, k: nat): nat
    requires k <= |tr|
  {
    if k == 0 then 0 else EstTo(tr, k - 1) + tr[k - 1].MaxSize()
  }

  /** Buffer position of element k of section s. */
  function Pos(tr: seq<Elem>, s: nat, k: nat): nat
    requires k <= |tr|
  {
    s * SECTION_BIAS + SlotsTo(tr, k)
  }

  lemma {:induction false} PrefixStable(tr: seq<Elem>, more: seq<Elem>, k: nat)
    requires k <= |tr|
    ensures SlotsTo(tr + more, k) == SlotsTo(tr, k)
    ensures EstTo(tr + more, k) == EstTo(tr, k)
  {
    if k > 0 { PrefixStable(tr, more, k - 1); }
  }

  lemma {:induction false} SlotsMonotone(tr: seq<Elem>, i: nat, j: nat)
    requires i < j <= |tr|
    ensures SlotsTo(tr, i) + tr[i].Slots() <= SlotsTo(tr, j)
  {
    if i + 1 < j { SlotsMonotone(tr, i, j - 1); }
  }

  // ---- Final layout ----

  /** Offset after `elem` when it starts at `o` and its branch, if it is one, was
      shrunk by `shrink` bytes. */
  function SizeAfter(e: Elem, shrink: nat, o: nat): (r: nat)
    requires shrink <= 4 && (e.Align? ==> IsMask(e.mask))
    ensures o <= r <= o + e.MaxSize()
  {
    match e
    case Byte(_, _) => o + 1
    case Esc(_, _) => o + 1
    case Rel(_, _, _) => o + 4 - shrink
    case Align(_, m) => o + m - And(o + m, m)
    case _ => o
  }

  /** Aligning up finds the first multiple of mask + 1 at or above o. */
  lemma AlignedUp(o: nat, mask: nat, x: nat)
    requires IsMask(mask) && o <= x
    ensures var t := o + mask - And(o + mask, mask);
            && And(t, mask) == 0
            && (x < t ==> And(x, mask) != 0)
  {
    var M, a := mask + 1, o + mask;
    var q := a / M;
    Quotient(a, M);
    var t := a - And(a, mask);
    assert t == q * M;
    Remainder(t, M, q, 0);
    if x < t { BelowMultiple(t, M, q, x); }
  }

  lemma BelowMultiple(t: int, M: nat, q: int, x: nat)
    requires M > 0 && t == q * M && t - M < x < t
    ensures x % M != 0
  {
    assert (q - 1) * M == t - M;
    Remainder(x, M, q - 1, x - (t - M));
  }

  lemma Quotient(a: nat, M: nat)
    requires M > 0
    ensures a == a / M * M + a % M
  {
  }

  lemma Remainder(x: int, M: nat, q: int, r: nat)
    requires x == q * M + r && r < M
    ensures x % M == r
  {
    var q', r' := x / M, x % M;
    assert q' * M - q * M == r - r';
    if q' > q { Gap(q', q, M); }
    if q' < q { Gap(q, q', M); }
  }

  lemma Gap(a: int, b: int, M: nat)
    requires a > b
    ensures a * M >= b * M + M
  {
    var n := a - b;
    Scale(n, M);
    assert (b + n) * M == b * M + n * M;
  }

  lemma Scale(n: nat, M: nat)
    requires n >= 1
    ensures n * M >= M
  {
  }

  /** Shrink decisions and final offsets: `at[s][k]` is where element k of section s
      begins, and `at[s][|tr|]` is where section s ends. */
  datatype Layout = Layout(sh: seq<seq<nat>>, at: seq<seq<nat>>)

  ghost predicate SectionOk(tr: seq<Elem>, sh: seq<nat>, at: seq<nat>) {
    && |at| == |sh| + 1 && |sh| <= |tr|
    && (forall k :: 0 <= k < |tr| && tr[k].Align? ==> IsMask(tr[k].mask))
    && (forall k :: 0 <= k < |sh| ==> sh[k] <= 4 && at[k + 1] == SizeAfter(tr[k], sh[k], at[k]))
  }

  /** The first |L.sh| sections are laid out, the last of them perhaps in part. */
  ghost predicate LayoutOk(trs: seq<seq<Elem>>, L: Layout) {
    && |L.sh| == |L.at| <= |trs|
    && (forall s :: 0 <= s < |L.sh| ==> SectionOk(trs[s], L.sh[s], L.at[s]))
    && (L.at != [] ==> L.at[0][0] == 0)
    && (forall s :: 0 <= s < |L.sh| - 1 ==> |L.sh[s]| == |trs[s]| && L.at[s + 1][0] == L.at[s][|trs[s]|])
  }

  ghost predicate Complete(trs: seq<seq<Elem>>, L: Layout) {
    && LayoutOk(trs, L) && |L.sh| == |trs| > 0
    && |L.sh[|trs| - 1]| == |trs[|trs| - 1]|
  }

  /** Between two points of one section the final distance never exceeds the
      estimated one, and never turns negative. */
  lemma {:induction false} SectionContracts(tr: seq<Elem>, sh: seq<nat>, at: seq<nat>, i: nat, j: nat)
    requires SectionOk(tr, sh, at) && i <= j <= |sh|
    ensures 0 <= at[j] - at[i] <= EstTo(tr, j) - EstTo(tr, i)
  {
    if i < j { SectionContracts(tr, sh, at, i, j - 1); }
  }

  /** Sum of the estimated sizes of sections i..j. */
  function EstSections(trs: seq<seq<Elem>>, i: nat, j: nat): nat
    requires i <= j <= |trs|
    decreases j
  {
    if i == j then 0 else EstSections(trs, i, j - 1) + EstTo(trs[j - 1], |trs[j - 1]|)
  }

  /** The same contraction across section boundaries. */
  lemma {:induction false} LayoutContracts(trs: seq<seq<Elem>>, L: Layout, s: nat, k: nat, s': nat, k': nat)
    requires LayoutOk(trs, L) && s <= s' < |L.sh| && k <= |L.sh[s]| && k' <= |L.sh[s']|
    requires s == s' ==> k <= k'
    ensures 0 <= L.at[s'][k'] - L.at[s][k] <= EstSections(trs, s, s') - EstTo(trs[s], k) + EstTo(trs[s'], k')
    decreases s'
  {
    if s == s' {
      SectionContracts(trs[s], L.sh[s], L.at[s], k, k');
    } else {
      SectionContracts(trs[s'], L.sh[s'], L.at[s'], 0, k');
      LayoutContracts(trs, L, s, k, s' - 1, |trs[s' - 1]|);
    }
  }
}
