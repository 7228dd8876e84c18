/** Pass 3 of the DynASM x86 encoder on values: the bytes that `dasm_encode` emits,
    and where the branches among them lead. */
module DynAsmCode {
  import opened DynAsmLayout
  import opened DynAsmLabels
  import opened DynAsmState
  import opened DynAsmLinking

  /** Pass 2 has linked v: the layout is complete and every shrink was decided by rule. */
  ghost predicate Linked(v: View, L: Layout) {
    && v.Ok() && AllDefined(v.pclabels) && Complete(v.trs, L)
    && forall s, k :: 0 <= s < |L.sh| && 0 <= k < |L.sh[s]| ==> ShrinkRule(v, L, s, k)
  }

  ghost predicate IsBranch(v: View, s: nat, k: nat) {
    s < |v.trs| && k < |v.trs[s]| && v.trs[s][k].Rel?
  }

  /** Final offset of the label of branch k of section s, relative to the end of the branch. */
  ghost function Displacement(v: View, L: Layout, s: nat, k: nat): int
    requires Linked(v, L) && IsBranch(v, s, k)
  {
    var (ts, tk) := TargetOf(v, s, k);
    TargetsKnown(v, s, k);
    HasOffset(v, L, ts, tk);
    HasOffset(v, L, s, k + 1);
    (L.at[ts][tk] as int) - L.at[s][k + 1]
  }

  lemma HasOffset(v: View, L: Layout, s: nat, k: nat)
    requires Complete(v.trs, L) && s < |v.trs| && k <= |v.trs[s]|
    ensures s < |L.at| == |L.sh| && k < |L.at[s]| == |L.sh[s]| + 1 && |L.sh[s]| == |v.trs[s]|
  {
    assert SectionOk(v.trs[s], L.sh[s], L.at[s]);
    if s + 1 < |v.trs| { assert |L.sh[s]| == |v.trs[s]|; }
  }

  /** A branch is shrunk only when its final displacement fits in a signed byte. */
  lemma ShortBranchFits(v: View, L: Layout, s: nat, k: nat)
    requires Linked(v, L) && IsBranch(v, s, k)
    ensures |L.sh| == |v.trs| && |L.sh[s]| == |v.trs[s]|
    ensures L.sh[s][k] > 0 ==> -128 <= Displacement(v, L, s, k) <= 127
  {
    hide View.Ok;
    var (ts, tk) := TargetOf(v, s, k);
    BranchAhead(v, s, k);
    HasOffset(v, L, s, k + 1);
    HasOffset(v, L, ts, tk);
    OpcodeBehind(v, s, k);
    assert ShrinkRule(v, L, s, k);
    assert SectionOk(v.trs[s], L.sh[s], L.at[s]);
    if ts > s || (ts == s && tk > k) {
      LayoutContracts(v.trs, L, s, k + 1, ts, tk);
    } else {
      LayoutContracts(v.trs, L, ts, tk, s, k);
    }
  }

  /** The bytes that the short form of a branch takes less than the long one: a jump has an
      opcode of one byte, a conditional jump one of two. */
  function Less(op: int): nat {
    if op == 0xe9 then 3 else 4
  }

  /** Which form a branch takes. A branch back takes the short form exactly when that
      reaches its label. A branch ahead does when the distance that pass 1 estimated is at
      most 127. Behind any other opcode it stays long. */
  lemma BranchForm(v: View, L: Layout, s: nat, k: nat)
    requires Linked(v, L) && IsBranch(v, s, k)
    ensures |L.sh| == |v.trs| && |L.sh[s]| == |v.trs[s]| && k > 0 && v.trs[s][k - 1].Emits()
    ensures var op, sh, (ts, tk) := v.trs[s][k - 1].b, L.sh[s][k], TargetOf(v, s, k);
            if op == 0xe9 || 0x80 <= op <= 0x8f then
              && (sh == 0 || sh == Less(op))
              && ts < |v.trs| && tk < |v.trs[ts]|
              && if ts < s || (ts == s && tk < k)
                 then sh == 0 <==> Displacement(v, L, s, k) + (Less(op) - sh) < -128
                 else sh == 0 <==> EstSections(v.trs, s, ts) - EstTo(v.trs[s], k + 1) + EstTo(v.trs[ts], tk) > 127
            else sh == 0
  {
    hide View.Ok;
    var (ts, tk) := TargetOf(v, s, k);
    TargetsKnown(v, s, k);
    BranchAhead(v, s, k);
    HasOffset(v, L, s, k + 1);
    HasOffset(v, L, ts, tk);
    OpcodeBehind(v, s, k);
    assert ShrinkRule(v, L, s, k);
    assert SectionOk(v.trs[s], L.sh[s], L.at[s]);
    if ts < s || (ts == s && tk < k) {
      LayoutContracts(v.trs, L, ts, tk, s, k);
    } else {
      LayoutContracts(v.trs, L, s, k + 1, ts, tk);
    }
  }

  // ---- Bytes ----

  function Low8(n: int): uint8 {
    n % 256
  }

  /** A 32-bit little-endian word, wrapped like the C cast. */
  function Word(n: int): (w: seq<uint8>)
    ensures |w| == 4
  {
    [Low8(n), Low8(n / 0x100), Low8(n / 0x1_0000), Low8(n / 0x100_0000)]
  }

  /** What the processor reads: a signed byte, a signed little-endian word. */
  function Signed8(b: uint8): int {
    if b < 128 then b else b - 256
  }

  function Signed32(w: seq<uint8>): int
    requires |w| == 4
  {
    var u := (w[0] as int) + 0x100 * (w[1] as int) + 0x1_0000 * (w[2] as int) + 0x100_0000 * (w[3] as int);
    if u < 0x8000_0000 then u else u - 0x1_0000_0000
  }

  lemma ReadBack(n: int)
    ensures -128 <= n <= 127 ==> Signed8(Low8(n)) == n
    ensures -0x8000_0000 <= n < 0x8000_0000 ==> Signed32(Word(n)) == n
  {
    ReadByte(n);
    if -0x8000_0000 <= n < 0x8000_0000 { ReadWord(n); }
  }

  lemma ReadByte(n: int)
    ensures -128 <= n <= 127 ==> Signed8(Low8(n)) == n
  {
  }

  lemma ReadWord(n: int)
    requires -0x8000_0000 <= n < 0x8000_0000
    ensures Signed32(Word(n)) == n
  {
    var a, b, c := n / 0x100, n / 0x1_0000, n / 0x100_0000;
    Quotients(n, a, b, c);
    var w := Word(n);
    assert w[0] as int == n - 0x100 * a && w[1] as int == a - 0x100 * b && w[2] as int == b - 0x100 * c;
    assert w[3] as int == if c < 0 then c + 0x100 else c;
  }

  lemma Quotients(n: int, a: int, b: int, c: int)
    requires a == n / 0x100 && b == n / 0x1_0000 && c == n / 0x100_0000
    ensures b == a / 0x100 && c == b / 0x100
    ensures n % 0x100 == n - 0x100 * a && a % 0x100 == a - 0x100 * b && b % 0x100 == b - 0x100 * c
    ensures -0x8000_0000 <= n < 0x8000_0000 ==> -0x80 <= c < 0x80
  {
  }

  function Nops(n: nat): (c: seq<uint8>)
    ensures |c| == n
  {
    seq(n, _ => 0x90)
  }

  /** A branch with displacement d behind code c: a word, or the short form that
      takes the place of the opcode bytes. */
  function Branched(c: seq<uint8>, shrink: nat, d: int): seq<uint8>
    requires shrink in {0, 3, 4} && (shrink > 0 ==> |c| >= shrink - 2)
  {
    if shrink == 0 then c + Word(d)
    else if shrink == 3 then c[..|c| - 1] + [0xeb, Low8(d)]
    else c[..|c| - 2] + [Low8((c[|c| - 1] as int) - 0x10), Low8(d)]
  }

  /** The output in front of element k of section s. */
  ghost function Code(v: View, L: Layout, s: nat, k: nat): (c: seq<uint8>)
    requires Linked(v, L) && s < |v.trs| && k <= |v.trs[s]|
    ensures s < |L.at| && k < |L.at[s]| && |c| == L.at[s][k]
    decreases s, k
  {
    hide View.Ok;
    HasOffset(v, L, s, k);
    assert SectionOk(v.trs[s], L.sh[s], L.at[s]);
    if k == 0 then
      if s == 0 then [] else
      HasOffset(v, L, s - 1, |v.trs[s - 1]|);
      assert L.at[s - 1 + 1][0] == L.at[s - 1][|v.trs[s - 1]|];
      Code(v, L, s - 1, |v.trs[s - 1]|)
    else
      var c := Code(v, L, s, k - 1);
      assert ShrinkRule(v, L, s, k - 1);
      match v.trs[s][k - 1] {
        case Byte(_, b) => c + [b]
        case Esc(_, b) => c + [b]
        case Align(_, _) => c + Nops(L.at[s][k] - L.at[s][k - 1])
        case Rel(_, _, _) =>
          OpcodeRoom(v, L, s, k - 1);
          Branched(c, L.sh[s][k - 1], Displacement(v, L, s, k - 1))
        case _ => c
      }
  }

  /** The opcode of a branch is among the bytes in front of it. */
  lemma OpcodeRoom(v: View, L: Layout, s: nat, k: nat)
    requires Linked(v, L) && IsBranch(v, s, k)
    ensures |L.sh| == |L.at| == |v.trs| && |L.sh[s]| == |v.trs[s]| && |L.at[s]| == |v.trs[s]| + 1
    ensures k > 0 && v.trs[s][k - 1].Emits() && L.at[s][k] == L.at[s][k - 1] + 1
    ensures L.sh[s][k] == 0 || L.sh[s][k] == Saving(v.trs[s][k - 1].b)
    ensures 0x80 <= v.trs[s][k - 1].b <= 0x8f ==>
              && k > 1 && v.trs[s][k - 2].Emits() && v.trs[s][k - 2].b == 0x0f
              && L.at[s][k - 1] == L.at[s][k - 2] + 1
  {
    assert TraceOk(v.A, v.trs[s]);
    assert BehindOpcode(v.trs[s], k);
    HasOffset(v, L, s, k + 1);
    assert SectionOk(v.trs[s], L.sh[s], L.at[s]);
    assert ShrinkRule(v, L, s, k);
    hide View.Ok;
    assert L.at[s][k - 1 + 1] == SizeAfter(v.trs[s][k - 1], L.sh[s][k - 1], L.at[s][k - 1]);
    if k > 1 { assert L.at[s][k - 2 + 1] == SizeAfter(v.trs[s][k - 2], L.sh[s][k - 2], L.at[s][k - 2]); }
  }

  // ---- What stays in the output ----

  /** No short branch behind element m of section s reaches back over its start. */
  ghost predicate Settled(v: View, L: Layout, s: nat, m: nat)
    requires Linked(v, L) && s < |v.trs| && m <= |v.trs[s]|
  {
    HasOffset(v, L, s, m);
    && (m < |v.trs[s]| && v.trs[s][m].Rel? ==> L.sh[s][m] == 0)
    && (m + 1 < |v.trs[s]| && v.trs[s][m + 1].Rel? ==> L.sh[s][m + 1] != 4)
  }

  /** One step of the output, and the room for it. */
  lemma CodeStep(v: View, L: Layout, s: nat, k: nat)
    requires Linked(v, L) && s < |v.trs| && k <= |v.trs[s]|
    ensures |L.sh| == |L.at| == |v.trs| && |L.sh[s]| == |v.trs[s]| && |L.at[s]| == |v.trs[s]| + 1
    ensures |Code(v, L, s, k)| == L.at[s][k] <= L.at[|v.trs| - 1][|v.trs[|v.trs| - 1]|]
    ensures k == |v.trs[s]| && s + 1 < |v.trs| ==> Code(v, L, s + 1, 0) == Code(v, L, s, k)
    ensures k < |v.trs[s]| ==>
              && L.at[s][k + 1] <= L.at[|v.trs| - 1][|v.trs[|v.trs| - 1]|]
              && match v.trs[s][k] {
                   case Byte(_, b) => L.at[s][k + 1] == L.at[s][k] + 1 && Code(v, L, s, k + 1) == Code(v, L, s, k) + [b]
                   case Esc(_, b) => L.at[s][k + 1] == L.at[s][k] + 1 && Code(v, L, s, k + 1) == Code(v, L, s, k) + [b]
                   case Align(_, m) =>
                     && IsMask(m) && L.at[s][k + 1] == L.at[s][k] + m - And(L.at[s][k] + m, m)
                     && Code(v, L, s, k + 1) == Code(v, L, s, k) + Nops(L.at[s][k + 1] - L.at[s][k])
                   case Rel(_, _, _) => true
                   case _ => Code(v, L, s, k + 1) == Code(v, L, s, k)
                 }
  {
    hide View.Ok;
    HasOffset(v, L, s, k);
    InOutput(v, L, s, k);
    assert SectionOk(v.trs[s], L.sh[s], L.at[s]);
    if k < |v.trs[s]| { InOutput(v, L, s, k + 1); }
  }

  lemma {:induction false} CodeGrows(v: View, L: Layout, s: nat, m: nat, s': nat, m': nat)
    requires Linked(v, L) && s <= s' < |v.trs| && m <= |v.trs[s]| && m' <= |v.trs[s']|
    requires s == s' ==> m <= m'
    requires Settled(v, L, s, m)
    ensures Code(v, L, s, m) <= Code(v, L, s', m')
    decreases s', m'
  {
    hide View.Ok, Linked, Settled, Code;
    if s == s' && m == m' {
    } else if m' == 0 {
      CodeGrows(v, L, s, m, s' - 1, |v.trs[s' - 1]|);
      CodeStep(v, L, s' - 1, |v.trs[s' - 1]|);
    } else {
      CodeGrows(v, L, s, m, s', m' - 1);
      if v.trs[s'][m' - 1].Rel? {
        BranchKeeps(v, L, s, m, s', m' - 1);
      } else {
        CodeStep(v, L, s', m' - 1);
      }
    }
  }

  /** A branch takes at most its own opcode bytes back. */
  lemma BranchKeeps(v: View, L: Layout, s: nat, m: nat, s': nat, k: nat)
    requires Linked(v, L) && s <= s' < |v.trs| && m <= |v.trs[s]| && IsBranch(v, s', k)
    requires s == s' ==> m <= k
    requires Settled(v, L, s, m)
    requires Code(v, L, s, m) <= Code(v, L, s', k)
    ensures Code(v, L, s, m) <= Code(v, L, s', k + 1)
  {
    hide View.Ok;
    OpcodeRoom(v, L, s', k);
    HasOffset(v, L, s, m);
    var c, c', sh := Code(v, L, s, m), Code(v, L, s', k), L.sh[s'][k];
    if sh > 0 {
      LayoutContracts(v.trs, L, s, m, s', k - (sh - 2));
      assert |c| <= |c'| - (sh - 2);
    }
    hide Linked, Settled, LayoutOk, SectionOk, Complete;
    var d := Displacement(v, L, s', k);
    assert Code(v, L, s', k + 1) == Branched(c', sh, d);
    BranchedKeeps(c', sh, d);
  }

  lemma BranchedKeeps(c: seq<uint8>, shrink: nat, d: int)
    requires shrink in {0, 3, 4} && (shrink > 0 ==> |c| >= shrink - 2)
    ensures shrink == 0 ==> c <= Branched(c, shrink, d)
    ensures shrink > 0 ==> c[..|c| - (shrink - 2)] <= Branched(c, shrink, d)
  {
  }

  ghost function Final(v: View, L: Layout): seq<uint8>
    requires Linked(v, L)
  {
    Code(v, L, |v.trs| - 1, |v.trs[|v.trs| - 1]|)
  }

  /** Behind a branch, label or alignment nothing is touched again. */
  lemma SettledBehind(v: View, L: Layout, s: nat, k: nat)
    requires Linked(v, L) && s < |v.trs| && k < |v.trs[s]| && !v.trs[s][k].Emits()
    ensures Settled(v, L, s, k + 1)
    ensures Code(v, L, s, k + 1) <= Final(v, L)
  {
    hide View.Ok, Settled;
    NoBranchNext(v, L, s, k);
    CodeGrows(v, L, s, k + 1, |v.trs| - 1, |v.trs[|v.trs| - 1]|);
  }

  /** The element behind one that emits nothing is no branch. */
  lemma NoBranchNext(v: View, L: Layout, s: nat, k: nat)
    requires Linked(v, L) && s < |v.trs| && k < |v.trs[s]| && !v.trs[s][k].Emits()
    ensures Settled(v, L, s, k + 1)
  {
    hide View.Ok, Code;
    if k + 1 < |v.trs[s]| && v.trs[s][k + 1].Rel? { OpcodeRoom(v, L, s, k + 1); }
    if k + 2 < |v.trs[s]| && v.trs[s][k + 2].Rel? { OpcodeRoom(v, L, s, k + 2); }
  }

  lemma LastByte(v: View, L: Layout, s: nat, k: nat)
    requires Linked(v, L) && s < |v.trs| && k < |v.trs[s]| && v.trs[s][k].Emits()
    ensures Code(v, L, s, k + 1) == Code(v, L, s, k) + [v.trs[s][k].b]
  {
  }

  /** The code of a branch, and what is in front of its opcode. */
  lemma BranchCode(v: View, L: Layout, s: nat, k: nat) returns (before: seq<uint8>)
    requires Linked(v, L) && IsBranch(v, s, k) && |Final(v, L)| < 0x8000_0000
    ensures |L.sh| == |L.at| == |v.trs| && |L.sh[s]| == |v.trs[s]| && |L.at[s]| == |v.trs[s]| + 1
    ensures k > 0 && v.trs[s][k - 1].Emits()
    ensures var op, sh, d := v.trs[s][k - 1].b, L.sh[s][k], Displacement(v, L, s, k);
            && (sh == 0 || (sh == Less(op) && (op == 0xe9 || 0x80 <= op <= 0x8f) && -128 <= d <= 127))
            && (0x80 <= op <= 0x8f ==> |before| > 0 && before[|before| - 1] == 0x0f)
            && -0x8000_0000 <= d < 0x8000_0000
            && Branched(before + [op], sh, d) <= Final(v, L) && |Branched(before + [op], sh, d)| == L.at[s][k + 1]
  {
    hide View.Ok;
    OpcodeRoom(v, L, s, k);
    SettledBehind(v, L, s, k);
    ShortBranchFits(v, L, s, k);
    BranchForm(v, L, s, k);
    var d, tr := Displacement(v, L, s, k), v.trs[s];
    InOutput(v, L, s, k + 1);
    var (ts, tk) := TargetOf(v, s, k);
    TargetsKnown(v, s, k);
    InOutput(v, L, ts, tk);
    LastByte(v, L, s, k - 1);
    before := Code(v, L, s, k - 1);
    if 0x80 <= tr[k - 1].b <= 0x8f { LastByte(v, L, s, k - 2); }
    assert Code(v, L, s, k + 1) == Branched(before + [tr[k - 1].b], L.sh[s][k], d);
    hide Linked, LayoutOk, SectionOk, Complete;
  }

  /** Main result. In the output every branch carries its opcode and the
      displacement of its label from its own end, in the long or the short form. */
  lemma BranchLands(v: View, L: Layout, s: nat, k: nat)
    requires Linked(v, L) && IsBranch(v, s, k) && |Final(v, L)| < 0x8000_0000
    ensures |L.sh| == |L.at| == |v.trs| && |L.sh[s]| == |v.trs[s]| && |L.at[s]| == |v.trs[s]| + 1
    ensures k > 0 && v.trs[s][k - 1].Emits()
    ensures var c, e, d := Final(v, L), L.at[s][k + 1], Displacement(v, L, s, k);
            var op := v.trs[s][k - 1].b;
            && e <= |c|
            && match L.sh[s][k] {
                 case 0 => e >= 5 && c[e - 5] == op && Signed32(c[e - 4..e]) == d
                           && (0x80 <= op <= 0x8f ==> e >= 6 && c[e - 6] == 0x0f)
                 case 3 => op == 0xe9 && e >= 2 && c[e - 2] == 0xeb && Signed8(c[e - 1]) == d
                 case _ => 0x80 <= op <= 0x8f && e >= 2 && c[e - 2] == op - 0x10 && Signed8(c[e - 1]) == d
               }
  {
    hide View.Ok, Linked, LayoutOk, SectionOk, Complete, Displacement, Final, Branched, Code;
    var before := BranchCode(v, L, s, k);
    BranchBytes(before, v.trs[s][k - 1].b, L.sh[s][k], Displacement(v, L, s, k), Final(v, L));
  }

  /** How a branch reads back from the code that holds it. */
  lemma BranchBytes(before: seq<uint8>, op: uint8, shrink: nat, d: int, c: seq<uint8>)
    requires shrink == 0 || (shrink == (if op == 0xe9 then 3 else 4) && (op == 0xe9 || 0x80 <= op <= 0x8f) && -128 <= d <= 127)
    requires shrink == 4 ==> |before| > 0
    requires -0x8000_0000 <= d < 0x8000_0000
    requires Branched(before + [op], shrink, d) <= c
    ensures var e := |Branched(before + [op], shrink, d)|;
            match shrink {
              case 0 => e == |before| + 5 && c[e - 5] == op && Signed32(c[e - 4..e]) == d
                        && (|before| > 0 ==> c[e - 6] == before[|before| - 1])
              case 3 => op == 0xe9 && e >= 2 && c[e - 2] == 0xeb && Signed8(c[e - 1]) == d
              case _ => 0x80 <= op <= 0x8f && e >= 2 && c[e - 2] == op - 0x10 && Signed8(c[e - 1]) == d
            }
  {
    ReadBack(d);
    var b := Branched(before + [op], shrink, d);
    var e := |b|;
    assert b == c[..e];
    if shrink == 0 { assert c[e - 4..e] == b[e - 4..e] == Word(d); }
  }

  lemma InOutput(v: View, L: Layout, s: nat, k: nat)
    requires Linked(v, L) && s < |v.trs| && k <= |v.trs[s]|
    ensures s < |L.at| && k < |L.at[s]| && L.at[s][k] <= |Final(v, L)|
  {
    hide View.Ok;
    HasOffset(v, L, s, k);
    HasOffset(v, L, |v.trs| - 1, |v.trs[|v.trs| - 1]|);
    LayoutContracts(v.trs, L, s, k, |v.trs| - 1, |v.trs[|v.trs| - 1]|);
  }

  /** A byte that no short branch behind it takes over is where the layout says. */
  lemma PlainByte(v: View, L: Layout, s: nat, k: nat)
    requires Linked(v, L) && s < |v.trs| && k < |v.trs[s]| && v.trs[s][k].Emits() && Settled(v, L, s, k + 1)
    ensures s < |L.at| && k < |L.at[s]| && L.at[s][k] < |Final(v, L)|
    ensures Final(v, L)[L.at[s][k]] == v.trs[s][k].b
  {
    hide View.Ok;
    LastByte(v, L, s, k);
    CodeGrows(v, L, s, k + 1, |v.trs| - 1, |v.trs[|v.trs| - 1]|);
  }

  /** Every alignment point is aligned, by fewer nops than the alignment. */
  lemma AlignmentHolds(v: View, L: Layout, s: nat, k: nat)
    requires Linked(v, L) && s < |v.trs| && k < |v.trs[s]| && v.trs[s][k].Align?
    ensures s < |L.at| && k + 1 < |L.at[s]| && IsMask(v.trs[s][k].mask)
    ensures var a, e, mask := L.at[s][k], L.at[s][k + 1], v.trs[s][k].mask;
            && a <= e <= a + mask && e <= |Final(v, L)|
            && e % (mask + 1) == 0
            && forall i :: a <= i < e ==> Final(v, L)[i] == 0x90
  {
    AlignPoint(v, L, s, k);
    AlignNops(v, L, s, k);
  }

  lemma AlignPoint(v: View, L: Layout, s: nat, k: nat)
    requires Linked(v, L) && s < |v.trs| && k < |v.trs[s]| && v.trs[s][k].Align?
    ensures s < |L.at| && k + 1 < |L.at[s]| && IsMask(v.trs[s][k].mask)
    ensures var a, e, mask := L.at[s][k], L.at[s][k + 1], v.trs[s][k].mask; a <= e <= a + mask && And(e, mask) == 0
  {
    hide View.Ok;
    HasOffset(v, L, s, k + 1);
    assert SectionOk(v.trs[s], L.sh[s], L.at[s]);
    hide LinkOk;
    AlignedUp(L.at[s][k], v.trs[s][k].mask, L.at[s][k]);
  }

  lemma AlignNops(v: View, L: Layout, s: nat, k: nat)
    requires Linked(v, L) && s < |v.trs| && k < |v.trs[s]| && v.trs[s][k].Align?
    requires s < |L.at| && k + 1 < |L.at[s]| && L.at[s][k] <= L.at[s][k + 1]
    ensures L.at[s][k + 1] <= |Final(v, L)| && forall i :: L.at[s][k] <= i < L.at[s][k + 1] ==> Final(v, L)[i] == 0x90
  {
    hide View.Ok;
    HasOffset(v, L, s, k + 1);
    SettledBehind(v, L, s, k);
    hide LinkOk, LayoutOk, ShrinkRule;
    var c := Code(v, L, s, k + 1);
    assert c == Code(v, L, s, k) + Nops(L.at[s][k + 1] - L.at[s][k]);
    assert c == Final(v, L)[..|c|];
  }

  // ---- What encode reads ----

  lemma LinkedBy(v: View, mem: map<int, int>, L: Layout)
    requires v.Ok() && AllDefined(v.pclabels) && LinkOk(v, mem, L) && Complete(v.trs, L)
    ensures Linked(v, L) && |v.pos| == |v.trs| > 0
    ensures Code(v, L, 0, 0) == []
    ensures |Final(v, L)| == L.at[|v.trs| - 1][|v.trs[|v.trs| - 1]|]
  {
  }

  /** Element k, the slots that encode reads for it, and the room for its bytes. */
  lemma LinkedSlots(v: View, mem: map<int, int>, L: Layout, s: nat, k: nat)
    requires Linked(v, L) && LinkOk(v, mem, L) && s < |v.trs| && k < |v.trs[s]|
    ensures Decodes(v.A, v.trs[s][k])
    ensures v.trs[s][k].Start? ==> Pos(v.trs[s], s, k) in mem && mem[Pos(v.trs[s], s, k)] == v.trs[s][k].p
  {
    assert LinkSlot(v, mem, L, s, k);
    assert SlotOk(v.trs[s], v.mem, v.own, v.hist, s, k);
    assert TraceOk(v.A, v.trs[s]);
  }

  /** The slots of a branch give its shrink and its displacement. */
  lemma BranchSlots(v: View, mem: map<int, int>, L: Layout, s: nat, k: nat)
    requires Linked(v, L) && LinkOk(v, mem, L) && IsBranch(v, s, k)
    ensures |L.sh| == |L.at| == |v.trs| && |L.sh[s]| == |v.trs[s]| && |L.at[s]| == |v.trs[s]| + 1
    ensures var q := Pos(v.trs[s], s, k);
            && q in mem && q + 1 in mem && mem[q] in mem
            && mem[q + 1] == L.sh[s][k]
            && mem[mem[q]] == Displacement(v, L, s, k) + L.at[s][k + 1]
    ensures L.sh[s][k] in {0, 3, 4} && L.at[s][k + 1] == L.at[s][k] + 4 - L.sh[s][k]
    ensures L.sh[s][k] > 0 ==> L.at[s][k] >= L.sh[s][k] - 2
    ensures Code(v, L, s, k + 1) == Branched(Code(v, L, s, k), L.sh[s][k], Displacement(v, L, s, k))
  {
    hide View.Ok;
    OpcodeRoom(v, L, s, k);
    var (ts, tk) := TargetOf(v, s, k);
    TargetsKnown(v, s, k);
    HasOffset(v, L, ts, tk);
    HasOffset(v, L, s, k + 1);
    assert LinkSlot(v, mem, L, s, k) && LinkSlot(v, mem, L, ts, tk);
    hide LinkOk;
    assert SectionOk(v.trs[s], L.sh[s], L.at[s]);
  }

  /** A defined label's slot holds the offset of its latest definition. */
  lemma LabelSlot(v: View, mem: map<int, int>, L: Layout, pc: nat)
    requires v.Ok() && AllDefined(v.pclabels) && LinkOk(v, mem, L) && Complete(v.trs, L) && pc < |v.pclabels|
    ensures var d, n := LastDef(v.hist, |v.hist|, pc), v.pclabels[pc];
            && (d < 0 ==> n == 0)
            && (d >= 0 ==> var e := v.hist[d];
                  && e.s < |L.at| && e.k < |L.at[e.s]| && n < 0 && -n in mem && mem[-n] == L.at[e.s][e.k])
  {
    var d := LastDef(v.hist, |v.hist|, pc);
    assert LabelOk(v.mem, v.hist, pc, v.pclabels[pc], v.chains[pc]);
    if d >= 0 {
      var e := v.hist[d];
      assert LinkSlot(v, mem, L, e.s, e.k);
      hide View.Ok;
      HasOffset(v, L, e.s, e.k);
    }
  }
}
