/** The register shuffle at the head of a side trace: a parallel move, emitted backwards,
    with cycles broken through a temporary register. */
module Shuffle {

  const RID_ESP := 4
  const RID_MAX_GPR := 16
  const RID_MAX := 32

  type Reg = r: nat | r < RID_MAX
  type RegSet = set<Reg>
  type Ref = nat

  const RSET_GPR: RegSet := set r: Reg | r < RID_MAX_GPR && r != RID_ESP
  const RSET_FPR: RegSet := set r: Reg | RID_MAX_GPR <= r

  predicate SameClass(a: Reg, b: Reg) {
    (a < RID_MAX_GPR) == (b < RID_MAX_GPR)
  }

  // ---- Moves and their meaning ----

  /** dst := src */
  datatype Move = Move(dst: Reg, src: Reg)

  function Step(regs: Reg -> int, m: Move): Reg -> int {
    (r: Reg) => if r == m.dst then regs(m.src) else regs(r)
  }

  /** Code is emitted backwards: the move emitted last is executed first. */
  function Exec(code: seq<Move>, regs: Reg -> int): Reg -> int {
    if code == [] then regs else Exec(code[..|code| - 1], Step(regs, code[|code| - 1]))
  }

  lemma ExecEmit(code: seq<Move>, m: Move, regs: Reg -> int)
    ensures Exec(code + [m], regs) == Exec(code, Step(regs, m))
  {
    assert (code + [m])[..|code|] == code;
  }

  // ---- What must hold before the code emitted so far ----

  /** live: parent registers not yet copied; done: parent registers that must keep their
      values; cur: where the value of a live parent register has to be. */
  ghost predicate Meets(regs: Reg -> int, value: Reg -> int, live: RegSet, cur: map<Reg, Reg>, done: RegSet) {
    && (forall rp :: rp in live && rp in cur ==> regs(cur[rp]) == value(rp))
    && (forall d :: d in done ==> regs(d) == value(d))
  }

  /** Every target has the value of its parent register. */
  ghost predicate Delivered(regs: Reg -> int, value: Reg -> int, target: map<Reg, Reg>) {
    forall rp :: rp in target ==> regs(target[rp]) == value(rp)
  }

  /** Run from any registers that meet the requirements, the code delivers. */
  ghost predicate Correct(code: seq<Move>, live: RegSet, cur: map<Reg, Reg>, done: RegSet, target: map<Reg, Reg>) {
    forall regs: Reg -> int, value: Reg -> int :: Meets(regs, value, live, cur, done) ==> Delivered(Exec(code, regs), value, target)
  }

  /** Distinct parent registers have distinct targets, of their own class, and nothing that
      must be kept is a target. */
  ghost predicate Places(live: RegSet, cur: map<Reg, Reg>, done: RegSet) {
    && live <= cur.Keys && live !! done
    && (forall a, b :: a in live && b in live && a != b ==> cur[a] != cur[b])
    && (forall a :: a in live ==> cur[a] !in done && SameClass(a, cur[a]))
  }

  lemma CoalesceMeets(regs: Reg -> int, value: Reg -> int, live: RegSet, cur: map<Reg, Reg>, done: RegSet, rp: Reg)
    requires Places(live, cur, done) && rp in live
    requires Meets(regs, value, live - {rp}, cur, done + {rp})
    ensures Meets(Step(regs, Move(cur[rp], rp)), value, live, cur, done)
  {
  }

  /** Copying a free parent register to its target. */
  lemma CoalesceOk(code: seq<Move>, live: RegSet, cur: map<Reg, Reg>, done: RegSet, target: map<Reg, Reg>, rp: Reg)
    requires Places(live, cur, done) && rp in live && Correct(code, live, cur, done, target)
    requires forall a :: a in live ==> cur[a] != rp
    ensures Places(live - {rp}, cur, done + {rp})
    ensures Correct(code + [Move(cur[rp], rp)], live - {rp}, cur, done + {rp}, target)
  {
    hide Meets, Delivered;
    var m := Move(cur[rp], rp);
    forall regs: Reg -> int, value: Reg -> int | Meets(regs, value, live - {rp}, cur, done + {rp})
      ensures Delivered(Exec(code + [m], regs), value, target)
    {
      CoalesceMeets(regs, value, live, cur, done, rp);
      ExecEmit(code, m, regs);
    }
  }

  lemma RenameMeets(regs: Reg -> int, value: Reg -> int, live: RegSet, cur: map<Reg, Reg>, done: RegSet, y: Reg, up: Reg)
    requires Places(live, cur, done) && y in live
    requires Meets(regs, value, live, cur[y := up], done)
    ensures Meets(Step(regs, Move(cur[y], up)), value, live, cur, done)
  {
    var regs' := Step(regs, Move(cur[y], up));
    forall rp | rp in live ensures regs'(cur[rp]) == value(rp) {
      if rp == y { assert cur[y := up][y] == up; } else { assert cur[y := up][rp] == cur[rp]; }
    }
  }

  /** Renaming the target of y to a temporary register. */
  lemma RenameOk(code: seq<Move>, live: RegSet, cur: map<Reg, Reg>, done: RegSet, target: map<Reg, Reg>, y: Reg, up: Reg)
    requires Places(live, cur, done) && y in live && Correct(code, live, cur, done, target)
    requires up !in done && SameClass(y, up) && forall a :: a in live ==> cur[a] != up
    ensures Places(live, cur[y := up], done)
    ensures Correct(code + [Move(cur[y], up)], live, cur[y := up], done, target)
  {
    hide Meets, Delivered;
    var m := Move(cur[y], up);
    forall regs: Reg -> int, value: Reg -> int | Meets(regs, value, live, cur[y := up], done)
      ensures Delivered(Exec(code + [m], regs), value, target)
    {
      RenameMeets(regs, value, live, cur, done, y, up);
      ExecEmit(code, m, regs);
    }
  }

  // ---- What the code leaves alone ----

  ghost predicate WritesOnly(code: seq<Move>, regs: RegSet) {
    forall m :: m in code ==> m.dst in regs
  }

  lemma {:induction false} Untouched(code: seq<Move>, dsts: RegSet, regs: Reg -> int, r: Reg)
    requires WritesOnly(code, dsts) && r !in dsts
    ensures Exec(code, regs)(r) == regs(r)
    decreases |code|
  {
    if code != [] {
      var n := |code| - 1;
      assert code[n] in code;
      Untouched(code[..n], dsts, Step(regs, code[n]), r);
    }
  }

  // ---- The assembler ----

  lemma {:induction false} HasLeast(s: RegSet) returns (r: Reg)
    requires s != {}
    ensures r in s && forall x :: x in s ==> r <= x
    decreases s
  {
    var x :| x in s;
    r := x;
    var rest := s - {x};
    assert forall y :: y in s ==> y == x || y in rest;
    if rest != {} {
      var y := HasLeast(rest);
      if y < x { r := y; }
    }
  }

  /** rset_pickbot */
  method PickBot(s: RegSet) returns (r: Reg)
    requires s != {}
    ensures r in s && forall x :: x in s ==> r <= x
  {
    ghost var least := HasLeast(s);
    r :| r in s && forall x :: x in s ==> r <= x;
  }

  lemma SubsetFull(a: RegSet, b: RegSet)
    requires a <= b && |b| <= |a|
    ensures a == b
  {
    if x :| x in b && x !in a {
      SubsetSize(a, b - {x});
    }
  }

  lemma {:induction false} SubsetSize(a: RegSet, b: RegSet)
    requires a <= b
    ensures |a| <= |b|
    decreases a
  {
    if x :| x in a { SubsetSize(a - {x}, b - {x}); }
  }

  function Image(live: RegSet, cur: map<Reg, Reg>): RegSet {
    set rp | rp in live && rp in cur :: cur[rp]
  }

  lemma Source(live: RegSet, cur: map<Reg, Reg>, r: Reg) returns (x: Reg)
    requires r in Image(live, cur)
    ensures x in live && x in cur && cur[x] == r
  {
    x :| x in live && x in cur && cur[x] == r;
  }

  lemma InImage(live: RegSet, cur: map<Reg, Reg>, x: Reg)
    requires x in live && x in cur
    ensures cur[x] in Image(live, cur)
  {
  }

  lemma {:induction false} ImageSize(live: RegSet, cur: map<Reg, Reg>)
    requires live <= cur.Keys
    ensures |Image(live, cur)| <= |live|
    decreases live
  {
    if x :| x in live {
      ImageSize(live - {x}, cur);
      SubsetSize(Image(live, cur), Image(live - {x}, cur) + {cur[x]});
    }
  }

  /** When every live register is a target, the targets are the live registers: only cycles
      are left. */
  lemma OnlyCycles(live: RegSet, cur: map<Reg, Reg>)
    requires live <= cur.Keys && live <= Image(live, cur)
    ensures Image(live, cur) == live
  {
    ImageSize(live, cur);
    SubsetFull(live, Image(live, cur));
  }

  /** Live registers of a class that are the targets of one another. */
  ghost predicate IsCycle(c: RegSet, live: RegSet, cur: map<Reg, Reg>, cls: RegSet) {
    c != {} && c <= live * cls && Image(c, cur) == c
  }

  ghost predicate HasCycle(live: RegSet, cur: map<Reg, Reg>, cls: RegSet) {
    exists c: RegSet :: IsCycle(c, live, cur, cls)
  }

  /** A register for breaking cycles of a class. */
  ghost predicate HasTemp(free: RegSet, live: RegSet, allow: RegSet, cls: RegSet) {
    free * allow * cls - live != {}
  }

  // ---- The allocator state ----

  /** The fields of ASMState: free registers, the instruction a register is allocated to,
      the register an instruction is allocated to, and the emitted moves. */
  datatype Alloc = Alloc(freeset: RegSet, cost: map<Reg, Ref>, reg: map<Ref, Reg>, code: seq<Move>)

  /** Where the values of parent registers have to be: the registers of their loads. */
  ghost function Cur(a: Alloc, sloadins: map<Reg, Ref>): map<Reg, Reg> {
    map rp | rp in sloadins && sloadins[rp] in a.reg :: a.reg[sloadins[rp]]
  }

  /** The loads of live parent registers are allocated, one to a register; every live
      register that is not free is such a target. */
  ghost predicate Allocated(a: Alloc, live: RegSet, sloadins: map<Reg, Ref>) {
    && live <= sloadins.Keys && live <= Cur(a, sloadins).Keys
    && (forall rp :: rp in live ==> var t := Cur(a, sloadins)[rp]; t !in a.freeset && t in a.cost && a.cost[t] == sloadins[rp])
    && (forall x, y :: x in sloadins && y in sloadins && x != y ==> sloadins[x] != sloadins[y])
    && live - a.freeset <= Image(live, Cur(a, sloadins))
  }

  /** The state between two moves: base moves were there before, free registers are free
      again or hold a value on its way. */
  ghost predicate Going(a: Alloc, live: RegSet, sloadins: map<Reg, Ref>, done: RegSet, target: map<Reg, Reg>, before: Alloc) {
    && Allocated(a, live, sloadins) && Places(live, Cur(a, sloadins), done)
    && |before.code| <= |a.code| && a.code[..|before.code|] == before.code
    && Correct(a.code[|before.code|..], live, Cur(a, sloadins), done, target)
    && a.freeset + Image(live, Cur(a, sloadins)) == Writable(before, target)
    && WritesOnly(a.code[|before.code|..], Writable(before, target))
  }

  /** The registers that were free, and the targets. */
  function Writable(before: Alloc, target: map<Reg, Reg>): RegSet {
    before.freeset + Image(target.Keys, target)
  }

  lemma WritesMore(code: seq<Move>, w: RegSet, m: Move)
    requires WritesOnly(code, w) && m.dst in w
    ensures WritesOnly(code + [m], w)
  {
  }

  function Coalesced(a: Alloc, t: Reg, rp: Reg): Alloc {
    a.(freeset := a.freeset + {t}, code := a.code + [Move(t, rp)])
  }

  lemma CoalesceAllocated(a: Alloc, live: RegSet, sloadins: map<Reg, Ref>, rp: Reg)
    requires Allocated(a, live, sloadins) && Places(live, Cur(a, sloadins), {}) && rp in live && rp in a.freeset
    ensures var t := Cur(a, sloadins)[rp];
            var b := Coalesced(a, t, rp);
            && Allocated(b, live - {rp}, sloadins) && Cur(b, sloadins) == Cur(a, sloadins)
            && a.freeset + Image(live, Cur(a, sloadins)) == b.freeset + Image(live - {rp}, Cur(b, sloadins))
            && forall x :: x in live ==> Cur(a, sloadins)[x] != rp
  {
    var cur := Cur(a, sloadins);
    var t := cur[rp];
    forall r | r in Image(live, cur) && r != t ensures r in Image(live - {rp}, cur) {
      var x :| x in live && x in cur && cur[x] == r;
      assert x in live - {rp};
    }
    assert t in Image(live, cur) && Image(live - {rp}, cur) <= Image(live, cur);
  }

  lemma CoalesceGoing(a: Alloc, live: RegSet, sloadins: map<Reg, Ref>, done: RegSet, target: map<Reg, Reg>, before: Alloc, rp: Reg)
    requires Going(a, live, sloadins, done, target, before) && rp in live && rp in a.freeset
    ensures var t := Cur(a, sloadins)[rp];
            SameClass(t, rp) && Going(Coalesced(a, t, rp), live - {rp}, sloadins, done + {rp}, target, before)
  {
    var cur := Cur(a, sloadins);
    var b := Coalesced(a, cur[rp], rp);
    var n := |before.code|;
    CoalesceAllocated(a, live, sloadins, rp);
    var w := Writable(before, target);
    assert cur[rp] in Image(live, cur);
    assert Image(live - {rp}, cur) <= Image(live, cur);
    WritesMore(a.code[n..], w, Move(cur[rp], rp));
    hide Allocated, Correct, Cur, Image, WritesOnly;
    CoalesceOk(a.code[n..], live, cur, done, target, rp);
    assert b.code[n..] == a.code[n..] + [Move(cur[rp], rp)];
    assert b.code[..n] == a.code[..n];
  }

  function Renamed(a: Alloc, down: Reg, up: Reg): Alloc
    requires down in a.cost
  {
    var ref := a.cost[down];
    Alloc(a.freeset + {down} - {up}, a.cost[up := ref] - {down}, a.reg[ref := up], a.code + [Move(down, up)])
  }

  lemma RenameAllocated(a: Alloc, live: RegSet, sloadins: map<Reg, Ref>, y: Reg, up: Reg)
    requires Allocated(a, live, sloadins) && Places(live, Cur(a, sloadins), {}) && y in live && up in a.freeset && up !in live
    ensures var down := Cur(a, sloadins)[y];
            && down in a.cost && down !in a.freeset
            && Cur(Renamed(a, down, up), sloadins) == Cur(a, sloadins)[y := up]
            && (forall x :: x in live ==> Cur(a, sloadins)[x] != up)
  {
    var down := Cur(a, sloadins)[y];
    var b := Renamed(a, down, up);
    assert Cur(b, sloadins) == Cur(a, sloadins)[y := up];
  }

  lemma RenameImage(live: RegSet, cur: map<Reg, Reg>, y: Reg, up: Reg)
    requires live <= cur.Keys && y in live
    requires forall x, z :: x in live && z in live && x != z ==> cur[x] != cur[z]
    ensures Image(live, cur[y := up]) == Image(live, cur) - {cur[y]} + {up}
  {
    var next := cur[y := up];
    forall r | r in Image(live, cur) - {cur[y]} ensures r in Image(live, next) {
      var x :| x in live && cur[x] == r;
      assert next[x] == r;
    }
    assert next[y] == up;
    forall r | r in Image(live, next) ensures r in Image(live, cur) - {cur[y]} + {up} {
      var x :| x in live && next[x] == r;
    }
  }

  lemma RenameKeeps(a: Alloc, live: RegSet, sloadins: map<Reg, Ref>, y: Reg, up: Reg)
    requires Allocated(a, live, sloadins) && Places(live, Cur(a, sloadins), {}) && y in live && up in a.freeset && up !in live
    ensures var down := Cur(a, sloadins)[y];
            down in a.cost && Allocated(Renamed(a, down, up), live, sloadins)
  {
    RenameAllocated(a, live, sloadins, y, up);
    RenameImage(live, Cur(a, sloadins), y, up);
  }

  lemma PlacesFewer(live: RegSet, cur: map<Reg, Reg>, done: RegSet)
    requires Places(live, cur, done)
    ensures Places(live, cur, {})
  {
  }

  lemma RenameGoing(a: Alloc, live: RegSet, sloadins: map<Reg, Ref>, done: RegSet, target: map<Reg, Reg>, before: Alloc, y: Reg, up: Reg)
    requires Going(a, live, sloadins, done, target, before) && y in live
    requires up in a.freeset && up !in live && up !in done && SameClass(y, up)
    ensures var down := Cur(a, sloadins)[y];
            && down in a.cost && down !in a.freeset && SameClass(down, up)
            && Going(Renamed(a, down, up), live, sloadins, done, target, before)
  {
    var cur := Cur(a, sloadins);
    var n := |before.code|;
    PlacesFewer(live, cur, done);
    RenameAllocated(a, live, sloadins, y, up);
    RenameKeeps(a, live, sloadins, y, up);
    RenameImage(live, cur, y, up);
    var w := Writable(before, target);
    assert cur[y] in Image(live, cur);
    WritesMore(a.code[n..], w, Move(cur[y], up));
    hide Allocated, Correct, Cur, Image, WritesOnly;
    var b := Renamed(a, cur[y], up);
    RenameOk(a.code[n..], live, cur, done, target, y, up);
    assert b.code[n..] == a.code[n..] + [Move(cur[y], up)];
    assert b.code[..n] == a.code[..n];
  }

  lemma RenameMoves(a: Alloc, live: RegSet, sloadins: map<Reg, Ref>, done: RegSet, target: map<Reg, Reg>, before: Alloc, y: Reg, up: Reg)
    requires Going(a, live, sloadins, done, target, before) && y in live && up in a.freeset && up !in live
    ensures var down := Cur(a, sloadins)[y];
            down in a.cost && Cur(Renamed(a, down, up), sloadins) == Cur(a, sloadins)[y := up]
  {
    PlacesFewer(live, Cur(a, sloadins), done);
    RenameAllocated(a, live, sloadins, y, up);
  }

  /** The registers of rs have the same places. */
  ghost predicate Unmoved(cur: map<Reg, Reg>, cur': map<Reg, Reg>, rs: RegSet) {
    forall rp :: rp in rs && rp in cur ==> rp in cur' && cur'[rp] == cur[rp]
  }

  lemma FreeIsNoTarget(a: Alloc, live: RegSet, sloadins: map<Reg, Ref>, done: RegSet, target: map<Reg, Reg>, before: Alloc, rp: Reg)
    requires Going(a, live, sloadins, done, target, before) && rp in a.freeset
    ensures rp !in Image(live, Cur(a, sloadins))
  {
  }

  // ---- The assembler ----

  class ASMState {
    var freeset: RegSet
    var cost: map<Reg, Ref>
    var reg: map<Ref, Reg>
    var code: seq<Move>

    ghost function View(): Alloc
      reads this
    {
      Alloc(freeset, cost, reg, code)
    }

    /** emit_movrr */
    method EmitMove(dst: Reg, src: Reg)
      requires SameClass(dst, src)
      modifies `code
      ensures code == old(code) + [Move(dst, src)]
    {
      code := code + [Move(dst, src)];
    }

    /** ra_rename, without the rename instruction of the IR */
    method Rename(down: Reg, up: Reg)
      requires down in cost && SameClass(down, up) && down !in freeset && up in freeset
      modifies this
      ensures View() == Renamed(old(View()), down, up)
    {
      var ref := cost[down];
      cost := cost[up := ref];
      reg := reg[ref := up];
      cost := cost - {down};
      freeset := freeset + {down};
      freeset := freeset - {up};
      EmitMove(down, up);
    }

    /** One turn of the inner loop: a free live register is moved to its target. */
    method Coalesce(rp: Reg, live: RegSet, sloadins: map<Reg, Ref>, ghost done: RegSet, ghost target: map<Reg, Reg>, ghost before: Alloc)
      requires Going(View(), live, sloadins, done, target, before) && rp in live && rp in freeset
      modifies this
      ensures Going(View(), live - {rp}, sloadins, done + {rp}, target, before)
      ensures Cur(View(), sloadins) == old(Cur(View(), sloadins)) && rp !in Image(live, Cur(View(), sloadins))
    {
      FreeIsNoTarget(View(), live, sloadins, done, target, before, rp);
      CoalesceGoing(View(), live, sloadins, done, target, before, rp);
      ghost var next := Coalesced(View(), Cur(View(), sloadins)[rp], rp);
      var t := reg[sloadins[rp]];
      freeset := freeset + {t};
      EmitMove(t, rp);
      assert View() == next;
    }

    /** Breaking the cycles of one class: false is "register coalescing too complex". */
    method BreakCycle(live: RegSet, allow: RegSet, sloadins: map<Reg, Ref>, cls: RegSet,
                      ghost done: RegSet, ghost target: map<Reg, Reg>, ghost before: Alloc) returns (ok: bool)
      requires cls == RSET_GPR || cls == RSET_FPR
      requires Going(View(), live, sloadins, done, target, before) && allow !! done && live * cls !! freeset
      requires live <= RSET_GPR + RSET_FPR
      modifies this
      ensures Going(View(), live, sloadins, done, target, before)
      ensures ok <==> live * cls == {} || HasTemp(old(freeset), live, allow, cls)
      ensures freeset - cls == old(freeset) - cls
      ensures live * cls == {} ==> freeset == old(freeset)
      ensures ok && live * cls != {} ==> live * freeset != {}
      ensures Unmoved(old(Cur(View(), sloadins)), Cur(View(), sloadins), live - cls)
      ensures !HasTemp(old(freeset), live, allow, cls) ==> Unmoved(old(Cur(View(), sloadins)), Cur(View(), sloadins), live)
    {
      hide Going, Cur, Unmoved;
      StaysUnmoved(Cur(View(), sloadins), live);
      ok := true;
      if live * cls == {} { return; }
      var tmpset := freeset - live;
      tmpset := tmpset * allow * cls;
      if tmpset == {} { return false; }
      var down := PickBot(live * cls);
      var up := PickBot(tmpset);
      RenameTarget(down, up, live, sloadins, cls, done, target, before);
      assert down in live * freeset;
    }

    /** The target that lies in the live register down is renamed to a temporary register. */
    method RenameTarget(down: Reg, up: Reg, live: RegSet, sloadins: map<Reg, Ref>, ghost cls: RegSet,
                        ghost done: RegSet, ghost target: map<Reg, Reg>, ghost before: Alloc)
      requires cls == RSET_GPR || cls == RSET_FPR
      requires live <= RSET_GPR + RSET_FPR
      requires Going(View(), live, sloadins, done, target, before) && down in live * cls && down !in freeset
      requires up in freeset && up in cls && up !in live && up !in done
      modifies this
      ensures Going(View(), live, sloadins, done, target, before)
      ensures freeset == old(freeset) + {down} - {up}
      ensures Unmoved(old(Cur(View(), sloadins)), Cur(View(), sloadins), live - cls)
    {
      hide Going, Cur, Image;
      ghost var y := TargetOf(View(), live, sloadins, done, target, before, down);
      RenameGoing(View(), live, sloadins, done, target, before, y, up);
      RenameMoves(View(), live, sloadins, done, target, before, y, up);
      assert y in cls;
      Rename(down, up);
    }
  }

  lemma TargetOf(a: Alloc, live: RegSet, sloadins: map<Reg, Ref>, done: RegSet, target: map<Reg, Reg>, before: Alloc, down: Reg)
    returns (y: Reg)
    requires Going(a, live, sloadins, done, target, before) && down in live && down !in a.freeset
    ensures y in live && y in Cur(a, sloadins) && Cur(a, sloadins)[y] == down && SameClass(y, down)
  {
    assert down in Image(live, Cur(a, sloadins));
    y :| y in live && y in Cur(a, sloadins) && Cur(a, sloadins)[y] == down;
  }

  /** When no live register is free, the registers for breaking cycles are those that there
      were at the start: free ones and targets, allowed, and not live. */
  lemma TempStays(a: Alloc, live: RegSet, sloadins: map<Reg, Ref>, done: RegSet, target: map<Reg, Reg>, before: Alloc,
                  live0: RegSet, allow0: RegSet, cls: RegSet)
    requires Going(a, live, sloadins, done, target, before) && live * a.freeset == {}
    requires live <= live0 && done == live0 - live
    ensures Image(live, Cur(a, sloadins)) == live
    ensures HasTemp(a.freeset, live, allow0 - done, cls) <==> HasTemp(Writable(before, target), live0, allow0, cls)
  {
    assert live - a.freeset == live by { forall r | r in live ensures r !in a.freeset { assert r in a.freeset ==> r in live * a.freeset; } }
    OnlyCycles(live, Cur(a, sloadins));
    assert a.freeset == Writable(before, target) - live by {
      forall r | r in a.freeset ensures r !in live { assert r in live ==> r in live * a.freeset; }
    }
    assert a.freeset * (allow0 - done) * cls - live == Writable(before, target) * allow0 * cls - live0;
  }

  /** What is left when no live register is free is a cycle of each class. */
  lemma LeftIsCycle(live: RegSet, cur: map<Reg, Reg>, live0: RegSet, target: map<Reg, Reg>, cls: RegSet)
    requires cls == RSET_GPR || cls == RSET_FPR
    requires live <= live0 && live <= cur.Keys && live <= target.Keys && live <= RSET_GPR + RSET_FPR && Image(live, cur) == live
    requires (forall a :: a in live ==> SameClass(a, cur[a])) && Unmoved(target, cur, live * cls) && live * cls != {}
    ensures IsCycle(live * cls, live0, target, cls)
  {
    hide Image;
    var c := live * cls;
    forall r | r in Image(c, target) ensures r in c {
      var x := Source(c, target, r);
      assert x in live && x in cur && SameClass(x, cur[x]);
      InImage(live, cur, x);
      assert r in live && r in cls;
    }
    forall r | r in c ensures r in Image(c, target) {
      var x := Source(live, cur, r);
      assert SameClass(x, r) && x in cls && x in c && x in target;
      InImage(c, target, x);
    }
    assert Image(c, target) == c;
  }

  lemma AllDone(code: seq<Move>, cur: map<Reg, Reg>, done: RegSet, target: map<Reg, Reg>)
    requires Correct(code, {}, cur, done, target)
    ensures forall regs: Reg -> int :: Delivered(Exec(code, regs), regs, target)
  {
    forall regs: Reg -> int ensures Delivered(Exec(code, regs), regs, target) {
      assert Meets(regs, regs, {}, cur, done);
    }
  }

  lemma StartGoing(a: Alloc, live: RegSet, sloadins: map<Reg, Ref>)
    requires live == sloadins.Keys && Allocated(a, live, sloadins) && Places(live, Cur(a, sloadins), {})
    ensures Going(a, live, sloadins, {}, Cur(a, sloadins), a)
  {
    var cur := Cur(a, sloadins);
    assert a.code[|a.code|..] == [];
    assert Correct([], live, cur, {}, cur);
    assert cur.Keys == live;
  }

  /** The shuffle at the head of a side trace: false is "register coalescing too complex".
      Run from any registers, the emitted moves leave every target with the value of its
      parent register; with a temporary register of each class the shuffle never fails. */
  method ShuffleRegisters(as_: ASMState, live0: RegSet, allow0: RegSet, sloadins: map<Reg, Ref>) returns (ok: bool)
    requires live0 == sloadins.Keys && 4 !in live0
    requires Allocated(as_.View(), live0, sloadins) && Places(live0, Cur(as_.View(), sloadins), {})
    modifies as_
    ensures var n := |old(as_.code)|;
            && n <= |as_.code| && as_.code[..n] == old(as_.code)
            && (ok ==> forall regs: Reg -> int :: Delivered(Exec(as_.code[n..], regs), regs, Cur(old(as_.View()), sloadins)))
    ensures ok ==> as_.freeset == Writable(old(as_.View()), Cur(old(as_.View()), sloadins))
    ensures ok ==> forall regs: Reg -> int, r: Reg :: r !in Writable(old(as_.View()), Cur(old(as_.View()), sloadins)) ==>
      Exec(as_.code[|old(as_.code)|..], regs)(r) == regs(r)
    ensures ok <==> CanShuffle(old(as_.View()), live0, allow0, Cur(old(as_.View()), sloadins))
  {
    ghost var before := as_.View();
    ghost var target := Cur(before, sloadins);
    assert live0 <= target.Keys;
    ClassesAre();
    assert live0 <= RSET_GPR + RSET_FPR;
    hide Going, Allocated, CanShuffle, Places;
    StartGoing(before, live0, sloadins);
    ghost var live, done: RegSet;
    ok, live, done := ShuffleLoop(as_, live0, allow0, sloadins, target, before);
    GoingCode(as_.View(), live, sloadins, done, target, before);
    if ok { GoingDone(as_.View(), sloadins, done, target, before); }
  }

  /** Each class has a register for breaking cycles, or no cycle to break. */
  ghost predicate CanShuffle(before: Alloc, live: RegSet, allow: RegSet, target: map<Reg, Reg>) {
    && (HasTemp(Writable(before, target), live, allow, General()) || !HasCycle(live, target, General()))
    && (HasTemp(Writable(before, target), live, allow, Floating()) || !HasCycle(live, target, Floating()))
  }

  /** The general registers but the stack pointer, and the floating-point registers. */
  function General(): RegSet {
    {0, 1, 2, 3, 5, 6, 7, 8, 9, 10, 11, 12, 13, 14, 15}
  }

  function Floating(): RegSet {
    {16, 17, 18, 19, 20, 21, 22, 23, 24, 25, 26, 27, 28, 29, 30, 31}
  }

  lemma ClassesAre()
    ensures RSET_GPR == General() && RSET_FPR == Floating()
  {
  }

  /** In a class without a register for breaking cycles, nothing has moved, and the cycles of
      the start are still live. */
  ghost predicate Stuck(cur: map<Reg, Reg>, live: RegSet, live0: RegSet, allow0: RegSet, target: map<Reg, Reg>,
      before: Alloc, cls: RegSet) {
    !HasTemp(Writable(before, target), live0, allow0, cls) ==>
      && Unmoved(target, cur, live * cls)
      && forall c: RegSet :: IsCycle(c, live0, target, cls) ==> c <= live
  }

  /** The loop of the shuffle. */
  method ShuffleLoop(as_: ASMState, live0: RegSet, allow0: RegSet, sloadins: map<Reg, Ref>, ghost target: map<Reg, Reg>,
      ghost before: Alloc)
    returns (ok: bool, ghost live': RegSet, ghost done: RegSet)
    requires live0 <= RSET_GPR + RSET_FPR && before == as_.View() && Going(before, live0, sloadins, {}, target, before)
    requires target == Cur(before, sloadins) && live0 <= target.Keys
    modifies as_
    ensures Going(as_.View(), live', sloadins, done, target, before) && (ok ==> live' == {})
    ensures ok <==> CanShuffle(before, live0, allow0, target)
  {
    hide Going, HasTemp, Unmoved, IsCycle, CanShuffle, Stuck;
    done := {};
    var live, allow := live0, allow0;
    ok := true;
    StartStuck(live0, allow0, target, before);
    while ok && live != {}
      invariant live <= live0 && done == live0 - live && allow == allow0 - done
      invariant Going(as_.View(), live, sloadins, done, target, before)
      invariant Stuck(Cur(as_.View(), sloadins), live, live0, allow0, target, before, RSET_GPR)
      invariant Stuck(Cur(as_.View(), sloadins), live, live0, allow0, target, before, RSET_FPR)
      invariant !ok ==> !CanShuffle(before, live0, allow0, target)
      decreases ok, |live|, live * as_.freeset == {}
    {
      ghost var was, cur := live, Cur(as_.View(), sloadins);
      live, allow, done := CoalesceFree(as_, live, allow, sloadins, done, target, before);
      SubsetSize(live, was);
      StuckFewer(cur, was, live, live0, allow0, target, before, RSET_GPR);
      StuckFewer(cur, was, live, live0, allow0, target, before, RSET_FPR);
      ghost var a := as_.View();
      assert allow == allow0 - done && done == live0 - live;
      ok := BreakCycles(as_, live, allow, sloadins, done, target, before);
      AfterBreak(a, Cur(as_.View(), sloadins), live, sloadins, done, target, before, live0, allow0, ok);
    }
    live' := live;
    if ok { NothingLeft(Cur(as_.View(), sloadins), live0, allow0, target, before); }
  }

  lemma StartStuck(live0: RegSet, allow0: RegSet, target: map<Reg, Reg>, before: Alloc)
    ensures Stuck(target, live0, live0, allow0, target, before, RSET_GPR)
    ensures Stuck(target, live0, live0, allow0, target, before, RSET_FPR)
  {
  }

  /** A cycle of the start, where nothing of its class has moved, is one still. */
  lemma SameCycle(c: RegSet, cur: map<Reg, Reg>, was: RegSet, live0: RegSet, target: map<Reg, Reg>, cls: RegSet)
    requires IsCycle(c, live0, target, cls) && c <= was && Unmoved(target, cur, was * cls)
    ensures c <= Image(c, cur)
  {
    hide Image;
    forall r | r in c ensures r in Image(c, cur) {
      var x := Source(c, target, r);
      assert x in live0 * cls && x in was * cls;
      InImage(c, cur, x);
    }
  }

  lemma StuckFewer(cur: map<Reg, Reg>, was: RegSet, live: RegSet, live0: RegSet, allow0: RegSet, target: map<Reg, Reg>,
      before: Alloc, cls: RegSet)
    requires Stuck(cur, was, live0, allow0, target, before, cls) && live <= was
    requires forall c: RegSet :: c <= was && c <= Image(c, cur) ==> c <= live
    ensures Stuck(cur, live, live0, allow0, target, before, cls)
  {
    hide HasTemp, IsCycle, Image, Unmoved;
    if !HasTemp(Writable(before, target), live0, allow0, cls) {
      UnmovedFewer(target, cur, was * cls, live * cls);
      forall c: RegSet | IsCycle(c, live0, target, cls) ensures c <= live { SameCycle(c, cur, was, live0, target, cls); }
    }
  }

  lemma StaysUnmoved(cur: map<Reg, Reg>, live: RegSet)
    ensures forall rs: RegSet :: Unmoved(cur, cur, rs)
  {
  }

  lemma UnmovedFewer(cur: map<Reg, Reg>, cur': map<Reg, Reg>, rs: RegSet, rs': RegSet)
    requires Unmoved(cur, cur', rs) && rs' <= rs
    ensures Unmoved(cur, cur', rs')
  {
  }

  lemma UnmovedTwice(cur: map<Reg, Reg>, cur': map<Reg, Reg>, cur'': map<Reg, Reg>, rs: RegSet)
    requires Unmoved(cur, cur', rs) && Unmoved(cur', cur'', rs)
    ensures Unmoved(cur, cur'', rs)
  {
  }

  lemma StuckStays(cur: map<Reg, Reg>, cur': map<Reg, Reg>, live: RegSet, live0: RegSet, allow0: RegSet,
      target: map<Reg, Reg>, before: Alloc, cls: RegSet)
    requires Stuck(cur, live, live0, allow0, target, before, cls)
    requires !HasTemp(Writable(before, target), live0, allow0, cls) ==> Unmoved(cur, cur', live * cls)
    ensures Stuck(cur', live, live0, allow0, target, before, cls)
  {
    hide HasTemp, IsCycle, Unmoved;
    if !HasTemp(Writable(before, target), live0, allow0, cls) { UnmovedTwice(target, cur, cur', live * cls); }
  }

  /** A class that has a live register left and none for breaking cycles had a cycle at the start. */
  lemma NoWay(a: Alloc, live: RegSet, sloadins: map<Reg, Ref>, done: RegSet, target: map<Reg, Reg>, before: Alloc,
              live0: RegSet, allow0: RegSet, cls: RegSet)
    requires cls == RSET_GPR || cls == RSET_FPR
    requires Going(a, live, sloadins, done, target, before) && live * a.freeset == {} && live * cls != {}
    requires live <= live0 && live0 <= RSET_GPR + RSET_FPR && live0 <= target.Keys && done == live0 - live
    requires !HasTemp(Writable(before, target), live0, allow0, cls) && Stuck(Cur(a, sloadins), live, live0, allow0, target, before, cls)
    ensures !CanShuffle(before, live0, allow0, target)
  {
    ClassesAre();
    TempStays(a, live, sloadins, done, target, before, live0, allow0, cls);
    GoingPlaces(a, live, sloadins, done, target, before);
    hide Going, HasTemp, IsCycle;
    LeftIsCycle(live, Cur(a, sloadins), live0, target, cls);
    assert HasCycle(live0, target, cls);
  }

  /** The outcome of breaking cycles, against the start. */
  lemma AfterBreak(a: Alloc, cur': map<Reg, Reg>, live: RegSet, sloadins: map<Reg, Ref>, done: RegSet, target: map<Reg, Reg>, before: Alloc,
                   live0: RegSet, allow0: RegSet, ok: bool)
    requires Going(a, live, sloadins, done, target, before) && live * a.freeset == {}
    requires live <= live0 && live0 <= RSET_GPR + RSET_FPR && live0 <= target.Keys && done == live0 - live
    requires Stuck(Cur(a, sloadins), live, live0, allow0, target, before, RSET_GPR)
    requires Stuck(Cur(a, sloadins), live, live0, allow0, target, before, RSET_FPR)
    requires BrokeAsTold(a.freeset, Cur(a, sloadins), cur', live, allow0 - done, ok)
    ensures Stuck(cur', live, live0, allow0, target, before, RSET_GPR) && Stuck(cur', live, live0, allow0, target, before, RSET_FPR)
    ensures !ok ==> !CanShuffle(before, live0, allow0, target)
  {
    hide Going, HasTemp, Stuck, CanShuffle, Unmoved, Cur;
    TempStays(a, live, sloadins, done, target, before, live0, allow0, RSET_GPR);
    TempStays(a, live, sloadins, done, target, before, live0, allow0, RSET_FPR);
    StuckStays(Cur(a, sloadins), cur', live, live0, allow0, target, before, RSET_GPR);
    StuckStays(Cur(a, sloadins), cur', live, live0, allow0, target, before, RSET_FPR);
    if !ok {
      if live * RSET_GPR != {} && !HasTemp(a.freeset, live, allow0 - done, RSET_GPR) {
        NoWay(a, live, sloadins, done, target, before, live0, allow0, RSET_GPR);
      } else {
        NoWay(a, live, sloadins, done, target, before, live0, allow0, RSET_FPR);
      }
    }
  }

  lemma GoingPlaces(a: Alloc, live: RegSet, sloadins: map<Reg, Ref>, done: RegSet, target: map<Reg, Reg>, before: Alloc)
    requires Going(a, live, sloadins, done, target, before)
    ensures live <= Cur(a, sloadins).Keys && forall rp :: rp in live ==> SameClass(rp, Cur(a, sloadins)[rp])
  {
  }

  lemma NothingLeft(cur: map<Reg, Reg>, live0: RegSet, allow0: RegSet, target: map<Reg, Reg>, before: Alloc)
    requires Stuck(cur, {}, live0, allow0, target, before, RSET_GPR) && Stuck(cur, {}, live0, allow0, target, before, RSET_FPR)
    ensures CanShuffle(before, live0, allow0, target)
  {
    hide HasTemp;
    ClassesAre();
  }

  /** Breaking cycles fails exactly for want of a register, and moves nothing in a class
      that has none. */
  ghost predicate BrokeAsTold(free: RegSet, cur: map<Reg, Reg>, cur': map<Reg, Reg>, live: RegSet, allow: RegSet, ok: bool) {
    && (ok <==> && (live * RSET_GPR == {} || HasTemp(free, live, allow, RSET_GPR))
                && (live * RSET_FPR == {} || HasTemp(free, live, allow, RSET_FPR)))
    && (!HasTemp(free, live, allow, RSET_GPR) ==> Unmoved(cur, cur', live * RSET_GPR))
    && (!HasTemp(free, live, allow, RSET_FPR) ==> Unmoved(cur, cur', live * RSET_FPR))
  }

  /** Breaking one cycle of each class that has any. */
  method BreakCycles(as_: ASMState, live: RegSet, allow: RegSet, sloadins: map<Reg, Ref>,
                     ghost done: RegSet, ghost target: map<Reg, Reg>, ghost before: Alloc) returns (ok: bool)
    requires Going(as_.View(), live, sloadins, done, target, before) && allow !! done
    requires live * as_.freeset == {} && live <= RSET_GPR + RSET_FPR
    modifies as_
    ensures Going(as_.View(), live, sloadins, done, target, before)
    ensures BrokeAsTold(old(as_.freeset), old(Cur(as_.View(), sloadins)), Cur(as_.View(), sloadins), live, allow, ok)
    ensures ok && live != {} ==> live * as_.freeset != {}
  {
    hide Going, HasTemp, Cur;
    ghost var free := as_.freeset;
    NoneFree(live, free, RSET_GPR);
    ok := as_.BreakCycle(live, allow, sloadins, RSET_GPR, done, target, before);
    if !ok { return; }
    SameTemp(free, as_.freeset, live, allow);
    ok := as_.BreakCycle(live, allow, sloadins, RSET_FPR, done, target, before);
    assert live == live * RSET_GPR + live * RSET_FPR;
  }

  /** The inner loop: repeatedly move free live registers to their targets. */
  method CoalesceFree(as_: ASMState, live0: RegSet, allow0: RegSet, sloadins: map<Reg, Ref>,
                      ghost done0: RegSet, ghost target: map<Reg, Reg>, ghost before: Alloc)
    returns (live: RegSet, allow: RegSet, ghost done: RegSet)
    requires Going(as_.View(), live0, sloadins, done0, target, before)
    modifies as_
    ensures Going(as_.View(), live, sloadins, done, target, before) && as_.freeset * live == {}
    ensures live <= live0 && done == done0 + (live0 - live) && allow == allow0 - (live0 - live)
    ensures old(as_.freeset) * live0 != {} ==> |live| < |live0|
    ensures Cur(as_.View(), sloadins) == old(Cur(as_.View(), sloadins))
    ensures forall c: RegSet :: c <= live0 && c <= Image(c, Cur(as_.View(), sloadins)) ==> c <= live
  {
    hide Going, Cur;
    live, allow, done := live0, allow0, done0;
    while as_.freeset * live != {}
      invariant live <= live0 && done == done0 + (live0 - live) && allow == allow0 - (live0 - live)
      invariant Going(as_.View(), live, sloadins, done, target, before)
      invariant live == live0 ==> as_.freeset == old(as_.freeset)
      invariant Cur(as_.View(), sloadins) == old(Cur(as_.View(), sloadins))
      invariant forall c: RegSet :: c <= live0 && c <= Image(c, Cur(as_.View(), sloadins)) ==> c <= live
      decreases |live|
    {
      var rp := PickBot(as_.freeset * live);
      as_.Coalesce(rp, live, sloadins, done, target, before);
      CyclesStay(live0, live, rp, Cur(as_.View(), sloadins));
      live := live - {rp};
      allow := allow - {rp};
      done := done + {rp};
    }
    SubsetSize(live, live0);
    if |live| == |live0| { SubsetFull(live, live0); }
  }

  /** A register that is no target is in no cycle. */
  lemma CyclesStay(live0: RegSet, live: RegSet, rp: Reg, cur: map<Reg, Reg>)
    requires rp !in Image(live, cur)
    requires forall c: RegSet :: c <= live0 && c <= Image(c, cur) ==> c <= live
    ensures forall c: RegSet :: c <= live0 && c <= Image(c, cur) ==> c <= live - {rp}
  {
    forall c: RegSet | c <= live0 && c <= Image(c, cur) ensures c <= live - {rp} {
      assert c <= live;
      assert Image(c, cur) <= Image(live, cur);
    }
  }

  lemma NoneFree(live: RegSet, free: RegSet, cls: RegSet)
    requires live * free == {}
    ensures live * cls !! free
  {
    forall r | r in live ensures r !in free { assert r in free ==> r in live * free; }
  }

  lemma SameTemp(free: RegSet, free': RegSet, live: RegSet, allow: RegSet)
    requires free' - RSET_GPR == free - RSET_GPR
    ensures HasTemp(free', live, allow, RSET_FPR) == HasTemp(free, live, allow, RSET_FPR)
    ensures live * free == {} ==> live * RSET_FPR !! free'
  {
    forall r | r in RSET_FPR ensures r in free' <==> r in free {
      assert r !in RSET_GPR;
      assert r in free' - RSET_GPR <==> r in free - RSET_GPR;
    }
    if live * free == {} { NoneFree(live, free, RSET_FPR); }
    assert free' * allow * RSET_FPR - live == free * allow * RSET_FPR - live;
  }

  lemma GoingCode(a: Alloc, live: RegSet, sloadins: map<Reg, Ref>, done: RegSet, target: map<Reg, Reg>, before: Alloc)
    requires Going(a, live, sloadins, done, target, before)
    ensures |before.code| <= |a.code| && a.code[..|before.code|] == before.code
  {
  }

  lemma GoingDone(a: Alloc, sloadins: map<Reg, Ref>, done: RegSet, target: map<Reg, Reg>, before: Alloc)
    requires Going(a, {}, sloadins, done, target, before)
    ensures |before.code| <= |a.code| && a.code[..|before.code|] == before.code && a.freeset == Writable(before, target)
    ensures forall regs: Reg -> int :: Delivered(Exec(a.code[|before.code|..], regs), regs, target)
    ensures forall regs: Reg -> int, r: Reg :: r !in Writable(before, target) ==> Exec(a.code[|before.code|..], regs)(r) == regs(r)
  {
    forall regs: Reg -> int, r: Reg | r !in Writable(before, target) ensures Exec(a.code[|before.code|..], regs)(r) == regs(r) {
      Untouched(a.code[|before.code|..], Writable(before, target), regs, r);
    }
    AllDone(a.code[|before.code|..], Cur(a, sloadins), done, target);
  }
}
