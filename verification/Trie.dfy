/** The treebins of the bundled allocator: bitwise tries of free chunks, keyed by
    chunk size. A node holds one size; chunks of the same size hang on its ring. */
module Trie {
  import opened Powers

  const NTREEBINS := 32
  const SIZE_LIMIT := 0x1_0000_0000_0000_0000   // 2**64, one above the largest size_t
  const INDEX_LIMIT := 0x100_0000_0000          // 2**40: from here on the tree index wraps

  // ---- Bits ----

  /** s >> n */
  function Shr(s: nat, n: nat): nat {
    if n == 0 then s else Shr(s, n - 1) / 2
  }

  lemma {:induction false} ShrMonotone(a: nat, b: nat, n: nat)
    requires a <= b
    ensures Shr(a, n) <= Shr(b, n)
  {
    if n > 0 { ShrMonotone(a, b, n - 1); }
  }

  lemma {:induction false} ShrShr(s: nat, a: nat, b: nat)
    ensures Shr(Shr(s, a), b) == Shr(s, a + b)
  {
    if b > 0 { ShrShr(s, a, b - 1); }
  }

  /** Index of the highest set bit. */
  function Fls(x: nat): nat
    requires x > 0
  {
    if x == 1 then 0 else 1 + Fls(x / 2)
  }

  lemma {:induction false} FlsMonotone(a: nat, b: nat)
    requires 0 < a <= b
    ensures Fls(a) <= Fls(b)
  {
    if a > 1 { FlsMonotone(a / 2, b / 2); }
  }

  /** Shifting by the index of the highest set bit leaves that bit. */
  lemma {:induction false} ShrFls(x: nat)
    requires x > 0
    ensures Shr(x, Fls(x)) == 1
  {
    if x > 1 {
      ShrFls(x / 2);
      ShrShr(x, 1, Fls(x / 2));
      assert Shr(x, 1) == x / 2;
    }
  }

  // ---- Tree index ----

  /** compute_tree_index; the shifted size is cut to 32 bits. */
  function TreeIndex(s: nat): (i: nat)
    ensures i < NTREEBINS
  {
    var x := Shr(s, 8) % 0x1_0000_0000;
    if x == 0 then 0
    else if x > 0xFFFF then NTREEBINS - 1
    else
      FlsBound(x);
      2 * Fls(x) + Shr(s, Fls(x) + 7) % 2
  }

  lemma FlsBound(x: nat)
    requires 0 < x <= 0xFFFF
    ensures Fls(x) <= 15
  {
    assert Fls(0xFFFF) == 15 by {
      assert Fls(0xFFF) == 11 by { assert Fls(0xF) == 3; assert Fls(0xFF) == 7; }
    }
    FlsMonotone(x, 0xFFFF);
  }

  /** Shifting divides and drops the rest. */
  lemma {:induction false} ShrDivides(s: nat, n: nat)
    ensures Pow2(n) * Shr(s, n) <= s < Pow2(n) * (Shr(s, n) + 1)
  {
    if n > 0 {
      ShrDivides(s, n - 1);
      var h, p := Shr(s, n - 1), Pow2(n - 1);
      assert Shr(s, n) == h / 2 && Pow2(n) == 2 * p;
      hide Shr, Pow2;
      Halved(s, h, p);
    }
  }

  lemma Halved(s: nat, h: nat, p: nat)
    requires p * h <= s < p * (h + 1)
    ensures 2 * p * (h / 2) <= s < 2 * p * (h / 2 + 1)
  {
    var q := h / 2;
    if h == 2 * q {
      assert p * h == 2 * p * q && p * (h + 1) == p * h + p && 2 * p * (q + 1) == 2 * p * q + 2 * p;
    } else {
      assert h == 2 * q + 1;
      assert p * h == 2 * p * q + p && p * (h + 1) == 2 * p * q + 2 * p && 2 * p * (q + 1) == 2 * p * q + 2 * p;
    }
  }

  lemma {:induction false} FlsBetween(x: nat)
    requires x > 0
    ensures Pow2(Fls(x)) <= x < Pow2(Fls(x) + 1)
  {
    if x > 1 { FlsBetween(x / 2); }
  }

  lemma {:induction false} PowersApart(a: nat, b: nat)
    requires a < b
    ensures 2 * Pow2(a) <= Pow2(b)
  {
    if a < b - 1 { PowersApart(a, b - 1); }
  }

  /** Bins 2k and 2k + 1 share the sizes from 2**(k+8) up to twice that, half by half; the
      last bin also has all larger ones. */
  lemma TreeIndexIs(s: nat, k: nat)
    requires s < INDEX_LIMIT && k <= 15
    ensures Pow2(k + 8) <= s < Pow2(k + 8) + Pow2(k + 7) ==> TreeIndex(s) == 2 * k
    ensures Pow2(k + 8) + Pow2(k + 7) <= s < 2 * Pow2(k + 8) ==> TreeIndex(s) == 2 * k + 1
    ensures s >= 0x100_0000 ==> TreeIndex(s) == 31
    ensures s < 256 ==> TreeIndex(s) == 0
  {
    IndexFormula(s);
    hide TreeIndex, Shr, Fls, Pow2;
    var x := Shr(s, 8);
    assert 256 * x <= s < 256 * x + 256 by { ByteDivides(s); }
    assert Pow2(k + 8) == 2 * Pow2(k + 7) by { DoublePower(k + 7); }
    if Pow2(k + 8) <= s < 2 * Pow2(k + 8) {
      FlsOfSize(s, k);
      ShrDivides(s, k + 7);
      HalfBit(s, Shr(s, k + 7), Pow2(k + 7));
    }
  }

  lemma ByteDivides(s: nat)
    ensures 256 * Shr(s, 8) <= s < 256 * Shr(s, 8) + 256
  {
    ShrDivides(s, 8);
    Pow2Byte(0);
    hide Shr, Pow2;
    assert Pow2(0) == 1 by { OnePower(); }
  }

  lemma OnePower()
    ensures Pow2(0) == 1
  {
  }

  lemma DoublePower(n: nat)
    ensures Pow2(n + 1) == 2 * Pow2(n)
  {
  }

  lemma IndexFormula(s: nat)
    requires s < INDEX_LIMIT
    ensures var x := Shr(s, 8);
            TreeIndex(s) == if x == 0 then 0 else if x > 0xFFFF then 31 else 2 * Fls(x) + Shr(s, Fls(x) + 7) % 2
  {
    hide Shr, Fls;
    ShrLimits(s);
  }

  lemma FlsOfSize(s: nat, k: nat)
    requires k <= 15 && Pow2(k + 8) <= s < 2 * Pow2(k + 8)
    ensures 0 < Shr(s, 8) <= 0xFFFF && Fls(Shr(s, 8)) == k
  {
    var x := Shr(s, 8);
    ShrDivides(s, 8);
    Pow2Byte(0);
    Pow2Byte(k);
    TwoBytes(k);
    hide Shr;
    assert Pow2(k) <= x < 2 * Pow2(k);
    FlsBetween(x);
    var f := Fls(x);
    hide Fls;
    DoublePower(f);
    if f < k { PowersApart(f, k); } else if k < f { PowersApart(k, f); }
  }

  lemma TwoBytes(k: nat)
    requires k <= 15
    ensures 2 * Pow2(k) <= 0x1_0000
  {
    PowersApart(k, 16);
    Pow2Byte(0);
    Pow2Byte(8);
  }

  lemma HalfBit(s: nat, h: nat, p: nat)
    requires p * h <= s < p * (h + 1) && 2 * p <= s < 4 * p
    ensures h % 2 == if s < 3 * p then 0 else 1
  {
    assert h <= 1 ==> p * (h + 1) <= p * 2;
    assert h >= 4 ==> p * h >= p * 4;
  }

  /** Number of size bits that the trie of bin i resolves, and the bits above them,
      which all sizes of the bin share. */
  function BinBits(i: nat): nat {
    if i == NTREEBINS - 1 then 64 else i / 2 + 7
  }

  function BinPrefix(i: nat): nat {
    if i == NTREEBINS - 1 then 0 else 2 + i % 2
  }

  lemma {:induction false} ShrBound(s: nat, n: nat, m: nat)
    requires s < Pow2(m + n)
    ensures Shr(s, n) < Pow2(m)
  {
    if n > 0 { ShrBound(s, n - 1, m + 1); }
  }

  lemma Pow2Byte(n: nat)
    ensures Pow2(n + 8) == 256 * Pow2(n)
  {
    assert Pow2(n + 2) == 4 * Pow2(n);
    assert Pow2(n + 4) == 4 * Pow2(n + 2);
    assert Pow2(n + 6) == 4 * Pow2(n + 4);
    assert Pow2(n + 8) == 4 * Pow2(n + 6);
  }

  lemma Pow2Values()
    ensures Pow2(32) == 0x1_0000_0000 && Pow2(40) == INDEX_LIMIT && Pow2(64) == SIZE_LIMIT
  {
    Pow2Byte(0);
    Pow2Byte(8);
    Pow2Byte(16);
    Pow2Byte(24);
    Pow2Byte(32);
    Pow2Byte(40);
    Pow2Byte(48);
    Pow2Byte(56);
  }

  lemma ShrLimits(s: nat)
    ensures s < INDEX_LIMIT ==> Shr(s, 8) < 0x1_0000_0000
    ensures s < SIZE_LIMIT ==> Shr(s, 64) == 0
    ensures s >= 256 ==> Shr(s, 8) > 0
  {
    Pow2Values();
    if s < INDEX_LIMIT { ShrBound(s, 8, 32); }
    if s < SIZE_LIMIT { ShrBound(s, 64, 0); }
    if s >= 256 {
      assert Shr(256, 8) == 1;
      ShrMonotone(256, s, 8);
    }
  }

  /** A large size has the prefix of its bin. */
  lemma IndexPrefix(s: nat)
    requires 256 <= s < INDEX_LIMIT
    ensures var i := TreeIndex(s); Shr(s, BinBits(i)) == BinPrefix(i)
  {
    hide Shr, Fls;
    ShrLimits(s);
    var x := Shr(s, 8);
    if x <= 0xFFFF {
      TopBits(s);
    }
  }

  /** The top two bits of a large size. */
  lemma TopBits(s: nat)
    requires Shr(s, 8) > 0
    ensures var k := Fls(Shr(s, 8)); Shr(s, k + 8) == 1 && Shr(s, k + 7) == 2 + Shr(s, k + 7) % 2
  {
    var x := Shr(s, 8);
    ShrFls(x);
    ShrShr(s, 8, Fls(x));
  }

  /** The index of a size that is large but not cut. */
  lemma LargeIndex(s: nat)
    requires 256 <= s < INDEX_LIMIT
    ensures Shr(s, 8) > 0
    ensures Shr(s, 8) > 0xFFFF ==> TreeIndex(s) == NTREEBINS - 1
    ensures Shr(s, 8) <= 0xFFFF ==>
              TreeIndex(s) == 2 * Fls(Shr(s, 8)) + Shr(s, Fls(Shr(s, 8)) + 7) % 2 < NTREEBINS
  {
    ShrLimits(s);
    hide Shr, Fls;
    if Shr(s, 8) <= 0xFFFF { FlsBound(Shr(s, 8)); }
  }

  /** Larger sizes never have a smaller index. */
  lemma IndexMonotone(s: nat, t: nat)
    requires 256 <= s <= t < INDEX_LIMIT
    ensures TreeIndex(s) <= TreeIndex(t)
  {
    LargeIndex(s);
    LargeIndex(t);
    hide TreeIndex, Shr;
    ShrMonotone(s, t, 8);
    var x, y := Shr(s, 8), Shr(t, 8);
    if y <= 0xFFFF {
      FlsMonotone(x, y);
      if Fls(x) == Fls(y) { HalfMonotone(s, t); }
    }
  }

  /** Sizes with the same highest bit are ordered by the bit behind it. */
  lemma HalfMonotone(s: nat, t: nat)
    requires s <= t && 0 < Shr(s, 8) && 0 < Shr(t, 8) && Fls(Shr(s, 8)) == Fls(Shr(t, 8))
    ensures var k := Fls(Shr(s, 8)); Shr(s, k + 7) % 2 <= Shr(t, k + 7) % 2
  {
    TopBits(s);
    TopBits(t);
    ShrMonotone(s, t, Fls(Shr(s, 8)) + 7);
  }

  // ---- Trees ----

  /** A tree node: `ring` lists the chunks of this size in fd order, the chunk that
      is the node first. */
  datatype Tree = Nil | Node(size: nat, ring: seq<nat>, left: Tree, right: Tree)

  /** The bit that picks the child, when w bits are still unresolved. */
  function Bit(s: nat, w: nat): nat {
    if w == 0 then 0 else Shr(s, w - 1) % 2
  }

  /** All chunks of the tree, with their sizes. */
  function Members(t: Tree): set<(nat, nat)> {
    match t
    case Nil => {}
    case Node(s, ring, l, r) => RingMembers(ring, s) + Members(l) + Members(r)
  }

  function RingMembers(ring: seq<nat>, s: nat): set<(nat, nat)> {
    set a | a in ring :: (a, s)
  }

  function Sizes(t: Tree): set<nat> {
    match t
    case Nil => {}
    case Node(s, _, l, r) => {s} + Sizes(l) + Sizes(r)
  }

  predicate Distinct(ring: seq<nat>) {
    forall i, j :: 0 <= i < j < |ring| ==> ring[i] != ring[j]
  }

  /** The trie invariant: every size of the tree is q in its high bits, the children
      split the next one of its w low bits, and no size has two nodes. */
  predicate IsTrie(t: Tree, q: nat, w: nat) {
    match t
    case Nil => true
    case Node(s, ring, l, r) =>
      && Shr(s, w) == q && ring != [] && Distinct(ring)
      && s !in Sizes(l) && s !in Sizes(r)
      && (w == 0 ==> l.Nil? && r.Nil?)
      && (w > 0 ==> IsTrie(l, 2 * q, w - 1) && IsTrie(r, 2 * q + 1, w - 1))
  }

  lemma {:induction false} SizesInRange(t: Tree, q: nat, w: nat, s: nat)
    requires IsTrie(t, q, w) && s in Sizes(t)
    ensures Shr(s, w) == q
  {
    if s != t.size {
      if s in Sizes(t.left) { SizesInRange(t.left, 2 * q, w - 1, s); } else { SizesInRange(t.right, 2 * q + 1, w - 1, s); }
    }
  }

  lemma {:induction false} MembersSizes(t: Tree, q: nat, w: nat)
    requires IsTrie(t, q, w)
    ensures forall m :: m in Members(t) ==> m.1 in Sizes(t)
    ensures forall s :: s in Sizes(t) ==> exists a :: (a, s) in Members(t)
  {
    if t.Node? {
      if w > 0 {
        MembersSizes(t.left, 2 * q, w - 1);
        MembersSizes(t.right, 2 * q + 1, w - 1);
      }
      assert (t.ring[0], t.size) in RingMembers(t.ring, t.size);
    }
  }

  /** Whole subtrees are ordered by their prefixes. */
  lemma SubtreesOrdered(l: Tree, r: Tree, q: nat, q': nat, w: nat, a: nat, b: nat)
    requires IsTrie(l, q, w) && IsTrie(r, q', w) && q < q' && a in Sizes(l) && b in Sizes(r)
    ensures a < b
  {
    SizesInRange(l, q, w, a);
    SizesInRange(r, q', w, b);
    if b <= a { ShrMonotone(b, a, w); }
  }

  /** Links a chunk into the tree: on the ring of its size, or as a new leaf. */
  function Insert(t: Tree, x: nat, s: nat, w: nat): Tree {
    match t
    case Nil => Node(s, [x], Nil, Nil)
    case Node(s', ring, l, r) =>
      if s' == s then
        t.(ring := if ring == [] then [x] else [ring[0], x] + ring[1..])
      else if w == 0 then t
      else if Bit(s, w) == 1 then t.(right := Insert(r, x, s, w - 1))
      else t.(left := Insert(l, x, s, w - 1))
  }

  lemma {:induction false} InsertOk(t: Tree, x: nat, s: nat, q: nat, w: nat)
    requires IsTrie(t, q, w) && Shr(s, w) == q && (x, s) !in Members(t)
    ensures IsTrie(Insert(t, x, s, w), q, w)
    ensures Members(Insert(t, x, s, w)) == Members(t) + {(x, s)}
    ensures Sizes(Insert(t, x, s, w)) == Sizes(t) + {s}
  {
    if t.Nil? {
      NewLeaf(x, s, q, w);
    } else if t.size == s {
      InsertHere(t, x, q, w);
    } else {
      BitOfSize(s, q, w);
      if Bit(s, w) == 1 {
        InsertOk(t.right, x, s, 2 * q + 1, w - 1);
        GrownChild(t, t.left, Insert(t.right, x, s, w - 1), (x, s), q, w);
      } else {
        InsertOk(t.left, x, s, 2 * q, w - 1);
        GrownChild(t, Insert(t.left, x, s, w - 1), t.right, (x, s), q, w);
      }
      hide IsTrie, Members, Sizes;
    }
  }

  lemma NewLeaf(x: nat, s: nat, q: nat, w: nat)
    requires Shr(s, w) == q
    ensures var t := Node(s, [x], Nil, Nil); IsTrie(t, q, w) && Members(t) == {(x, s)} && Sizes(t) == {s}
  {
  }

  lemma GrownChild(t: Tree, l: Tree, r: Tree, m: (nat, nat), q: nat, w: nat)
    requires IsTrie(t, q, w) && t.Node? && w > 0 && m.1 != t.size
    requires IsTrie(l, 2 * q, w - 1) && IsTrie(r, 2 * q + 1, w - 1)
    requires (l == t.left && Members(r) == Members(t.right) + {m} && Sizes(r) == Sizes(t.right) + {m.1})
             || (r == t.right && Members(l) == Members(t.left) + {m} && Sizes(l) == Sizes(t.left) + {m.1})
    ensures var t' := t.(left := l, right := r);
            IsTrie(t', q, w) && Members(t') == Members(t) + {m} && Sizes(t') == Sizes(t) + {m.1}
  {
    hide Shr;
  }

  lemma BitOfSize(s: nat, q: nat, w: nat)
    requires Shr(s, w) == q
    ensures w > 0 ==> Shr(s, w - 1) == 2 * q + Bit(s, w)
  {
  }

  lemma InsertHere(t: Tree, x: nat, q: nat, w: nat)
    requires IsTrie(t, q, w) && t.Node? && (x, t.size) !in Members(t)
    ensures IsTrie(Insert(t, x, t.size, w), q, w)
    ensures Members(Insert(t, x, t.size, w)) == Members(t) + {(x, t.size)}
    ensures Sizes(Insert(t, x, t.size, w)) == Sizes(t) + {t.size}
  {
    var ring' := Insert(t, x, t.size, w).ring;
    assert x !in t.ring;
    assert t.ring == [t.ring[0]] + t.ring[1..];
    assert forall a :: a in ring' <==> a in t.ring || a == x;
    assert RingMembers(ring', t.size) == RingMembers(t.ring, t.size) + {(x, t.size)};
  }

  /** The leaf that replaces an unlinked node: rightmost child first, all the way
      down. Also the tree without it. */
  function TakeLeaf(t: Tree): (r: (Tree, Tree))
    requires t.Node?
    ensures r.0.Node?
  {
    if t.right.Node? then
      var (leaf, rest) := TakeLeaf(t.right);
      (leaf, t.(right := rest))
    else if t.left.Node? then
      var (leaf, rest) := TakeLeaf(t.left);
      (leaf, t.(left := rest))
    else (t, Nil)
  }

  /** The tree that remains when the node itself is unlinked. */
  function DropNode(t: Tree): Tree
    requires t.Node?
  {
    if t.right.Node? then
      var (leaf, rest) := TakeLeaf(t.right);
      leaf.(left := t.left, right := rest)
    else if t.left.Node? then
      var (leaf, rest) := TakeLeaf(t.left);
      leaf.(left := rest, right := Nil)
    else Nil
  }

  function Without(ring: seq<nat>, x: nat): (r: seq<nat>)
    ensures forall a :: a in r <==> a in ring && a != x
    ensures Distinct(ring) ==> Distinct(r)
  {
    if ring == [] then [] else
    assert ring == [ring[0]] + ring[1..];
    assert Distinct(ring) ==> ring[0] !in ring[1..];
    if ring[0] == x then Without(ring[1..], x) else [ring[0]] + Without(ring[1..], x)
  }

  /** Unlinks chunk x of size s. The node of a longer ring is replaced by the chunk
      behind it on the ring, a lone node by a leaf below it. */
  function Unlink(t: Tree, x: nat, s: nat, w: nat): Tree {
    match t
    case Nil => Nil
    case Node(s', ring, l, r) =>
      if s' == s then
        if ring == [x] then DropNode(t)
        else if ring != [] && ring[0] == x then t.(ring := [ring[|ring| - 1]] + ring[1..|ring| - 1])
        else t.(ring := Without(ring, x))
      else if w == 0 then t
      else if Bit(s, w) == 1 then t.(right := Unlink(r, x, s, w - 1))
      else t.(left := Unlink(l, x, s, w - 1))
  }

  lemma {:induction false} TakeLeafOk(t: Tree, q: nat, w: nat)
    requires IsTrie(t, q, w) && t.Node?
    ensures var (leaf, rest) := TakeLeaf(t);
            && leaf.left.Nil? && leaf.right.Nil? && leaf.ring != [] && Distinct(leaf.ring)
            && Shr(leaf.size, w) == q
            && IsTrie(rest, q, w)
            && Sizes(t) == Sizes(rest) + {leaf.size} && leaf.size !in Sizes(rest)
            && Members(t) == Members(rest) + RingMembers(leaf.ring, leaf.size)
  {
    if t.right.Node? {
      TakeLeafOk(t.right, 2 * q + 1, w - 1);
      var (leaf, rest) := TakeLeaf(t.right);
      if leaf.size in Sizes(t.left) { SizesInRange(t.left, 2 * q, w - 1, leaf.size); }
    } else if t.left.Node? {
      TakeLeafOk(t.left, 2 * q, w - 1);
    }
  }

  lemma DropNodeOk(t: Tree, q: nat, w: nat)
    requires IsTrie(t, q, w) && t.Node?
    ensures IsTrie(DropNode(t), q, w)
    ensures Sizes(DropNode(t)) == Sizes(t) - {t.size}
    ensures Members(DropNode(t)) == Members(t.left) + Members(t.right)
  {
    if t.right.Node? {
      TakeLeafOk(t.right, 2 * q + 1, w - 1);
      var (leaf, rest) := TakeLeaf(t.right);
      if leaf.size in Sizes(t.left) { SizesInRange(t.left, 2 * q, w - 1, leaf.size); }
    } else if t.left.Node? {
      TakeLeafOk(t.left, 2 * q, w - 1);
    }
  }

  lemma {:induction false} UnlinkOk(t: Tree, x: nat, s: nat, q: nat, w: nat)
    requires IsTrie(t, q, w) && Shr(s, w) == q && (x, s) in Members(t)
    ensures IsTrie(Unlink(t, x, s, w), q, w)
    ensures Members(Unlink(t, x, s, w)) == Members(t) - {(x, s)}
    ensures Sizes(Unlink(t, x, s, w)) <= Sizes(t)
  {
    if t.size == s {
      UnlinkHere(t, x, q, w);
    } else {
      var (l, r) := (t.left, t.right);
      Side(t, x, s, q, w);
      if Bit(s, w) == 1 {
        UnlinkOk(r, x, s, 2 * q + 1, w - 1);
        SetMinus(RingMembers(t.ring, t.size) + Members(l), Members(r), (x, s));
      } else {
        UnlinkOk(l, x, s, 2 * q, w - 1);
        SetMinus(RingMembers(t.ring, t.size) + Members(r), Members(l), (x, s));
      }
    }
  }

  lemma SetMinus<T>(a: set<T>, b: set<T>, x: T)
    requires x !in a
    ensures a + (b - {x}) == a + b - {x}
  {
  }

  /** A chunk that is not on the node's ring is below the child that its bit picks. */
  lemma Side(t: Tree, x: nat, s: nat, q: nat, w: nat)
    requires IsTrie(t, q, w) && Shr(s, w) == q && (x, s) in Members(t) && t.size != s
    ensures w > 0 && Shr(s, w - 1) == 2 * q + Bit(s, w)
    ensures (x, s) !in RingMembers(t.ring, t.size)
    ensures (x, s) in Members(t.right) <==> Bit(s, w) == 1
    ensures (x, s) in Members(t.left) <==> Bit(s, w) == 0
  {
    assert (x, s) !in RingMembers(t.ring, t.size);
    assert w > 0 && (x, s) in Members(t.left) + Members(t.right);
    if (x, s) in Members(t.left) { MemberInRange(t.left, 2 * q, w - 1, x, s); }
    if (x, s) in Members(t.right) { MemberInRange(t.right, 2 * q + 1, w - 1, x, s); }
  }

  lemma MemberInRange(t: Tree, q: nat, w: nat, x: nat, s: nat)
    requires IsTrie(t, q, w) && (x, s) in Members(t)
    ensures s in Sizes(t) && Shr(s, w) == q
  {
    MembersSizes(t, q, w);
    SizesInRange(t, q, w, s);
  }

  lemma UnlinkHere(t: Tree, x: nat, q: nat, w: nat)
    requires IsTrie(t, q, w) && t.Node? && (x, t.size) in Members(t)
    ensures IsTrie(Unlink(t, x, t.size, w), q, w)
    ensures Members(Unlink(t, x, t.size, w)) == Members(t) - {(x, t.size)}
    ensures Sizes(Unlink(t, x, t.size, w)) <= Sizes(t)
  {
    OwnRing(t, q, w);
    if t.ring == [x] {
      DropNodeOk(t, q, w);
      assert RingMembers(t.ring, t.size) == {(x, t.size)};
    } else {
      var ring' := Unlink(t, x, t.size, w).ring;
      if t.ring[0] == x { RotateRing(t.ring); }
      assert ring' != [] by {
        assert |t.ring| > 1;
        assert t.ring[0] in ring' || t.ring[1] in ring';
      }
      assert RingMembers(ring', t.size) == RingMembers(t.ring, t.size) - {(x, t.size)};
    }
  }

  /** The chunks of a node's size are those on its ring. */
  lemma OwnRing(t: Tree, q: nat, w: nat)
    requires IsTrie(t, q, w) && t.Node?
    ensures forall a :: (a, t.size) !in Members(t.left) && (a, t.size) !in Members(t.right)
  {
    if w > 0 {
      MembersSizes(t.left, 2 * q, w - 1);
      MembersSizes(t.right, 2 * q + 1, w - 1);
    }
  }

  lemma RotateRing(ring: seq<nat>)
    requires |ring| > 1 && Distinct(ring)
    ensures var r := [ring[|ring| - 1]] + ring[1..|ring| - 1];
            Distinct(r) && forall a :: a in r <==> a in ring && a != ring[0]
  {
    var n := |ring| - 1;
    var r := [ring[n]] + ring[1..n];
    forall a | a in ring && a != ring[0] ensures a in r {
      var i :| 0 <= i < |ring| && ring[i] == a;
      if i < n { assert r[i] == a; } else { assert r[0] == a; }
    }
  }

  // ---- Best fit ----

  function LeftmostChild(t: Tree): Tree
    requires t.Node?
  {
    if t.left.Node? then t.left else t.right
  }

  /** Least size on the leftmost walk from t. */
  function WalkMin(t: Tree): nat
    requires t.Node?
  {
    var c := LeftmostChild(t);
    if c.Node? && WalkMin(c) < t.size then WalkMin(c) else t.size
  }

  /** The leftmost walk meets the least size of the whole tree. */
  lemma {:induction false} WalkMinIsLeast(t: Tree, q: nat, w: nat)
    requires IsTrie(t, q, w) && t.Node?
    ensures WalkMin(t) in Sizes(t) && forall s :: s in Sizes(t) ==> WalkMin(t) <= s
  {
    if t.left.Node? {
      WalkMinIsLeast(t.left, 2 * q, w - 1);
      forall s | s in Sizes(t.right) ensures WalkMin(t.left) < s {
        SubtreesOrdered(t.left, t.right, 2 * q, 2 * q + 1, w - 1, WalkMin(t.left), s);
      }
    } else if t.right.Node? {
      WalkMinIsLeast(t.right, 2 * q + 1, w - 1);
    }
  }

  /** The treebins of a heap: each a trie of the sizes with its index, marked in the
      tree map when it is not empty. */
  ghost predicate BinsOk(bins: seq<Tree>, treemap: set<nat>) {
    && |bins| == NTREEBINS
    && (forall i :: i in treemap ==> i < NTREEBINS)
    && (forall i :: 0 <= i < NTREEBINS ==>
          && IsTrie(bins[i], BinPrefix(i), BinBits(i))
          && (i in treemap <==> bins[i].Node?)
          && (forall s :: s in Sizes(bins[i]) ==> 256 <= s < INDEX_LIMIT && TreeIndex(s) == i))
  }

  ghost predicate InBins(bins: seq<Tree>, s: nat) {
    exists i :: 0 <= i < |bins| && s in Sizes(bins[i])
  }

  /** a - b in size_t. */
  function Sub64(a: nat, b: nat): nat
    requires a < SIZE_LIMIT && b < SIZE_LIMIT
  {
    if a >= b then a - b else a + SIZE_LIMIT - b
  }

  /** lj_ffs: the lowest index at or above i that is marked. */
  method FirstMarked(marks: set<nat>, i: nat) returns (k: nat)
    requires exists j :: j in marks && i <= j
    ensures k in marks && i <= k && forall j :: i <= j < k ==> j !in marks
  {
    ghost var b :| b in marks && i <= b;
    k := i;
    while k !in marks
      invariant i <= k <= b && forall j :: i <= j < k ==> j !in marks
      decreases b - k
    {
      k := k + 1;
    }
  }

  /** Sizes that still matter when the search stands at t with the untaken subtree
      rst: all but those below nb and those that v or rst beats. */
  ghost predicate Covers(t: Tree, rst: Tree, v: Tree, nb: nat, s: nat) {
    s >= nb ==>
      || s in Sizes(t)
      || (v.Node? && nb <= v.size <= s)
      || (rst.Node? && WalkMin(rst) <= s)
  }

  /** Taking the child that the bit of nb picks loses no size that matters. */
  lemma PathStep(t: Tree, rst: Tree, v: Tree, nb: nat, s: nat, p: nat, w: nat, rq: nat, rw: nat)
    requires t.Node? && IsTrie(t, p, w) && (rst.Node? ==> IsTrie(rst, rq, rw))
    requires Shr(nb, w) == p || s < nb
    requires rst.Node? ==> forall a, b :: a in Sizes(t) && b in Sizes(rst) ==> a < b
    requires Covers(t, rst, v, nb, s)
    requires t.size >= nb ==> v.Node? && nb <= v.size <= t.size
    ensures var b := Bit(nb, w);
            Covers(if b == 1 then t.right else t.left, if b == 0 && t.right.Node? then t.right else rst, v, nb, s)
  {
    var b := Bit(nb, w);
    if b == 1 { LeftSide(t, nb, p, w); }
    if t.right.Node? {
      WalkMinIsLeast(t.right, 2 * p + 1, w - 1);
      if rst.Node? { WalkMinIsLeast(rst, rq, rw); }
      assert WalkMin(t.right) in Sizes(t);
    }
    hide WalkMin, Shr, Bit, IsTrie;
  }

  /** The left subtree lies below nb when nb turns right. */
  lemma LeftSide(t: Tree, nb: nat, p: nat, w: nat)
    requires t.Node? && IsTrie(t, p, w)
    ensures Shr(nb, w) == p && Bit(nb, w) == 1 ==> forall c :: c in Sizes(t.left) ==> c < nb
  {
    forall c | c in Sizes(t.left) && Shr(nb, w) == p && Bit(nb, w) == 1 ensures c < nb {
      SizesInRange(t.left, 2 * p, w - 1, c);
      if nb <= c { ShrMonotone(nb, c, w - 1); }
    }
  }

  predicate Within(t: Tree, root: Tree) {
    Members(t) <= Members(root) && Sizes(t) <= Sizes(root)
  }

  /** v is a node that fits, with rsize left over, or there is none so far. */
  ghost predicate Found(v: Tree, rsize: nat, nb: nat, members: set<(nat, nat)>)
    requires nb < SIZE_LIMIT
  {
    if v.Node? then v.ring != [] && (v.ring[0], v.size) in members && nb <= v.size < SIZE_LIMIT && rsize == v.size - nb
    else rsize == SIZE_LIMIT - nb
  }

  /** What the walk may start from: nothing that is too small, unless nothing fits or
      the fit is already exact. */
  ghost predicate Walkable(t: Tree, rsize: nat, nb: nat) {
    || (forall s :: s in Sizes(t) ==> s >= nb)
    || (forall s :: s in Sizes(t) ==> s < nb)
    || rsize == 0
  }

  /** The search stands at node t, with w bits unresolved and the deepest untaken
      right subtree rst. `aims` says that nb belongs to the bin of the root. */
  ghost predicate Descends(root: Tree, t: Tree, q: nat, w: nat, rst: Tree, rq: nat, rw: nat,
                           v: Tree, nb: nat, aims: bool)
  {
    && IsTrie(t, q, w) && Within(t, root)
    && IsTrie(rst, rq, rw) && Within(rst, root)
    && (if aims then Shr(nb, w) == q else forall s :: s in Sizes(root) ==> s < nb)
    && (aims ==> forall s :: s in Sizes(rst) ==> s >= nb)
    && (forall a, b :: a in Sizes(t) && b in Sizes(rst) ==> a < b)
    && (forall s :: s in Sizes(root) ==> Covers(t, rst, v, nb, s))
  }

  lemma Begin(root: Tree, nb: nat, q: nat, w: nat)
    requires IsTrie(root, q, w) && root.Node? && 0 < nb < SIZE_LIMIT
    requires Shr(nb, w) == q || forall s :: s in Sizes(root) ==> s < nb
    ensures Descends(root, root, q, w, Nil, 0, 0, Nil, nb, Shr(nb, w) == q)
  {
  }

  /** The size of a node is among the sizes of its root. */
  lemma NodeSize(t: Tree, root: Tree)
    requires t.Node? && Within(t, root)
    ensures t.size in Sizes(root)
  {
  }

  /** Visiting node t keeps the better of v and t. */
  lemma Visit(root: Tree, t: Tree, q: nat, w: nat, rst: Tree, rq: nat, rw: nat, v: Tree, nb: nat, aims: bool, rsize: nat)
    requires Descends(root, t, q, w, rst, rq, rw, v, nb, aims) && t.Node? && 0 < nb < SIZE_LIMIT
    requires 0 < t.size < SIZE_LIMIT && Found(v, rsize, nb, Members(root))
    ensures var trem := Sub64(t.size, nb);
            var v' := if trem < rsize then t else v;
            && Found(v', if trem < rsize then trem else rsize, nb, Members(root))
            && (t.size >= nb ==> v'.Node? && nb <= v'.size <= t.size)
            && Descends(root, t, q, w, rst, rq, rw, v', nb, aims)
  {
    assert (t.ring[0], t.size) in RingMembers(t.ring, t.size);
  }

  /** One step down keeps all that. */
  lemma Descend(root: Tree, t: Tree, q: nat, w: nat, rst: Tree, rq: nat, rw: nat, v: Tree, nb: nat, aims: bool)
    requires Descends(root, t, q, w, rst, rq, rw, v, nb, aims) && t.Node?
    requires t.size >= nb ==> v.Node? && nb <= v.size <= t.size
    ensures var b := Bit(nb, w);
            var t' := if b == 1 then t.right else t.left;
            var turns := t.right.Node? && t.right != t';
            && (t'.Node? || turns ==> w > 0)
            && Descends(root, t', if w > 0 then 2 * q + b else q, if w > 0 then w - 1 else 0,
                        if turns then t.right else rst, if turns then 2 * q + 1 else rq, if turns then w - 1 else rw,
                        v, nb, aims)
  {
    RightSide(t, nb, q, w);
    OtherChild(t, q, w);
    var b := Bit(nb, w);
    forall s | s in Sizes(root) ensures Covers(if b == 1 then t.right else t.left,
                                               if b == 0 && t.right.Node? then t.right else rst, v, nb, s) {
      PathStep(t, rst, v, nb, s, q, w, rq, rw);
    }
    hide Covers, Shr;
  }

  /** Two children are never the same tree. */
  lemma OtherChild(t: Tree, q: nat, w: nat)
    requires t.Node? && IsTrie(t, q, w)
    ensures t.right.Node? ==> t.left != t.right
  {
    RightSide(t, 0, q, w);
  }

  /** Walks down the bits of nb. Every size of the root that fits is then at least
      the best size seen, or at least the least one of the deepest untaken right
      subtree, which is returned. */
  method PathSearch(root: Tree, nb: nat, ghost q: nat, w0: nat)
    returns (v: Tree, rsize: nat, t: Tree, ghost tq: nat, ghost tw: nat)
    requires IsTrie(root, q, w0) && root.Node? && 0 < nb < SIZE_LIMIT
    requires forall s :: s in Sizes(root) ==> 0 < s < SIZE_LIMIT
    requires Shr(nb, w0) == q || forall s :: s in Sizes(root) ==> s < nb
    ensures Found(v, rsize, nb, Members(root))
    ensures IsTrie(t, tq, tw) && Within(t, root)
    ensures Shr(nb, w0) == q ==> rsize == 0 || forall s :: s in Sizes(t) ==> s >= nb
    ensures forall s :: s in Sizes(root) ==> Covers(Nil, t, v, nb, s)
  {
    hide IsTrie, Members, Sizes;
    v, rsize, t := Nil, Sub64(0, nb), root;
    var rst, w := Nil, w0;
    Begin(root, nb, q, w0);
    ghost var aims := Shr(nb, w0) == q;
    ghost var rq: nat, rw: nat := 0, 0;
    tq, tw := q, w0;
    while true
      invariant tw == w && t.Node? && Within(t, root) && Descends(root, t, tq, w, rst, rq, rw, v, nb, aims)
      invariant Found(v, rsize, nb, Members(root))
      decreases t
    {
      NodeSize(t, root);
      var trem := Sub64(t.size, nb);
      Visit(root, t, tq, w, rst, rq, rw, v, nb, aims, rsize);
      if trem < rsize {
        v, rsize := t, trem;
        if rsize == 0 { break; }
      }
      Descend(root, t, tq, w, rst, rq, rw, v, nb, aims);
      var rt := t.right;
      ghost var tq0 := tq;
      tq, tw := if w > 0 then 2 * tq + Bit(nb, w) else tq, if w > 0 then w - 1 else 0;
      t := if Bit(nb, w) == 1 then t.right else t.left;
      w := if w > 0 then w - 1 else 0;
      if rt.Node? && rt != t {
        rst := rt;
        rq, rw := 2 * tq0 + 1, w;
      }
      if t.Nil? {
        t := rst;
        tq, tw := rq, rw;
        break;
      }
    }
  }

  /** The right subtree lies above the left one, and above nb when nb turns left. */
  lemma RightSide(t: Tree, nb: nat, p: nat, w: nat)
    requires t.Node? && IsTrie(t, p, w)
    ensures forall a, c :: a in Sizes(t.left) && c in Sizes(t.right) ==> a < c
    ensures Shr(nb, w) == p && Bit(nb, w) == 0 ==> forall c :: c in Sizes(t.right) ==> c >= nb
  {
    forall a, c | a in Sizes(t.left) && c in Sizes(t.right) ensures a < c {
      SubtreesOrdered(t.left, t.right, 2 * p, 2 * p + 1, w - 1, a, c);
    }
    forall c | c in Sizes(t.right) && Shr(nb, w) == p && Bit(nb, w) == 0 ensures c >= nb {
      SizesInRange(t.right, 2 * p + 1, w - 1, c);
      if c < nb { ShrMonotone(c, nb, w - 1); }
    }
  }

  /** Walks to the leftmost leaf, which improves v to the best of v and the tree. */
  method WalkSearch(t0: Tree, nb: nat, v0: Tree, rsize0: nat, ghost q0: nat, ghost w0: nat, ghost members: set<(nat, nat)>)
    returns (v: Tree, rsize: nat)
    requires 0 < nb < SIZE_LIMIT && IsTrie(t0, q0, w0) && Members(t0) <= members
    requires forall s :: s in Sizes(t0) ==> 0 < s < SIZE_LIMIT
    requires Found(v0, rsize0, nb, members) && Walkable(t0, rsize0, nb)
    ensures Found(v, rsize, nb, members) && (v0.Node? ==> v.Node? && v.size <= v0.size)
    ensures v.Node? && v != v0 ==> v.size in Sizes(t0)
    ensures forall s :: s in Sizes(t0) && s >= nb ==> v.Node? && v.size <= s
  {
    hide IsTrie, Members;
    v, rsize := v0, rsize0;
    var t := t0;
    ghost var q, w := q0, w0;
    if t.Node? { WalkMinIsLeast(t, q, w); }
    while t.Node?
      invariant IsTrie(t, q, w) && Within(t, t0)
      invariant Found(v, rsize, nb, members) && (v0.Node? ==> v.Node? && v.size <= v0.size)
      invariant v.Node? && v != v0 ==> v.size in Sizes(t0)
      invariant Walkable(t0, rsize, nb)
      invariant forall s :: s in Sizes(t0) ==> Covers(Nil, t, v, nb, s)
      decreases t
    {
      WalkMinIsLeast(t, q, w);
      RootFits(t, q, w);
      var trem := Sub64(t.size, nb);
      if trem < rsize {
        rsize := trem;
        v := t;
      }
      q, w := if t.left.Node? then 2 * q else 2 * q + 1, if w > 0 then w - 1 else 0;
      t := LeftmostChild(t);
    }
  }

  /** All chunks of all bins. */
  ghost function BinMembers(bins: seq<Tree>): set<(nat, nat)> {
    set i, m | 0 <= i < |bins| && m in Members(bins[i]) :: m
  }

  /** Sizes of lower bins are below nb, sizes of higher bins above it. */
  lemma BinOrder(bins: seq<Tree>, treemap: set<nat>, nb: nat, i: nat, s: nat)
    requires BinsOk(bins, treemap) && 256 <= nb && i < NTREEBINS && s in Sizes(bins[i])
    ensures nb >= INDEX_LIMIT ==> s < nb
    ensures nb < INDEX_LIMIT && i < TreeIndex(nb) ==> s < nb
    ensures nb < INDEX_LIMIT && i > TreeIndex(nb) ==> s > nb
  {
    if nb < INDEX_LIMIT {
      if s >= nb { IndexMonotone(nb, s); }
      if s <= nb { IndexMonotone(s, nb); }
    }
  }

  /** The search of tmalloc_large up to the last walk: the bin of nb, else the next
      bin that is not empty. */
  method StartSearch(bins: seq<Tree>, treemap: set<nat>, nb: nat)
    returns (v: Tree, rsize: nat, t: Tree, ghost q: nat, ghost w: nat)
    requires BinsOk(bins, treemap) && 256 <= nb < SIZE_LIMIT
    ensures Found(v, rsize, nb, BinMembers(bins))
    ensures IsTrie(t, q, w) && Members(t) <= BinMembers(bins)
    ensures forall s :: s in Sizes(t) ==> 0 < s < SIZE_LIMIT
    ensures if nb >= INDEX_LIMIT then forall s :: s in Sizes(t) ==> s < nb
            else rsize == 0 || forall s :: s in Sizes(t) ==> s >= nb
    ensures forall s: nat :: InBins(bins, s) ==> Covers(Nil, t, v, nb, s)
  {
    hide IsTrie, Members, TreeIndex, Covers;
    var idx := TreeIndex(nb);
    if nb < INDEX_LIMIT { IndexPrefix(nb); }
    ghost var k := idx;
    t := bins[idx];
    q, w := BinPrefix(idx), BinBits(idx);
    v, rsize := Nil, Sub64(0, nb);
    forall s | s in Sizes(t) ensures nb >= INDEX_LIMIT ==> s < nb { BinOrder(bins, treemap, nb, idx, s); }
    if t.Node? {
      v, rsize, t, q, w := PathSearch(bins[idx], nb, BinPrefix(idx), BinBits(idx));
      MembersSizes(bins[idx], BinPrefix(idx), BinBits(idx));
      InBin(bins, idx);
    }
    LowerBins(bins, treemap, nb);
    if t.Nil? && v.Nil? {
      forall s | s in Sizes(bins[idx]) ensures s < nb { Uncovered(nb, s); }
      t, q, w, k := NextBin(bins, treemap, nb);
      if t.Node? { WalkCovers(t, q, w, v, nb); }
    }
    if t.Node? { WalkMinIsLeast(t, q, w); }
    StartCovers(bins, treemap, nb, v, t, k);
  }

  lemma WalkCovers(t: Tree, q: nat, w: nat, v: Tree, nb: nat)
    requires IsTrie(t, q, w) && t.Node?
    ensures forall s :: s in Sizes(t) ==> Covers(Nil, t, v, nb, s)
  {
    WalkMinIsLeast(t, q, w);
  }

  lemma Uncovered(nb: nat, s: nat)
    requires Covers(Nil, Nil, Nil, nb, s)
    ensures s < nb
  {
  }

  /** The root of the next bin behind nb's own that is not empty; k is NTREEBINS
      when there is none. */
  method NextBin(bins: seq<Tree>, treemap: set<nat>, nb: nat)
    returns (t: Tree, ghost q: nat, ghost w: nat, ghost k: nat)
    requires BinsOk(bins, treemap) && 256 <= nb
    ensures TreeIndex(nb) < k <= NTREEBINS
    ensures forall i :: TreeIndex(nb) < i < k ==> bins[i].Nil?
    ensures if k < NTREEBINS then t.Node? && t == bins[k] else t.Nil?
    ensures IsTrie(t, q, w) && Members(t) <= BinMembers(bins)
    ensures forall s :: s in Sizes(t) ==> 0 < s < SIZE_LIMIT && if nb >= INDEX_LIMIT then s < nb else s >= nb
  {
    var idx := TreeIndex(nb);
    var leftbits := set j | j in treemap && j > idx;
    t, q, w, k := Nil, 0, 0, NTREEBINS;
    if leftbits != {} {
      var j := FirstMarked(leftbits, idx + 1);
      t, k := bins[j], j;
      q, w := BinPrefix(j), BinBits(j);
      InBin(bins, j);
      forall s | s in Sizes(t) ensures if nb >= INDEX_LIMIT then s < nb else s >= nb {
        BinOrder(bins, treemap, nb, j, s);
      }
    }
    forall i | idx < i < k ensures bins[i].Nil? {
      assert i in leftbits <==> i in treemap;
    }
  }

  lemma LowerBins(bins: seq<Tree>, treemap: set<nat>, nb: nat)
    requires BinsOk(bins, treemap) && 256 <= nb
    ensures forall i, s :: 0 <= i < TreeIndex(nb) && s in Sizes(bins[i]) ==> s < nb
  {
    forall i, s | 0 <= i < TreeIndex(nb) && s in Sizes(bins[i]) ensures s < nb {
      BinOrder(bins, treemap, nb, i, s);
    }
  }

  /** When all bins below k hold nothing that fits, what bin k offers covers all. */
  lemma StartCovers(bins: seq<Tree>, treemap: set<nat>, nb: nat, v: Tree, t: Tree, k: nat)
    requires BinsOk(bins, treemap) && k <= NTREEBINS
    requires forall i, s :: 0 <= i < k && i < NTREEBINS && bins[i].Node? && s in Sizes(bins[i]) ==> s < nb
    requires k < NTREEBINS ==> forall s :: s in Sizes(bins[k]) ==> Covers(Nil, t, v, nb, s)
    requires k < NTREEBINS ==>
               || nb >= INDEX_LIMIT
               || (v.Node? && v.size >= nb && v.size in Sizes(bins[k]))
               || (t.Node? && WalkMin(t) in Sizes(bins[k]))
    ensures forall s: nat :: InBins(bins, s) ==> Covers(Nil, t, v, nb, s)
  {
    forall s: nat | InBins(bins, s) ensures Covers(Nil, t, v, nb, s) {
      var i :| 0 <= i < |bins| && s in Sizes(bins[i]);
      if i > k && nb < INDEX_LIMIT {
        CoversLater(bins, treemap, nb, v, t, k, i, s);
      }
    }
  }

  lemma InBin(bins: seq<Tree>, i: nat)
    requires i < |bins|
    ensures Members(bins[i]) <= BinMembers(bins)
  {
  }

  /** Whatever the bin k offered is smaller than everything in later bins. */
  lemma CoversLater(bins: seq<Tree>, treemap: set<nat>, nb: nat, v: Tree, t: Tree, k: nat, i: nat, s: nat)
    requires BinsOk(bins, treemap) && k < i < NTREEBINS && s in Sizes(bins[i])
    requires (v.Node? && v.size >= nb && v.size in Sizes(bins[k])) || (t.Node? && WalkMin(t) in Sizes(bins[k]))
    ensures Covers(Nil, t, v, nb, s)
  {
    var a := if v.Node? && v.size >= nb && v.size in Sizes(bins[k]) then v.size else WalkMin(t);
    if s <= a { IndexMonotone(s, a); }
  }

  /** The search of tmalloc_large: a smallest chunk of all treebins that fits. */
  method SearchLarge(bins: seq<Tree>, treemap: set<nat>, nb: nat) returns (v: Tree, rsize: nat)
    requires BinsOk(bins, treemap) && 256 <= nb < SIZE_LIMIT
    ensures Found(v, rsize, nb, BinMembers(bins))
    ensures v.Nil? ==> forall s: nat :: InBins(bins, s) ==> s < nb
    ensures v.Node? ==> forall s: nat :: InBins(bins, s) && s >= nb ==> v.size <= s
  {
    var t;
    ghost var q, w;
    v, rsize, t, q, w := StartSearch(bins, treemap, nb);
    if t.Node? { WalkMinIsLeast(t, q, w); }
    v, rsize := WalkSearch(t, nb, v, rsize, q, w, BinMembers(bins));
  }

  /** The search of tmalloc_small: a smallest chunk of all treebins. */
  method SearchSmall(bins: seq<Tree>, treemap: set<nat>, nb: nat) returns (v: Tree, rsize: nat)
    requires BinsOk(bins, treemap) && treemap != {} && 0 < nb < 256
    ensures v.Node? && Found(v, rsize, nb, BinMembers(bins))
    ensures forall s: nat :: InBins(bins, s) ==> v.size <= s
  {
    hide IsTrie, Members, Sizes, TreeIndex, BinMembers, InBins;
    var i := FirstMarked(treemap, 0);
    MarkedBin(bins, treemap, nb, i);
    hide BinsOk, BinPrefix, BinBits, Covers;
    var t := bins[i];
    ghost var q, w := BinPrefix(i), BinBits(i);
    v, rsize := t, t.size - nb;
    v, rsize := WalkSearch(LeftmostChild(t), nb, v, rsize, if t.left.Node? then 2 * q else 2 * q + 1, w - 1, BinMembers(bins));
    SmallestOfAll(bins, treemap, i, v);
  }

  /** The root of a marked bin, and the walk from it. */
  lemma MarkedBin(bins: seq<Tree>, treemap: set<nat>, nb: nat, i: nat)
    requires BinsOk(bins, treemap) && i in treemap && 0 < nb < 256
    ensures i < |bins| && bins[i].Node? && 256 <= bins[i].size < SIZE_LIMIT
    ensures var t, q, w := bins[i], BinPrefix(i), BinBits(i);
            var c := LeftmostChild(t);
            && w > 0 && IsTrie(c, if t.left.Node? then 2 * q else 2 * q + 1, w - 1) && Members(c) <= BinMembers(bins)
            && (forall s :: s in Sizes(c) ==> 0 < s < SIZE_LIMIT)
            && Found(t, t.size - nb, nb, BinMembers(bins)) && Walkable(c, t.size - nb, nb) && t.size in Sizes(t)
            && (forall s :: s in Sizes(c) ==> s in Sizes(t) && s >= nb)
  {
    var t, q, w := bins[i], BinPrefix(i), BinBits(i);
    InBin(bins, i);
    RootFits(t, q, w);
    hide IsTrie, Members, TreeIndex, BinMembers;
  }

  lemma RootFits(t: Tree, q: nat, w: nat)
    requires IsTrie(t, q, w) && t.Node?
    ensures t.ring != [] && (t.ring[0], t.size) in Members(t) && t.size in Sizes(t)
    ensures Within(LeftmostChild(t), t)
    ensures w == 0 ==> LeftmostChild(t).Nil?
    ensures IsTrie(LeftmostChild(t), if t.left.Node? then 2 * q else 2 * q + 1, if w > 0 then w - 1 else 0)
  {
    assert (t.ring[0], t.size) in RingMembers(t.ring, t.size);
  }

  /** A least size of the first bin that is not empty is a least size of all. */
  lemma SmallestOfAll(bins: seq<Tree>, treemap: set<nat>, i: nat, v: Tree)
    requires BinsOk(bins, treemap) && i in treemap && v.Node? && v.size in Sizes(bins[i])
    requires forall j :: 0 <= j < i ==> j !in treemap
    requires v.size <= bins[i].size
    requires forall s :: s in Sizes(LeftmostChild(bins[i])) ==> v.size <= s
    ensures forall s: nat :: InBins(bins, s) ==> v.size <= s
  {
    var q, w := BinPrefix(i), BinBits(i);
    WalkMinIsLeast(bins[i], q, w);
    var c := LeftmostChild(bins[i]);
    if c.Node? { WalkMinIsLeast(c, if bins[i].left.Node? then 2 * q else 2 * q + 1, w - 1); }
    assert v.size <= WalkMin(bins[i]);
    forall s: nat | InBins(bins, s) ensures v.size <= s {
      var k :| 0 <= k < |bins| && s in Sizes(bins[k]);
      assert k in treemap;
      if k > i && s < v.size { IndexMonotone(s, v.size); }
    }
  }

  // ---- Linking and unlinking in the bins ----

  function InsertLarge(bins: seq<Tree>, x: nat, s: nat): seq<Tree>
    requires |bins| == NTREEBINS
  {
    var i := TreeIndex(s);
    bins[i := Insert(bins[i], x, s, BinBits(i))]
  }

  lemma InsertLargeOk(bins: seq<Tree>, treemap: set<nat>, x: nat, s: nat)
    requires BinsOk(bins, treemap) && 256 <= s < INDEX_LIMIT && (x, s) !in BinMembers(bins)
    ensures BinsOk(InsertLarge(bins, x, s), treemap + {TreeIndex(s)})
    ensures BinMembers(InsertLarge(bins, x, s)) == BinMembers(bins) + {(x, s)}
  {
    var i, bins' := TreeIndex(s), InsertLarge(bins, x, s);
    IndexPrefix(s);
    InBin(bins, i);
    InsertOk(bins[i], x, s, BinPrefix(i), BinBits(i));
    hide Members, IsTrie, TreeIndex, BinsOk, Sizes;
    assert BinsOk(bins, treemap);
    LargeSizes(bins, treemap, i);
    BinReplaced(bins, treemap, i, bins'[i], treemap + {i});
    OneMoreMember(bins, i, bins'[i], (x, s));
  }

  lemma BinReplaced(bins: seq<Tree>, treemap: set<nat>, i: nat, t: Tree, treemap': set<nat>)
    requires BinsOk(bins, treemap) && i < NTREEBINS
    requires IsTrie(t, BinPrefix(i), BinBits(i)) && forall s :: s in Sizes(t) ==> 256 <= s < INDEX_LIMIT && TreeIndex(s) == i
    requires treemap' == if t.Node? then treemap + {i} else treemap - {i}
    ensures BinsOk(bins[i := t], treemap')
  {
    hide IsTrie, Sizes, TreeIndex, BinPrefix, BinBits;
  }

  lemma LargeSizes(bins: seq<Tree>, treemap: set<nat>, i: nat)
    requires BinsOk(bins, treemap) && i < NTREEBINS
    ensures forall s :: s in Sizes(bins[i]) ==> 256 <= s < INDEX_LIMIT && TreeIndex(s) == i
  {
  }

  lemma OneMoreMember(bins: seq<Tree>, i: nat, t: Tree, m: (nat, nat))
    requires i < |bins| && Members(t) == Members(bins[i]) + {m}
    ensures BinMembers(bins[i := t]) == BinMembers(bins) + {m}
  {
    hide Members;
    var bins' := bins[i := t];
    forall n | n in BinMembers(bins) ensures n in BinMembers(bins') {
      var j :| 0 <= j < |bins| && n in Members(bins[j]);
      assert n in Members(bins'[j]);
    }
    assert m in Members(bins'[i]);
    forall n | n in BinMembers(bins') && n != m ensures n in BinMembers(bins) {
      var j :| 0 <= j < |bins'| && n in Members(bins'[j]);
      assert n in Members(bins[j]);
    }
  }

  function UnlinkLarge(bins: seq<Tree>, x: nat, s: nat): seq<Tree>
    requires |bins| == NTREEBINS
  {
    var i := TreeIndex(s);
    bins[i := Unlink(bins[i], x, s, BinBits(i))]
  }

  function UnmarkIfEmpty(bins: seq<Tree>, treemap: set<nat>, i: nat): set<nat>
    requires i < |bins|
  {
    if bins[i].Nil? then treemap - {i} else treemap
  }

  lemma UnlinkLargeOk(bins: seq<Tree>, treemap: set<nat>, x: nat, s: nat)
    requires BinsOk(bins, treemap) && (x, s) in BinMembers(bins)
    ensures 256 <= s < INDEX_LIMIT && TreeIndex(s) in treemap
    ensures var bins' := UnlinkLarge(bins, x, s);
            && BinsOk(bins', UnmarkIfEmpty(bins', treemap, TreeIndex(s)))
            && BinMembers(bins') == BinMembers(bins) - {(x, s)}
  {
    var i, bins' := TreeIndex(s), UnlinkLarge(bins, x, s);
    HomeBin(bins, treemap, x, s);
    IndexPrefix(s);
    UnlinkOk(bins[i], x, s, BinPrefix(i), BinBits(i));
    forall j | 0 <= j < |bins| && j != i ensures (x, s) !in Members(bins[j]) {
      MembersSizes(bins[j], BinPrefix(j), BinBits(j));
    }
    BinReplaced(bins, treemap, i, bins'[i], UnmarkIfEmpty(bins', treemap, i));
    hide Members, IsTrie, TreeIndex, Unlink, BinsOk;
    assert forall j :: 0 <= j < |bins| && j != i ==> bins'[j] == bins[j];
    forall m ensures m in BinMembers(bins') <==> m in BinMembers(bins) - {(x, s)} {
      if m in BinMembers(bins) && m != (x, s) {
        var j :| 0 <= j < |bins| && m in Members(bins[j]);
        assert m in Members(bins'[j]);
      }
    }
  }

  /** A member sits in the bin of its size. */
  lemma HomeBin(bins: seq<Tree>, treemap: set<nat>, x: nat, s: nat)
    requires BinsOk(bins, treemap) && (x, s) in BinMembers(bins)
    ensures 256 <= s < INDEX_LIMIT && (x, s) in Members(bins[TreeIndex(s)]) && s in Sizes(bins[TreeIndex(s)])
    ensures InBins(bins, s)
  {
    var j :| 0 <= j < |bins| && (x, s) in Members(bins[j]);
    MembersSizes(bins[j], BinPrefix(j), BinBits(j));
  }
}
