/** The chunks of one heap segment: boundary tags in a word memory, and what the
    steps of malloc and free do to them. Words are 8 bytes. */
module Chunks {

  const MIN_CHUNK_SIZE := 32

  predicate Aligned(x: nat) {
    x % 8 == 0
  }

  lemma AlignedSum(x: nat, y: nat)
    requires Aligned(x)
    ensures Aligned(x + y) <==> Aligned(y)
    ensures Aligned(y) && x < y ==> x + 8 <= y
  {
  }

  // ---- Head words: a size, a multiple of 8, and two bits ----

  function Head(size: nat, pinuse: bool, cinuse: bool): (w: nat)
    requires Aligned(size)
    ensures Size(w) == size && Pinuse(w) == pinuse && Cinuse(w) == cinuse
  {
    LowBits(size / 8, (if pinuse then 1 else 0) + (if cinuse then 2 else 0));
    size + (if pinuse then 1 else 0) + (if cinuse then 2 else 0)
  }

  lemma LowBits(k: nat, b: nat)
    requires b < 4
    ensures (8 * k + b) % 4 == b && (8 * k + b) % 2 == b % 2
  {
    var w := 8 * k + b;
    assert w == 4 * (2 * k) + b && w / 4 == 2 * k;
    assert w == 2 * (4 * k + b / 2) + b % 2 && w / 2 == 4 * k + b / 2;
  }

  /** head & ~INUSE_BITS */
  function Size(w: nat): nat {
    w - w % 4
  }

  /** head & PINUSE_BIT, bit 0 */
  predicate Pinuse(w: nat) {
    w % 2 == 1
  }

  /** head & CINUSE_BIT, bit 1 */
  predicate Cinuse(w: nat) {
    w % 4 >= 2
  }

  /** head |= PINUSE_BIT */
  function SetPinuse(w: nat): nat {
    if Pinuse(w) then w else w + 1
  }

  /** head &= ~PINUSE_BIT */
  function ClearPinuse(w: nat): nat {
    if Pinuse(w) then w - 1 else w
  }

  lemma PinuseBit(size: nat, pinuse: bool, cinuse: bool)
    requires Aligned(size)
    ensures SetPinuse(Head(size, pinuse, cinuse)) == Head(size, true, cinuse)
    ensures ClearPinuse(Head(size, pinuse, cinuse)) == Head(size, false, cinuse)
  {
  }

  // ---- Geometry ----

  /** A segment: word memory, the size of every chunk below top, the chunks in use,
      and for every chunk but the first (and for top) the chunk in front of it. */
  datatype Segment = Segment(base: nat, top: nat, topsize: nat, mem: map<nat, nat>,
                             sz: map<nat, nat>, live: set<nat>, pv: map<nat, nat>)

  /** Nothing free lies directly in front of a. */
  predicate PrevUsed(v: Segment, a: nat) {
    a in v.pv ==> v.pv[a] in v.live
  }

  /** Chunk a: aligned, large enough, in front of another chunk or of top; its head
      holds its size, its own use and the use of the chunk in front; when it is free
      its foot repeats the size and the chunk in front is in use. */
  ghost predicate ChunkOk(v: Segment, a: nat)
    requires a in v.sz
  {
    var s := v.sz[a];
    && Aligned(a) && v.base <= a && Aligned(s) && s >= MIN_CHUNK_SIZE
    && a + s <= v.top && (a + s in v.sz || a + s == v.top)
    && a + 8 in v.mem && v.mem[a + 8] == Head(s, PrevUsed(v, a), a in v.live)
    && (a !in v.live ==> a + s in v.mem && v.mem[a + s] == s && PrevUsed(v, a))
  }

  /** `pv` gives the chunk in front. */
  ghost predicate PrevOk(v: Segment, a: nat) {
    && (a in v.pv <==> a != v.base && (a in v.sz || a == v.top))
    && (a in v.pv ==> v.pv[a] in v.sz && v.pv[a] + v.sz[v.pv[a]] == a)
  }

  ghost predicate Apart(v: Segment, a: nat, b: nat) {
    a in v.sz && b in v.sz && a < b ==> a + v.sz[a] <= b
  }

  /** Top lies behind all chunks, the last of which is in use. */
  ghost predicate TopOk(v: Segment) {
    && v.base <= v.top && Aligned(v.top) && Aligned(v.topsize) && v.topsize > 0
    && (v.base in v.sz || v.base == v.top) && v.top !in v.sz
    && v.top + 8 in v.mem && v.mem[v.top + 8] == Head(v.topsize, true, false)
    && PrevUsed(v, v.top)
  }

  /** The chunks and top tile the segment, fully coalesced, with correct tags. */
  ghost predicate SegmentOk(v: Segment) {
    && TopOk(v)
    && (forall a {:trigger ChunkOk(v, a)} :: a in v.sz ==> ChunkOk(v, a))
    && (forall a {:trigger PrevOk(v, a)} :: PrevOk(v, a))
    && (forall a, b {:trigger Apart(v, a, b)} :: Apart(v, a, b))
    && v.live <= v.sz.Keys
  }

  /** The payload of a chunk: up to the word in front of the next head. */
  ghost predicate Untouched(mem: map<nat, nat>, mem': map<nat, nat>, a: nat, size: nat) {
    forall x :: a + 16 <= x < a + size + 8 && x in mem ==> x in mem' && mem'[x] == mem[x]
  }

  /** What every step keeps of the chunks in `kept`. */
  ghost predicate Keeps(v: Segment, v': Segment, kept: set<nat>) {
    forall a :: a in kept && a in v.sz ==>
      a in v'.sz && v'.sz[a] == v.sz[a] && a in v'.live && Untouched(v.mem, v'.mem, a, v.sz[a])
  }

  ghost predicate IsFree(v: Segment, p: nat) {
    p in v.sz && p !in v.live
  }

  /** The chunk in front of the one behind p is p. */
  lemma Behind(v: Segment, p: nat)
    requires SegmentOk(v) && p in v.sz
    ensures var n := p + v.sz[p];
            && n in v.pv && v.pv[n] == p && (n in v.sz || n == v.top)
            && (p !in v.live ==> n in v.sz && n in v.live)
  {
    hide Aligned, Head;
    var n := p + v.sz[p];
    assert ChunkOk(v, p) && PrevOk(v, n);
    var q := v.pv[n];
    assert ChunkOk(v, q) && Apart(v, p, q) && Apart(v, q, p);
    if n in v.sz { assert ChunkOk(v, n); }
  }

  /** The foot of a chunk is nobody's head word, and nobody begins inside a chunk. */
  lemma Inside(v: Segment, a: nat, c: nat)
    requires SegmentOk(v) && a in v.sz && (c in v.sz || c == v.top)
    ensures a + v.sz[a] != c + 8
    ensures !(a < c < a + v.sz[a])
  {
    hide Aligned, Head;
    assert ChunkOk(v, a) && Apart(v, a, c);
    var n := a + v.sz[a];
    if c in v.sz {
      assert ChunkOk(v, c) && Apart(v, c, n) && Apart(v, n, c);
    }
  }

  /** Only chunks m..e hold the words between the head of m and the head of e. */
  lemma PayloadKept(v: Segment, v': Segment, m: nat, e: nat, kept: set<nat>)
    requires forall a :: a in kept && a in v.sz ==> a + v.sz[a] <= m || e <= a
    requires forall a :: a in kept && a in v.sz ==> a in v'.sz && v'.sz[a] == v.sz[a] && a in v'.live
    requires forall x :: x in v.mem && !(m + 8 <= x <= e + 8) ==> x in v'.mem && v'.mem[x] == v.mem[x]
    ensures Keeps(v, v', kept)
  {
  }

  // ---- Taking a free chunk as it is ----

  function Use(v: Segment, p: nat): Segment
    requires p in v.sz && p + v.sz[p] + 8 in v.mem && Aligned(v.sz[p])
  {
    var n := p + v.sz[p];
    v.(mem := v.mem[p + 8 := Head(v.sz[p], true, true)][n + 8 := SetPinuse(v.mem[n + 8])],
       live := v.live + {p})
  }

  lemma UseOk(v: Segment, p: nat)
    requires SegmentOk(v) && IsFree(v, p)
    ensures p + v.sz[p] + 8 in v.mem && Aligned(v.sz[p])
    ensures SegmentOk(Use(v, p)) && Keeps(v, Use(v, p), v.live)
  {
    UseRoom(v, p);
    hide Aligned, Head, SetPinuse, ChunkOk;
    var v' := Use(v, p);
    UseTop(v, p);
    forall a | a in v'.sz ensures ChunkOk(v', a) { UseChunk(v, p, a); }
    forall a ensures PrevOk(v', a) { assert PrevOk(v, a); }
    forall a, b ensures Apart(v', a, b) { assert Apart(v, a, b); }
    UseKeeps(v, p);
  }

  lemma UseRoom(v: Segment, p: nat)
    requires SegmentOk(v) && IsFree(v, p)
    ensures p + v.sz[p] + 8 in v.mem && Aligned(v.sz[p])
  {
    Behind(v, p);
    assert ChunkOk(v, p) && ChunkOk(v, p + v.sz[p]);
  }

  lemma UseKeeps(v: Segment, p: nat)
    requires SegmentOk(v) && IsFree(v, p) && p + v.sz[p] + 8 in v.mem && Aligned(v.sz[p])
    ensures Keeps(v, Use(v, p), v.live)
  {
    hide Aligned, Head, SetPinuse, ChunkOk;
    OthersKept(v, Use(v, p), p, p + v.sz[p]);
    assert v.live - {p} == v.live;
  }

  lemma UseTop(v: Segment, p: nat)
    requires SegmentOk(v) && IsFree(v, p) && p + v.sz[p] + 8 in v.mem && Aligned(v.sz[p])
    ensures TopOk(Use(v, p))
  {
    hide Aligned, Head, SetPinuse;
    Behind(v, p);
    Inside(v, p, v.top);
    assert ChunkOk(v, p);
  }

  /** A step that changes words only from the head of p to the head of the chunk
      behind it leaves the other chunks in use alone. */
  lemma OthersKept(v: Segment, v': Segment, p: nat, n: nat)
    requires SegmentOk(v) && p in v.sz && n == p + v.sz[p]
    requires forall a :: a in v.live && a != p ==> a in v'.sz && v'.sz[a] == v.sz[a] && a in v'.live
    requires forall x :: x in v.mem && !(p + 8 <= x <= n + 8) ==> x in v'.mem && v'.mem[x] == v.mem[x]
    ensures Keeps(v, v', v.live - {p})
  {
    hide Aligned, Head, ChunkOk;
    forall a | a in v.live && a != p ensures a + v.sz[a] <= p || n <= a { assert Apart(v, a, p) && Apart(v, p, a); }
    PayloadKept(v, v', p, n, v.live - {p});
  }

  lemma UseChunk(v: Segment, p: nat, a: nat)
    requires SegmentOk(v) && IsFree(v, p) && p + v.sz[p] + 8 in v.mem && Aligned(v.sz[p]) && a in v.sz
    ensures ChunkOk(Use(v, p), a)
  {
    var n := p + v.sz[p];
    Behind(v, p);
    assert ChunkOk(v, n) && ChunkOk(v, a) && PrevOk(v, a);
    PinuseBit(v.sz[n], false, true);
    hide Aligned, Head, SetPinuse;
    Inside(v, a, p);
    Inside(v, a, n);
  }

  // ---- Splitting a free chunk ----

  /** p gets nb bytes and goes into use; the rest stays free. */
  function Carve(v: Segment, p: nat, nb: nat): Segment
    requires p in v.sz && nb <= v.sz[p] && Aligned(nb) && Aligned(v.sz[p] - nb)
  {
    var r, n, rsize := p + nb, p + v.sz[p], v.sz[p] - nb;
    v.(mem := v.mem[p + 8 := Head(nb, true, true)][r + 8 := Head(rsize, true, false)][n := rsize],
       sz := v.sz[p := nb][r := rsize], live := v.live + {p}, pv := v.pv[r := p][n := r])
  }

  ghost predicate CanCarve(v: Segment, p: nat, nb: nat) {
    && SegmentOk(v) && IsFree(v, p)
    && Aligned(nb) && MIN_CHUNK_SIZE <= nb && nb + MIN_CHUNK_SIZE <= v.sz[p]
  }

  lemma CarveRoom(v: Segment, p: nat, nb: nat)
    requires CanCarve(v, p, nb)
    ensures Aligned(v.sz[p] - nb) && Aligned(p + nb) && p + nb !in v.sz && p + nb != v.top && p != v.top
    ensures p + v.sz[p] in v.sz
  {
    Behind(v, p);
    assert ChunkOk(v, p);
    AlignedSum(nb, v.sz[p] - nb);
    AlignedSum(p, nb);
    hide Aligned, Head;
    if p + nb in v.sz { Inside(v, p, p + nb); }
  }

  lemma CarveChunk(v: Segment, p: nat, nb: nat, a: nat)
    requires CanCarve(v, p, nb) && Aligned(v.sz[p] - nb) && a in Carve(v, p, nb).sz
    ensures ChunkOk(Carve(v, p, nb), a)
  {
    CarveRoom(v, p, nb);
    Behind(v, p);
    hide Aligned, Head;
    assert ChunkOk(v, p);
    if a != p + nb {
      assert ChunkOk(v, a) && PrevOk(v, a);
      Inside(v, a, p);
      Inside(v, p, a);
    }
  }

  lemma CarvePrev(v: Segment, p: nat, nb: nat, a: nat)
    requires CanCarve(v, p, nb) && Aligned(v.sz[p] - nb)
    ensures PrevOk(Carve(v, p, nb), a)
  {
    CarveRoom(v, p, nb);
    Behind(v, p);
    hide Aligned, Head;
    assert PrevOk(v, a);
    assert ChunkOk(v, p);
  }

  lemma CarveApart(v: Segment, p: nat, nb: nat, a: nat, b: nat)
    requires CanCarve(v, p, nb) && Aligned(v.sz[p] - nb)
    ensures Apart(Carve(v, p, nb), a, b)
  {
    CarveRoom(v, p, nb);
    hide Aligned, Head;
    assert Apart(v, a, b) && Apart(v, p, b) && Apart(v, a, p) && Apart(v, p, a);
  }

  lemma CarveTop(v: Segment, p: nat, nb: nat)
    requires CanCarve(v, p, nb) && Aligned(v.sz[p] - nb)
    ensures TopOk(Carve(v, p, nb))
  {
    hide Aligned, Head;
    CarveRoom(v, p, nb);
    Behind(v, p);
    Inside(v, p, v.top);
    assert ChunkOk(v, p);
  }

  lemma CarveOk(v: Segment, p: nat, nb: nat)
    requires CanCarve(v, p, nb)
    ensures Aligned(v.sz[p] - nb) && p + nb !in v.sz
    ensures SegmentOk(Carve(v, p, nb)) && Keeps(v, Carve(v, p, nb), v.live)
  {
    CarveRoom(v, p, nb);
    hide Aligned, Head, ChunkOk;
    var v' := Carve(v, p, nb);
    CarveTop(v, p, nb);
    forall a | a in v'.sz ensures ChunkOk(v', a) { CarveChunk(v, p, nb, a); }
    forall a ensures PrevOk(v', a) { CarvePrev(v, p, nb, a); }
    forall a, b ensures Apart(v', a, b) { CarveApart(v, p, nb, a, b); }
    CarveKeeps(v, p, nb);
  }

  lemma CarveKeeps(v: Segment, p: nat, nb: nat)
    requires CanCarve(v, p, nb) && Aligned(v.sz[p] - nb) && p + nb !in v.sz
    ensures Keeps(v, Carve(v, p, nb), v.live)
  {
    hide Aligned, Head;
    Behind(v, p);
    OthersKept(v, Carve(v, p, nb), p, p + v.sz[p]);
  }

  // ---- Splitting top ----

  /** A chunk of nb bytes goes into use at the old top. */
  function CarveFromTop(v: Segment, nb: nat): Segment
    requires nb <= v.topsize && Aligned(nb) && Aligned(v.topsize - nb)
  {
    var p, t := v.top, v.top + nb;
    v.(mem := v.mem[t + 8 := Head(v.topsize - nb, true, false)][p + 8 := Head(nb, true, true)],
       sz := v.sz[p := nb], live := v.live + {p}, pv := v.pv[t := p], top := t, topsize := v.topsize - nb)
  }

  ghost predicate CanCarveTop(v: Segment, nb: nat) {
    SegmentOk(v) && Aligned(nb) && MIN_CHUNK_SIZE <= nb < v.topsize
  }

  lemma CarveFromTopOk(v: Segment, nb: nat)
    requires CanCarveTop(v, nb)
    ensures Aligned(v.topsize - nb) && v.top !in v.sz && v.top !in v.live
    ensures SegmentOk(CarveFromTop(v, nb)) && Keeps(v, CarveFromTop(v, nb), v.live)
  {
    AlignedSum(nb, v.topsize - nb);
    AlignedSum(v.top, nb);
    hide Aligned, Head, ChunkOk;
    var v' := CarveFromTop(v, nb);
    CarveFromTopTop(v, nb);
    hide TopOk;
    forall a | a in v'.sz ensures ChunkOk(v', a) { CarveFromTopChunk(v, nb, a); }
    forall a: nat ensures PrevOk(v', a) { CarveFromTopPrev(v, nb, a); }
    forall a: nat, b: nat ensures Apart(v', a, b) { CarveFromTopApart(v, nb, a, b); }
    CarveFromTopKeeps(v, nb);
  }

  lemma CarveFromTopTop(v: Segment, nb: nat)
    requires CanCarveTop(v, nb) && Aligned(v.topsize - nb) && Aligned(v.top + nb)
    ensures TopOk(CarveFromTop(v, nb)) && v.top !in v.live
  {
    hide Aligned, Head, ChunkOk;
    TopLast(v, v.top + nb);
    assert PrevOk(v, v.top);
  }

  lemma CarveFromTopApart(v: Segment, nb: nat, a: nat, b: nat)
    requires CanCarveTop(v, nb) && Aligned(v.topsize - nb)
    ensures Apart(CarveFromTop(v, nb), a, b)
  {
    hide Aligned, Head, ChunkOk;
    assert Apart(v, a, b);
    TopLast(v, a);
    TopLast(v, b);
  }

  lemma CarveFromTopPrev(v: Segment, nb: nat, a: nat)
    requires CanCarveTop(v, nb) && Aligned(v.topsize - nb)
    ensures PrevOk(CarveFromTop(v, nb), a)
  {
    hide Aligned, Head, ChunkOk;
    TopLast(v, v.top + nb);
    assert PrevOk(v, a) && PrevOk(v, v.top);
    if a in v.pv { TopLast(v, v.pv[a]); }
    TopLast(v, v.base);
  }

  lemma CarveFromTopKeeps(v: Segment, nb: nat)
    requires CanCarveTop(v, nb) && Aligned(v.topsize - nb)
    ensures Keeps(v, CarveFromTop(v, nb), v.live)
  {
    hide Aligned, Head, ChunkOk;
    forall a | a in v.live ensures Untouched(v.mem, CarveFromTop(v, nb).mem, a, v.sz[a]) { TopLast(v, a); }
    TopLast(v, v.top);
  }

  lemma TopLast(v: Segment, a: nat)
    requires SegmentOk(v)
    ensures a in v.sz ==> a + MIN_CHUNK_SIZE <= a + v.sz[a] <= v.top
  {
    if a in v.sz { assert ChunkOk(v, a); }
  }

  lemma CarveFromTopChunk(v: Segment, nb: nat, a: nat)
    requires CanCarveTop(v, nb) && Aligned(v.topsize - nb) && a in CarveFromTop(v, nb).sz
    ensures ChunkOk(CarveFromTop(v, nb), a)
  {
    hide Head;
    assert PrevOk(v, a);
    if a != v.top { assert ChunkOk(v, a); }
  }

  // ---- Freeing, with coalescing ----

  /** The free chunk in front of p, or p itself. */
  function MergeStart(v: Segment, p: nat): nat {
    if PrevUsed(v, p) then p else v.pv[p]
  }

  /** Chunks m..e become one free chunk. */
  function Merge(v: Segment, p: nat, m: nat, e: nat): Segment
    requires m <= e && Aligned(e - m) && e + 8 in v.mem
  {
    v.(mem := v.mem[e + 8 := ClearPinuse(v.mem[e + 8])][m + 8 := Head(e - m, true, false)][e := e - m],
       sz := (map a | a in v.sz && !(m < a < e) :: v.sz[a])[m := e - m],
       live := v.live - {p},
       pv := (map a | a in v.pv && !(m < a < e) :: v.pv[a])[e := m])
  }

  /** p is in use, m..e is p with its free neighbours, and e is in use. */
  ghost predicate CanMerge(v: Segment, p: nat, m: nat, e: nat) {
    && SegmentOk(v) && p in v.live && m == MergeStart(v, p)
    && var n := p + v.sz[p];
       n in v.sz && e == if n in v.live then n else n + v.sz[n]
  }

  /** Where everything is: m, p, n, e and what may lie between. */
  lemma MergeFacts(v: Segment, p: nat, m: nat, e: nat)
    requires CanMerge(v, p, m, e)
    ensures var n := p + v.sz[p];
            && m in v.sz && m <= p && n <= e && e in v.sz && e in v.live && PrevUsed(v, m)
            && Aligned(e - m) && e - m >= MIN_CHUNK_SIZE && e + 8 in v.mem
            && (m != p ==> m !in v.live && m + v.sz[m] == p)
            && (e != n ==> n !in v.live)
            && n in v.pv && v.pv[n] == p && e in v.pv && v.pv[e] == (if e == n then p else n)
            && Aligned(v.sz[e]) && ClearPinuse(v.mem[e + 8]) == Head(v.sz[e], false, true)
            && (e != n ==> v.mem[e + 8] == Head(v.sz[e], false, true))
  {
    var n := p + v.sz[p];
    Behind(v, p);
    Behind(v, n);
    assert PrevOk(v, p) && ChunkOk(v, p) && ChunkOk(v, n) && ChunkOk(v, m);
    assert e in v.sz;
    assert ChunkOk(v, e);
    PinuseBit(v.sz[e], PrevUsed(v, e), true);
    AlignedSum(m, v.sz[m]);
    AlignedSum(p, v.sz[p]);
    AlignedSum(n, v.sz[n]);
    AlignedSum(m, e - m);
  }

  /** Nothing but m, p and the free chunk behind p begins in m..e. */
  lemma MergeInside(v: Segment, p: nat, m: nat, e: nat, a: nat)
    requires CanMerge(v, p, m, e) && a in v.sz
    ensures m <= a < e ==> a == m || a == p || (a == p + v.sz[p] && e != a)
    ensures a < m ==> a + v.sz[a] <= m
  {
    MergeFacts(v, p, m, e);
    hide Aligned, Head, ChunkOk, ClearPinuse;
    Inside(v, p, a);
    Inside(v, m, a);
    var n := p + v.sz[p];
    if e != n { Inside(v, n, a); }
    assert Apart(v, a, m);
  }

  /** The chunk behind, when it stays, is still in front of the same chunk. */
  lemma MergeNext(v: Segment, p: nat, m: nat, e: nat, a: nat)
    requires CanMerge(v, p, m, e) && a in v.sz && !(m <= a < e)
    ensures var n := a + v.sz[a]; (n in v.sz && !(m < n < e)) || n == v.top
  {
    MergeFacts(v, p, m, e);
    hide Aligned, Head, ClearPinuse;
    assert ChunkOk(v, a);
    MergeInside(v, p, m, e, a);
  }

  lemma MergePrevUsed(v: Segment, p: nat, m: nat, e: nat, a: nat)
    requires CanMerge(v, p, m, e) && m <= e && Aligned(e - m) && e + 8 in v.mem
    requires a in v.sz && !(m <= a <= e)
    ensures PrevUsed(Merge(v, p, m, e), a) == PrevUsed(v, a)
  {
    MergeFacts(v, p, m, e);
    hide Aligned, Head, ClearPinuse, ChunkOk;
    assert PrevOk(v, a);
  }

  lemma MergeOther(v: Segment, p: nat, m: nat, e: nat, a: nat)
    requires CanMerge(v, p, m, e) && m <= e && Aligned(e - m) && e + 8 in v.mem
    requires a in v.sz && !(m <= a <= e)
    ensures ChunkOk(Merge(v, p, m, e), a)
  {
    MergeFacts(v, p, m, e);
    hide Aligned, Head, ClearPinuse;
    assert ChunkOk(v, a);
    MergePrevUsed(v, p, m, e, a);
    MergeNext(v, p, m, e, a);
    Inside(v, a, m);
    Inside(v, a, e);
    Inside(v, e, a);
    var n := a + v.sz[a];
    if a !in v.live { Behind(v, a); MergeInside(v, p, m, e, a); Inside(v, m, a); }
    Inside(v, if e == p + v.sz[p] then p else p + v.sz[p], a);
  }

  lemma MergeChunk(v: Segment, p: nat, m: nat, e: nat, a: nat)
    requires CanMerge(v, p, m, e) && m <= e && Aligned(e - m) && e + 8 in v.mem && a in Merge(v, p, m, e).sz
    ensures ChunkOk(Merge(v, p, m, e), a)
  {
    MergeFacts(v, p, m, e);
    hide Aligned, Head, ClearPinuse;
    if a == m {
      assert ChunkOk(v, m) && PrevOk(v, m) && ChunkOk(v, e);
      if m in v.pv { MergeInside(v, p, m, e, v.pv[m]); }
    } else if a == e {
      assert ChunkOk(v, e) && ChunkOk(v, m);
      MergeNext(v, p, m, e, e);
      Inside(v, e, m);
    } else {
      MergeOther(v, p, m, e, a);
    }
  }

  lemma MergePrev(v: Segment, p: nat, m: nat, e: nat, a: nat)
    requires CanMerge(v, p, m, e) && m <= e && Aligned(e - m) && e + 8 in v.mem
    ensures PrevOk(Merge(v, p, m, e), a)
  {
    MergeFacts(v, p, m, e);
    hide Aligned, Head, ClearPinuse, ChunkOk;
    assert PrevOk(v, a);
    if a in v.pv && a != e {
      MergeInside(v, p, m, e, v.pv[a]);
      if m < v.pv[a] < e { assert v.pv[a] + v.sz[v.pv[a]] <= e; }
    }
    TopLast(v, e);
  }

  lemma MergeApart(v: Segment, p: nat, m: nat, e: nat, a: nat, b: nat)
    requires CanMerge(v, p, m, e) && m <= e && Aligned(e - m) && e + 8 in v.mem
    ensures Apart(Merge(v, p, m, e), a, b)
  {
    MergeFacts(v, p, m, e);
    hide Aligned, Head, ClearPinuse, ChunkOk;
    assert Apart(v, a, b);
  }

  lemma MergeTop(v: Segment, p: nat, m: nat, e: nat)
    requires CanMerge(v, p, m, e) && m <= e && Aligned(e - m) && e + 8 in v.mem
    ensures TopOk(Merge(v, p, m, e))
  {
    MergeFacts(v, p, m, e);
    hide Aligned, Head, ClearPinuse, ChunkOk;
    Inside(v, m, v.top);
    Inside(v, e, v.top);
    TopLast(v, e);
    NotBelowBase(v, m);
    assert PrevOk(v, v.top);
  }

  lemma NotBelowBase(v: Segment, a: nat)
    requires SegmentOk(v) && a in v.sz
    ensures v.base <= a < v.top && v.base in v.sz
  {
    assert ChunkOk(v, a);
  }

  lemma MergeOk(v: Segment, p: nat, m: nat, e: nat)
    requires CanMerge(v, p, m, e)
    ensures m <= e && Aligned(e - m) && e + 8 in v.mem
    ensures SegmentOk(Merge(v, p, m, e)) && Keeps(v, Merge(v, p, m, e), v.live - {p})
  {
    MergeFacts(v, p, m, e);
    hide Aligned, Head, ClearPinuse, ChunkOk;
    var v' := Merge(v, p, m, e);
    MergeTop(v, p, m, e);
    forall a | a in v'.sz ensures ChunkOk(v', a) { MergeChunk(v, p, m, e, a); }
    forall a: nat ensures PrevOk(v', a) { MergePrev(v, p, m, e, a); }
    forall a: nat, b: nat ensures Apart(v', a, b) { MergeApart(v, p, m, e, a, b); }
    MergeKeeps(v, p, m, e);
  }

  lemma MergeKeeps(v: Segment, p: nat, m: nat, e: nat)
    requires CanMerge(v, p, m, e) && m <= e && Aligned(e - m) && e + 8 in v.mem
    ensures Keeps(v, Merge(v, p, m, e), v.live - {p})
  {
    MergeFacts(v, p, m, e);
    hide Aligned, Head, ClearPinuse, ChunkOk;
    forall a | a in v.live && a != p ensures a + v.sz[a] <= m || e <= a { MergeInside(v, p, m, e, a); }
    PayloadKept(v, Merge(v, p, m, e), m, e, v.live - {p});
  }

  /** Everything from m on becomes part of top. */
  function MergeIntoTop(v: Segment, p: nat, m: nat): Segment
    requires m <= v.top && Aligned(v.topsize + v.top - m)
  {
    var tsize := v.topsize + v.top - m;
    v.(mem := v.mem[m + 8 := Head(tsize, true, false)],
       sz := map a | a in v.sz && a < m :: v.sz[a], live := v.live - {p},
       pv := map a | a in v.pv && a <= m :: v.pv[a], top := m, topsize := tsize)
  }

  ghost predicate CanMergeTop(v: Segment, p: nat, m: nat) {
    SegmentOk(v) && p in v.live && m == MergeStart(v, p) && p + v.sz[p] == v.top
  }

  lemma MergeTopFacts(v: Segment, p: nat, m: nat)
    requires CanMergeTop(v, p, m)
    ensures m in v.sz && m <= p < v.top && PrevUsed(v, m) && Aligned(m) && Aligned(v.topsize + v.top - m)
    ensures forall a :: a in v.sz && a > m ==> a == p
    ensures m != p ==> m !in v.live && m + v.sz[m] == p
  {
    Behind(v, p);
    assert PrevOk(v, p) && ChunkOk(v, p) && ChunkOk(v, m);
    AlignedSum(m, v.sz[m]);
    AlignedSum(p, v.sz[p]);
    AlignedSum(m, v.top - m);
    AlignedSum(v.topsize, v.top - m);
    hide Aligned, Head;
    forall a | a in v.sz && a > m ensures a == p {
      Inside(v, p, a);
      Inside(v, m, a);
      TopLast(v, a);
    }
  }

  lemma MergeIntoTopOk(v: Segment, p: nat, m: nat)
    requires CanMergeTop(v, p, m)
    ensures m <= v.top && Aligned(v.topsize + v.top - m)
    ensures SegmentOk(MergeIntoTop(v, p, m)) && Keeps(v, MergeIntoTop(v, p, m), v.live - {p})
  {
    MergeTopFacts(v, p, m);
    hide Aligned, Head, ChunkOk;
    var v' := MergeIntoTop(v, p, m);
    forall a | a in v'.sz ensures ChunkOk(v', a) { MergeIntoTopChunk(v, p, m, a); }
    forall a: nat ensures PrevOk(v', a) { MergeIntoTopPrev(v, p, m, a); }
    MergeIntoTopTop(v, p, m);
    hide TopOk;
    forall a: nat, b: nat ensures Apart(v', a, b) { assert Apart(v, a, b); }
    MergeIntoTopKeeps(v, p, m);
  }

  lemma MergeIntoTopPrev(v: Segment, p: nat, m: nat, a: nat)
    requires CanMergeTop(v, p, m) && m <= v.top && Aligned(v.topsize + v.top - m)
    ensures PrevOk(MergeIntoTop(v, p, m), a)
  {
    MergeTopFacts(v, p, m);
    hide Aligned, Head, ChunkOk;
    assert PrevOk(v, a);
    if a in v.pv { TopLast(v, v.pv[a]); }
  }

  lemma MergeIntoTopKeeps(v: Segment, p: nat, m: nat)
    requires CanMergeTop(v, p, m) && m <= v.top && Aligned(v.topsize + v.top - m)
    ensures Keeps(v, MergeIntoTop(v, p, m), v.live - {p})
  {
    MergeTopFacts(v, p, m);
    hide Aligned, Head, ChunkOk;
    forall a | a in v.live && a != p ensures Untouched(v.mem, MergeIntoTop(v, p, m).mem, a, v.sz[a]) {
      Inside(v, a, m);
      assert Apart(v, a, m);
    }
  }

  lemma MergeIntoTopTop(v: Segment, p: nat, m: nat)
    requires CanMergeTop(v, p, m) && m <= v.top && Aligned(v.topsize + v.top - m)
    ensures TopOk(MergeIntoTop(v, p, m))
  {
    MergeTopFacts(v, p, m);
    hide Aligned, Head, ChunkOk;
    NotBelowBase(v, m);
    assert PrevOk(v, m);
  }

  lemma MergeIntoTopChunk(v: Segment, p: nat, m: nat, a: nat)
    requires CanMergeTop(v, p, m) && m <= v.top && Aligned(v.topsize + v.top - m) && a in MergeIntoTop(v, p, m).sz
    ensures ChunkOk(MergeIntoTop(v, p, m), a)
  {
    MergeTopFacts(v, p, m);
    hide Aligned, Head;
    assert ChunkOk(v, a) && PrevOk(v, a) && Apart(v, a, m);
    Inside(v, a, m);
    if a + v.sz[a] in v.sz { Inside(v, a, a); }
  }

  // ---- What the program writes ----

  /** The word at x is payload of chunk a. */
  ghost predicate InPayload(v: Segment, a: nat, x: nat) {
    a in v.live && a in v.sz && a + 16 <= x < a + v.sz[a] + 8
  }

  /** A payload word of a chunk in use is no head, and no foot of a free chunk. */
  lemma PayloadIsNoTag(v: Segment, a: nat, x: nat, c: nat)
    requires SegmentOk(v) && InPayload(v, a, x) && (c in v.sz || c == v.top)
    ensures x != c + 8
    ensures c in v.sz && c !in v.live ==> x != c + v.sz[c]
  {
    hide Aligned, Head;
    Behind(v, a);
    Inside(v, a, c);
    assert ChunkOk(v, a) && Apart(v, c, a);
    if c in v.sz {
      assert ChunkOk(v, c);
      Behind(v, c);
      if c !in v.live { Inside(v, a, c + v.sz[c]); }
    }
  }

  /** Storing to a payload keeps the segment, and the payloads of the other chunks in use. */
  lemma StoreOk(v: Segment, a: nat, x: nat, w: nat)
    requires SegmentOk(v) && InPayload(v, a, x)
    ensures SegmentOk(v.(mem := v.mem[x := w]))
    ensures Keeps(v, v.(mem := v.mem[x := w]), v.live - {a})
  {
    var v' := v.(mem := v.mem[x := w]);
    hide Aligned, Head, ChunkOk, Untouched;
    StoreTop(v, a, x, w);
    hide TopOk;
    forall c | c in v'.sz ensures ChunkOk(v', c) { StoreChunk(v, a, x, w, c); }
    forall c ensures PrevOk(v', c) { assert PrevOk(v, c); }
    forall b, c ensures Apart(v', b, c) { assert Apart(v, b, c); }
    StoreKeeps(v, a, x, w);
  }

  lemma StoreTop(v: Segment, a: nat, x: nat, w: nat)
    requires SegmentOk(v) && InPayload(v, a, x)
    ensures TopOk(v.(mem := v.mem[x := w]))
  {
    hide Aligned, Head, ChunkOk;
    PayloadIsNoTag(v, a, x, v.top);
  }

  lemma StoreKeeps(v: Segment, a: nat, x: nat, w: nat)
    requires SegmentOk(v) && InPayload(v, a, x)
    ensures Keeps(v, v.(mem := v.mem[x := w]), v.live - {a})
  {
    hide Aligned, Head, ChunkOk;
    forall b | b in v.live && b != a ensures Untouched(v.mem, v.mem[x := w], b, v.sz[b]) {
      assert Apart(v, a, b) && Apart(v, b, a);
    }
  }

  lemma StoreChunk(v: Segment, a: nat, x: nat, w: nat, c: nat)
    requires SegmentOk(v) && InPayload(v, a, x) && c in v.sz
    ensures ChunkOk(v.(mem := v.mem[x := w]), c)
  {
    hide Aligned, Head;
    PayloadIsNoTag(v, a, x, c);
    assert ChunkOk(v, c);
  }

  // ---- What the invariant means for callers ----

  /** Every address below top lies in exactly one chunk. */
  lemma TilesCover(v: Segment, x: nat)
    requires SegmentOk(v) && v.base <= x < v.top
    ensures exists a :: a in v.sz && a <= x < a + v.sz[a]
    ensures forall a, b :: a in v.sz && b in v.sz && a <= x < a + v.sz[a] && b <= x < b + v.sz[b] ==> a == b
  {
    hide Aligned, Head, ChunkOk;
    CoveredFrom(v, v.base, x);
    forall a, b | a in v.sz && b in v.sz && a <= x < a + v.sz[a] && b <= x < b + v.sz[b] ensures a == b {
      assert Apart(v, a, b) && Apart(v, b, a);
    }
  }

  lemma {:induction false} CoveredFrom(v: Segment, a: nat, x: nat)
    requires SegmentOk(v) && a in v.sz && a <= x < v.top
    ensures exists c :: c in v.sz && c <= x < c + v.sz[c]
    decreases v.top - a
  {
    assert ChunkOk(v, a);
    if a + v.sz[a] <= x { CoveredFrom(v, a + v.sz[a], x); }
  }

  /** No two free chunks touch, and none touches top. */
  lemma FullyCoalesced(v: Segment, a: nat)
    requires SegmentOk(v) && IsFree(v, a)
    ensures a + v.sz[a] != v.top && a + v.sz[a] in v.live
    ensures a != v.base ==> exists b :: b in v.live && b + v.sz[b] == a
  {
    assert ChunkOk(v, a) && PrevOk(v, a);
    Behind(v, a);
    var n := a + v.sz[a];
    assert PrevOk(v, n);
    if n in v.sz { assert ChunkOk(v, n); }
    if a != v.base { assert v.pv[a] in v.live && v.pv[a] + v.sz[v.pv[a]] == a; }
  }

  /** The tag bits of a chunk say what is true of it and of the chunk in front of it, and
      a free chunk is found from behind by its foot. */
  lemma TagsTell(v: Segment, a: nat)
    requires SegmentOk(v) && a in v.sz
    ensures a + 8 in v.mem && Size(v.mem[a + 8]) == v.sz[a] && (Cinuse(v.mem[a + 8]) <==> a in v.live)
    ensures Pinuse(v.mem[a + 8]) <==> a == v.base || exists b :: b in v.live && b + v.sz[b] == a
    ensures !Pinuse(v.mem[a + 8]) ==> a in v.mem && v.mem[a] <= a && IsFree(v, a - v.mem[a]) && v.sz[a - v.mem[a]] == v.mem[a]
  {
    assert ChunkOk(v, a) && PrevOk(v, a);
    PinuseBit(v.sz[a], PrevUsed(v, a), a in v.live);
    if a in v.pv {
      var p := v.pv[a];
      assert ChunkOk(v, p);
      forall b | b in v.live && b + v.sz[b] == a ensures b == p {
        assert ChunkOk(v, b) && Apart(v, b, p) && Apart(v, p, b);
      }
    }
  }

  /** The payloads of two chunks in use are disjoint, aligned and inside the segment. */
  lemma LiveBlocksDisjoint(v: Segment, a: nat, b: nat, x: nat)
    requires SegmentOk(v) && a in v.live && b in v.live && a < b
    requires a + 16 <= x < a + v.sz[a] + 8
    ensures !(b + 16 <= x < b + v.sz[b] + 8)
    ensures Aligned(a + 16) && v.base <= a && a + v.sz[a] <= v.top
  {
    assert ChunkOk(v, a) && Apart(v, a, b);
  }
}
