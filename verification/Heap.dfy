/** malloc and free of the bundled allocator over one segment. */
module Heap {
  import opened Trie
  import opened Chunks
  import opened HeapIndex

  const CHUNK_OVERHEAD := 8
  const CHUNK_ALIGN_MASK := 7
  const MAX_SMALL_REQUEST := 240
  const MIN_REQUEST := 23
  const MAX_REQUEST := 0xFFFF_FFFF_FFFF_FF80
  const MAX_SIZE_T := SIZE_LIMIT - 1

  /** pad_request */
  function PadRequest(req: nat): (nb: nat)
    ensures Aligned(nb) && nb % 8 == 0 && req + 8 <= nb < req + 16
  {
    (req + CHUNK_OVERHEAD + CHUNK_ALIGN_MASK) / 8 * 8
  }

  /** The free chunks are those in the bins, the designated victim and, in the middle
      of a step, those in `loose`. */
  ghost predicate FreeOk(v: Segment, binned: map<nat, nat>, dv: nat, dvsize: nat, loose: set<nat>) {
    && (forall a :: a in binned ==> IsFree(v, a) && v.sz[a] == binned[a] && a !in loose)
    && (forall a :: a in v.sz && a !in v.live ==> a in binned || (dvsize > 0 && a == dv) || a in loose)
    && (if dvsize > 0 then IsFree(v, dv) && v.sz[dv] == dvsize && dv !in binned && dv !in loose else dv == 0)
  }

  lemma LooseUsed(v: Segment, v': Segment, p: nat, binned: map<nat, nat>, dv: nat, dvsize: nat)
    requires FreeOk(v, binned, dv, dvsize, {p}) && v'.sz == v.sz && v'.live == v.live + {p}
    ensures FreeOk(v', binned, dv, dvsize, {})
  {
  }

  lemma LooseSplit(v: Segment, v': Segment, p: nat, nb: nat, r: nat, rsize: nat, binned: map<nat, nat>, dv: nat, dvsize: nat)
    requires FreeOk(v, binned, dv, dvsize, {p}) && r !in v.sz && IsFree(v', r)
    requires v'.sz == v.sz[p := nb][r := rsize] && v'.live == v.live + {p}
    ensures FreeOk(v', binned, dv, dvsize, {r})
  {
  }

  lemma LooseToVictim(v: Segment, r: nat, binned: map<nat, nat>, dv: nat, dvsize: nat)
    requires FreeOk(v, binned, dv, dvsize, {r}) && IsFree(v, r) && v.sz[r] > 0
    ensures dvsize > 0 ==> dv !in binned
    ensures FreeOk(v, if dvsize > 0 then binned[dv := dvsize] else binned, r, v.sz[r], {})
  {
  }

  lemma LooseToBin(v: Segment, r: nat, binned: map<nat, nat>, dv: nat, dvsize: nat)
    requires FreeOk(v, binned, dv, dvsize, {r}) && IsFree(v, r)
    ensures r !in binned && FreeOk(v, binned[r := v.sz[r]], dv, dvsize, {})
  {
  }

  /** Chunk p of at least nb bytes, and less than a chunk more, is now in use; everything
      that was in use before is where it was, as it was. */
  ghost predicate Grants(v: Segment, v': Segment, p: nat, nb: nat) {
    && p !in v.live && p in v'.sz && nb <= v'.sz[p] < nb + 32 && Aligned(p + 16)
    && v'.live == v.live + {p}
    && Keeps(v, v', v.live)
  }

  /** No free chunk holds nb bytes, and top cannot give them. */
  ghost predicate FullFor(v: Segment, nb: nat) {
    v.topsize <= nb && forall a :: IsFree(v, a) ==> v.sz[a] < nb
  }

  /** The free chunks besides top: those in the bins, with their sizes, and the victim. */
  datatype FreeChunks = FreeChunks(binned: map<nat, nat>, dv: nat, dvsize: nat)

  /** p is a smallest binned chunk of at least nb bytes. */
  ghost predicate Least(f: FreeChunks, nb: nat, p: nat) {
    p in f.binned && f.binned[p] >= nb && forall a :: a in f.binned && f.binned[a] >= nb ==> f.binned[p] <= f.binned[a]
  }

  ghost predicate Fits(f: FreeChunks, nb: nat) {
    exists a :: a in f.binned && f.binned[a] >= nb
  }

  /** A small chunk of just the size, or of the next one. */
  ghost predicate NoSplit(f: FreeChunks, nb: nat) {
    exists a :: a in f.binned && (f.binned[a] == nb || (f.binned[a] == nb + 8 && nb + 8 < 256))
  }

  /** A binned chunk fits, and better than the victim. */
  ghost predicate Beats(f: FreeChunks, nb: nat) {
    exists a :: a in f.binned && f.binned[a] >= nb && (f.dvsize < nb || f.binned[a] < f.dvsize)
  }

  ghost predicate BinServes(f: FreeChunks, nb: nat, small: bool) {
    if small then NoSplit(f, nb) || (f.dvsize < nb && Fits(f, nb)) else Beats(f, nb)
  }

  /** The chunk that serves a request. A small one is served by a chunk that need not be
      split, else by the victim, else by a best fit from the bins, else by top; a large one
      by a best fit from the bins when it beats the victim, else by the victim, else by top. */
  ghost predicate Chosen(f: FreeChunks, top: nat, nb: nat, small: bool, p: nat) {
    if BinServes(f, nb, small) then Least(f, nb, p)
    else if nb <= f.dvsize then p == f.dv
    else p == top
  }

  /** Chunk p is cut to nb bytes when at least 32 are left over. What is left of the victim
      or, after a small request, of a binned chunk is the new victim. */
  ghost predicate Cut(v: Segment, dv: nat, nb: nat, small: bool, p: nat, v': Segment, dv': nat) {
    if p == v.top then p in v'.sz && v'.sz[p] == nb && dv' == dv
    else
      && p in v.sz && p in v'.sz && v.sz[p] >= nb
      && if v.sz[p] >= nb + 32 then v'.sz[p] == nb && dv' == (if small || p == dv then p + nb else dv)
         else v'.sz[p] == v.sz[p] && dv' == if p == dv then 0 else dv
  }

  /** A request is answered from the chunk that serves it. */
  ghost predicate Served(v: Segment, f: FreeChunks, nb: nat, small: bool, p: nat, v': Segment, f': FreeChunks) {
    Chosen(f, v.top, nb, small, p) && Cut(v, f.dv, nb, small, p, v', f'.dv) && Grants(v, v', p, nb)
  }

  /** What freeing chunk p does to the victim: it is gone when it became part of top, it is
      the chunk that p is now part of when it was merged too, and otherwise stays. */
  ghost predicate VictimAfter(p: nat, dv: nat, v': Segment, dv': nat) {
    if v'.top <= p then dv' == if dv >= v'.top then 0 else dv
    else forall m :: m in v'.sz && m <= p < m + v'.sz[m] ==> dv' == if m <= dv < m + v'.sz[m] then m else dv
  }

  /** Where the chunk ends that p becomes part of. */
  ghost function MergeEnd(v: Segment, p: nat): nat
    requires p in v.sz && p + v.sz[p] in v.sz
  {
    var n := p + v.sz[p];
    if n in v.live then n else n + v.sz[n]
  }

  /** The same with the start m of the merged chunk. */
  ghost predicate Joins(v: Segment, p: nat, m: nat, dv: nat, v': Segment, dv': nat) {
    p in v.sz &&
    if p + v.sz[p] == v.top then v'.top == m <= p && dv' == (if dv == m then 0 else dv)
    else
      && v'.top == v.top && p + v.sz[p] in v.sz && m in v'.sz && m <= p
      && m + v'.sz[m] == MergeEnd(v, p)
      && dv' == if dv == m || dv == p + v.sz[p] then m else dv
  }

  class Heap {
    var mem: map<nat, nat>
    var smallmap: set<nat>
    var treemap: set<nat>
    var dvsize: nat
    var topsize: nat
    var dv: nat
    var top: nat
    var smallbins: seq<seq<nat>>   // fd order
    var treebins: seq<Tree>
    ghost const base: nat
    ghost const limit: nat
    ghost var sz: map<nat, nat>
    ghost var live: set<nat>
    ghost var pv: map<nat, nat>
    ghost var binned: map<nat, nat>

    ghost function Seg(): Segment
      reads this
    {
      Segment(base, top, topsize, mem, sz, live, pv)
    }

    ghost function Frees(): FreeChunks
      reads this
    {
      FreeChunks(binned, dv, dvsize)
    }

    ghost function Now(): State
      reads this
    {
      State(Seg(), Frees())
    }

    ghost predicate Index()
      reads this
    {
      IndexOk(smallbins, smallmap, treebins, treemap, binned)
    }

    ghost predicate Valid()
      reads this
    {
      && SegmentOk(Seg()) && Index() && FreeOk(Seg(), binned, dv, dvsize, {})
      && 0 < base && top + topsize == limit < INDEX_LIMIT
    }

    /** A fresh heap: all of the segment behind the allocator's own record is top. */
    constructor (base: nat, size: nat)
      requires 0 < base && Aligned(base) && Aligned(size) && 0 < size && base + size < INDEX_LIMIT
      ensures Valid() && live == {} && topsize == size && this.base == base == top && limit == base + size
    {
      this.base, this.limit := base, base + size;
      top, topsize := base, size;
      mem := map[base + 8 := Head(size, true, false)];
      smallmap, treemap := {}, {};
      dv, dvsize := 0, 0;
      smallbins := seq(NSMALLBINS, _ => []);
      treebins := seq(NTREEBINS, _ => Nil);
      sz, live, pv, binned := map[], {}, map[], map[];
      new;
      assert BinMembers(treebins) == {};
    }

    // ---- Bins ----

    /** insert_small_chunk: the chunk is the first of its bin. */
    method InsertSmallChunk(x: nat, s: nat)
      requires Index() && IsSmall(s) && Aligned(s) && 0 < s && x !in binned
      modifies `smallbins, `smallmap, `binned
      ensures Index() && binned == old(binned)[x := s]
      ensures |old(smallbins)| == 32 && smallbins == old(smallbins)[s / 8 := [x] + old(smallbins)[s / 8]]
    {
      hide LargeOk;
      InsertSmallOk(smallbins, smallmap, binned, x, s);
      OtherHalf(smallbins, smallmap, treebins, treemap, binned, x, s);
      var i := s / 8;
      if i !in smallmap {
        smallmap := smallmap + {i};
      }
      smallbins := smallbins[i := [x] + smallbins[i]];
      binned := binned[x := s];
      assert smallmap == old(smallmap) + {i};
    }

    /** unlink_small_chunk */
    method UnlinkSmallChunk(x: nat, s: nat)
      requires Index() && IsSmall(s) && x in binned && binned[x] == s
      modifies `smallbins, `smallmap, `binned
      ensures Index() && binned == old(binned) - {x}
    {
      hide LargeOk;
      var i := s / 8;
      assert SmallBinOk(smallbins, smallmap, binned, i);
      var bin := Without(smallbins[i], x);
      UnlinkSmallOk(smallbins, smallmap, binned, x, i, bin);
      OtherHalf(smallbins, smallmap, treebins, treemap, binned, x, s);
      smallbins := smallbins[i := bin];
      if bin == [] {
        smallmap := smallmap - {i};
      }
      binned := binned - {x};
    }

    /** unlink_first_small_chunk: the chunk that was inserted last. */
    method UnlinkFirstSmallChunk(i: nat) returns (p: nat)
      requires Index() && i in smallmap
      modifies `smallbins, `smallmap, `binned
      ensures p in old(binned) && old(binned)[p] == 8 * i
      ensures Index() && binned == old(binned) - {p}
      ensures i < |old(smallbins)| == 32 && old(smallbins)[i] == [p] + smallbins[i] && smallbins == old(smallbins)[i := smallbins[i]]
    {
      hide LargeOk;
      assert SmallBinOk(smallbins, smallmap, binned, i);
      var bin := smallbins[i];
      p := bin[0];
      assert bin == [p] + bin[1..];
      UnlinkSmallOk(smallbins, smallmap, binned, p, i, bin[1..]);
      OtherHalf(smallbins, smallmap, treebins, treemap, binned, p, 8 * i);
      smallbins := smallbins[i := bin[1..]];
      if bin[1..] == [] {
        smallmap := smallmap - {i};
      }
      binned := binned - {p};
    }

    /** insert_large_chunk */
    method InsertLargeChunk(x: nat, s: nat)
      requires Index() && !IsSmall(s) && Aligned(s) && s < INDEX_LIMIT && x !in binned
      modifies `treebins, `treemap, `binned
      ensures Index() && binned == old(binned)[x := s]
    {
      hide SmallOk, LargeOk;
      InsertLargeIndex(x, s);
      var i := TreeIndex(s);
      treemap := treemap + {i};
      treebins := InsertLarge(treebins, x, s);
      binned := binned[x := s];
    }

    lemma InsertLargeIndex(x: nat, s: nat)
      requires Index() && !IsSmall(s) && Aligned(s) && s < INDEX_LIMIT && x !in binned
      ensures |treebins| == NTREEBINS && SmallOk(smallbins, smallmap, binned[x := s])
      ensures LargeOk(InsertLarge(treebins, x, s), treemap + {TreeIndex(s)}, binned[x := s])
    {
      InsertLargeIndexOk(treebins, treemap, binned, x, s);
      OtherHalf(smallbins, smallmap, treebins, treemap, binned, x, s);
    }

    /** unlink_large_chunk */
    method UnlinkLargeChunk(x: nat, s: nat)
      requires Index() && !IsSmall(s) && x in binned && binned[x] == s
      modifies `treebins, `treemap, `binned
      ensures Index() && binned == old(binned) - {x}
    {
      hide SmallOk, LargeOk;
      UnlinkLargeIndex(x, s);
      var i := TreeIndex(s);
      treebins := UnlinkLarge(treebins, x, s);
      if treebins[i].Nil? {
        treemap := treemap - {i};
      }
      binned := binned - {x};
    }

    lemma UnlinkLargeIndex(x: nat, s: nat)
      requires Index() && !IsSmall(s) && x in binned && binned[x] == s
      ensures |treebins| == NTREEBINS && SmallOk(smallbins, smallmap, binned - {x})
      ensures var bins' := UnlinkLarge(treebins, x, s);
              LargeOk(bins', UnmarkIfEmpty(bins', treemap, TreeIndex(s)), binned - {x})
    {
      UnlinkLargeIndexOk(treebins, treemap, binned, x, s);
      OtherHalf(smallbins, smallmap, treebins, treemap, binned, x, s);
    }

    /** insert_chunk */
    method InsertChunk(x: nat, s: nat)
      requires Index() && Aligned(s) && 0 < s < INDEX_LIMIT && x !in binned
      modifies `smallbins, `smallmap, `treebins, `treemap, `binned
      ensures Index() && binned == old(binned)[x := s]
    {
      if IsSmall(s) {
        InsertSmallChunk(x, s);
      } else {
        InsertLargeChunk(x, s);
      }
    }

    /** unlink_chunk */
    method UnlinkChunk(x: nat, s: nat)
      requires Index() && x in binned && binned[x] == s
      modifies `smallbins, `smallmap, `treebins, `treemap, `binned
      ensures Index() && binned == old(binned) - {x}
    {
      if IsSmall(s) {
        UnlinkSmallChunk(x, s);
      } else {
        UnlinkLargeChunk(x, s);
      }
    }

    /** replace_dv: the old victim, known to be small, goes to its bin. */
    method ReplaceDv(p: nat, s: nat)
      requires Index() && (dvsize > 0 ==> IsSmall(dvsize) && Aligned(dvsize) && dv !in binned)
      modifies `smallbins, `smallmap, `binned, `dv, `dvsize
      ensures Index() && dv == p && dvsize == s
      ensures binned == if old(dvsize) > 0 then old(binned)[old(dv) := old(dvsize)] else old(binned)
    {
      if dvsize != 0 {
        InsertSmallChunk(dv, dvsize);
      }
      dvsize := s;
      dv := p;
    }

    // ---- Tags ----

    /** set_inuse_and_pinuse: the whole free chunk p goes into use. */
    method TakeWhole(p: nat, s: nat, ghost nb: nat)
      requires SegmentOk(Seg()) && IsFree(Seg(), p) && nb <= s == sz[p] < nb + MIN_CHUNK_SIZE
      modifies `mem, `live
      ensures SegmentOk(Seg()) && live == old(live) + {p}
      ensures Grants(old(Seg()), Seg(), p, nb)
    {
      hide SegmentOk, Head, SetPinuse;
      UseOk(Seg(), p);
      ChunkBounds(Seg(), p);
      mem := mem[p + 8 := Head(s, true, true)];
      mem := mem[p + s + 8 := SetPinuse(mem[p + s + 8])];
      live := live + {p};
      assert Seg() == Use(old(Seg()), p);
    }

    /** p goes into use with nb bytes, the rest r becomes a free chunk. */
    method Split(p: nat, nb: nat, rsize: nat) returns (r: nat)
      requires CanCarve(Seg(), p, nb) && rsize == sz[p] - nb
      modifies `mem, `live, `sz, `pv
      ensures SegmentOk(Seg()) && live == old(live) + {p} && r == p + nb && r !in old(sz) && IsFree(Seg(), r)
      ensures sz == old(sz)[p := nb][r := rsize]
      ensures Grants(old(Seg()), Seg(), p, nb)
    {
      assert live <= sz.Keys;
      hide SegmentOk, Head;
      CarveOk(Seg(), p, nb);
      ChunkBounds(Seg(), p);
      r := SplitTags(p, nb, rsize);
    }

    method SplitTags(p: nat, nb: nat, rsize: nat) returns (r: nat)
      requires p in sz && nb <= sz[p] && rsize == sz[p] - nb && Aligned(nb) && Aligned(rsize)
      modifies `mem, `live, `sz, `pv
      ensures Seg() == Carve(old(Seg()), p, nb) && r == p + nb
    {
      hide Head, Aligned;
      ghost var n := p + sz[p];
      r := p + nb;
      mem := mem[p + 8 := Head(nb, true, true)];
      mem := mem[r + 8 := Head(rsize, true, false)];
      mem := mem[r + rsize := rsize];
      sz := sz[p := nb][r := rsize];
      live := live + {p};
      pv := pv[r := p][n := r];
    }

    /** The chosen free chunk p, already unlinked and not dv, is taken whole, or split
        when the rest is large enough; the rest becomes the new victim. */
    method TakeForSmall(p: nat, nb: nat, rsize: nat) returns (r: nat)
      requires SegmentOk(Seg()) && Index() && 0 < base && top + topsize == limit < INDEX_LIMIT
      requires IsFree(Seg(), p) && sz[p] == nb + rsize && Aligned(nb) && MIN_CHUNK_SIZE <= nb
      requires FreeOk(Seg(), binned, dv, dvsize, {p})
      requires dvsize < MIN_LARGE_SIZE
      modifies this
      ensures Valid() && r == p + 16 && Grants(old(Seg()), Seg(), p, nb)
      ensures Cut(old(Seg()), old(dv), nb, true, p, Seg(), dv)
    {
      hide SegmentOk, IndexOk, FreeOk;
      LooseIsNoVictim(Seg(), p, binned, dv, dvsize);
      if rsize < MIN_CHUNK_SIZE {
        TakeWhole(p, rsize + nb, nb);
        LooseUsed(old(Seg()), Seg(), p, binned, dv, dvsize);
      } else {
        DvAligned(Seg(), binned, dv, dvsize, {p});
        var rest := Split(p, nb, rsize);
        LooseSplit(old(Seg()), Seg(), p, nb, rest, rsize, binned, dv, dvsize);
        LooseToVictim(Seg(), rest, binned, dv, dvsize);
        ReplaceDv(rest, rsize);
      }
      return p + 16;
    }

    /** The same for a large request; the rest is binned. */
    method TakeForLarge(p: nat, nb: nat, rsize: nat) returns (r: nat)
      requires SegmentOk(Seg()) && Index() && 0 < base && top + topsize == limit < INDEX_LIMIT
      requires IsFree(Seg(), p) && sz[p] == nb + rsize && Aligned(nb) && MIN_CHUNK_SIZE <= nb
      requires FreeOk(Seg(), binned, dv, dvsize, {p})
      modifies this
      ensures Valid() && r == p + 16 && Grants(old(Seg()), Seg(), p, nb)
      ensures Cut(old(Seg()), old(dv), nb, false, p, Seg(), dv)
    {
      hide SegmentOk, IndexOk, FreeOk, Grants;
      ChunkBounds(Seg(), p);
      LooseIsNoVictim(Seg(), p, binned, dv, dvsize);
      if rsize < MIN_CHUNK_SIZE {
        TakeWhole(p, rsize + nb, nb);
        LooseUsed(old(Seg()), Seg(), p, binned, dv, dvsize);
      } else {
        AlignedSum(nb, rsize);
        var rest := Split(p, nb, rsize);
        LooseSplit(old(Seg()), Seg(), p, nb, rest, rsize, binned, dv, dvsize);
        LooseToBin(Seg(), rest, binned, dv, dvsize);
        InsertChunk(rest, rsize);
      }
      return p + 16;
    }

    lemma LooseIsNoVictim(v: Segment, p: nat, b: map<nat, nat>, d: nat, ds: nat)
      requires SegmentOk(v) && FreeOk(v, b, d, ds, {p}) && IsFree(v, p) && 0 < v.base
      ensures p != d && p != v.top
    {
      ChunkBounds(v, p);
    }

    /** A request served from the designated victim. */
    method TakeDv(nb: nat) returns (r: nat)
      requires Valid() && nb <= dvsize && Aligned(nb) && MIN_CHUNK_SIZE <= nb
      modifies this
      ensures Valid() && r == old(dv) + 16 > 16 && Grants(old(Seg()), Seg(), old(dv), nb)
      ensures forall small :: Cut(old(Seg()), old(dv), nb, small, old(dv), Seg(), dv)
    {
      hide SegmentOk, IndexOk, FreeOk;
      VictimFree(Seg(), binned, dv, dvsize);
      ChunkBounds(Seg(), dv);
      var p, rsize := dv, dvsize - nb;
      if rsize >= MIN_CHUNK_SIZE {
        dv := Split(p, nb, rsize);
        dvsize := rsize;
        LooseSplit(old(Seg()), Seg(), p, nb, dv, rsize, binned, 0, 0);
        LooseToVictim(Seg(), dv, binned, 0, 0);
      } else {
        TakeWhole(p, dvsize, nb);
        dvsize := 0;
        dv := 0;
        LooseUsed(old(Seg()), Seg(), p, binned, 0, 0);
      }
      return p + 16;
    }

    lemma VictimFree(v: Segment, b: map<nat, nat>, d: nat, ds: nat)
      requires FreeOk(v, b, d, ds, {}) && ds > 0
      ensures IsFree(v, d) && v.sz[d] == ds && FreeOk(v, b, 0, 0, {d})
    {
    }

    /** A request served from top. */
    method TakeTop(nb: nat) returns (r: nat)
      requires Valid() && nb < topsize && Aligned(nb) && MIN_CHUNK_SIZE <= nb
      modifies this
      ensures Valid() && r == old(top) + 16 > 16 && Grants(old(Seg()), Seg(), old(top), nb)
      ensures forall small :: Cut(old(Seg()), old(dv), nb, small, old(top), Seg(), dv)
    {
      hide SegmentOk, IndexOk, Head, FreeOk, Aligned, Keeps, CarveFromTop;
      TopFacts(Seg(), nb, binned, dv, dvsize);
      r := MoveTop(nb);
    }

    /** top moves up by nb bytes, which become a chunk in use. */
    method MoveTop(nb: nat) returns (r: nat)
      requires nb <= topsize && Aligned(nb) && Aligned(topsize - nb)
      modifies `mem, `live, `sz, `pv, `top, `topsize
      ensures Seg() == CarveFromTop(old(Seg()), nb) && r == old(top) + 16
      ensures top + topsize == old(top + topsize)
    {
      hide Head, Aligned;
      var p := top;
      topsize := topsize - nb;
      top := p + nb;
      mem := mem[top + 8 := Head(topsize, true, false)];
      mem := mem[p + 8 := Head(nb, true, true)];
      sz := sz[p := nb];
      live := live + {p};
      pv := pv[top := p];
      r := p + 16;
    }

    lemma TopFacts(v: Segment, nb: nat, b: map<nat, nat>, d: nat, ds: nat)
      requires CanCarveTop(v, nb) && FreeOk(v, b, d, ds, {})
      ensures Aligned(v.topsize - nb) && v.base <= v.top
      ensures var v' := CarveFromTop(v, nb);
              && SegmentOk(v') && Grants(v, v', v.top, nb) && FreeOk(v', b, d, ds, {}) && v'.sz[v.top] == nb
    {
      assert Aligned(v.top);
      AlignedSum(v.top, 16);
      CarveFromTopOk(v, nb);
    }

    lemma DvAligned(v: Segment, b: map<nat, nat>, d: nat, ds: nat, loose: set<nat>)
      requires SegmentOk(v) && FreeOk(v, b, d, ds, loose)
      ensures Aligned(ds)
    {
      if ds > 0 { assert ChunkOk(v, d); }
    }

    lemma ChunkBounds(v: Segment, p: nat)
      requires SegmentOk(v) && p in v.sz
      ensures Aligned(p) && Aligned(p + 16) && Aligned(v.sz[p]) && v.sz[p] >= MIN_CHUNK_SIZE && p >= v.base
      ensures p + v.sz[p] <= v.top
    {
      assert ChunkOk(v, p);
    }

    // ---- malloc ----

    /** The padded chunk size of a request. */
    static function Needed(nsize: nat): (nb: nat)
      ensures nb >= MIN_CHUNK_SIZE
      ensures nsize < 23 ==> nb == 32
      ensures 23 <= nsize < 0xFFFF_FFFF_FFFF_FF80 ==> nb % 8 == 0 && nsize + 8 <= nb < nsize + 16
      ensures nsize >= 0xFFFF_FFFF_FFFF_FF80 ==> nb == 0xFFFF_FFFF_FFFF_FFFF
      ensures nsize < MAX_REQUEST ==> nb >= nsize + CHUNK_OVERHEAD && Aligned(nb)
    {
      if nsize >= MAX_REQUEST then MAX_SIZE_T
      else if nsize < MIN_REQUEST then MIN_CHUNK_SIZE
      else PadRequest(nsize)
    }

    /** Allocates at least nsize bytes, from the chunk that serves the request. It fails,
        changing nothing, exactly when no free chunk and not top either is large enough. */
    method Malloc(nsize: nat) returns (r: nat)
      requires Valid() && nsize < SIZE_LIMIT
      modifies this
      ensures Valid()
      ensures r != 0 ==> r > 16 && Served(old(Seg()), old(Frees()), Needed(nsize), nsize <= 240, r - 16, Seg(), Frees())
      ensures r == 0 ==> Seg() == old(Seg()) && Frees() == old(Frees()) && Full(Needed(nsize))
    {
      hide SegmentOk, IndexOk, FreeOk, Grants, Cut, Least, Fits, NoSplit, Beats;
      r := 0;
      var nb := Needed(nsize);
      SmallAndLarge(nsize);
      VictimBound(Seg(), binned, dv, dvsize);
      if nsize <= MAX_SMALL_REQUEST {
        r := MallocSmall(nb);
      } else if nsize < MAX_REQUEST {
        if treemap != {} {
          r := TMallocLarge(nb);
        } else {
          NothingBinned(nb);
        }
      } else {
        TooBig(nb);
      }
      if r == 0 {
        if nb <= dvsize {
          r := TakeDv(nb);
        } else if nb < topsize {
          r := TakeTop(nb);
        } else {
          NothingFits(nb, nsize <= MAX_SMALL_REQUEST);
        }
      }
    }

    ghost predicate Full(nb: nat)
      reads this
    {
      FullFor(Seg(), nb)
    }

    lemma NothingFits(nb: nat, small: bool)
      requires Valid() && !BinServes(Frees(), nb, small) && nb > dvsize && nb >= topsize
      ensures Full(nb)
    {
      hide IndexOk, SegmentOk;
      var f := Frees();
      forall a | a in f.binned ensures f.binned[a] < nb { }
    }

    lemma TooBig(nb: nat)
      requires Valid() && nb >= INDEX_LIMIT
      ensures !BinServes(Frees(), nb, false)
    {
    }

    lemma SmallAndLarge(nsize: nat)
      ensures nsize <= MAX_SMALL_REQUEST ==> Needed(nsize) < MIN_LARGE_SIZE
      ensures MAX_SMALL_REQUEST < nsize < MAX_REQUEST ==> MIN_LARGE_SIZE <= Needed(nsize) < SIZE_LIMIT
    {
    }

    /** With an empty tree map only small chunks are binned. */
    lemma NothingBinned(nb: nat)
      requires Valid() && treemap == {} && nb >= MIN_LARGE_SIZE
      ensures !BinServes(Frees(), nb, false)
    {
      forall a | a in binned ensures binned[a] < nb {
        if binned[a] >= MIN_LARGE_SIZE {
          LargeIsMarked(a);
        }
      }
    }

    lemma LargeIsMarked(a: nat)
      requires Index() && a in binned && binned[a] >= MIN_LARGE_SIZE
      ensures treemap != {}
    {
      assert (a, binned[a]) in BinMembers(treebins);
      HomeBin(treebins, treemap, a, binned[a]);
    }

    lemma SmallIsMarked(a: nat)
      requires Index() && a in binned && binned[a] < MIN_LARGE_SIZE
      ensures binned[a] / 8 in smallmap && binned[a] == binned[a] / 8 * 8
    {
      var j := binned[a] / 8;
      assert SmallBinOk(smallbins, smallmap, binned, j);
      assert a in smallbins[j];
    }

    lemma MarkedIsBinned(j: nat) returns (a: nat)
      requires Index() && j in smallmap
      ensures a in binned && binned[a] == 8 * j && j < NSMALLBINS
    {
      assert SmallBinOk(smallbins, smallmap, binned, j);
      a := smallbins[j][0];
    }

    lemma TreeIsBinned() returns (a: nat)
      requires Index() && treemap != {}
      ensures a in binned && binned[a] >= MIN_LARGE_SIZE
    {
      var i :| i in treemap;
      MarkedBin(treebins, treemap, 32, i);
      RootFits(treebins[i], BinPrefix(i), BinBits(i));
      InBin(treebins, i);
      a := treebins[i].ring[0];
      assert (a, treebins[i].size) in BinMembers(treebins);
    }

    /** What the maps say about a small request. */
    lemma SmallChoice(nb: nat, idx: nat)
      requires Index() && nb == 8 * idx && MIN_CHUNK_SIZE <= nb < MIN_LARGE_SIZE
      ensures NoSplit(Frees(), nb) <==> idx in smallmap || idx + 1 in smallmap
      ensures !NoSplit(Frees(), nb) ==> (Fits(Frees(), nb) <==> treemap != {} || exists j :: j in smallmap && j > idx)
    {
      hide SmallOk, LargeOk;
      var f := Frees();
      forall a | a in binned
        ensures if binned[a] < MIN_LARGE_SIZE then binned[a] / 8 in smallmap && binned[a] == binned[a] / 8 * 8 else treemap != {}
      {
        if binned[a] < MIN_LARGE_SIZE { SmallIsMarked(a); } else { LargeIsMarked(a); }
      }
      if idx in smallmap { var a := MarkedIsBinned(idx); assert NoSplit(f, nb); }
      if idx + 1 in smallmap { var a := MarkedIsBinned(idx + 1); assert NoSplit(f, nb); }
      if treemap != {} { var a := TreeIsBinned(); assert Fits(f, nb); }
      if j :| j in smallmap && j > idx { var a := MarkedIsBinned(j); assert Fits(f, nb); }
      if Fits(f, nb) {
        var a :| a in binned && binned[a] >= nb;
        assert binned[a] < MIN_LARGE_SIZE ==> binned[a] / 8 in smallmap && binned[a] / 8 >= idx;
      }
    }

    /** The first marked small bin holds the smallest chunks. */
    lemma SmallLeast(nb: nat, i: nat)
      requires Index() && i in smallmap && nb <= 8 * i && forall j :: j in smallmap && 8 * j >= nb ==> i <= j
      ensures forall p :: p in binned && binned[p] == 8 * i ==> Least(Frees(), nb, p)
    {
      hide SmallOk, LargeOk;
      var _ := MarkedIsBinned(i);
      forall a | a in binned && binned[a] >= nb ensures 8 * i <= binned[a] {
        if binned[a] < MIN_LARGE_SIZE { SmallIsMarked(a); }
      }
    }

    /** With no small bin marked from idx on, only larger chunks are left. */
    lemma OnlyLarge(nb: nat, idx: nat)
      requires Index() && nb == 8 * idx && forall j :: j in smallmap ==> j < idx
      ensures forall a :: a in binned ==> binned[a] < nb || binned[a] >= MIN_LARGE_SIZE
    {
      hide SmallOk, LargeOk;
      forall a | a in binned ensures binned[a] < nb || binned[a] >= MIN_LARGE_SIZE {
        if binned[a] < MIN_LARGE_SIZE { SmallIsMarked(a); }
      }
    }

    /** A small request from the bins: an exact fit or the next size, else the first
        larger small bin, else the best chunk of the treebins. */
    method MallocSmall(nb: nat) returns (r: nat)
      requires Valid() && Aligned(nb) && MIN_CHUNK_SIZE <= nb < MIN_LARGE_SIZE
      modifies this
      ensures Valid()
      ensures r != 0 ==> r > 16 && BinServes(old(Frees()), nb, true) && Least(old(Frees()), nb, r - 16)
      ensures r != 0 ==> Grants(old(Seg()), Seg(), r - 16, nb) && Cut(old(Seg()), old(dv), nb, true, r - 16, Seg(), dv)
      ensures r == 0 ==> unchanged(this) && !BinServes(Frees(), nb, true)
    {
      hide SegmentOk, IndexOk, FreeOk, Grants, Least, Fits, NoSplit, Cut;
      var idx := nb / 8;
      r := 0;
      SmallChoice(nb, idx);
      if idx in smallmap || idx + 1 in smallmap {
        var i := if idx in smallmap then idx else idx + 1;
        r := TakeSmall(i, nb);
      } else if nb > dvsize {
        var leftbits := set j | j in smallmap && j > idx;
        assert forall j :: j in smallmap && j >= idx ==> j in leftbits;
        if leftbits != {} {
          var i := FirstMarked(leftbits, idx + 1);
          SmallLeast(nb, i);
          var p := UnlinkFirstSmallChunk(i);
          Unlinked(old(Seg()), p, old(binned), dv, dvsize);
          r := TakeForSmall(p, nb, 8 * i - nb);
        } else if treemap != {} {
          OnlyLarge(nb, idx);
          r := TMallocSmall(nb);
        }
      }
    }

    /** A chunk of small bin i, of the size or the next, goes into use whole. */
    method TakeSmall(i: nat, nb: nat) returns (r: nat)
      requires Valid() && i in smallmap && nb <= 8 * i < nb + MIN_CHUNK_SIZE && forall j :: j in smallmap && 8 * j >= nb ==> i <= j
      modifies this
      ensures Valid() && r > 16 && Least(old(Frees()), nb, r - 16) && Grants(old(Seg()), Seg(), r - 16, nb)
      ensures Cut(old(Seg()), old(dv), nb, true, r - 16, Seg(), dv)
    {
      hide SegmentOk, IndexOk, FreeOk, Grants, Least;
      SmallLeast(nb, i);
      var p := UnlinkFirstSmallChunk(i);
      Unlinked(old(Seg()), p, old(binned), dv, dvsize);
      NotTheVictim(old(Seg()), p, old(binned), dv, dvsize);
      TakeWhole(p, 8 * i, nb);
      LooseUsed(old(Seg()), Seg(), p, binned, dv, dvsize);
      r := p + 16;
    }

    lemma NotTheVictim(v: Segment, p: nat, b: map<nat, nat>, d: nat, ds: nat)
      requires SegmentOk(v) && FreeOk(v, b, d, ds, {}) && p in b && 0 < v.base
      ensures p != d && p != v.top
    {
      ChunkBounds(v, p);
    }

    lemma Unlinked(v: Segment, p: nat, b: map<nat, nat>, d: nat, ds: nat)
      requires SegmentOk(v) && FreeOk(v, b, d, ds, {}) && p in b
      ensures IsFree(v, p) && v.sz[p] == b[p]
      ensures FreeOk(v, b - {p}, d, ds, {p}) && v.base <= p
    {
      ChunkBounds(v, p);
    }

    /** tmalloc_small: the best fit among the treebins. */
    method TMallocSmall(nb: nat) returns (r: nat)
      requires Valid() && treemap != {} && Aligned(nb) && MIN_CHUNK_SIZE <= nb < MIN_LARGE_SIZE && dvsize < nb
      requires forall a :: a in binned ==> binned[a] < nb || binned[a] >= MIN_LARGE_SIZE
      modifies this
      ensures Valid() && r > 16 && Grants(old(Seg()), Seg(), r - 16, nb)
      ensures Cut(old(Seg()), old(dv), nb, true, r - 16, Seg(), dv)
      ensures Least(old(Frees()), nb, r - 16)
    {
      hide SegmentOk, FreeOk, Grants, SmallOk, Cut;
      var v, rsize := SearchSmall(treebins, treemap, nb);
      var p := v.ring[0];
      TreeMember(p, v.size);
      SmallestBinned(v.size);
      hide LargeOk;
      Unlinked(Seg(), p, binned, dv, dvsize);
      UnlinkLargeChunk(p, v.size);
      r := TakeForSmall(p, nb, rsize);
    }

    lemma TreeMember(p: nat, s: nat)
      requires Index() && (p, s) in BinMembers(treebins)
      ensures p in binned && binned[p] == s && s >= MIN_LARGE_SIZE
    {
    }

    lemma SmallestBinned(s: nat)
      requires Index() && forall t: nat :: InBins(treebins, t) ==> s <= t
      ensures forall a :: a in binned && binned[a] >= MIN_LARGE_SIZE ==> s <= binned[a]
    {
      forall a | a in binned && binned[a] >= MIN_LARGE_SIZE ensures s <= binned[a] {
        assert (a, binned[a]) in BinMembers(treebins);
        HomeBin(treebins, treemap, a, binned[a]);
      }
    }

    /** tmalloc_large: the best fit among the treebins, unless the victim fits at
        least as well. */
    method TMallocLarge(nb: nat) returns (r: nat)
      requires Valid() && Aligned(nb) && MIN_LARGE_SIZE <= nb < SIZE_LIMIT
      modifies this
      ensures Valid()
      ensures r != 0 ==>
                && r > 16 && Beats(old(Frees()), nb) && Least(old(Frees()), nb, r - 16)
                && Grants(old(Seg()), Seg(), r - 16, nb) && Cut(old(Seg()), old(dv), nb, false, r - 16, Seg(), dv)
      ensures r == 0 ==> unchanged(this) && !Beats(Frees(), nb)
    {
      hide SegmentOk, FreeOk, Grants, SmallOk, Cut;
      VictimBound(Seg(), binned, dv, dvsize);
      var v, rsize := SearchLarge(treebins, treemap, nb);
      if v.Node? { TreeMember(v.ring[0], v.size); }
      BestBinned(nb, v);
      hide LargeOk;
      if v.Node? && rsize < Sub64(dvsize, nb) {
        var p := v.ring[0];
        Unlinked(Seg(), p, binned, dv, dvsize);
        UnlinkLargeChunk(p, v.size);
        r := TakeForLarge(p, nb, rsize);
      } else {
        r := 0;
      }
    }

    lemma VictimBound(v: Segment, b: map<nat, nat>, d: nat, ds: nat)
      requires SegmentOk(v) && FreeOk(v, b, d, ds, {})
      ensures ds <= v.top
    {
      if ds > 0 { ChunkBounds(v, d); }
    }

    lemma BestBinned(nb: nat, v: Tree)
      requires Index() && nb >= MIN_LARGE_SIZE
      requires v.Nil? ==> forall t: nat :: InBins(treebins, t) ==> t < nb
      requires v.Node? ==> forall t: nat :: InBins(treebins, t) && t >= nb ==> v.size <= t
      ensures forall a :: a in binned && binned[a] >= nb ==> v.Node? && v.size <= binned[a]
    {
      forall a | a in binned && binned[a] >= nb ensures v.Node? && v.size <= binned[a] {
        assert (a, binned[a]) in BinMembers(treebins);
        HomeBin(treebins, treemap, a, binned[a]);
      }
    }

    // ---- free ----

    /** Frees the chunk at ptr and merges it with free neighbours, the victim and top. */
    method Free(ptr: nat)
      requires Valid() && (ptr != 0 ==> ptr >= 16 && ptr - 16 in live)
      modifies this
      ensures Valid()
      ensures ptr == 0 ==> unchanged(this)
      ensures ptr != 0 ==> live == old(live) - {ptr - 16} && Keeps(old(Seg()), Seg(), live)
      ensures ptr != 0 ==> VictimAfter(ptr - 16, old(dv), Seg(), dv)
    {
      hide SegmentOk, IndexOk, FreeOk, Keeps, Head, Pinuse, Cinuse, Size, Joins, VictimAfter;
      if ptr == 0 { return; }
      ghost var p0 := ptr - 16;
      TagsOf(Seg(), p0);
      var p := ptr - 16;
      var psize := Size(mem[p + 8]);
      var next := p + psize;
      if !Pinuse(mem[p + 8]) {
        var prevsize := mem[p];
        p := p - prevsize;
        psize := psize + prevsize;
        if p != dv {
          InBinOrVictim(Seg(), p, binned, dv, dvsize);
          UnlinkChunk(p, prevsize);
        } else if Pinuse(mem[next + 8]) && Cinuse(mem[next + 8]) {
          FreeIntoVictim(p, psize, next, p0);
          JoinedVictim(old(Seg()), p0, p, old(binned), old(dv), old(dvsize), Seg(), dv);
          return;
        }
      }
      NotVictim(Seg(), p0, old(binned), dv, dvsize);
      FreeForward(p, psize, next, p0, old(binned));
      JoinedVictim(old(Seg()), p0, p, old(binned), old(dv), old(dvsize), Seg(), dv);
    }

    /** The victim is a chunk of its own: it is in the merged chunk only as a neighbour. */
    lemma JoinedVictim(v: Segment, p: nat, m: nat, b: map<nat, nat>, d: nat, ds: nat, v': Segment, d': nat)
      requires SegmentOk(v) && SegmentOk(v') && FreeOk(v, b, d, ds, {}) && p in v.live && m == MergeStart(v, p) && 0 < v.base
      requires Joins(v, p, m, d, v', d') && v.base == v'.base
      ensures VictimAfter(p, d, v', d')
    {
      hide ChunkOk, PrevOk, MergeStart;
      MergeStartIs(v, p);
      var n := p + v.sz[p];
      if n != v.top { ChunkBounds(v, p); }
      if d > 0 {
        ChunkBounds(v, d);
        assert Apart(v, m, d) && Apart(v, p, d) && Apart(v, n, d);
      }
      forall c | c in v'.sz && m in v'.sz && c <= p < c + v'.sz[c] && m <= p < m + v'.sz[m] ensures c == m {
        assert Apart(v', c, m) && Apart(v', m, c);
      }
    }

    lemma MergeStartIs(v: Segment, p: nat)
      requires SegmentOk(v) && p in v.live
      ensures p in v.sz && v.sz[p] > 0
      ensures var m := MergeStart(v, p); m == p || (m < p && IsFree(v, m) && m + v.sz[m] == p)
    {
      ChunkBounds(v, p);
      TagsOf(v, p);
    }

    lemma NotVictim(v: Segment, p: nat, b: map<nat, nat>, d: nat, ds: nat)
      requires FreeOk(v, b, d, ds, {}) && p in v.live && 0 < p
      ensures p != d && p !in b && b - {p} == b
    {
    }

    /** The victim in front of the freed chunk takes it over. */
    method FreeIntoVictim(p: nat, psize: nat, next: nat, ghost p0: nat)
      requires Valid() && p0 in live && p == dv == MergeStart(Seg(), p0) != p0
      requires next == p0 + sz[p0] == p + psize && next in live
      modifies this
      ensures Valid() && live == old(live) - {p0} && Keeps(old(Seg()), Seg(), live)
      ensures Joins(old(Seg()), p0, p, old(dv), Seg(), dv)
    {
      hide SegmentOk, IndexOk, FreeOk, Keeps;
      TagsOf(Seg(), p0);
      TagsOf(Seg(), next);
      NotVictim(Seg(), next, binned, dv, dvsize);
      Victim(Seg(), binned, dv, dvsize);
      FreeAfterMerge(Seg(), p0, p, next, binned, dv, dvsize);
      VictimNotBinned(Seg(), binned, dv, dvsize);
      assert binned - {p, next} == binned;
      dvsize := psize;
      MarkFree(p, psize, true, p0);
    }

    lemma VictimNotBinned(v: Segment, b: map<nat, nat>, d: nat, ds: nat)
      requires FreeOk(v, b, d, ds, {}) && d > 0
      ensures d !in b
    {
    }

    /** Where free stands before it looks forward: the free chunk in front, if there
        is one, is part of p, and out of its bin unless it is the victim. */
    ghost predicate Gathered(p: nat, psize: nat, next: nat, p0: nat, b0: map<nat, nat>)
      reads this
    {
      && SegmentOk(Seg()) && Index() && FreeOk(Seg(), b0, dv, dvsize, {})
      && 0 < base && top + topsize == limit < INDEX_LIMIT
      && p0 in live && p == MergeStart(Seg(), p0) && next == p0 + sz[p0] == p + psize
      && binned == (if p == dv then b0 else b0 - {p})
    }

    method FreeForward(p: nat, psize: nat, next: nat, ghost p0: nat, ghost b0: map<nat, nat>)
      requires Gathered(p, psize, next, p0, b0)
      requires p == dv && dvsize > 0 ==> next !in live
      modifies this
      ensures Valid() && live == old(live) - {p0} && Keeps(old(Seg()), Seg(), live)
      ensures Joins(old(Seg()), p0, p, old(dv), Seg(), dv)
    {
      hide SegmentOk, IndexOk, FreeOk, Keeps, Head, Pinuse, Cinuse, Size;
      TagsOf(Seg(), p0);
      if !Cinuse(mem[next + 8]) {
        if next == top {
          FreeIntoTop(p, psize, p0, b0);
        } else if next == dv {
          FreeBeforeVictim(p, psize, next, p0, b0);
        } else {
          FreeBeforeFree(p, psize, next, p0, b0);
        }
      } else {
        TagsOf(Seg(), next);
        if p == dv { Victim(Seg(), b0, dv, dvsize); }
        NotVictim(Seg(), next, b0, dv, dvsize);
        assert binned == b0 - {p, next};
        FreeAfterMerge(Seg(), p0, p, next, b0, dv, dvsize);
        MarkFree(p, psize, true, p0);
        BinMerged(p, psize);
      }
    }

    /** The merged chunk goes to its bin. */
    method BinMerged(p: nat, size: nat)
      requires SegmentOk(Seg()) && Index() && IsFree(Seg(), p) && sz[p] == size
      requires FreeOk(Seg(), binned, dv, dvsize, {p}) && 0 < base && top + topsize == limit < INDEX_LIMIT
      modifies `smallbins, `smallmap, `treebins, `treemap, `binned
      ensures Valid()
    {
      hide SegmentOk, IndexOk, FreeOk;
      LooseToBin(Seg(), p, binned, dv, dvsize);
      ChunkBounds(Seg(), p);
      InsertChunk(p, size);
    }

    /** The chunk behind is the victim, which grows to the front. */
    method FreeBeforeVictim(p: nat, psize: nat, next: nat, ghost p0: nat, ghost b0: map<nat, nat>)
      requires Gathered(p, psize, next, p0, b0) && next == dv > 0
      modifies this
      ensures Valid() && live == old(live) - {p0} && Keeps(old(Seg()), Seg(), live)
      ensures Joins(old(Seg()), p0, p, old(dv), Seg(), dv)
    {
      hide SegmentOk, IndexOk, FreeOk, Keeps, Head, Merge, CanMerge, PrevUsed;
      TagsOf(Seg(), p0);
      Victim(Seg(), b0, dv, dvsize);
      VictimNotBinned(Seg(), b0, dv, dvsize);
      assert binned == b0 - {p, next};
      FreeAfterMerge(Seg(), p0, p, next + dvsize, b0, dv, dvsize);
      dvsize := dvsize + psize;
      dv := p;
      MarkFree(p, dvsize, false, p0);
    }

    /** The chunk behind is a binned free chunk. */
    method FreeBeforeFree(p: nat, psize: nat, next: nat, ghost p0: nat, ghost b0: map<nat, nat>)
      requires Gathered(p, psize, next, p0, b0) && IsFree(Seg(), next) && next != dv
      modifies this
      ensures Valid() && live == old(live) - {p0} && Keeps(old(Seg()), Seg(), live)
      ensures Joins(old(Seg()), p0, p, old(dv), Seg(), dv)
    {
      hide SegmentOk, IndexOk, FreeOk, Keeps, Head, Size, Merge, CanMerge, PrevUsed;
      TagsOf(Seg(), p0);
      var nsize := Size(mem[next + 8]);
      var size := psize + nsize;
      InBinOrVictim(Seg(), next, b0, dv, dvsize);
      ChunkBounds(Seg(), next);
      FreeAfterMerge(Seg(), p0, p, next + nsize, b0, dv, dvsize);
      UnlinkChunk(next, nsize);
      if p == dv {
        Victim(Seg(), b0, dv, dvsize);
        VictimNotBinned(Seg(), b0, dv, dvsize);
      }
      assert binned == b0 - {p, next};
      MarkFree(p, size, false, p0);
      if p == dv {
        dvsize := size;
        return;
      }
      BinMerged(p, size);
    }

    method FreeIntoTop(p: nat, psize: nat, ghost p0: nat, ghost b0: map<nat, nat>)
      requires Gathered(p, psize, top, p0, b0)
      modifies this
      ensures Valid() && live == old(live) - {p0} && Keeps(old(Seg()), Seg(), live)
      ensures Joins(old(Seg()), p0, p, old(dv), Seg(), dv)
    {
      hide SegmentOk, IndexOk, FreeOk, Keeps;
      TagsOf(Seg(), p0);
      FreeAfterTop(Seg(), p0, p, b0, dv, dvsize);
      GrowTop(p, psize, p0);
      if p == dv {
        dv := 0;
        dvsize := 0;
      }
    }

    /** What the tags around a chunk in use say. */
    lemma TagsOf(v: Segment, p: nat)
      requires SegmentOk(v) && p in v.live
      ensures p in v.sz && p + 8 in v.mem && Size(v.mem[p + 8]) == v.sz[p] && v.base <= p
      ensures Pinuse(v.mem[p + 8]) == PrevUsed(v, p)
      ensures !PrevUsed(v, p) ==>
                var m := MergeStart(v, p); IsFree(v, m) && p in v.mem && v.mem[p] == v.sz[m] == p - m && v.base <= m
      ensures var n := p + v.sz[p];
              && n + 8 in v.mem && (n in v.sz || n == v.top) && Pinuse(v.mem[n + 8])
              && Cinuse(v.mem[n + 8]) == (n in v.live)
              && (n in v.sz ==> n != v.top && Size(v.mem[n + 8]) == v.sz[n])
    {
      assert p in v.sz;
      Behind(v, p);
      var n := p + v.sz[p];
      assert ChunkOk(v, p) && PrevOk(v, p);
      if n in v.sz { assert ChunkOk(v, n); }
      if !PrevUsed(v, p) { assert ChunkOk(v, v.pv[p]); }
    }

    lemma Victim(v: Segment, b: map<nat, nat>, d: nat, ds: nat)
      requires FreeOk(v, b, d, ds, {}) && d > 0
      ensures IsFree(v, d) && v.sz[d] == ds > 0
    {
    }

    lemma InBinOrVictim(v: Segment, a: nat, b: map<nat, nat>, d: nat, ds: nat)
      requires FreeOk(v, b, d, ds, {}) && IsFree(v, a)
      ensures (a in b && b[a] == v.sz[a]) || (ds > 0 && a == d)
    {
    }

    /** The free chunks after a merge: without the neighbours that became part of m. */
    lemma FreeAfterMerge(v: Segment, p: nat, m: nat, e: nat, b: map<nat, nat>, d: nat, ds: nat)
      requires SegmentOk(v) && p in v.live && m == MergeStart(v, p) && 0 < v.base && FreeOk(v, b, d, ds, {})
      requires var n := p + v.sz[p]; p in v.sz && n in v.sz && e == if n in v.live then n else n + v.sz[n]
      ensures CanMerge(v, p, m, e) && m <= e && Aligned(e - m) && e + 8 in v.mem && d != p
      ensures var v', n := Merge(v, p, m, e), p + v.sz[p];
              && v'.live == v.live - {p} && IsFree(v', m) && v'.sz[m] == e - m && v'.top == v.top
              && (if ds > 0 && (d == m || d == n) then FreeOk(v', b - {m, n}, m, e - m, {})
                  else FreeOk(v', b - {m, n}, d, ds, {m}))
    {
      MergeFacts(v, p, m, e);
      NotBelowBase(v, m);
      var v', n := Merge(v, p, m, e), p + v.sz[p];
      forall a | a in v.sz ensures m < a < e <==> (a == p && p != m) || (a == n && n != e) {
        MergeInside(v, p, m, e, a);
      }
      hide SegmentOk, Aligned, Head, FreeOk, CanMerge;
      MergedFree(v, v', p, m, n, e, b, d, ds);
    }

    lemma MergedFree(v: Segment, v': Segment, p: nat, m: nat, n: nat, e: nat, b: map<nat, nat>, d: nat, ds: nat)
      requires FreeOk(v, b, d, ds, {}) && p in v.live && p in v.sz && m in v.sz && n in v.sz && m < e && 0 < m
      requires m == p || m !in v.live
      requires n == e <==> n in v.live
      requires n != m && n != p
      requires v'.live == v.live - {p}
      requires forall a :: a in v'.sz <==> a in v.sz && !(a == p && p != m) && !(a == n && n != e)
      requires forall a :: a in v'.sz ==> v'.sz[a] == if a == m then e - m else v.sz[a]
      ensures if ds > 0 && (d == m || d == n) then FreeOk(v', b - {m, n}, m, e - m, {})
              else FreeOk(v', b - {m, n}, d, ds, {m})
    {
    }

    lemma FreeAfterTop(v: Segment, p: nat, m: nat, b: map<nat, nat>, d: nat, ds: nat)
      requires SegmentOk(v) && p in v.live && m == MergeStart(v, p) && 0 < v.base && FreeOk(v, b, d, ds, {})
      requires p in v.sz && p + v.sz[p] == v.top
      ensures m <= v.top && Aligned(v.topsize + v.top - m)
      ensures var v' := MergeIntoTop(v, p, m);
              && v'.live == v.live - {p}
              && (if d == m then FreeOk(v', b, 0, 0, {}) else FreeOk(v', b - {m}, d, ds, {}))
    {
      MergeTopFacts(v, p, m);
      forall a | a in v.sz ensures a == m || a == p || a < m { Inside(v, m, a); }
      NotBelowBase(v, m);
      hide SegmentOk, Aligned, Head;
    }

    /** set_size_and_pinuse_of_free_chunk, or set_free_with_pinuse when the chunk
        behind still believes that the one in front is in use. */
    method MarkFree(p: nat, s: nat, clear: bool, ghost p0: nat)
      requires CanMerge(Seg(), p0, p, p + s)
      requires !clear ==> p0 + sz[p0] != p + s
      modifies `mem, `sz, `live, `pv
      ensures Aligned(s) && p + s + 8 in old(mem) && Seg() == Merge(old(Seg()), p0, p, p + s)
      ensures SegmentOk(Seg()) && Keeps(old(Seg()), Seg(), old(live) - {p0})
    {
      hide SegmentOk, Head, ClearPinuse, Keeps, CanMerge;
      MarkFacts(Seg(), p0, p, s);
      var e := p + s;
      if clear {
        mem := mem[e + 8 := ClearPinuse(mem[e + 8])];
      }
      mem := mem[p + 8 := Head(s, true, false)];
      mem := mem[e := s];
      sz := (map a | a in sz && !(p < a < e) :: sz[a])[p := s];
      live := live - {p0};
      pv := (map a | a in pv && !(p < a < e) :: pv[a])[e := p];
      assert Seg() == Merge(old(Seg()), p0, p, p + s);
    }

    lemma MarkFacts(v: Segment, p0: nat, p: nat, s: nat)
      requires CanMerge(v, p0, p, p + s)
      ensures p0 in v.sz && Aligned(s) && p + s + 8 in v.mem
      ensures SegmentOk(Merge(v, p0, p, p + s)) && Keeps(v, Merge(v, p0, p, p + s), v.live - {p0})
      ensures p0 + v.sz[p0] != p + s ==> v.mem[p + s + 8 := ClearPinuse(v.mem[p + s + 8])] == v.mem
    {
      MergeFacts(v, p0, p, p + s);
      MergeOk(v, p0, p, p + s);
    }

    /** The chunk and everything free in front of it become part of top. */
    method GrowTop(p: nat, psize: nat, ghost p0: nat)
      requires CanMergeTop(Seg(), p0, p) && p + psize == top
      modifies `mem, `sz, `live, `pv, `top, `topsize
      ensures SegmentOk(Seg()) && Keeps(old(Seg()), Seg(), old(live) - {p0}) && top + topsize == old(top + topsize)
      ensures p <= old(top) && Aligned(old(topsize) + old(top) - p) && Seg() == MergeIntoTop(old(Seg()), p0, p)
    {
      hide SegmentOk, Head, Keeps;
      MergeTopFacts(Seg(), p0, p);
      MergeIntoTopOk(Seg(), p0, p);
      topsize := topsize + psize;
      top := p;
      mem := mem[p + 8 := Head(topsize, true, false)];
      sz := map a | a in sz && a < p :: sz[a];
      live := live - {p0};
      pv := map a | a in pv && a <= p :: pv[a];
    }

    // ---- The program ----

    /** The program that holds chunk a stores a word in it. */
    method Store(x: nat, w: nat, ghost a: nat)
      requires Valid() && InPayload(Seg(), a, x)
      modifies `mem
      ensures Valid() && Seg() == old(Seg()).(mem := old(mem)[x := w])
      ensures Keeps(old(Seg()), Seg(), live - {a})
    {
      hide SegmentOk, IndexOk, Keeps, InPayload;
      StoreOk(Seg(), a, x, w);
      mem := mem[x := w];
    }
  }

  // ---- Runs ----

  /** What a program asks of the heap: a block, or to give back the k-th one that it holds;
      and its own store to word i of that block. */
  datatype Request = Allocate(nsize: nat) | Store(k: nat, i: nat, word: nat) | Release(k: nat)

  /** A block as the program knows it: where it is, the size that was asked for, and the
      words that were stored in it. */
  datatype Block = Block(ptr: nat, size: nat, words: map<nat, nat>)

  /** The blocks that the program holds after a request that was answered with r. */
  function Held(blocks: seq<Block>, request: Request, r: nat): seq<Block> {
    match request
    case Allocate(n) => if r == 0 then blocks else blocks + [Block(r, n, map[])]
    case Store(k, i, w) =>
      if k < |blocks| && 8 * i < blocks[k].size then blocks[k := blocks[k].(words := blocks[k].words[i := w])] else blocks
    case Release(k) => if k < |blocks| then blocks[..k] + blocks[k + 1..] else blocks
  }

  /** The blocks held after a run. */
  function HeldAfter(blocks: seq<Block>, requests: seq<Request>, rs: seq<nat>): seq<Block>
    requires |requests| == |rs|
  {
    if rs == [] then blocks
    else var n := |rs| - 1; Held(HeldAfter(blocks, requests[..n], rs[..n]), requests[n], rs[n])
  }

  /** The heap: its segment and its free chunks. */
  datatype State = State(seg: Segment, free: FreeChunks)

  /** What the heap becomes when a program that holds these blocks makes a request, which is
      answered with r: a new block, cut from the chunk that serves the request, or nothing
      changes because the heap is full for the request; one word changes; one chunk leaves
      use, and the victim is what it becomes then. All other blocks stay as they were. */
  ghost predicate Answers(s: State, blocks: seq<Block>, request: Request, r: nat, s': State) {
    match request
    case Allocate(n) =>
      if r == 0 then s' == s && FullFor(s.seg, Heap.Needed(n))
      else r > 16 && Served(s.seg, s.free, Heap.Needed(n), n <= 240, r - 16, s'.seg, s'.free)
    case Store(k, i, w) =>
      if k < |blocks| && 8 * i < blocks[k].size then s' == s.(seg := s.seg.(mem := s.seg.mem[blocks[k].ptr + 8 * i := w])) else s' == s
    case Release(k) =>
      if k < |blocks|
      then blocks[k].ptr > 16 && s'.seg.live == s.seg.live - {blocks[k].ptr - 16} && Keeps(s.seg, s'.seg, s'.seg.live)
           && VictimAfter(blocks[k].ptr - 16, s.free.dv, s'.seg, s'.free.dv)
      else s' == s
  }

  /** The heap before each request of a run, and after the last one. */
  ghost predicate Trace(vs: seq<State>, blocks0: seq<Block>, requests: seq<Request>, rs: seq<nat>) {
    && |vs| == |requests| + 1 == |rs| + 1
    && forall i :: 0 <= i < |requests| ==>
         Answers(vs[i], HeldAfter(blocks0, requests[..i], rs[..i]), requests[i], rs[i], vs[i + 1])
  }

  lemma {:induction false} TraceMore(vs: seq<State>, v: State, blocks0: seq<Block>, requests: seq<Request>, i: nat, rs: seq<nat>, r: nat)
    requires i < |requests| && Trace(vs, blocks0, requests[..i], rs)
    requires Answers(vs[i], HeldAfter(blocks0, requests[..i], rs), requests[i], r, v)
    ensures Trace(vs + [v], blocks0, requests[..i + 1], rs + [r])
  {
    hide Answers, HeldAfter;
    var vs', rs', some := vs + [v], rs + [r], requests[..i + 1];
    forall j | 0 <= j < |some| ensures Answers(vs'[j], HeldAfter(blocks0, some[..j], rs'[..j]), some[j], rs'[j], vs'[j + 1]) {
      assert some[..j] == requests[..i][..j] && rs'[..j] == rs[..j];
      if j == i { assert requests[..i][..j] == requests[..i] && rs[..j] == rs; }
    }
  }

  /** The block is a chunk in use of at least the padded request, and every word of it
      that was stored is there. */
  ghost predicate BlockOk(v: Segment, b: Block) {
    && b.ptr > 16 && b.ptr - 16 in v.live && b.ptr - 16 in v.sz
    && v.sz[b.ptr - 16] >= Heap.Needed(b.size) && v.sz[b.ptr - 16] >= b.size + CHUNK_OVERHEAD
    && forall i :: i in b.words ==>
         8 * i < b.size && b.ptr + 8 * i in v.mem && v.mem[b.ptr + 8 * i] == b.words[i]
  }

  ghost predicate Holds(blocks: seq<Block>, a: nat) {
    exists j :: 0 <= j < |blocks| && blocks[j].ptr == a + 16
  }

  /** The chunks in use are those of the blocks, each held once. */
  ghost predicate Owned(live: set<nat>, blocks: seq<Block>) {
    && (forall j :: 0 <= j < |blocks| ==> blocks[j].ptr > 16 && blocks[j].ptr - 16 in live)
    && (forall a {:trigger Holds(blocks, a)} :: a in live ==> Holds(blocks, a))
    && (forall i, j :: 0 <= i < j < |blocks| ==> blocks[i].ptr != blocks[j].ptr)
  }

  ghost predicate BlocksOk(v: Segment, blocks: seq<Block>) {
    forall b :: b in blocks ==> BlockOk(v, b)
  }

  lemma OwnedMore(live: set<nat>, live': set<nat>, blocks: seq<Block>, b: Block)
    requires Owned(live, blocks) && b.ptr > 16 && b.ptr - 16 !in live && live' == live + {b.ptr - 16}
    ensures Owned(live', blocks + [b])
  {
    hide Holds;
    var more := blocks + [b];
    forall j | 0 <= j < |more| ensures more[j].ptr > 16 && more[j].ptr - 16 in live' { OnceMore(live, blocks, b, 0, j); }
    forall i, j | 0 <= i < j < |more| ensures more[i].ptr != more[j].ptr { OnceMore(live, blocks, b, i, j); }
    forall a | a in live' ensures Holds(more, a) {
      assert a in live ==> Holds(blocks, a);
      HoldsMore(blocks, b, a);
    }
  }

  lemma OnceMore(live: set<nat>, blocks: seq<Block>, b: Block, i: nat, j: nat)
    requires Owned(live, blocks) && b.ptr > 16 && b.ptr - 16 !in live && i <= j <= |blocks|
    ensures (blocks + [b])[j].ptr > 16 && (blocks + [b])[j].ptr - 16 in live + {b.ptr - 16}
    ensures i < j ==> (blocks + [b])[i].ptr != (blocks + [b])[j].ptr
  {
  }

  lemma HoldsMore(blocks: seq<Block>, b: Block, a: nat)
    requires Holds(blocks, a) || b.ptr == a + 16
    ensures Holds(blocks + [b], a)
  {
    if b.ptr == a + 16 {
      assert (blocks + [b])[|blocks|].ptr == a + 16;
    } else {
      var j :| 0 <= j < |blocks| && blocks[j].ptr == a + 16;
      assert (blocks + [b])[j].ptr == a + 16;
    }
  }

  lemma HoldsLess(blocks: seq<Block>, k: nat, a: nat)
    requires k < |blocks| && Holds(blocks, a) && blocks[k].ptr != a + 16
    ensures Holds(blocks[..k] + blocks[k + 1..], a)
  {
    var rest := blocks[..k] + blocks[k + 1..];
    var j :| 0 <= j < |blocks| && blocks[j].ptr == a + 16;
    assert rest[if j < k then j else j - 1] == blocks[j];
  }

  lemma HoldsSame(blocks: seq<Block>, blocks': seq<Block>, a: nat)
    requires Holds(blocks, a) && |blocks'| == |blocks| && forall j :: 0 <= j < |blocks| ==> blocks'[j].ptr == blocks[j].ptr
    ensures Holds(blocks', a)
  {
    var j :| 0 <= j < |blocks| && blocks[j].ptr == a + 16;
    assert blocks'[j].ptr == a + 16;
  }

  lemma OwnedLess(live: set<nat>, live': set<nat>, blocks: seq<Block>, k: nat)
    requires Owned(live, blocks) && k < |blocks| && blocks[k].ptr > 16 && live' == live - {blocks[k].ptr - 16}
    ensures Owned(live', blocks[..k] + blocks[k + 1..])
  {
    var rest := blocks[..k] + blocks[k + 1..];
    assert forall j :: 0 <= j < |rest| ==> rest[j] == blocks[if j < k then j else j + 1];
    hide Holds;
    forall a | a in live' ensures Holds(rest, a) {
      assert Holds(blocks, a);
      HoldsLess(blocks, k, a);
    }
  }

  /** A stored word is in the payload. */
  lemma WordInPayload(v: Segment, b: Block, i: nat)
    requires BlockOk(v, b) && 8 * i < b.size
    ensures InPayload(v, b.ptr - 16, b.ptr + 8 * i)
  {
  }

  /** What the heap keeps of a chunk it keeps of its block. */
  lemma BlockKept(v: Segment, v': Segment, b: Block, kept: set<nat>)
    requires BlockOk(v, b) && Keeps(v, v', kept) && b.ptr - 16 in kept
    ensures BlockOk(v', b)
  {
    var a := b.ptr - 16;
    forall i | i in b.words ensures b.ptr + 8 * i in v'.mem && v'.mem[b.ptr + 8 * i] == b.words[i] {
      WordInPayload(v, b, i);
      assert Untouched(v.mem, v'.mem, a, v.sz[a]);
    }
  }

  lemma BlocksKept(v: Segment, v': Segment, blocks: seq<Block>, kept: set<nat>)
    requires BlocksOk(v, blocks) && Keeps(v, v', kept) && forall b :: b in blocks ==> b.ptr - 16 in kept
    ensures BlocksOk(v', blocks)
  {
    hide BlockOk, Keeps;
    forall b | b in blocks ensures BlockOk(v', b) { BlockKept(v, v', b, kept); }
  }

  /** A granted chunk, as a block in which nothing was stored. */
  lemma Granted(v: Segment, v': Segment, r: nat, nsize: nat, blocks: seq<Block>)
    requires r > 16 && Grants(v, v', r - 16, Heap.Needed(nsize)) && SegmentOk(v') && v'.top < INDEX_LIMIT
    requires nsize < SIZE_LIMIT && Owned(v.live, blocks) && BlocksOk(v, blocks)
    ensures Owned(v'.live, blocks + [Block(r, nsize, map[])]) && BlocksOk(v', blocks + [Block(r, nsize, map[])])
  {
    assert ChunkOk(v', r - 16);
    var b := Block(r, nsize, map[]);
    hide SegmentOk, ChunkOk, Keeps;
    assert BlockOk(v', b);
    OwnedMore(v.live, v'.live, blocks, b);
    BlocksKept(v, v', blocks, v.live);
  }

  /** The block in which word i is stored anew. */
  lemma Stored(v: Segment, blocks: seq<Block>, k: nat, i: nat, w: nat)
    requires Owned(v.live, blocks) && BlocksOk(v, blocks) && k < |blocks| && 8 * i < blocks[k].size
    requires var x := blocks[k].ptr + 8 * i; var v' := v.(mem := v.mem[x := w]);
             blocks[k].ptr > 16 && Keeps(v, v', v.live - {blocks[k].ptr - 16})
    ensures var x := blocks[k].ptr + 8 * i; var v' := v.(mem := v.mem[x := w]);
            var blocks' := Held(blocks, Store(k, i, w), 0);
            Owned(v.live, blocks') && BlocksOk(v', blocks')
  {
    hide BlockOk, Keeps;
    var b, x := blocks[k], blocks[k].ptr + 8 * i;
    var v' := v.(mem := v.mem[x := w]);
    var b' := b.(words := b.words[i := w]);
    StoredHere(v, b, i, w);
    var blocks' := blocks[k := b'];
    OwnedRest(v.live, blocks, k);
    var rest := blocks[..k] + blocks[k + 1..];
    OwnedSame(v.live, blocks, blocks');
    hide Owned;
    BlocksKept(v, v', rest, v.live - {b.ptr - 16});
    forall c | c in blocks' ensures BlockOk(v', c) {
      var j :| 0 <= j < |blocks'| && blocks'[j] == c;
      if j != k { StaysIn(blocks, k, j); }
    }
  }

  lemma StoredHere(v: Segment, b: Block, i: nat, w: nat)
    requires BlockOk(v, b) && 8 * i < b.size
    ensures BlockOk(v.(mem := v.mem[b.ptr + 8 * i := w]), b.(words := b.words[i := w]))
  {
  }

  lemma OwnedSame(live: set<nat>, blocks: seq<Block>, blocks': seq<Block>)
    requires Owned(live, blocks) && |blocks'| == |blocks| && forall j :: 0 <= j < |blocks| ==> blocks'[j].ptr == blocks[j].ptr
    ensures Owned(live, blocks')
  {
    hide Holds;
    forall a | a in live ensures Holds(blocks', a) {
      assert Holds(blocks, a);
      HoldsSame(blocks, blocks', a);
    }
  }

  lemma StaysIn<T>(s: seq<T>, k: nat, j: nat)
    requires k < |s| && j < |s| && j != k
    ensures s[j] in s[..k] + s[k + 1..]
  {
    if j < k { assert s[..k][j] == s[j]; } else { assert s[k + 1..][j - k - 1] == s[j]; }
  }

  /** The blocks but the k-th are others. */
  lemma OwnedRest(live: set<nat>, blocks: seq<Block>, k: nat)
    requires Owned(live, blocks) && k < |blocks|
    ensures blocks[k].ptr > 16 && blocks[k].ptr - 16 in live
    ensures forall b :: b in blocks[..k] + blocks[k + 1..] ==> b in blocks && b.ptr > 16 && b.ptr - 16 in live - {blocks[k].ptr - 16}
  {
    forall b | b in blocks[..k] + blocks[k + 1..] ensures b in blocks && b.ptr > 16 && b.ptr - 16 in live - {blocks[k].ptr - 16} {
      if b in blocks[..k] {
        var j :| 0 <= j < k && blocks[j] == b;
      } else {
        var j :| k < j < |blocks| && blocks[j] == b;
      }
    }
  }

  lemma Released(v: Segment, v': Segment, blocks: seq<Block>, k: nat)
    requires Owned(v.live, blocks) && BlocksOk(v, blocks) && k < |blocks|
    requires blocks[k].ptr > 16 && v'.live == v.live - {blocks[k].ptr - 16} && Keeps(v, v', v'.live)
    ensures var rest := blocks[..k] + blocks[k + 1..]; Owned(v'.live, rest) && BlocksOk(v', rest)
  {
    hide BlockOk, Keeps;
    OwnedRest(v.live, blocks, k);
    OwnedLess(v.live, v'.live, blocks, k);
    BlocksKept(v, v', blocks[..k] + blocks[k + 1..], v'.live);
  }

  /** Any run of malloc and free by a program that stores only within the blocks it holds:
      the heap stays valid, its chunks in use are exactly those of the blocks held, and
      each is at least as large as was asked for and has the words stored last. A request
      fails only when the heap is full for it at that time, and then changes nothing. */
  method Serve(h: Heap, requests: seq<Request>, blocks0: seq<Block>) returns (blocks: seq<Block>, rs: seq<nat>, ghost vs: seq<State>)
    requires h.Valid() && Owned(h.live, blocks0) && BlocksOk(h.Seg(), blocks0)
    requires forall i :: 0 <= i < |requests| && requests[i].Allocate? ==> requests[i].nsize < SIZE_LIMIT
    modifies h
    ensures h.Valid() && Owned(h.live, blocks) && BlocksOk(h.Seg(), blocks)
    ensures |rs| == |requests| && blocks == HeldAfter(blocks0, requests, rs)
    ensures Trace(vs, blocks0, requests, rs) && vs[0] == old(h.Now()) && vs[|requests|] == h.Now()
  {
    hide SegmentOk, IndexOk, FreeOk, Owned, BlocksOk, Held, Answers;
    blocks, rs, vs := blocks0, [], [h.Now()];
    for i := 0 to |requests|
      invariant h.Valid() && Owned(h.live, blocks) && BlocksOk(h.Seg(), blocks)
      invariant |rs| == i && blocks == HeldAfter(blocks0, requests[..i], rs)
      invariant Trace(vs, blocks0, requests[..i], rs) && vs[0] == old(h.Now()) && vs[i] == h.Now()
    {
      var r: nat;
      blocks, r := ServeOne(h, requests[i], blocks);
      TraceMore(vs, h.Now(), blocks0, requests, i, rs, r);
      vs := vs + [h.Now()];
      rs := rs + [r];
      assert requests[..i + 1][..i] == requests[..i] && rs[..i] + [r] == rs;
    }
    assert requests[..|requests|] == requests;
  }

  /** One request. A block that the program does not hold is not given back, and what is
      outside of a block is not stored to. */
  method ServeOne(h: Heap, request: Request, blocks0: seq<Block>) returns (blocks: seq<Block>, r: nat)
    requires h.Valid() && Owned(h.live, blocks0) && BlocksOk(h.Seg(), blocks0)
    requires request.Allocate? ==> request.nsize < SIZE_LIMIT
    modifies h
    ensures h.Valid() && Owned(h.live, blocks) && BlocksOk(h.Seg(), blocks)
    ensures blocks == Held(blocks0, request, r)
    ensures Answers(old(h.Now()), blocks0, request, r, h.Now())
  {
    hide Chosen, Cut, VictimAfter, FullFor, SegmentOk, IndexOk, FreeOk, Owned, BlocksOk, BlockOk, Keeps, Grants, InPayload;
    blocks, r := blocks0, 0;
    ghost var was := h.Seg();
    match request
    case Allocate(n) =>
      r := h.Malloc(n);
      if r != 0 {
        blocks := blocks + [Block(r, n, map[])];
        Granted(was, h.Seg(), r, n, blocks0);
      }
    case Store(k, i, w) =>
      if k < |blocks| && 8 * i < blocks[k].size {
        ghost var a := blocks[k].ptr - 16;
        BlockAt(was, blocks, k);
        WordInPayload(was, blocks[k], i);
        h.Store(blocks[k].ptr + 8 * i, w, a);
        blocks := blocks[k := blocks[k].(words := blocks[k].words[i := w])];
        Stored(was, blocks0, k, i, w);
      }
    case Release(k) =>
      if k < |blocks| {
        BlockAt(was, blocks, k);
        h.Free(blocks[k].ptr);
        blocks := blocks[..k] + blocks[k + 1..];
        Released(was, h.Seg(), blocks0, k);
      }
  }

  lemma BlockAt(v: Segment, blocks: seq<Block>, k: nat)
    requires BlocksOk(v, blocks) && k < |blocks|
    ensures BlockOk(v, blocks[k]) && blocks[k].ptr > 16 && blocks[k].ptr - 16 in v.live
  {
  }
}
