/** Where the allocator keeps its free chunks: small bins by exact size, treebins for
    the rest. */
module HeapIndex {
  import opened Trie

  const NSMALLBINS := 32
  const MIN_LARGE_SIZE := 256

  /** The chunks of small bin i have size 8 * i, and each is listed once. */
  ghost predicate SmallOk(smallbins: seq<seq<nat>>, smallmap: set<nat>, binned: map<nat, nat>) {
    && |smallbins| == NSMALLBINS
    && (forall i :: i in smallmap ==> i < NSMALLBINS)
    && (forall i {:trigger SmallBinOk(smallbins, smallmap, binned, i)} :: 0 <= i < NSMALLBINS ==>
          SmallBinOk(smallbins, smallmap, binned, i))
  }

  ghost predicate SmallBinOk(smallbins: seq<seq<nat>>, smallmap: set<nat>, binned: map<nat, nat>, i: nat)
    requires |smallbins| == NSMALLBINS && i < NSMALLBINS
  {
    && (i in smallmap <==> smallbins[i] != [])
    && Distinct(smallbins[i])
    && (forall a :: a in smallbins[i] <==> a in binned && binned[a] == 8 * i)
  }

  /** The treebins hold exactly the chunks that are not small. */
  ghost predicate LargeOk(treebins: seq<Tree>, treemap: set<nat>, binned: map<nat, nat>) {
    && BinsOk(treebins, treemap)
    && (forall m :: m in BinMembers(treebins) <==> m.0 in binned && binned[m.0] == m.1 && m.1 >= MIN_LARGE_SIZE)
  }

  ghost predicate SizesOk(binned: map<nat, nat>) {
    forall a :: a in binned ==> binned[a] % 8 == 0 && 0 < binned[a] < INDEX_LIMIT
  }

  ghost predicate IndexOk(smallbins: seq<seq<nat>>, smallmap: set<nat>, treebins: seq<Tree>, treemap: set<nat>,
                          binned: map<nat, nat>)
  {
    && SmallOk(smallbins, smallmap, binned)
    && LargeOk(treebins, treemap, binned)
    && SizesOk(binned)
  }

  predicate IsSmall(s: nat) {
    s / 8 < NSMALLBINS
  }

  lemma InsertSmallOk(smallbins: seq<seq<nat>>, smallmap: set<nat>, binned: map<nat, nat>, x: nat, s: nat)
    requires SmallOk(smallbins, smallmap, binned) && s % 8 == 0 && IsSmall(s) && x !in binned
    ensures SmallOk(smallbins[s / 8 := [x] + smallbins[s / 8]], smallmap + {s / 8}, binned[x := s])
  {
    var i := s / 8;
    var bins' := smallbins[i := [x] + smallbins[i]];
    var map', binned' := smallmap + {i}, binned[x := s];
    forall j | 0 <= j < NSMALLBINS ensures SmallBinOk(bins', map', binned', j) {
      assert SmallBinOk(smallbins, smallmap, binned, j);
    }
  }

  /** Unlinking from a small bin; the map bit goes with the last chunk. */
  lemma UnlinkSmallOk(smallbins: seq<seq<nat>>, smallmap: set<nat>, binned: map<nat, nat>, x: nat, i: nat, bin: seq<nat>)
    requires SmallOk(smallbins, smallmap, binned) && i < NSMALLBINS && x in binned && binned[x] == 8 * i
    requires Distinct(bin) && forall a :: a in bin <==> a in smallbins[i] && a != x
    ensures SmallOk(smallbins[i := bin], if bin == [] then smallmap - {i} else smallmap, binned - {x})
  {
    var bins' := smallbins[i := bin];
    var map' := if bin == [] then smallmap - {i} else smallmap;
    assert SmallBinOk(smallbins, smallmap, binned, i);
    forall j | 0 <= j < NSMALLBINS ensures SmallBinOk(bins', map', binned - {x}, j) {
      assert SmallBinOk(smallbins, smallmap, binned, j);
    }
  }

  /** A small size more or less does not concern the treebins, nor a large one the
      small bins. */
  lemma OtherHalf(smallbins: seq<seq<nat>>, smallmap: set<nat>, treebins: seq<Tree>, treemap: set<nat>,
                  binned: map<nat, nat>, x: nat, s: nat)
    requires s % 8 == 0
    ensures LargeOk(treebins, treemap, binned) && IsSmall(s) && x !in binned ==> LargeOk(treebins, treemap, binned[x := s])
    ensures LargeOk(treebins, treemap, binned) && IsSmall(s) && x in binned && binned[x] == s
            ==> LargeOk(treebins, treemap, binned - {x})
    ensures SmallOk(smallbins, smallmap, binned) && !IsSmall(s) && x !in binned ==> SmallOk(smallbins, smallmap, binned[x := s])
    ensures SmallOk(smallbins, smallmap, binned) && !IsSmall(s) && x in binned && binned[x] == s
            ==> SmallOk(smallbins, smallmap, binned - {x})
  {
    if SmallOk(smallbins, smallmap, binned) && !IsSmall(s) {
      if x !in binned { LargeLeavesSmall(smallbins, smallmap, binned, binned[x := s], x, s); }
      if x in binned && binned[x] == s { LargeLeavesSmall(smallbins, smallmap, binned, binned - {x}, x, s); }
    }
  }

  lemma LargeLeavesSmall(smallbins: seq<seq<nat>>, smallmap: set<nat>, binned: map<nat, nat>, binned': map<nat, nat>, x: nat, s: nat)
    requires SmallOk(smallbins, smallmap, binned) && !IsSmall(s)
    requires forall a :: a != x ==> (a in binned <==> a in binned') && (a in binned ==> binned[a] == binned'[a])
    requires x in binned ==> binned[x] == s
    requires x in binned' ==> binned'[x] == s
    ensures SmallOk(smallbins, smallmap, binned')
  {
    forall j | 0 <= j < NSMALLBINS ensures SmallBinOk(smallbins, smallmap, binned', j) {
      assert SmallBinOk(smallbins, smallmap, binned, j);
      assert 8 * j != s;
    }
  }

  lemma InsertLargeIndexOk(treebins: seq<Tree>, treemap: set<nat>, binned: map<nat, nat>, x: nat, s: nat)
    requires LargeOk(treebins, treemap, binned) && !IsSmall(s) && s < INDEX_LIMIT && x !in binned
    ensures LargeOk(InsertLarge(treebins, x, s), treemap + {TreeIndex(s)}, binned[x := s])
  {
    InsertLargeOk(treebins, treemap, x, s);
  }

  lemma UnlinkLargeIndexOk(treebins: seq<Tree>, treemap: set<nat>, binned: map<nat, nat>, x: nat, s: nat)
    requires LargeOk(treebins, treemap, binned) && !IsSmall(s) && x in binned && binned[x] == s
    ensures var bins' := UnlinkLarge(treebins, x, s);
            LargeOk(bins', UnmarkIfEmpty(bins', treemap, TreeIndex(s)), binned - {x})
  {
    assert (x, s) in BinMembers(treebins);
    UnlinkLargeOk(treebins, treemap, x, s);
    hide BinsOk, UnlinkLarge, UnmarkIfEmpty, TreeIndex, BinMembers;
  }

  /** Every binned chunk is in exactly one place: listed once in the small bin of its size,
      or held by the treebin of its size, and that bin is marked. */
  lemma OneHome(smallbins: seq<seq<nat>>, smallmap: set<nat>, treebins: seq<Tree>, treemap: set<nat>, binned: map<nat, nat>, a: nat)
    requires IndexOk(smallbins, smallmap, treebins, treemap, binned) && a in binned
    ensures var s := binned[a];
      && (forall i :: 0 <= i < NSMALLBINS ==> (a in smallbins[i] <==> IsSmall(s) && i == s / 8))
      && (forall i, t :: 0 <= i < NTREEBINS && (a, t) in Members(treebins[i]) ==> !IsSmall(s) && t == s && i == TreeIndex(s))
      && (if IsSmall(s) then s / 8 in smallmap
          else TreeIndex(s) in treemap && (a, s) in Members(treebins[TreeIndex(s)]))
  {
    var s := binned[a];
    forall i | 0 <= i < NSMALLBINS ensures a in smallbins[i] <==> IsSmall(s) && i == s / 8 {
      assert SmallBinOk(smallbins, smallmap, binned, i);
    }
    if IsSmall(s) { assert SmallBinOk(smallbins, smallmap, binned, s / 8) && a in smallbins[s / 8]; }
    forall i, t | 0 <= i < NTREEBINS && (a, t) in Members(treebins[i]) ensures !IsSmall(s) && t == s && i == TreeIndex(s) {
      assert (a, t) in BinMembers(treebins);
      MembersSizes(treebins[i], BinPrefix(i), BinBits(i));
    }
    if !IsSmall(s) {
      assert (a, s) in BinMembers(treebins);
      HomeBin(treebins, treemap, a, s);
    }
  }
}
