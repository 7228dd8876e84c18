/** table.sort: quicksort in place, with a median of three and recursion on the smaller side. */
module Sort {
  import opened Powers

  // ---- Orders ----

  /** The comparators that sort: strict weak orders. */
  ghost predicate StrictWeak<T(!new)>(less: (T, T) -> bool) {
    && (forall x :: !less(x, x))
    && (forall x, y, z :: less(x, y) && less(y, z) ==> less(x, z))
    && (forall x, y, z :: !less(x, y) && !less(y, z) ==> !less(x, z))
  }

  lemma Asymmetric<T(!new)>(less: (T, T) -> bool, x: T, y: T)
    requires StrictWeak(less)
    ensures !less(x, x) && (less(x, y) ==> !less(y, x))
  {
  }

  lemma NotLess<T(!new)>(less: (T, T) -> bool, x: T, y: T, z: T)
    requires StrictWeak(less) && !less(x, y) && !less(y, z)
    ensures !less(x, z)
  {
  }

  /** No element of s[l..u + 1] comes before an earlier one. */
  ghost predicate Sorted<T(!new)>(s: seq<T>, less: (T, T) -> bool, l: int, u: int) {
    forall p, q :: 0 <= p < |s| && 0 <= q < |s| && l <= p <= q <= u ==> !less(s[q], s[p])
  }

  // ---- Permutations ----

  ghost predicate Among<T>(s: seq<T>, l: int, u: int, x: T) {
    exists m :: 0 <= m < |s| && l <= m <= u && s[m] == x
  }

  lemma AmongAt<T>(s: seq<T>, l: int, u: int, m: int)
    requires 0 <= m < |s| && l <= m <= u
    ensures Among(s, l, u, s[m])
  {
  }

  /** t is s with the elements from l to u rearranged. */
  ghost predicate Perm<T>(s: seq<T>, t: seq<T>, l: int, u: int) {
    && |s| == |t| && multiset(s) == multiset(t)
    && (forall k :: 0 <= k < |s| && !(l <= k <= u) ==> s[k] == t[k])
    && (forall k :: 0 <= k < |s| && l <= k <= u ==> Among(s, l, u, t[k]))
  }

  lemma PermRefl<T>(s: seq<T>, l: int, u: int)
    ensures Perm(s, s, l, u)
  {
    forall k | 0 <= k < |s| && l <= k <= u ensures Among(s, l, u, s[k]) { AmongAt(s, l, u, k); }
  }

  lemma PermTrans<T>(s: seq<T>, t: seq<T>, w: seq<T>, l: int, u: int)
    requires Perm(s, t, l, u) && Perm(t, w, l, u)
    ensures Perm(s, w, l, u)
  {
    forall k | 0 <= k < |s| && l <= k <= u ensures Among(s, l, u, w[k]) {
      var m := Origin(t, w, l, u, k);
      assert Among(s, l, u, t[m]);
    }
  }

  lemma PermWiden<T>(s: seq<T>, t: seq<T>, l: int, u: int, l': int, u': int)
    requires Perm(s, t, l, u) && l' <= l && u <= u'
    ensures Perm(s, t, l', u')
  {
    forall k | 0 <= k < |s| && l' <= k <= u' ensures Among(s, l', u', t[k]) {
      if l <= k <= u {
        AmongAt(s, l', u', Origin(s, t, l, u, k));
      } else {
        AmongAt(s, l', u', k);
      }
    }
  }

  /** Where an element of the rearranged part came from. */
  ghost function Origin<T>(s: seq<T>, t: seq<T>, l: int, u: int, k: int): (m: int)
    requires Perm(s, t, l, u) && 0 <= k < |s| && l <= k <= u
    ensures 0 <= m < |s| && l <= m <= u && t[k] == s[m]
  {
    assert Among(s, l, u, t[k]);
    var m :| 0 <= m < |s| && l <= m <= u && s[m] == t[k];
    m
  }

  function Exchanged<T>(s: seq<T>, i: int, j: int): seq<T>
    requires 0 <= i < |s| && 0 <= j < |s|
  {
    s[i := s[j]][j := s[i]]
  }

  lemma PermExchange<T>(s: seq<T>, i: int, j: int, l: int, u: int)
    requires 0 <= i < |s| && 0 <= j < |s| && l <= i <= u && l <= j <= u
    ensures Perm(s, Exchanged(s, i, j), l, u)
  {
    forall k | 0 <= k < |s| && l <= k <= u ensures Among(s, l, u, Exchanged(s, i, j)[k]) {
      AmongAt(s, l, u, if k == j then i else if k == i then j else k);
    }
  }

  // ---- Sorting from the outside in ----

  /** All pairs between l0 and u0 are in order, but for those that lie between l and u. */
  ghost predicate Framed<T(!new)>(s: seq<T>, less: (T, T) -> bool, l0: int, u0: int, l: int, u: int) {
    forall p, q :: 0 <= p < |s| && 0 <= q < |s| && l0 <= p <= q <= u0 && !(l <= p && q <= u) ==> !less(s[q], s[p])
  }

  lemma FramedPerm<T(!new)>(s: seq<T>, t: seq<T>, less: (T, T) -> bool, l0: int, u0: int, l: int, u: int)
    requires Framed(s, less, l0, u0, l, u) && Perm(s, t, l, u) && l0 <= l && u <= u0
    ensures Framed(t, less, l0, u0, l, u)
  {
    forall p, q | 0 <= p < |t| && 0 <= q < |t| && l0 <= p <= q <= u0 && !(l <= p && q <= u) ensures !less(t[q], t[p]) {
      var p' := if l <= p <= u then Origin(s, t, l, u, p) else p;
      var q' := if l <= q <= u then Origin(s, t, l, u, q) else q;
      assert !less(s[q'], s[p']);
    }
  }

  lemma FramedSorted<T(!new)>(s: seq<T>, less: (T, T) -> bool, l0: int, u0: int, l: int, u: int)
    requires Framed(s, less, l0, u0, l, u) && Sorted(s, less, l, u)
    ensures Sorted(s, less, l0, u0)
  {
  }

  /** The elements up to i are at most the pivot s[i], and those from i on at least. */
  ghost predicate Parted<T(!new)>(s: seq<T>, less: (T, T) -> bool, l: int, u: int, i: int) {
    && 0 <= i < |s|
    && (forall k :: 0 <= k < |s| && l <= k <= i ==> !less(s[i], s[k]))
    && (forall k :: 0 <= k < |s| && i <= k <= u ==> !less(s[k], s[i]))
  }

  lemma PartedPerm<T(!new)>(s: seq<T>, t: seq<T>, less: (T, T) -> bool, l: int, u: int, i: int, l': int, u': int)
    requires Parted(s, less, l, u, i) && Perm(s, t, l', u') && l <= l' && u' <= u && (u' < i || i < l')
    ensures Parted(t, less, l, u, i)
  {
    forall k | 0 <= k < |t| && l <= k <= u ensures (k <= i ==> !less(t[i], t[k])) && (i <= k ==> !less(t[k], t[i])) {
      var k' := if l' <= k <= u' then Origin(s, t, l', u', k) else k;
      assert t[k] == s[k'] && t[i] == s[i] && (k <= i <==> k' <= i);
    }
  }

  /** With the left side sorted, only the right side is left; and the other way round. */
  lemma SideDone<T(!new)>(s: seq<T>, less: (T, T) -> bool, l0: int, u0: int, l: int, u: int, i: int)
    requires StrictWeak(less) && Framed(s, less, l0, u0, l, u) && Parted(s, less, l, u, i) && l <= i <= u
    ensures Sorted(s, less, l, i - 1) ==> Framed(s, less, l0, u0, i + 1, u)
    ensures Sorted(s, less, i + 1, u) ==> Framed(s, less, l0, u0, l, i - 1)
  {
    forall p, q | 0 <= p < |s| && 0 <= q < |s| && l <= p <= i <= q <= u ensures !less(s[q], s[p]) {
      assert !less(s[i], s[p]) && !less(s[q], s[i]);
    }
  }

  // ---- The algorithm ----

  /** set2 after two reads: exchange two elements. */
  method Exchange<T>(a: array<T>, i: int, j: int)
    requires 0 <= i < a.Length && 0 <= j < a.Length
    modifies a
    ensures a[..] == Exchanged(old(a[..]), i, j)
  {
    a[i], a[j] := a[j], a[i];
  }

  /** a[l], a[m] and a[u] are put in order. */
  ghost predicate Three<T(!new)>(s: seq<T>, less: (T, T) -> bool, l: int, m: int, u: int) {
    0 <= l < |s| && 0 <= m < |s| && 0 <= u < |s| && !less(s[m], s[l]) && !less(s[u], s[m]) && !less(s[u], s[l])
  }

  method OrderTwo<T(!new)>(a: array<T>, less: (T, T) -> bool, l: int, u: int)
    requires 0 <= l < u < a.Length
    modifies a
    ensures Perm(old(a[..]), a[..], l, u)
    ensures StrictWeak(less) ==> !less(a[u], a[l])
  {
    hide StrictWeak, Perm;
    PermRefl(a[..], l, u);
    if StrictWeak(less) { Asymmetric(less, a[u], a[l]); }
    if less(a[u], a[l]) {
      PermExchange(a[..], l, u, l, u);
      Exchange(a, l, u);
      assert a[u] == a[..][u] && a[l] == a[..][l];
    }
  }

  /** The median of three, with a[l] and a[u] in order. */
  method OrderThree<T(!new)>(a: array<T>, less: (T, T) -> bool, l: int, i: int, u: int)
    requires 0 <= l < i < u < a.Length
    requires StrictWeak(less) ==> !less(a[u], a[l])
    modifies a
    ensures Perm(old(a[..]), a[..], l, u)
    ensures StrictWeak(less) ==> Three(a[..], less, l, i, u)
  {
    hide StrictWeak, Perm;
    PermRefl(a[..], l, u);
    if StrictWeak(less) { ThreeWays(less, a[l], a[i], a[u]); }
    if less(a[i], a[l]) {
      PermExchange(a[..], i, l, l, u);
      Exchange(a, i, l);
    } else if less(a[u], a[i]) {
      PermExchange(a[..], i, u, l, u);
      Exchange(a, i, u);
    }
  }

  lemma ThreeWays<T(!new)>(less: (T, T) -> bool, x: T, y: T, z: T)
    requires StrictWeak(less) && !less(z, x)
    ensures less(y, x) ==> !less(x, y) && !less(z, y)
    ensures !less(y, x) && less(z, y) ==> !less(y, z)
  {
    Asymmetric(less, y, x);
    Asymmetric(less, z, y);
    if less(y, x) { NotLess(less, z, x, y); }
  }

  /** What the partition loop keeps: the pivot is at u - 1, the elements up to i are at most
      the pivot and those from j on at least. */
  ghost predicate Parting<T(!new)>(s: seq<T>, less: (T, T) -> bool, l: int, u: int, i: int, j: int, pivot: T) {
    && 0 <= l < |s| && 0 < u < |s| && s[u - 1] == pivot
    && (forall k :: 0 <= k < |s| && l <= k <= i ==> !less(pivot, s[k]))
    && (forall k :: 0 <= k < |s| && j <= k <= u ==> !less(s[k], pivot))
  }

  /** The scans from both ends: false is "invalid order function". */
  method Scan<T(!new)>(a: array<T>, less: (T, T) -> bool, l: int, u: int, i0: int, j0: int, pivot: T)
    returns (ok: bool, i: int, j: int)
    requires 0 <= l <= i0 <= j0 < u < a.Length && i0 < u - 1 && l < j0
    requires StrictWeak(less) ==> Parting(a[..], less, l, u, i0, j0, pivot)
    ensures ok ==> i0 < i <= u && l <= j < j0
    ensures StrictWeak(less) ==>
      && ok && i <= u - 1
      && Parting(a[..], less, l, u, i - 1, j + 1, pivot) && !less(a[i], pivot) && !less(pivot, a[j])
  {
    hide StrictWeak;
    if StrictWeak(less) { Asymmetric(less, pivot, pivot); }
    i, j, ok := i0 + 1, j0, true;
    while less(a[i], pivot)
      invariant i0 < i <= u && (StrictWeak(less) ==> i <= u - 1)
      invariant StrictWeak(less) ==> Parting(a[..], less, l, u, i - 1, j0, pivot)
      decreases u - i
    {
      if i >= u { return false, i, j; }
      if StrictWeak(less) { Asymmetric(less, a[i], pivot); }
      i := i + 1;
    }
    j := j - 1;
    while less(pivot, a[j])
      invariant l <= j < j0
      invariant StrictWeak(less) ==> Parting(a[..], less, l, u, i - 1, j + 1, pivot)
      decreases j - l
    {
      if j <= l { return false, i, j; }
      if StrictWeak(less) { Asymmetric(less, pivot, a[j]); }
      j := j - 1;
    }
  }

  /** Partition around the median at m: where the pivot comes to lie; false is an invalid
      order function. */
  method Partition<T(!new)>(a: array<T>, less: (T, T) -> bool, l: int, m: int, u: int) returns (ok: bool, i: int)
    requires 0 <= l < m < u < a.Length && l + 2 < u
    requires StrictWeak(less) ==> Three(a[..], less, l, m, u)
    modifies a
    ensures Perm(old(a[..]), a[..], l, u)
    ensures ok ==> l < i <= u
    ensures StrictWeak(less) ==> ok && Parted(a[..], less, l, u, i)
  {
    hide StrictWeak, Perm, Parting, Three, Parted;
    ghost var s := a[..];
    var pivot := a[m];
    PermExchange(s, m, u - 1, l, u);
    Exchange(a, m, u - 1);
    if StrictWeak(less) { StartParting(s, less, l, m, u); }
    var j := u - 1;
    i := l;
    while true
      invariant l <= i <= j < u && i < u - 1 && l < j && Perm(s, a[..], l, u)
      invariant StrictWeak(less) ==> Parting(a[..], less, l, u, i, j, pivot)
      decreases j
    {
      ok, i, j := Scan(a, less, l, u, i, j, pivot);
      if !ok { return; }
      if j < i {
        if StrictWeak(less) { PivotPlaced(a[..], less, l, u, i, j, pivot); }
        break;
      }
      ghost var t := a[..];
      PermExchange(t, i, j, l, u);
      if StrictWeak(less) { PartingExchange(t, less, l, u, i, j, pivot); }
      Exchange(a, i, j);
      PermTrans(s, t, a[..], l, u);
    }
    ghost var t := a[..];
    PermExchange(t, u - 1, i, l, u);
    Exchange(a, u - 1, i);
    PermTrans(s, t, a[..], l, u);
  }

  lemma StartParting<T(!new)>(s: seq<T>, less: (T, T) -> bool, l: int, m: int, u: int)
    requires StrictWeak(less) && Three(s, less, l, m, u) && 0 <= l < m < u < |s| && l + 2 < u
    ensures Parting(Exchanged(s, m, u - 1), less, l, u, l, u - 1, s[m])
  {
    hide StrictWeak;
    Asymmetric(less, s[m], s[m]);
  }

  lemma PartingExchange<T(!new)>(t: seq<T>, less: (T, T) -> bool, l: int, u: int, i: int, j: int, pivot: T)
    requires 0 <= l <= i <= j < u - 1 < |t| && Parting(t, less, l, u, i - 1, j + 1, pivot)
    requires !less(t[i], pivot) && !less(pivot, t[j])
    ensures Parting(Exchanged(t, i, j), less, l, u, i, j, pivot)
  {
  }

  lemma PivotPlaced<T(!new)>(t: seq<T>, less: (T, T) -> bool, l: int, u: int, i: int, j: int, pivot: T)
    requires StrictWeak(less) && 0 <= l < i < u < |t| && j < i
    requires Parting(t, less, l, u, i - 1, j + 1, pivot)
    ensures Parted(Exchanged(t, u - 1, i), less, l, u, i)
  {
    hide StrictWeak;
    Asymmetric(less, pivot, pivot);
    var w := Exchanged(t, u - 1, i);
    assert w[i] == pivot;
    forall k | 0 <= k < |w| && l <= k <= i ensures !less(w[i], w[k]) { assert k < i ==> w[k] == t[k]; }
    forall k | 0 <= k < |w| && i <= k <= u ensures !less(w[k], w[i]) { assert k != i ==> w[k] == if k == u - 1 then t[i] else t[k]; }
  }

  /** A stack of depth frames on n elements is at most log2 of n deep; a call on one
      element or none is a frame too. */
  ghost predicate Shallow(depth: nat, n: int) {
    depth > 0 && (depth == 1 || Pow2(depth) <= n)
  }

  /** The smaller of two sides of n elements and a pivot is less than half. */
  lemma SmallerSide(n: int, side: int, depth: nat)
    requires 4 <= n && 2 * side < n && Shallow(depth, side)
    ensures Shallow(depth + 1, n)
  {
    assert Pow2(depth + 1) == 2 * Pow2(depth) && Pow2(1) == 2 * Pow2(0);
  }

  /** auxsort: false is an invalid order function; depth is the number of its frames that
      are on the stack together. */
  method Auxsort<T(!new)>(a: array<T>, less: (T, T) -> bool, l0: int, u0: int) returns (ok: bool, ghost depth: nat)
    requires 0 <= l0 <= u0 + 1 <= a.Length
    modifies a
    ensures Perm(old(a[..]), a[..], l0, u0)
    ensures StrictWeak(less) ==> ok && Sorted(a[..], less, l0, u0)
    ensures Shallow(depth, u0 - l0 + 1)
    decreases u0 - l0 + 1, 2
  {
    hide StrictWeak, Perm, Sorted, Framed, Parted;
    var l, u := l0, u0;
    ghost var s := a[..];
    PermRefl(s, l, u);
    StartFramed(s, less, l, u);
    depth := 1;
    while l < u
      invariant l0 <= l <= u + 1 && u <= u0 && Shallow(depth, u0 - l0 + 1)
      invariant Perm(s, a[..], l0, u0)
      invariant StrictWeak(less) ==> Framed(a[..], less, l0, u0, l, u)
      decreases u - l
    {
      var done: bool;
      ghost var inner: nat;
      ok, done, l, u, inner := Pass(a, less, l0, u0, l, u, s);
      if inner > depth { depth := inner; }
      if !ok { return; }
      if done {
        if StrictWeak(less) { FramedSorted(a[..], less, l0, u0, l, u); }
        return;
      }
    }
    if StrictWeak(less) {
      SortedOne(a[..], less, l, u);
      FramedSorted(a[..], less, l0, u0, l, u);
    }
    ok := true;
  }

  lemma StartFramed<T(!new)>(s: seq<T>, less: (T, T) -> bool, l: int, u: int)
    ensures Framed(s, less, l, u, l, u)
  {
  }

  lemma SortedOne<T(!new)>(s: seq<T>, less: (T, T) -> bool, l: int, u: int)
    requires StrictWeak(less) && u <= l
    ensures Sorted(s, less, l, u)
  {
  }

  lemma SortedThree<T(!new)>(s: seq<T>, less: (T, T) -> bool, l: int, m: int, u: int)
    requires StrictWeak(less) && 0 <= l < u < |s| && !less(s[u], s[l]) && (u == l + 1 || (m == l + 1 && u == l + 2
        && Three(s, less, l, m, u)))
    ensures Sorted(s, less, l, u)
  {
  }

  /** One turn of auxsort: the pair or triple is sorted, or the smaller side has been sorted
      by recursion and l and u are the bounds of the larger one. */
  method Pass<T(!new)>(a: array<T>, less: (T, T) -> bool, l0: int, u0: int, l: int, u: int, ghost s: seq<T>)
    returns (ok: bool, done: bool, l': int, u': int, ghost depth: nat)
    requires 0 <= l0 <= l < u <= u0 < a.Length
    requires Perm(s, a[..], l0, u0)
    requires StrictWeak(less) ==> Framed(a[..], less, l0, u0, l, u)
    modifies a
    ensures Perm(s, a[..], l0, u0) && (ok ==> l <= l' <= u' + 1 && u' <= u && (!done ==> u' - l' < u - l))
    ensures StrictWeak(less) ==> ok && Framed(a[..], less, l0, u0, l', u') && (done ==> Sorted(a[..], less, l', u'))
    ensures Shallow(depth, u - l + 1)
    decreases u - l + 1, 1
  {
    hide StrictWeak, Perm, Sorted, Framed, Parted;
    ok, done, l', u', depth := true, true, l, u, 1;
    ghost var s0 := a[..];
    OrderTwo(a, less, l, u);
    Kept(s, s0, a[..], less, l0, u0, l, u);
    if u - l == 1 {
      if StrictWeak(less) { SortedThree(a[..], less, l, l, u); }
      return;
    }
    var m := (l + u) / 2;
    ghost var s1 := a[..];
    OrderThree(a, less, l, m, u);
    Kept(s, s1, a[..], less, l0, u0, l, u);
    if u - l == 2 {
      if StrictWeak(less) { SortedThree(a[..], less, l, m, u); }
      return;
    }
    ghost var s2 := a[..];
    var i: int;
    ok, i := Partition(a, less, l, m, u);
    Kept(s, s2, a[..], less, l0, u0, l, u);
    if !ok { return; }
    ok, l', u', depth := Recurse(a, less, l0, u0, l, i, u, s);
    done := false;
  }

  /** What a rearrangement between l and u keeps. */
  lemma Kept<T(!new)>(s: seq<T>, t: seq<T>, w: seq<T>, less: (T, T) -> bool, l0: int, u0: int, l: int, u: int)
    requires l0 <= l && u <= u0 && Perm(s, t, l0, u0) && Perm(t, w, l, u)
    ensures Perm(s, w, l0, u0)
    ensures Framed(t, less, l0, u0, l, u) ==> Framed(w, less, l0, u0, l, u)
  {
    hide Framed, Perm;
    PermWiden(t, w, l, u, l0, u0);
    PermTrans(s, t, w, l0, u0);
    if Framed(t, less, l0, u0, l, u) { FramedPerm(t, w, less, l0, u0, l, u); }
  }

  /** The recursive call on the smaller side of the pivot at i. */
  method Recurse<T(!new)>(a: array<T>, less: (T, T) -> bool, l0: int, u0: int, l: int, i: int, u: int, ghost s: seq<T>)
    returns (ok: bool, l': int, u': int, ghost depth: nat)
    requires 0 <= l0 <= l < i <= u <= u0 < a.Length && u - l >= 3
    requires Perm(s, a[..], l0, u0)
    requires StrictWeak(less) ==> Framed(a[..], less, l0, u0, l, u) && Parted(a[..], less, l, u, i)
    modifies a
    ensures Perm(s, a[..], l0, u0) && l <= l' <= u' + 1 && u' <= u && u' - l' < u - l
    ensures StrictWeak(less) ==> ok && Framed(a[..], less, l0, u0, l', u')
    ensures Shallow(depth, u - l + 1)
    decreases u - l + 1, 0
  {
    hide StrictWeak, Perm, Sorted, Framed, Parted;
    ghost var t := a[..];
    var j, k: int;
    if i - l < u - i {
      j, k, l', u' := l, i - 1, i + 1, u;
    } else {
      j, k, l', u' := i + 1, u, l, i - 1;
    }
    ok, depth := Auxsort(a, less, j, k);
    SmallerSide(u - l + 1, k - j + 1, depth);
    depth := depth + 1;
    PermWiden(t, a[..], j, k, l, u);
    Kept(s, t, a[..], less, l0, u0, l, u);
    if StrictWeak(less) {
      PartedPerm(t, a[..], less, l, u, i, j, k);
      SideDone(a[..], less, l0, u0, l, u, i);
    }
  }

  /** table.sort: the array is rearranged; by a strict weak order it is sorted, without an
      error. */
  method TableSort<T(!new)>(a: array<T>, less: (T, T) -> bool) returns (ok: bool, ghost depth: nat)
    modifies a
    ensures depth == 1 || Pow2(depth) <= a.Length
    ensures multiset(a[..]) == multiset(old(a[..]))
    ensures StrictWeak(less) ==> ok && forall p, q :: 0 <= p <= q < a.Length ==> !less(a[q], a[p])
  {
    hide StrictWeak;
    ok, depth := Auxsort(a, less, 0, a.Length - 1);
    ghost var t := a[..];
    assert StrictWeak(less) ==> forall p, q :: 0 <= p <= q < a.Length ==> !less(t[q], t[p]);
  }
}
