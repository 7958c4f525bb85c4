/** The integer bookkeeping of ShaderMotion skin retargeting: mapping the
    bones of a source skin onto a list of destination (humanoid) bones,
    dropping unused bones from that map, rewriting each vertex's four
    (bone, weight) pairs onto the destination bones with the four heaviest
    kept, filling the combine-instance array, and substituting missing
    humanoid bones. */
module ShaderMotionSkin {
  import opened Wrappers
  import Seqs

  // ---------------------------------------------------------------------
  // Small arrays.

  /** `Repeat`: an array of `length` copies of `value`. */
  method Repeat(value: int, length: nat) returns (ret: array<int>)
    ensures fresh(ret) && ret.Length == length
    ensures forall i :: 0 <= i < length ==> ret[i] == value
  {
    ret := new int[length];
    var i := 0;
    while i < length
      invariant 0 <= i <= length
      invariant forall k :: 0 <= k < i ==> ret[k] == value
    {
      ret[i] := value;
      i := i + 1;
    }
  }

  /** 0, 1, ..., n - 1. */
  function Range(n: nat): (r: seq<int>)
    ensures |r| == n && forall k :: 0 <= k < n ==> r[k] == k
  {
    seq(n, k => k)
  }

  /** `GenerateRange`. */
  method GenerateRange(size: nat) returns (ret: array<int>)
    ensures fresh(ret) && ret[..] == Range(size)
  {
    ret := new int[size];
    var i := 0;
    while i < size
      invariant 0 <= i <= size
      invariant ret[..i] == Range(i)
    {
      ret[i] := i;
      assert ret[..i + 1] == ret[..i] + [i];
      i := i + 1;
    }
    assert ret[..] == ret[..size];
  }

  // ---------------------------------------------------------------------
  // Ranking destination bones by weight.

  /** The weight of a bone, as the weights array holds it. */
  function W(weights: seq<real>, i: int): real
  {
    if 0 <= i < |weights| then weights[i] else 0.0
  }

  /** `x` ranks before `y`: heavier, or as heavy and earlier. */
  predicate Before(weights: seq<real>, x: int, y: int)
  {
    W(weights, x) > W(weights, y) || (W(weights, x) == W(weights, y) && x < y)
  }

  lemma BeforeTotal(weights: seq<real>, x: int, y: int)
    ensures x == y || Before(weights, x, y) || Before(weights, y, x)
    ensures !(Before(weights, x, y) && Before(weights, y, x))
    ensures !Before(weights, x, x)
  {
  }

  /** How many bones a vertex keeps. */
  function Kept(n: nat): nat
  {
    if n < 4 then n else 4
  }

  /** `best` is the ranked head of 0..n-1: the first `Kept(n)` bones in
      `Before` order. */
  predicate Ranked(weights: seq<real>, n: nat, best: seq<int>)
  {
    && |best| == Kept(n)
    && (forall k :: 0 <= k < |best| ==> 0 <= best[k] < n)
    && (forall p, q :: 0 <= p < q < |best| ==> Before(weights, best[p], best[q]))
    && (forall x :: 0 <= x < n && x !in best ==> forall k :: 0 <= k < |best| ==> Before(weights, best[k], x))
  }

  /** The best candidate. */
  function Best(weights: seq<real>, cands: seq<int>): (b: int)
    requires |cands| > 0
    ensures b in cands
    ensures forall c :: c in cands && c != b ==> Before(weights, b, c)
  {
    if |cands| == 1 then cands[0]
    else
      var b := Best(weights, cands[1..]);
      BeforeTotal(weights, cands[0], b);
      var r := if cands[0] == b || Before(weights, cands[0], b) then cands[0] else b;
      assert forall c :: c in cands && c != r ==> Before(weights, r, c) by {
        forall c | c in cands && c != r
          ensures Before(weights, r, c)
        {
          if c != cands[0] {
            assert c in cands[1..];
            if c != b {
              BeforeTrans(weights, r, b, c);
            }
          }
        }
      }
      r
  }

  lemma BeforeTrans(weights: seq<real>, x: int, y: int, z: int)
    requires (x == y || Before(weights, x, y)) && Before(weights, y, z)
    ensures Before(weights, x, z)
  {
  }

  function Without(xs: seq<int>, x: int): (r: seq<int>)
    ensures forall y :: y in r <==> y in xs && y != x
    ensures |r| <= |xs|
    ensures x in xs ==> |r| < |xs|
  {
    if xs == [] then []
    else if xs[0] == x then Without(xs[1..], x)
    else [xs[0]] + Without(xs[1..], x)
  }

  /** Selection of the `k` best candidates, one at a time. */
  function TopOf(weights: seq<real>, cands: seq<int>, k: nat): (r: seq<int>)
    decreases k
  {
    if k == 0 || cands == [] then []
    else
      var b := Best(weights, cands);
      [b] + TopOf(weights, Without(cands, b), k - 1)
  }

  /** The reference ranking: the `Kept(n)` best of 0..n-1. */
  function Top(weights: seq<real>, n: nat): seq<int>
  {
    TopOf(weights, Range(n), Kept(n))
  }

  /** `r` is drawn from `cands`, ranked, and ahead of every candidate it
      leaves out. */
  predicate RankedFrom(weights: seq<real>, cands: seq<int>, r: seq<int>)
  {
    && (forall j :: 0 <= j < |r| ==> r[j] in cands)
    && (forall p, q :: 0 <= p < q < |r| ==> Before(weights, r[p], r[q]))
    && (forall x :: x in cands && x !in r ==> forall j :: 0 <= j < |r| ==> Before(weights, r[j], x))
  }

  lemma {:induction false} TopOfRanked(weights: seq<real>, cands: seq<int>, k: nat)
    ensures RankedFrom(weights, cands, TopOf(weights, cands, k))
    decreases k
  {
    if k != 0 && cands != [] {
      TopOfRanked(weights, Without(cands, Best(weights, cands)), k - 1);
      TopOfStep(weights, cands, k);
    }
  }

  /** Without repeated candidates, the selection has `k` of them, or all. */
  lemma {:induction false} TopOfLength(weights: seq<real>, cands: seq<int>, k: nat)
    requires NoDup(cands)
    ensures |TopOf(weights, cands, k)| == if k < |cands| then k else |cands|
    decreases k
  {
    if k != 0 && cands != [] {
      var b := Best(weights, cands);
      var rest := Without(cands, b);
      WithoutNoDup(cands, b);
      TopOfLength(weights, rest, k - 1);
      var tail := TopOf(weights, rest, k - 1);
      assert TopOf(weights, cands, k) == [b] + tail;
      assert |tail| == if k - 1 < |rest| then k - 1 else |rest|;
      assert |rest| + 1 == |cands|;
    }
  }

  /** Putting the best candidate in front of a ranked selection of the
      rest gives a ranked selection. */
  lemma TopOfStep(weights: seq<real>, cands: seq<int>, k: nat)
    requires k != 0 && cands != []
    requires RankedFrom(weights, Without(cands, Best(weights, cands)), TopOf(weights, Without(cands, Best(weights, cands)), k - 1))
    ensures RankedFrom(weights, cands, TopOf(weights, cands, k))
  {
    var b := Best(weights, cands);
    var rest := Without(cands, b);
    var tail := TopOf(weights, rest, k - 1);
    var r := TopOf(weights, cands, k);
    assert r == [b] + tail;
    assert forall j :: 0 < j < |r| ==> r[j] == tail[j - 1];
    forall p, q | 0 <= p < q < |r|
      ensures Before(weights, r[p], r[q])
    {
      if p == 0 {
        assert r[q] in rest;
      }
    }
    forall x | x in cands && x !in r
      ensures forall j :: 0 <= j < |r| ==> Before(weights, r[j], x)
    {
      assert x != b && x in rest && x !in tail;
    }
  }

  predicate NoDup(xs: seq<int>)
  {
    forall p, q :: 0 <= p < q < |xs| ==> xs[p] != xs[q]
  }

  lemma {:induction false} WithoutNoDup(xs: seq<int>, x: int)
    requires NoDup(xs) && x in xs
    ensures NoDup(Without(xs, x)) && |Without(xs, x)| == |xs| - 1
  {
    if xs[0] == x {
      assert x !in xs[1..];
      WithoutAbsent(xs[1..], x);
    } else {
      WithoutNoDup(xs[1..], x);
      var r := Without(xs, x);
      assert r == [xs[0]] + Without(xs[1..], x);
      assert xs[0] !in Without(xs[1..], x);
    }
  }

  lemma {:induction false} WithoutAbsent(xs: seq<int>, x: int)
    requires x !in xs
    ensures Without(xs, x) == xs
  {
    if xs != [] {
      WithoutAbsent(xs[1..], x);
      assert xs == [xs[0]] + xs[1..];
    }
  }

  /** The reference ranking is a ranked head. */
  lemma TopRanked(weights: seq<real>, n: nat)
    ensures Ranked(weights, n, Top(weights, n))
  {
    TopOfRanked(weights, Range(n), Kept(n));
    TopOfLength(weights, Range(n), Kept(n));
    forall x | 0 <= x < n
      ensures x in Range(n)
    {
      assert Range(n)[x] == x;
    }
  }

  /** There is only one ranked head, so any procedure producing one
      produces the reference ranking. */
  lemma RankedUnique(weights: seq<real>, n: nat, r1: seq<int>, r2: seq<int>)
    requires Ranked(weights, n, r1) && Ranked(weights, n, r2)
    ensures r1 == r2
  {
    var k := 0;
    while k < |r1|
      invariant 0 <= k <= |r1|
      invariant r1[..k] == r2[..k]
    {
      if r1[k] != r2[k] {
        RankedStep(weights, n, r1, r2, k);
        RankedStep(weights, n, r2, r1, k);
        BeforeTotal(weights, r1[k], r2[k]);
        assert false;
      }
      assert r1[..k + 1] == r1[..k] + [r1[k]];
      assert r2[..k + 1] == r2[..k] + [r2[k]];
      k := k + 1;
    }
    assert r1 == r1[..k];
  }

  lemma RankedStep(weights: seq<real>, n: nat, r1: seq<int>, r2: seq<int>, k: int)
    requires Ranked(weights, n, r1) && Ranked(weights, n, r2)
    requires 0 <= k < |r1| && r1[..k] == r2[..k] && r1[k] != r2[k]
    ensures Before(weights, r1[k], r2[k])
  {
    if r2[k] in r1 {
      var j :| 0 <= j < |r1| && r1[j] == r2[k];
      if j < k {
        assert r2[j] == r1[j];
        assert Before(weights, r2[j], r2[k]);
        BeforeTotal(weights, r2[j], r2[k]);
      } else {
        assert j > k;
      }
    }
  }

  // ---------------------------------------------------------------------
  // `SortedIndices`: a stable bubble sort on an index array.

  predicate InBounds(s: seq<int>, n: int)
  {
    forall k :: 0 <= k < |s| ==> 0 <= s[k] < n
  }

  /** Indices of equal weight are in increasing order. */
  predicate EqOrdered(weights: seq<real>, s: seq<int>)
  {
    forall p, q :: 0 <= p < q < |s| && W(weights, s[p]) == W(weights, s[q]) ==> s[p] < s[q]
  }

  /** From `m` on, weights do not increase. */
  predicate SuffixSorted(weights: seq<real>, s: seq<int>, m: int)
  {
    forall p, q :: m <= p < q < |s| && 0 <= p ==> W(weights, s[p]) >= W(weights, s[q])
  }

  /** Everything before `m` is at least as heavy as everything after. */
  predicate Split(weights: seq<real>, s: seq<int>, m: int)
  {
    forall p, q :: 0 <= p < m <= q < |s| ==> W(weights, s[p]) >= W(weights, s[q])
  }

  /** Position `j` holds the lightest of positions 0..j. */
  predicate MinAt(weights: seq<real>, s: seq<int>, j: int)
  {
    forall p :: 0 <= p <= j < |s| ==> W(weights, s[p]) >= W(weights, s[j])
  }

  /** The bubble-sort state before position `j` of a pass that ends at
      `m`. */
  predicate PassState(weights: seq<real>, s: seq<int>, m: int, j: int)
  {
    EqOrdered(weights, s) && SuffixSorted(weights, s, m) && Split(weights, s, m) && MinAt(weights, s, j)
  }

  function Swap(s: seq<int>, j: int): (t: seq<int>)
    requires 0 <= j && j + 1 < |s|
    ensures |t| == |s| && t[j] == s[j + 1] && t[j + 1] == s[j]
    ensures forall k :: 0 <= k < |s| && k != j && k != j + 1 ==> t[k] == s[k]
  {
    s[j := s[j + 1]][j + 1 := s[j]]
  }

  lemma SwapSame(s: seq<int>, j: int, n: int)
    requires 0 <= j && j + 1 < |s|
    ensures multiset(Swap(s, j)) == multiset(s)
    ensures InBounds(s, n) ==> InBounds(Swap(s, j), n)
  {
    var t := Swap(s, j);
    assert s == s[..j] + [s[j], s[j + 1]] + s[j + 2..];
    assert t == s[..j] + [s[j + 1], s[j]] + s[j + 2..];
  }

  lemma SwapStep(weights: seq<real>, s: seq<int>, m: int, j: int)
    requires 0 <= j && j + 1 < m <= |s|
    requires PassState(weights, s, m, j) && W(weights, s[j]) < W(weights, s[j + 1])
    ensures PassState(weights, Swap(s, j), m, j + 1)
  {
    var t := Swap(s, j);
    forall p, q | 0 <= p < q < |t| && W(weights, t[p]) == W(weights, t[q])
      ensures t[p] < t[q]
    {
      var p' := if p == j then j + 1 else if p == j + 1 then j else p;
      var q' := if q == j then j + 1 else if q == j + 1 then j else q;
      assert t[p] == s[p'] && t[q] == s[q'];
      assert p' < q';
    }
    assert Split(weights, t, m) by {
      forall p, q | 0 <= p < m <= q < |t|
        ensures W(weights, t[p]) >= W(weights, t[q])
      {
        var p' := if p == j then j + 1 else if p == j + 1 then j else p;
        assert t[p] == s[p'] && t[q] == s[q];
      }
    }
    assert MinAt(weights, t, j + 1) by {
      forall p | 0 <= p <= j + 1
        ensures W(weights, t[p]) >= W(weights, t[j + 1])
      {
        if p < j {
          assert t[p] == s[p];
        }
      }
    }
  }

  lemma KeepStep(weights: seq<real>, s: seq<int>, m: int, j: int)
    requires 0 <= j && j + 1 < m <= |s|
    requires PassState(weights, s, m, j) && W(weights, s[j]) >= W(weights, s[j + 1])
    ensures PassState(weights, s, m, j + 1)
  {
  }

  lemma PassEnd(weights: seq<real>, s: seq<int>, m: int)
    requires 1 <= m <= |s| && PassState(weights, s, m, m - 1)
    ensures SuffixSorted(weights, s, m - 1) && Split(weights, s, m - 1)
  {
  }

  /** A sorted permutation of 0..n-1 starts with the ranked head. */
  lemma SortedHead(weights: seq<real>, s: seq<int>, n: nat)
    requires |s| == n && multiset(s) == multiset(Range(n)) && InBounds(s, n)
    requires EqOrdered(weights, s) && SuffixSorted(weights, s, 1) && Split(weights, s, 1)
    ensures Ranked(weights, n, s[..Kept(n)])
  {
    var best := s[..Kept(n)];
    assert forall p, q :: 0 <= p < q < |s| ==> Before(weights, s[p], s[q]) by {
      forall p, q | 0 <= p < q < |s|
        ensures Before(weights, s[p], s[q])
      {
        assert W(weights, s[p]) >= W(weights, s[q]);
      }
    }
    forall x | 0 <= x < n && x !in best
      ensures forall k :: 0 <= k < |best| ==> Before(weights, best[k], x)
    {
      assert Range(n)[x] == x;
      assert x in multiset(Range(n));
      assert x in multiset(s);
      var q :| 0 <= q < |s| && s[q] == x;
      assert forall k :: 0 <= k < |best| ==> best[k] == s[k];
      assert q >= Kept(n);
    }
  }

  /** `SortedIndices`: the indices of the destination bones, bubble-sorted
      by decreasing weight (a swap only on a strictly lighter left entry,
      so equal weights keep their order), of which the first four are
      returned. */
  method SortedIndices(dstBones: nat, weights: seq<real>) returns (bestIndices: array<int>)
    requires dstBones <= |weights|
    ensures bestIndices[..] == Top(weights, dstBones)
  {
    var indices := new int[dstBones];
    var i := 0;
    while i < indices.Length
      invariant 0 <= i <= indices.Length
      invariant indices[..i] == Range(i)
    {
      indices[i] := i;
      assert indices[..i + 1] == indices[..i] + [i];
      i := i + 1;
    }
    assert indices[..] == Range(dstBones);
    BubbleSort(indices, weights);
    var count := Kept(indices.Length);
    bestIndices := TakeFirst(indices, count);
    SortedTop(weights, indices[..], dstBones);
  }

  /** The first `count` entries, copied into a new array. */
  method TakeFirst(indices: array<int>, count: nat) returns (bestIndices: array<int>)
    requires count <= indices.Length
    ensures fresh(bestIndices) && bestIndices[..] == indices[..count]
  {
    bestIndices := new int[count];
    var i := 0;
    while i < count
      invariant 0 <= i <= count
      invariant bestIndices[..i] == indices[..i]
    {
      bestIndices[i] := indices[i];
      assert bestIndices[..i + 1] == bestIndices[..i] + [bestIndices[i]];
      i := i + 1;
    }
    assert bestIndices[..] == bestIndices[..count];
  }

  /** A fully sorted index list starts with the reference ranking. */
  lemma SortedTop(weights: seq<real>, s: seq<int>, n: nat)
    requires |s| == n && multiset(s) == multiset(Range(n)) && InBounds(s, n)
    requires EqOrdered(weights, s) && SuffixSorted(weights, s, 1) && Split(weights, s, 1)
    ensures s[..Kept(n)] == Top(weights, n)
  {
    SortedHead(weights, s, n);
    TopRanked(weights, n);
    RankedUnique(weights, n, s[..Kept(n)], Top(weights, n));
  }

  /** The two loops of the sort. */
  method BubbleSort(indices: array<int>, weights: seq<real>)
    requires indices[..] == Range(indices.Length)
    modifies indices
    ensures multiset(indices[..]) == multiset(Range(indices.Length)) && InBounds(indices[..], indices.Length)
    ensures EqOrdered(weights, indices[..]) && SuffixSorted(weights, indices[..], 1) && Split(weights, indices[..], 1)
  {
    var n := indices.Length;
    var i := 0;
    while i < n - 1
      invariant 0 <= i && (n >= 1 ==> i <= n - 1)
      invariant multiset(indices[..]) == multiset(Range(n)) && InBounds(indices[..], n)
      invariant EqOrdered(weights, indices[..]) && SuffixSorted(weights, indices[..], n - i) && Split(weights, indices[..], n - i)
    {
      Pass(indices, weights, n - i);
      i := i + 1;
    }
  }

  /** One pass: the lightest of positions 0..m-1 moves to position m-1. */
  method Pass(indices: array<int>, weights: seq<real>, m: int)
    requires 2 <= m <= indices.Length
    requires multiset(indices[..]) == multiset(Range(indices.Length)) && InBounds(indices[..], indices.Length)
    requires EqOrdered(weights, indices[..]) && SuffixSorted(weights, indices[..], m) && Split(weights, indices[..], m)
    modifies indices
    ensures multiset(indices[..]) == multiset(Range(indices.Length)) && InBounds(indices[..], indices.Length)
    ensures EqOrdered(weights, indices[..]) && SuffixSorted(weights, indices[..], m - 1) && Split(weights, indices[..], m - 1)
  {
    var j := 0;
    while j < m - 1
      invariant 0 <= j <= m - 1
      invariant multiset(indices[..]) == multiset(Range(indices.Length)) && InBounds(indices[..], indices.Length)
      invariant PassState(weights, indices[..], m, j)
    {
      ghost var s := indices[..];
      if W(weights, indices[j]) < W(weights, indices[j + 1]) {
        indices[j], indices[j + 1] := indices[j + 1], indices[j];
        assert indices[..] == Swap(s, j);
        SwapSame(s, j, indices.Length);
        SwapStep(weights, s, m, j);
      } else {
        KeepStep(weights, s, m, j);
      }
      j := j + 1;
    }
    PassEnd(weights, indices[..], m);
  }

  // ---------------------------------------------------------------------
  // Bone mapping.

  /** A scene transform, compared by identity. */
  datatype Transform = Transform(id: nat)

  /** The transform hierarchy: each transform's parent, and a depth that
      strictly drops from a transform to its parent (the hierarchy is a
      finite tree). */
  datatype Hierarchy = Hierarchy(parent: Transform -> Option<Transform>, depth: Transform -> nat)

  ghost predicate Acyclic(h: Hierarchy)
  {
    forall t :: h.parent(t).Some? ==> h.depth(h.parent(t).value) < h.depth(t)
  }

  function Height(h: Hierarchy, b: Option<Transform>): nat
  {
    if b.Some? then h.depth(b.value) + 1 else 0
  }

  /** A bone and its ancestors, nearest first. */
  function Chain(h: Hierarchy, b: Option<Transform>): seq<Transform>
    requires Acyclic(h)
    decreases Height(h, b)
  {
    if b.None? then [] else [b.value] + Chain(h, h.parent(b.value))
  }

  /** The walk of `RetargetBones` for one bone: the last position in
      `dstBones` of the bone, else of its parent, and so on; -1 when none
      of them is there. */
  function Nearest(h: Hierarchy, b: Option<Transform>, dstBones: seq<Option<Transform>>): (r: int)
    requires Acyclic(h)
    ensures -1 <= r < |dstBones|
    decreases Height(h, b)
  {
    if b.None? then -1
    else
      var j := Seqs.LastIndexOf(b, dstBones);
      if j >= 0 then j else Nearest(h, h.parent(b.value), dstBones)
  }

  /** The map entry is -1 exactly when no self-or-ancestor of the bone is
      a destination bone; otherwise it is the last position of the
      nearest one that is. */
  lemma {:induction false} NearestSpec(h: Hierarchy, b: Option<Transform>, dstBones: seq<Option<Transform>>)
    requires Acyclic(h)
    ensures var r := Nearest(h, b, dstBones); var c := Chain(h, b);
      && (r == -1 <==> forall k :: 0 <= k < |c| ==> Some(c[k]) !in dstBones)
      && (r >= 0 ==> exists k :: 0 <= k < |c| && r == Seqs.LastIndexOf(Some(c[k]), dstBones)
                                 && forall i :: 0 <= i < k ==> Some(c[i]) !in dstBones)
    decreases Height(h, b)
  {
    if b.Some? {
      var c := Chain(h, b);
      var up := h.parent(b.value);
      NearestSpec(h, up, dstBones);
      assert c == [b.value] + Chain(h, up);
      assert forall k :: 0 < k < |c| ==> c[k] == Chain(h, up)[k - 1];
      var r := Nearest(h, b, dstBones);
      if Seqs.LastIndexOf(b, dstBones) >= 0 {
        assert r == Seqs.LastIndexOf(Some(c[0]), dstBones);
      } else if r >= 0 {
        var k :| 0 <= k < |Chain(h, up)| && r == Seqs.LastIndexOf(Some(Chain(h, up)[k]), dstBones)
                 && forall i :: 0 <= i < k ==> Some(Chain(h, up)[i]) !in dstBones;
        assert r == Seqs.LastIndexOf(Some(c[k + 1]), dstBones);
        assert forall i :: 0 <= i < k + 1 ==> Some(c[i]) !in dstBones by {
          forall i | 0 <= i < k + 1
            ensures Some(c[i]) !in dstBones
          {
            if i > 0 {
              assert c[i] == Chain(h, up)[i - 1];
            }
          }
        }
      }
    }
  }

  /** `RetargetBones`. */
  method RetargetBones(h: Hierarchy, srcBones: seq<Option<Transform>>, dstBones: seq<Option<Transform>>)
    returns (boneMap: array<int>)
    requires Acyclic(h)
    ensures fresh(boneMap) && boneMap.Length == |srcBones|
    ensures forall i :: 0 <= i < |srcBones| ==> boneMap[i] == Nearest(h, srcBones[i], dstBones)
  {
    boneMap := Repeat(-1, |srcBones|);
    var srcBoneIndex := 0;
    while srcBoneIndex < |srcBones|
      invariant 0 <= srcBoneIndex <= |srcBones|
      invariant forall i :: 0 <= i < srcBoneIndex ==> boneMap[i] == Nearest(h, srcBones[i], dstBones)
      invariant forall i :: srcBoneIndex <= i < |srcBones| ==> boneMap[i] == -1
    {
      var boneOrParent := srcBones[srcBoneIndex];
      while boneOrParent.Some? && boneMap[srcBoneIndex] < 0
        invariant boneMap[srcBoneIndex] >= -1
        invariant Nearest(h, srcBones[srcBoneIndex], dstBones)
          == if boneMap[srcBoneIndex] >= 0 then boneMap[srcBoneIndex] else Nearest(h, boneOrParent, dstBones)
        invariant forall i :: 0 <= i < srcBoneIndex ==> boneMap[i] == Nearest(h, srcBones[i], dstBones)
        invariant forall i :: srcBoneIndex < i < |srcBones| ==> boneMap[i] == -1
        decreases Height(h, boneOrParent)
      {
        boneMap[srcBoneIndex] := Seqs.LastIndexOf(boneOrParent, dstBones);
        boneOrParent := h.parent(boneOrParent.value);
      }
      srcBoneIndex := srcBoneIndex + 1;
    }
  }

  // ---------------------------------------------------------------------
  // Vertex bone weights.

  /** An entry of a vertex's `boneInfo` object array: a boxed bone index
      or a boxed weight.  Unboxing to the other type throws. */
  datatype Boxed = BoxedInt(i: int) | BoxedFloat(f: real)

  /** The pairs a `boneInfo` holds: (index, weight) at 2k and 2k + 1. */
  const PAIRS: nat := 4

  /** Reading pair `k`: `(int)boneInfo[2k]` and `(float)boneInfo[2k + 1]`. */
  function ReadPair(info: seq<Boxed>, k: nat): (r: Run<(int, real)>)
    ensures r.Ok? <==> 2 * k + 1 < |info| && info[2 * k].BoxedInt? && info[2 * k + 1].BoxedFloat?
  {
    if 2 * k + 1 < |info| && info[2 * k].BoxedInt? && info[2 * k + 1].BoxedFloat? then
      Ok((info[2 * k].i, info[2 * k + 1].f))
    else Fault
  }

  /** Pair `k` has a non-zero weight on bone `b`. */
  predicate PairUses(info: seq<Boxed>, k: nat, b: int)
  {
    ReadPair(info, k).Ok? && ReadPair(info, k).value.0 == b && ReadPair(info, k).value.1 != 0.0
  }

  /** Pair `k` throws while marking used bones among `n`. */
  predicate PairBad(info: seq<Boxed>, k: nat, n: int)
  {
    ReadPair(info, k).Fault? || (ReadPair(info, k).value.1 != 0.0 && !(0 <= ReadPair(info, k).value.0 < n))
  }

  /** The used-bone loop over the pairs 0..k-1 of one vertex. */
  function MarkVertex(used: seq<bool>, info: seq<Boxed>, k: nat): Run<seq<bool>>
  {
    if k == 0 then Ok(used)
    else
      match MarkVertex(used, info, k - 1)
      case Fault => Fault
      case Ok(u) =>
        match ReadPair(info, k - 1)
        case Fault => Fault
        case Ok((b, w)) =>
          if w != 0.0 then (if 0 <= b < |u| then Ok(u[b := true]) else Fault) else Ok(u)
  }

  /** The used-bone loop over all vertices. */
  function MarkAll(used: seq<bool>, infos: seq<seq<Boxed>>): Run<seq<bool>>
  {
    if infos == [] then Ok(used)
    else
      match MarkAll(used, infos[..|infos| - 1])
      case Fault => Fault
      case Ok(u) => MarkVertex(u, infos[|infos| - 1], PAIRS)
  }

  lemma {:induction false} MarkVertexSpec(used: seq<bool>, info: seq<Boxed>, k: nat)
    ensures MarkVertex(used, info, k).Fault? <==> exists j :: 0 <= j < k && PairBad(info, j, |used|)
    ensures MarkVertex(used, info, k).Ok? ==>
      var u := MarkVertex(used, info, k).value;
      && |u| == |used|
      && forall b :: 0 <= b < |used| ==> (u[b] <==> used[b] || exists j :: 0 <= j < k && PairUses(info, j, b))
  {
    if k > 0 {
      MarkVertexSpec(used, info, k - 1);
      var prev := MarkVertex(used, info, k - 1);
      if prev.Ok? {
        var u := prev.value;
        if ReadPair(info, k - 1).Ok? {
          var (b, w) := ReadPair(info, k - 1).value;
          if w != 0.0 && 0 <= b < |u| {
            assert MarkVertex(used, info, k) == Ok(u[b := true]);
            assert forall c :: 0 <= c < |used| ==> (u[b := true][c] <==> u[c] || PairUses(info, k - 1, c));
          } else if w != 0.0 {
            assert PairBad(info, k - 1, |used|);
          } else {
            assert !(ReadPair(info, k - 1).value.1 != 0.0);
          }
        } else {
          assert PairBad(info, k - 1, |used|);
        }
      }
    }
  }

  /** A bone is used when some pair of some vertex puts a non-zero weight
      on it. */
  predicate Uses(infos: seq<seq<Boxed>>, b: int)
  {
    exists v, j :: 0 <= v < |infos| && 0 <= j < PAIRS && PairUses(infos[v], j, b)
  }

  predicate AnyBad(infos: seq<seq<Boxed>>, n: int)
  {
    exists v, j :: 0 <= v < |infos| && 0 <= j < PAIRS && PairBad(infos[v], j, n)
  }

  lemma {:induction false} MarkAllSpec(used: seq<bool>, infos: seq<seq<Boxed>>)
    ensures MarkAll(used, infos).Fault? <==> AnyBad(infos, |used|)
    ensures MarkAll(used, infos).Ok? ==>
      var u := MarkAll(used, infos).value;
      && |u| == |used|
      && forall b :: 0 <= b < |used| ==> (u[b] <==> used[b] || Uses(infos, b))
  {
    if infos != [] {
      var init := infos[..|infos| - 1];
      var last := infos[|infos| - 1];
      MarkAllSpec(used, init);
      assert forall v :: 0 <= v < |init| ==> init[v] == infos[v];
      if MarkAll(used, init).Ok? {
        MarkVertexSpec(MarkAll(used, init).value, last, PAIRS);
      }
    }
  }

  /** The first non-negative entry, or 0. */
  function FirstMapped(s: seq<int>): (r: int)
    ensures r >= 0
    ensures (forall i :: 0 <= i < |s| ==> s[i] < 0) ==> r == 0
    ensures (exists i :: 0 <= i < |s| && s[i] >= 0) ==>
      exists i :: 0 <= i < |s| && s[i] == r && forall j :: 0 <= j < i ==> s[j] < 0
  {
    if s == [] then 0
    else if s[0] >= 0 then s[0]
    else
      var r := FirstMapped(s[1..]);
      assert (exists i :: 0 <= i < |s[1..]| && s[1..][i] >= 0) ==>
        exists i :: 0 <= i < |s| && s[i] == r && forall j :: 0 <= j < i ==> s[j] < 0 by {
        if exists i :: 0 <= i < |s[1..]| && s[1..][i] >= 0 {
          var i :| 0 <= i < |s[1..]| && s[1..][i] == r && forall j :: 0 <= j < i ==> s[1..][j] < 0;
          assert s[i + 1] == r;
          assert forall j :: 0 <= j < i + 1 ==> s[j] < 0 by {
            forall j | 0 <= j < i + 1
              ensures s[j] < 0
            {
              if j > 0 {
                assert s[j] == s[1..][j - 1];
              }
            }
          }
        }
      }
      r
  }

  /** Unused bones unmapped. */
  function Unmapped(boneMap: seq<int>, used: seq<bool>): (r: seq<int>)
    requires |used| == |boneMap|
    ensures |r| == |boneMap|
  {
    seq(|boneMap|, i requires 0 <= i < |boneMap| => if used[i] then boneMap[i] else -1)
  }

  /** The cleanup of `RetargetBindposesBoneWeights`: unused bones unmapped,
      used but unmapped bones sent to the first mapped bone (or 0). */
  function CleanMap(boneMap: seq<int>, used: seq<bool>): (r: seq<int>)
    requires |used| == |boneMap|
    ensures |r| == |boneMap|
  {
    var unmapped := Unmapped(boneMap, used);
    var d := FirstMapped(unmapped);
    seq(|boneMap|, i requires 0 <= i < |boneMap| => if unmapped[i] < 0 && used[i] then d else unmapped[i])
  }

  /** After cleanup an entry is -1 exactly for an unused bone; a used bone
      keeps its mapping, or takes the first mapping a used bone has, or 0
      when no used bone is mapped. */
  lemma CleanMapSpec(boneMap: seq<int>, used: seq<bool>, i: int)
    requires |used| == |boneMap| && 0 <= i < |boneMap|
    ensures CleanMap(boneMap, used)[i] == -1 <==> !used[i]
    ensures used[i] && boneMap[i] >= 0 ==> CleanMap(boneMap, used)[i] == boneMap[i]
    ensures used[i] && boneMap[i] < 0 && (forall j :: 0 <= j < |boneMap| && used[j] ==> boneMap[j] < 0) ==>
      CleanMap(boneMap, used)[i] == 0
    ensures used[i] && boneMap[i] < 0 && (exists j :: 0 <= j < |boneMap| && used[j] && boneMap[j] >= 0) ==>
      exists j :: 0 <= j < |boneMap| && used[j] && boneMap[j] >= 0 && CleanMap(boneMap, used)[i] == boneMap[j]
                  && forall l :: 0 <= l < j ==> !(used[l] && boneMap[l] >= 0)
  {
    var unmapped := Unmapped(boneMap, used);
    assert forall j :: 0 <= j < |boneMap| ==> (unmapped[j] >= 0 <==> used[j] && boneMap[j] >= 0);
    assert forall j :: 0 <= j < |boneMap| && unmapped[j] >= 0 ==> unmapped[j] == boneMap[j];
  }

  /** The bone map the weights are rewritten with. */
  function FinalMap(h: Hierarchy, srcBones: seq<Option<Transform>>, dstBones: seq<Option<Transform>>,
                    infos: seq<seq<Boxed>>): (r: Run<seq<int>>)
    requires Acyclic(h)
    ensures r.Ok? ==> |r.value| == |srcBones|
  {
    match MarkAll(Falses(|srcBones|), infos)
    case Fault => Fault
    case Ok(used) =>
      MarkAllSpec(Falses(|srcBones|), infos);
      Ok(CleanMap(NearestAll(h, srcBones, dstBones), used))
  }

  function Falses(n: nat): (r: seq<bool>)
    ensures |r| == n && forall i :: 0 <= i < n ==> !r[i]
  {
    seq(n, _ => false)
  }

  function NearestAll(h: Hierarchy, srcBones: seq<Option<Transform>>, dstBones: seq<Option<Transform>>): (r: seq<int>)
    requires Acyclic(h)
    ensures |r| == |srcBones| && forall i :: 0 <= i < |srcBones| ==> r[i] == Nearest(h, srcBones[i], dstBones)
  {
    seq(|srcBones|, i requires 0 <= i < |srcBones| => Nearest(h, srcBones[i], dstBones))
  }

  /** What the vertex arrays hold. */
  function Contents(boneWeights: seq<array<Boxed>>): (r: seq<seq<Boxed>>)
    reads boneWeights
    ensures |r| == |boneWeights| && forall v :: 0 <= v < |boneWeights| ==> r[v] == boneWeights[v][..]
  {
    seq(|boneWeights|, v requires 0 <= v < |boneWeights| reads boneWeights => boneWeights[v][..])
  }

  /** Distinct vertices own distinct `boneInfo` arrays. */
  predicate Disjoint(boneWeights: seq<array<Boxed>>)
  {
    forall v, u :: 0 <= v < u < |boneWeights| ==> boneWeights[v] != boneWeights[u]
  }

  /** The used-bone loop of one vertex. */
  method MarkVertexUsed(used: array<bool>, boneInfo: array<Boxed>) returns (ok: bool)
    modifies used
    ensures ok <==> MarkVertex(old(used[..]), boneInfo[..], PAIRS).Ok?
    ensures ok ==> used[..] == MarkVertex(old(used[..]), boneInfo[..], PAIRS).value
  {
    ghost var used0 := used[..];
    var i := 0;
    while i < 2 * PAIRS
      invariant 0 <= i <= 2 * PAIRS && i % 2 == 0
      invariant MarkVertex(used0, boneInfo[..], i / 2) == Ok(used[..])
    {
      if i + 1 >= boneInfo.Length || !boneInfo[i].BoxedInt? || !boneInfo[i + 1].BoxedFloat? {
        assert MarkVertex(used0, boneInfo[..], i / 2 + 1).Fault?;
        MarkVertexFaultStays(used0, boneInfo[..], i / 2 + 1, PAIRS);
        return false;
      }
      var boneIndex := boneInfo[i].i;
      var boneWeight := boneInfo[i + 1].f;
      assert ReadPair(boneInfo[..], i / 2) == Ok((boneIndex, boneWeight));
      if boneWeight != 0.0 {
        if !(0 <= boneIndex < used.Length) {
          assert MarkVertex(used0, boneInfo[..], i / 2 + 1).Fault?;
          MarkVertexFaultStays(used0, boneInfo[..], i / 2 + 1, PAIRS);
          return false;
        }
        used[boneIndex] := true;
      }
      i := i + 2;
    }
    return true;
  }

  /** The used-bone pass over every vertex. */
  method MarkUsed(n: nat, boneWeights: seq<array<Boxed>>) returns (r: Run<array<bool>>)
    ensures r.Fault? <==> MarkAll(Falses(n), Contents(boneWeights)).Fault?
    ensures r.Ok? ==> fresh(r.value) && r.value[..] == MarkAll(Falses(n), Contents(boneWeights)).value
  {
    var used := new bool[n](_ => false);
    assert used[..] == Falses(n);
    ghost var infos := Contents(boneWeights);
    var w := 0;
    while w < |boneWeights|
      invariant 0 <= w <= |boneWeights|
      invariant MarkAll(Falses(n), infos[..w]) == Ok(used[..])
    {
      ghost var before := used[..];
      assert boneWeights[w][..] == infos[w];
      var ok := MarkVertexUsed(used, boneWeights[w]);
      MarkAllNext(Falses(n), infos, w, before);
      if !ok {
        MarkAllFaultStays(Falses(n), infos, w + 1);
        return Fault;
      }
      w := w + 1;
    }
    assert infos[..w] == infos;
    assert Contents(boneWeights) == infos;
    return Ok(used);
  }

  /** Unused bones are unmapped. */
  method UnmapUnused(boneMap: array<int>, used: array<bool>)
    requires used.Length == boneMap.Length
    modifies boneMap
    ensures boneMap[..] == Unmapped(old(boneMap[..]), used[..])
  {
    ghost var map0 := boneMap[..];
    var i := 0;
    while i < boneMap.Length
      invariant 0 <= i <= boneMap.Length
      invariant forall j :: 0 <= j < i ==> boneMap[j] == Unmapped(map0, used[..])[j]
      invariant forall j :: i <= j < boneMap.Length ==> boneMap[j] == map0[j]
    {
      if !used[i] {
        boneMap[i] := -1;
      }
      i := i + 1;
    }
  }

  /** The default bone: the first mapped entry, or 0. */
  method DefaultBone(boneMap: array<int>) returns (defaultBoneIndex: int)
    ensures defaultBoneIndex == FirstMapped(boneMap[..])
  {
    defaultBoneIndex := 0;
    var i := 0;
    while i < boneMap.Length
      invariant 0 <= i <= boneMap.Length
      invariant forall j :: 0 <= j < i ==> boneMap[j] < 0
    {
      if boneMap[i] >= 0 {
        defaultBoneIndex := boneMap[i];
        break;
      }
      i := i + 1;
    }
  }

  /** Used bones still unmapped take the default bone. */
  method MapToDefault(boneMap: array<int>, used: array<bool>, defaultBoneIndex: int)
    requires used.Length == boneMap.Length
    modifies boneMap
    ensures forall j :: 0 <= j < boneMap.Length ==>
      boneMap[j] == if old(boneMap[j]) < 0 && used[j] then defaultBoneIndex else old(boneMap[j])
  {
    var i := 0;
    while i < boneMap.Length
      invariant 0 <= i <= boneMap.Length
      invariant forall j :: 0 <= j < i ==>
        boneMap[j] == if old(boneMap[j]) < 0 && used[j] then defaultBoneIndex else old(boneMap[j])
      invariant forall j :: i <= j < boneMap.Length ==> boneMap[j] == old(boneMap[j])
    {
      if boneMap[i] < 0 && used[i] {
        boneMap[i] := defaultBoneIndex;
      }
      i := i + 1;
    }
  }

  /** The bone map half of `RetargetBindposesBoneWeights`. */
  method CleanBoneMap(h: Hierarchy, srcBones: seq<Option<Transform>>, dstBones: seq<Option<Transform>>,
                      boneWeights: seq<array<Boxed>>) returns (r: Run<array<int>>)
    requires Acyclic(h)
    ensures r.Fault? <==> FinalMap(h, srcBones, dstBones, Contents(boneWeights)).Fault?
    ensures r.Ok? ==> fresh(r.value) && r.value[..] == FinalMap(h, srcBones, dstBones, Contents(boneWeights)).value
  {
    ghost var infos := Contents(boneWeights);
    var boneMap := RetargetBones(h, srcBones, dstBones);
    assert boneMap[..] == NearestAll(h, srcBones, dstBones);
    var marked := MarkUsed(|srcBones|, boneWeights);
    if marked.Fault? {
      FinalMapFault(h, srcBones, dstBones, infos);
      return Fault;
    }
    var used := marked.value;
    ghost var usedFlags := used[..];
    MarkAllSpec(Falses(|srcBones|), infos);
    UnmapUnused(boneMap, used);
    var defaultBoneIndex := DefaultBone(boneMap);
    MapToDefault(boneMap, used, defaultBoneIndex);
    CleanMapSteps(NearestAll(h, srcBones, dstBones), usedFlags, boneMap[..]);
    FinalMapOk(h, srcBones, dstBones, infos, usedFlags);
    r := Ok(boneMap);
    assert Contents(boneWeights) == infos;
  }

  lemma FinalMapFault(h: Hierarchy, srcBones: seq<Option<Transform>>, dstBones: seq<Option<Transform>>,
                      infos: seq<seq<Boxed>>)
    requires Acyclic(h) && MarkAll(Falses(|srcBones|), infos).Fault?
    ensures FinalMap(h, srcBones, dstBones, infos).Fault?
  {
  }

  lemma FinalMapOk(h: Hierarchy, srcBones: seq<Option<Transform>>, dstBones: seq<Option<Transform>>,
                   infos: seq<seq<Boxed>>, used: seq<bool>)
    requires Acyclic(h) && MarkAll(Falses(|srcBones|), infos) == Ok(used) && |used| == |srcBones|
    ensures FinalMap(h, srcBones, dstBones, infos) == Ok(CleanMap(NearestAll(h, srcBones, dstBones), used))
  {
  }

  lemma {:induction false} MarkVertexFaultStays(used: seq<bool>, info: seq<Boxed>, k: nat, k': nat)
    requires k <= k' && MarkVertex(used, info, k).Fault?
    ensures MarkVertex(used, info, k').Fault?
    decreases k' - k
  {
    if k < k' {
      assert MarkVertex(used, info, k + 1).Fault?;
      MarkVertexFaultStays(used, info, k + 1, k');
    }
  }

  lemma {:induction false} MarkAllFaultStays(used: seq<bool>, infos: seq<seq<Boxed>>, w: nat)
    requires w <= |infos| && MarkAll(used, infos[..w]).Fault?
    ensures MarkAll(used, infos).Fault?
    decreases |infos| - w
  {
    if w < |infos| {
      assert infos[..w + 1][..w] == infos[..w];
      assert MarkAll(used, infos[..w + 1]).Fault?;
      MarkAllFaultStays(used, infos, w + 1);
    } else {
      assert infos[..w] == infos;
    }
  }

  lemma CleanMapSteps(boneMap: seq<int>, used: seq<bool>, final: seq<int>)
    requires |used| == |boneMap| == |final|
    requires var unmapped := Unmapped(boneMap, used);
      forall j :: 0 <= j < |final| ==>
        final[j] == if unmapped[j] < 0 && used[j] then FirstMapped(unmapped) else unmapped[j]
    ensures final == CleanMap(boneMap, used)
  {
  }

  // ---------------------------------------------------------------------
  // Rewriting one vertex (`RetargetBoneWeights`).

  function Zeros(n: nat): (r: seq<real>)
    ensures |r| == n && forall t :: 0 <= t < n ==> r[t] == 0.0
  {
    seq(n, _ => 0.0)
  }

  /** The weight loop over pairs 0..k-1: every pair's bone is looked up
      in the map; a pair with a non-zero weight dereferences its source
      bone and its target bone and adds its weight to the target. */
  function Accumulate(info: seq<Boxed>, boneMap: seq<int>, srcBones: seq<Option<Transform>>,
                      dstBones: seq<Option<Transform>>, k: nat): (r: Run<seq<real>>)
    requires |boneMap| == |srcBones|
    ensures r.Ok? ==> |r.value| == |dstBones|
  {
    if k == 0 then Ok(Zeros(|dstBones|))
    else
      match Accumulate(info, boneMap, srcBones, dstBones, k - 1)
      case Fault => Fault
      case Ok(ws) =>
        match ReadPair(info, k - 1)
        case Fault => Fault
        case Ok((b, w)) =>
          if !(0 <= b < |boneMap|) then Fault
          else if w == 0.0 then Ok(ws)
          else
            var t := boneMap[b];
            if srcBones[b].None? || !(0 <= t < |dstBones|) || dstBones[t].None? then Fault
            else Ok(ws[t := ws[t] + w])
  }

  /** The total weight pairs 0..k-1 give to target bone `t`. */
  function Contribution(info: seq<Boxed>, boneMap: seq<int>, t: int, k: nat): real
  {
    if k == 0 then 0.0
    else
      var p := ReadPair(info, k - 1);
      Contribution(info, boneMap, t, k - 1)
      + if p.Ok? && p.value.1 != 0.0 && 0 <= p.value.0 < |boneMap| && boneMap[p.value.0] == t then p.value.1 else 0.0
  }

  /** Pair `j` makes the weight loop throw. */
  predicate WeightBad(info: seq<Boxed>, boneMap: seq<int>, srcBones: seq<Option<Transform>>,
                      dstBones: seq<Option<Transform>>, j: nat)
    requires |boneMap| == |srcBones|
  {
    var p := ReadPair(info, j);
    || p.Fault?
    || !(0 <= p.value.0 < |boneMap|)
    || (p.value.1 != 0.0
        && (srcBones[p.value.0].None? || !(0 <= boneMap[p.value.0] < |dstBones|)
            || dstBones[boneMap[p.value.0]].None?))
  }

  /** The loop throws exactly at a bad pair; otherwise every target bone
      holds the total weight mapped onto it. */
  lemma {:induction false} AccumulateSpec(info: seq<Boxed>, boneMap: seq<int>, srcBones: seq<Option<Transform>>,
                                          dstBones: seq<Option<Transform>>, k: nat)
    requires |boneMap| == |srcBones|
    ensures Accumulate(info, boneMap, srcBones, dstBones, k).Fault? <==>
      exists j :: 0 <= j < k && WeightBad(info, boneMap, srcBones, dstBones, j)
    ensures Accumulate(info, boneMap, srcBones, dstBones, k).Ok? ==>
      forall t :: 0 <= t < |dstBones| ==>
        Accumulate(info, boneMap, srcBones, dstBones, k).value[t] == Contribution(info, boneMap, t, k)
    ensures Accumulate(info, boneMap, srcBones, dstBones, k).Ok? ==>
      forall j :: 0 <= j < k ==> ReadPair(info, j).Ok?
  {
    if k > 0 {
      AccumulateSpec(info, boneMap, srcBones, dstBones, k - 1);
      var prev := Accumulate(info, boneMap, srcBones, dstBones, k - 1);
      if prev.Ok? && ReadPair(info, k - 1).Ok? {
        var (b, w) := ReadPair(info, k - 1).value;
        var ws := prev.value;
        if 0 <= b < |boneMap| && w != 0.0 && !WeightBad(info, boneMap, srcBones, dstBones, k - 1) {
          var t := boneMap[b];
          assert Accumulate(info, boneMap, srcBones, dstBones, k) == Ok(ws[t := ws[t] + w]);
          forall u | 0 <= u < |dstBones|
            ensures ws[t := ws[t] + w][u] == Contribution(info, boneMap, u, k)
          {
            if u == t {
              assert Contribution(info, boneMap, u, k) == Contribution(info, boneMap, u, k - 1) + w;
            } else {
              assert Contribution(info, boneMap, u, k) == Contribution(info, boneMap, u, k - 1);
            }
          }
        } else if 0 <= b < |boneMap| && w == 0.0 {
          assert Accumulate(info, boneMap, srcBones, dstBones, k) == Ok(ws);
          assert forall u :: Contribution(info, boneMap, u, k) == Contribution(info, boneMap, u, k - 1);
        } else {
          assert WeightBad(info, boneMap, srcBones, dstBones, k - 1);
        }
      } else if prev.Ok? {
        assert WeightBad(info, boneMap, srcBones, dstBones, k - 1);
      }
    }
  }

  /** `ClearBoneInfo`: the eight pair slots become boxed integer zeros. */
  function Cleared(info: seq<Boxed>): (r: seq<Boxed>)
    ensures |r| == |info|
  {
    seq(|info|, k requires 0 <= k < |info| => if k < 2 * PAIRS then BoxedInt(0) else info[k])
  }

  /** The cleared slots with the first |best| pairs written back. */
  function Refilled(info: seq<Boxed>, best: seq<int>, ws: seq<real>): (r: seq<Boxed>)
    requires |best| <= PAIRS
    ensures |r| == |info|
  {
    seq(|info|, k requires 0 <= k < |info| =>
      if k < 2 * |best| then
        (if k % 2 == 0 then BoxedInt(best[k / 2]) else BoxedFloat(W(ws, best[k / 2])))
      else if k < 2 * PAIRS then BoxedInt(0)
      else info[k])
  }

  /** One vertex rewritten: its pairs name the (up to) four target bones
      with the largest accumulated weights, heaviest first. */
  function RewriteVertex(info: seq<Boxed>, boneMap: seq<int>, srcBones: seq<Option<Transform>>,
                         dstBones: seq<Option<Transform>>): (r: Run<seq<Boxed>>)
    requires |boneMap| == |srcBones|
  {
    match Accumulate(info, boneMap, srcBones, dstBones, PAIRS)
    case Fault => Fault
    case Ok(ws) =>
      TopRanked(ws, |dstBones|);
      Ok(Refilled(info, Top(ws, |dstBones|), ws))
  }

  /** The target weights of one vertex. */
  function Totals(info: seq<Boxed>, boneMap: seq<int>, n: nat): (r: seq<real>)
    ensures |r| == n
  {
    seq(n, t requires 0 <= t < n => Contribution(info, boneMap, t, PAIRS))
  }

  /** A rewritten vertex: it throws exactly at a bad pair; otherwise pair i
      holds the i-th heaviest target bone and its total weight, the pairs
      beyond the number of target bones (at most four) hold boxed zeros,
      and the slots past the eighth are unchanged. */
  lemma RewriteVertexSpec(info: seq<Boxed>, boneMap: seq<int>, srcBones: seq<Option<Transform>>,
                          dstBones: seq<Option<Transform>>)
    requires |boneMap| == |srcBones|
    ensures RewriteVertex(info, boneMap, srcBones, dstBones).Fault? <==>
      exists j :: 0 <= j < PAIRS && WeightBad(info, boneMap, srcBones, dstBones, j)
    ensures RewriteVertex(info, boneMap, srcBones, dstBones).Ok? ==>
      var r := RewriteVertex(info, boneMap, srcBones, dstBones).value;
      var tot := Totals(info, boneMap, |dstBones|);
      var best := Top(tot, |dstBones|);
      && |r| == |info| >= 2 * PAIRS
      && Ranked(tot, |dstBones|, best)
      && (forall i :: 0 <= i < |best| ==> r[2 * i] == BoxedInt(best[i]) && r[2 * i + 1] == BoxedFloat(tot[best[i]]))
      && (forall k :: 2 * |best| <= k < 2 * PAIRS ==> r[k] == BoxedInt(0))
      && (forall k :: 2 * PAIRS <= k < |info| ==> r[k] == info[k])
  {
    AccumulateSpec(info, boneMap, srcBones, dstBones, PAIRS);
    var acc := Accumulate(info, boneMap, srcBones, dstBones, PAIRS);
    if acc.Ok? {
      var tot := Totals(info, boneMap, |dstBones|);
      assert acc.value == tot;
      assert ReadPair(info, PAIRS - 1).Ok?;
      TopRanked(tot, |dstBones|);
      var best := Top(tot, |dstBones|);
      RefilledSlots(info, best, tot);
    }
  }

  /** `ClearBoneInfo`. */
  method ClearBoneInfo(boneInfo: array<Boxed>)
    requires boneInfo.Length >= 2 * PAIRS
    modifies boneInfo
    ensures boneInfo[..] == Cleared(old(boneInfo[..]))
  {
    boneInfo[0] := BoxedInt(0);
    boneInfo[1] := BoxedInt(0);
    boneInfo[2] := BoxedInt(0);
    boneInfo[3] := BoxedInt(0);
    boneInfo[4] := BoxedInt(0);
    boneInfo[5] := BoxedInt(0);
    boneInfo[6] := BoxedInt(0);
    boneInfo[7] := BoxedInt(0);
  }

  /** The weight loop of one vertex. */
  method AccumulateWeights(boneInfo: array<Boxed>, boneMap: seq<int>, srcBones: seq<Option<Transform>>,
                           dstBones: seq<Option<Transform>>) returns (weights: array<real>, ok: bool)
    requires |boneMap| == |srcBones|
    ensures fresh(weights)
    ensures ok <==> Accumulate(boneInfo[..], boneMap, srcBones, dstBones, PAIRS).Ok?
    ensures ok ==> weights[..] == Accumulate(boneInfo[..], boneMap, srcBones, dstBones, PAIRS).value
  {
    weights := new real[|dstBones|](_ => 0.0);
    assert weights[..] == Zeros(|dstBones|);
    ghost var info := boneInfo[..];
    ghost var k: nat := 0;
    var boneInfoIndex := 0;
    while boneInfoIndex < 2 * PAIRS
      invariant 0 <= boneInfoIndex <= 2 * PAIRS && boneInfoIndex == 2 * k
      invariant Accumulate(info, boneMap, srcBones, dstBones, k) == Ok(weights[..])
    {
      AccumulateNext(info, boneMap, srcBones, dstBones, k, weights[..]);
      if boneInfoIndex + 1 >= boneInfo.Length || !boneInfo[boneInfoIndex].BoxedInt?
         || !boneInfo[boneInfoIndex + 1].BoxedFloat? {
        AccumulateFaultStays(info, boneMap, srcBones, dstBones, k + 1);
        return weights, false;
      }
      var boneIndex := boneInfo[boneInfoIndex].i;
      var boneWeight := boneInfo[boneInfoIndex + 1].f;
      if !(0 <= boneIndex < |boneMap|) {
        AccumulateFaultStays(info, boneMap, srcBones, dstBones, k + 1);
        return weights, false;
      }
      var retargetedBoneIndex := boneMap[boneIndex];
      if boneWeight != 0.0 {
        if srcBones[boneIndex].None? || !(0 <= retargetedBoneIndex < |dstBones|)
           || dstBones[retargetedBoneIndex].None? {
          AccumulateFaultStays(info, boneMap, srcBones, dstBones, k + 1);
          return weights, false;
        }
        weights[retargetedBoneIndex] := weights[retargetedBoneIndex] + boneWeight;
      }
      boneInfoIndex := boneInfoIndex + 2;
      k := k + 1;
    }
    return weights, true;
  }

  /** One more pair of the weight loop. */
  lemma AccumulateNext(info: seq<Boxed>, boneMap: seq<int>, srcBones: seq<Option<Transform>>,
                       dstBones: seq<Option<Transform>>, k: nat, ws: seq<real>)
    requires |boneMap| == |srcBones| && Accumulate(info, boneMap, srcBones, dstBones, k) == Ok(ws)
    ensures var next := Accumulate(info, boneMap, srcBones, dstBones, k + 1);
      if !(2 * k + 1 < |info| && info[2 * k].BoxedInt? && info[2 * k + 1].BoxedFloat?) then next.Fault?
      else
        var b := info[2 * k].i;
        var w := info[2 * k + 1].f;
        if !(0 <= b < |boneMap|) then next.Fault?
        else if w == 0.0 then next == Ok(ws)
        else if srcBones[b].None? || !(0 <= boneMap[b] < |dstBones|) || dstBones[boneMap[b]].None? then next.Fault?
        else next == Ok(ws[boneMap[b] := ws[boneMap[b]] + w])
  {
  }

  lemma {:induction false} AccumulateFaultStays(info: seq<Boxed>, boneMap: seq<int>, srcBones: seq<Option<Transform>>,
                                                dstBones: seq<Option<Transform>>, k: nat)
    requires |boneMap| == |srcBones| && k <= PAIRS
    requires Accumulate(info, boneMap, srcBones, dstBones, k).Fault?
    ensures Accumulate(info, boneMap, srcBones, dstBones, PAIRS).Fault?
    decreases PAIRS - k
  {
    if k < PAIRS {
      assert Accumulate(info, boneMap, srcBones, dstBones, k + 1).Fault?;
      AccumulateFaultStays(info, boneMap, srcBones, dstBones, k + 1);
    }
  }

  /** The body of the vertex loop of `RetargetBoneWeights`: a vertex
      whose pairs throw is left as it was. */
  method RetargetVertex(boneInfo: array<Boxed>, boneMap: seq<int>, srcBones: seq<Option<Transform>>,
                        dstBones: seq<Option<Transform>>) returns (ok: bool)
    requires |boneMap| == |srcBones|
    modifies boneInfo
    ensures ok <==> RewriteVertex(old(boneInfo[..]), boneMap, srcBones, dstBones).Ok?
    ensures boneInfo[..] == if ok then RewriteVertex(old(boneInfo[..]), boneMap, srcBones, dstBones).value
                            else old(boneInfo[..])
  {
    ghost var info := boneInfo[..];
    var weights;
    weights, ok := AccumulateWeights(boneInfo, boneMap, srcBones, dstBones);
    if !ok {
      return;
    }
    ghost var ws := weights[..];
    AccumulateSpec(info, boneMap, srcBones, dstBones, PAIRS);
    assert ReadPair(info, PAIRS - 1).Ok?;
    ClearBoneInfo(boneInfo);
    var fourBestWeightIndices := SortedIndices(|dstBones|, weights[..]);
    TopRanked(ws, |dstBones|);
    ghost var best := fourBestWeightIndices[..];
    assert Refilled(info, best[..0], ws) == boneInfo[..];
    var i := 0;
    while i < fourBestWeightIndices.Length
      invariant 0 <= i <= fourBestWeightIndices.Length == |best| <= PAIRS
      invariant best == fourBestWeightIndices[..] && ws == weights[..]
      invariant forall j :: 0 <= j < |best| ==> 0 <= best[j] < |ws|
      invariant boneInfo.Length == |info| >= 2 * PAIRS
      invariant boneInfo[..] == Refilled(info, best[..i], ws)
    {
      ghost var prev := boneInfo[..];
      var dstBoneIndex := fourBestWeightIndices[i];
      boneInfo[i * 2 + 0] := BoxedInt(dstBoneIndex);
      boneInfo[i * 2 + 1] := BoxedFloat(weights[dstBoneIndex]);
      RefillStep(info, best, ws, i, prev, boneInfo[..]);
      i := i + 1;
    }
    assert best[..i] == best;
  }

  lemma RefillStep(info: seq<Boxed>, best: seq<int>, ws: seq<real>, i: nat, prev: seq<Boxed>, cur: seq<Boxed>)
    requires |info| >= 2 * PAIRS && i < |best| <= PAIRS && 0 <= best[i] < |ws|
    requires prev == Refilled(info, best[..i], ws)
    requires cur == prev[2 * i := BoxedInt(best[i])][2 * i + 1 := BoxedFloat(ws[best[i]])]
    ensures cur == Refilled(info, best[..i + 1], ws)
  {
    var next := Refilled(info, best[..i + 1], ws);
    forall k | 0 <= k < |info|
      ensures cur[k] == next[k]
    {
      if k < 2 * i {
        assert best[..i + 1][k / 2] == best[..i][k / 2];
      } else if k == 2 * i {
        assert k / 2 == i && k % 2 == 0;
      } else if k == 2 * i + 1 {
        assert k / 2 == i && k % 2 == 1;
      }
    }
  }

  // ---------------------------------------------------------------------
  // Rewriting every vertex.

  /** Vertices 0..v-1 rewrite without throwing. */
  predicate GoodUpTo(infos: seq<seq<Boxed>>, boneMap: seq<int>, srcBones: seq<Option<Transform>>,
                     dstBones: seq<Option<Transform>>, v: int)
    requires |boneMap| == |srcBones| && v <= |infos|
  {
    forall u :: 0 <= u < v ==> RewriteVertex(infos[u], boneMap, srcBones, dstBones).Ok?
  }

  /** The vertices after the loop: rewritten up to the first vertex that
      throws, unchanged from there on. */
  function AfterRewrite(infos: seq<seq<Boxed>>, boneMap: seq<int>, srcBones: seq<Option<Transform>>,
                        dstBones: seq<Option<Transform>>): (r: seq<seq<Boxed>>)
    requires |boneMap| == |srcBones|
    ensures |r| == |infos|
  {
    seq(|infos|, v requires 0 <= v < |infos| =>
      if GoodUpTo(infos, boneMap, srcBones, dstBones, v + 1)
      then RewriteVertex(infos[v], boneMap, srcBones, dstBones).value
      else infos[v])
  }

  /** The vertex arrays once vertices 0..v-1 are rewritten. */
  function Progress(infos: seq<seq<Boxed>>, boneMap: seq<int>, srcBones: seq<Option<Transform>>,
                    dstBones: seq<Option<Transform>>, v: nat): (r: seq<seq<Boxed>>)
    requires |boneMap| == |srcBones| && v <= |infos| && GoodUpTo(infos, boneMap, srcBones, dstBones, v)
    ensures |r| == |infos|
  {
    seq(|infos|, u requires 0 <= u < |infos| =>
      if u < v then RewriteVertex(infos[u], boneMap, srcBones, dstBones).value else infos[u])
  }

  /** The vertex loop of `RetargetBoneWeights` (its matrices left out). */
  method RetargetBoneWeights(srcBones: seq<Option<Transform>>, dstBones: seq<Option<Transform>>,
                             boneWeights: seq<array<Boxed>>, boneMap: seq<int>) returns (r: Run<()>)
    requires |boneMap| == |srcBones| && Disjoint(boneWeights)
    modifies boneWeights
    ensures r.Ok? <==> GoodUpTo(old(Contents(boneWeights)), boneMap, srcBones, dstBones, |boneWeights|)
    ensures Contents(boneWeights) == AfterRewrite(old(Contents(boneWeights)), boneMap, srcBones, dstBones)
  {
    ghost var infos := Contents(boneWeights);
    assert Contents(boneWeights) == Progress(infos, boneMap, srcBones, dstBones, 0);
    var v := 0;
    while v < |boneWeights|
      invariant 0 <= v <= |boneWeights|
      invariant GoodUpTo(infos, boneMap, srcBones, dstBones, v)
      invariant Contents(boneWeights) == Progress(infos, boneMap, srcBones, dstBones, v)
    {
      ghost var before := Contents(boneWeights);
      assert boneWeights[v][..] == infos[v];
      var ok := RetargetVertex(boneWeights[v], boneMap, srcBones, dstBones);
      ghost var after := Contents(boneWeights);
      assert after == before[v := boneWeights[v][..]] by {
        forall u | 0 <= u < |boneWeights| && u != v
          ensures after[u] == before[u]
        {
          assert boneWeights[u] != boneWeights[v];
        }
      }
      if !ok {
        assert !GoodUpTo(infos, boneMap, srcBones, dstBones, v + 1);
        RewriteStops(infos, boneMap, srcBones, dstBones, v, after);
        return Fault;
      }
      ProgressStep(infos, boneMap, srcBones, dstBones, v, before, after);
      v := v + 1;
    }
    RewriteStops(infos, boneMap, srcBones, dstBones, v, Contents(boneWeights));
    return Ok(());
  }

  lemma ProgressStep(infos: seq<seq<Boxed>>, boneMap: seq<int>, srcBones: seq<Option<Transform>>,
                     dstBones: seq<Option<Transform>>, v: nat, before: seq<seq<Boxed>>, after: seq<seq<Boxed>>)
    requires |boneMap| == |srcBones| && v < |infos| && GoodUpTo(infos, boneMap, srcBones, dstBones, v)
    requires RewriteVertex(infos[v], boneMap, srcBones, dstBones).Ok?
    requires before == Progress(infos, boneMap, srcBones, dstBones, v)
    requires after == before[v := RewriteVertex(infos[v], boneMap, srcBones, dstBones).value]
    ensures GoodUpTo(infos, boneMap, srcBones, dstBones, v + 1)
    ensures after == Progress(infos, boneMap, srcBones, dstBones, v + 1)
  {
  }

  /** The vertex arrays when the loop stops at `v`: the vertices before
      `v` rewritten, the others as they were. */
  lemma RewriteStops(infos: seq<seq<Boxed>>, boneMap: seq<int>, srcBones: seq<Option<Transform>>,
                     dstBones: seq<Option<Transform>>, v: nat, cur: seq<seq<Boxed>>)
    requires |boneMap| == |srcBones| && v <= |infos|
    requires GoodUpTo(infos, boneMap, srcBones, dstBones, v)
    requires v < |infos| ==> !GoodUpTo(infos, boneMap, srcBones, dstBones, v + 1)
    requires cur == Progress(infos, boneMap, srcBones, dstBones, v)
    ensures cur == AfterRewrite(infos, boneMap, srcBones, dstBones)
    ensures GoodUpTo(infos, boneMap, srcBones, dstBones, |infos|) <==> v == |infos|
  {
    var after := AfterRewrite(infos, boneMap, srcBones, dstBones);
    forall u | 0 <= u < |infos|
      ensures cur[u] == after[u]
    {
      GoodUpToAt(infos, boneMap, srcBones, dstBones, v, u);
      if u < v {
        assert cur[u] == RewriteVertex(infos[u], boneMap, srcBones, dstBones).value == after[u];
      } else {
        assert cur[u] == infos[u] == after[u];
      }
    }
    assert |cur| == |after|;
    if v < |infos| {
      GoodUpToAt(infos, boneMap, srcBones, dstBones, v, |infos| - 1);
    }
  }

  /** `RetargetBindposesBoneWeights` (bind poses and matrices left out):
      the cleaned bone map, then every vertex rewritten with it. */
  method RetargetBindposesBoneWeights(h: Hierarchy, srcBones: seq<Option<Transform>>, dstBones: seq<Option<Transform>>,
                                      boneWeights: seq<array<Boxed>>) returns (r: Run<()>)
    requires Acyclic(h) && Disjoint(boneWeights)
    modifies boneWeights
    ensures var m := FinalMap(h, srcBones, dstBones, old(Contents(boneWeights)));
      && (m.Fault? ==> r.Fault? && Contents(boneWeights) == old(Contents(boneWeights)))
      && (m.Ok? ==> (r.Ok? <==> GoodUpTo(old(Contents(boneWeights)), m.value, srcBones, dstBones, |boneWeights|)))
      && (m.Ok? ==> Contents(boneWeights) == AfterRewrite(old(Contents(boneWeights)), m.value, srcBones, dstBones))
  {
    var cleaned := CleanBoneMap(h, srcBones, dstBones, boneWeights);
    if cleaned.Fault? {
      return Fault;
    }
    r := RetargetBoneWeights(srcBones, dstBones, boneWeights, cleaned.value[..]);
  }

  // ---------------------------------------------------------------------
  // Combine instances.

  /** A mesh, by identity, with its submesh count. */
  datatype Mesh = Mesh(id: nat, subMeshCount: nat)

  /** A combine instance; its transform is always the identity. */
  datatype CombineInstance = CombineInstance(mesh: Mesh, subMeshIndex: int)

  /** How many instances `AddSubmeshesAsInstances` writes: the submesh
      count, cut short by the end of the array. */
  function Added(nSubmeshes: nat, nInstances: nat, cur: int): (k: nat)
    ensures cur < nInstances ==> k == if nSubmeshes < nInstances - cur then nSubmeshes else nInstances - cur
    ensures cur >= nInstances ==> k == 0
  {
    if cur >= nInstances then 0
    else if nSubmeshes < nInstances - cur then nSubmeshes
    else nInstances - cur
  }

  /** `AddSubmeshesAsInstances` on values: the new array and cursor.  A
      negative cursor throws at the first write. */
  function Filled(instances: seq<CombineInstance>, mesh: Mesh, cur: int): (r: Run<(seq<CombineInstance>, int)>)
    ensures r.Fault? <==> cur < 0 && mesh.subMeshCount > 0
    ensures r.Ok? ==> |r.value.0| == |instances|
  {
    if cur < 0 && mesh.subMeshCount > 0 then Fault
    else
      var k := Added(mesh.subMeshCount, |instances|, cur);
      Ok((seq(|instances|, i requires 0 <= i < |instances| =>
            if cur <= i < cur + k then CombineInstance(mesh, i - cur) else instances[i]),
          cur + k))
  }

  /** `AddSubmeshesAsInstances`: entries [cur, cur + k) take submeshes
      0..k-1 of the mesh, where k is the submesh count cut short by the
      end of the array; the result is cur + k and no other entry changes. */
  method AddSubmeshesAsInstances(baseMesh: Mesh, instances: array<CombineInstance>, currentInstanceIndex: int)
    returns (r: Run<int>)
    modifies instances
    ensures var f := Filled(old(instances[..]), baseMesh, currentInstanceIndex);
      && (r.Fault? <==> f.Fault?)
      && (f.Fault? ==> instances[..] == old(instances[..]))
      && (f.Ok? ==> r == Ok(f.value.1) && instances[..] == f.value.0)
  {
    ghost var before := instances[..];
    var nInstances := instances.Length;
    var nSubmeshes := baseMesh.subMeshCount;
    var cur := currentInstanceIndex;
    var submeshIndex := 0;
    while submeshIndex < nSubmeshes && cur < nInstances
      invariant 0 <= submeshIndex <= nSubmeshes
      invariant cur == currentInstanceIndex + submeshIndex
      invariant submeshIndex > 0 ==> currentInstanceIndex >= 0
      invariant submeshIndex <= Added(nSubmeshes, nInstances, currentInstanceIndex)
      invariant forall i :: 0 <= i < nInstances ==>
        instances[i] == if currentInstanceIndex <= i < cur then CombineInstance(baseMesh, i - currentInstanceIndex)
                        else before[i]
    {
      if cur < 0 {
        return Fault;
      }
      instances[cur] := CombineInstance(baseMesh, submeshIndex);
      submeshIndex := submeshIndex + 1;
      cur := cur + 1;
    }
    return Ok(cur);
  }

  /** The submesh total of a list of meshes. */
  function Total(meshes: seq<Mesh>): nat
  {
    if meshes == [] then 0 else Total(meshes[..|meshes| - 1]) + meshes[|meshes| - 1].subMeshCount
  }

  /** `SumSubmeshes`. */
  method SumSubmeshes(meshes: seq<Mesh>) returns (sum: int)
    ensures sum == Total(meshes)
  {
    sum := 0;
    var mbw := 0;
    while mbw < |meshes|
      invariant 0 <= mbw <= |meshes|
      invariant sum == Total(meshes[..mbw])
    {
      assert meshes[..mbw + 1][..mbw] == meshes[..mbw];
      sum := sum + meshes[mbw].subMeshCount;
      mbw := mbw + 1;
    }
    assert meshes[..mbw] == meshes;
  }

  /** The meshes added one after another from cursor `cur`. */
  function FillAll(instances: seq<CombineInstance>, meshes: seq<Mesh>, cur: int): Run<(seq<CombineInstance>, int)>
  {
    if meshes == [] then Ok((instances, cur))
    else
      match FillAll(instances, meshes[..|meshes| - 1], cur)
      case Fault => Fault
      case Ok((xs, c)) => Filled(xs, meshes[|meshes| - 1], c)
  }

  /** Each mesh's submeshes sit one after the other, from the start. */
  predicate Laid(r: seq<CombineInstance>, meshes: seq<Mesh>)
  {
    forall m, t :: 0 <= m < |meshes| && 0 <= t < meshes[m].subMeshCount && Total(meshes[..m]) + t < |r| ==>
      r[Total(meshes[..m]) + t] == CombineInstance(meshes[m], t)
  }

  /** Meshes added from cursor 0 into an array sized by `SumSubmeshes`
      never throw, end at the total, and lay each mesh's submeshes out
      one after the other. */
  lemma {:induction false} FillAllSpec(instances: seq<CombineInstance>, meshes: seq<Mesh>)
    requires |instances| >= Total(meshes)
    ensures FillAll(instances, meshes, 0).Ok?
    ensures var (r, c) := FillAll(instances, meshes, 0).value;
      && c == Total(meshes) && |r| == |instances|
      && (forall m :: 0 <= m < |meshes| ==> Total(meshes[..m]) + meshes[m].subMeshCount <= Total(meshes))
      && Laid(r, meshes)
      && (forall i :: Total(meshes) <= i < |instances| ==> r[i] == instances[i])
  {
    forall m | 0 <= m < |meshes|
      ensures Total(meshes[..m]) + meshes[m].subMeshCount <= Total(meshes)
    {
      TotalPrefix(meshes, m);
    }
    if meshes != [] {
      var init := meshes[..|meshes| - 1];
      var last := meshes[|meshes| - 1];
      FillAllSpec(instances, init);
      var (xs, c) := FillAll(instances, init, 0).value;
      assert Added(last.subMeshCount, |xs|, c) == last.subMeshCount;
      LaidStep(xs, meshes);
    }
  }

  lemma {:induction false} LaidStep(xs: seq<CombineInstance>, meshes: seq<Mesh>)
    requires |meshes| > 0 && |xs| >= Total(meshes)
    requires Laid(xs, meshes[..|meshes| - 1])
    ensures Filled(xs, meshes[|meshes| - 1], Total(meshes[..|meshes| - 1])).Ok?
    ensures Laid(Filled(xs, meshes[|meshes| - 1], Total(meshes[..|meshes| - 1])).value.0, meshes)
  {
    var init := meshes[..|meshes| - 1];
    var last := meshes[|meshes| - 1];
    var c := Total(init);
    var r := Filled(xs, last, c).value.0;
    assert Added(last.subMeshCount, |xs|, c) == last.subMeshCount;
    assert forall i :: 0 <= i < |r| ==> r[i] == if c <= i < c + last.subMeshCount then CombineInstance(last, i - c) else xs[i];
    forall m, t | 0 <= m < |meshes| && 0 <= t < meshes[m].subMeshCount && Total(meshes[..m]) + t < |r|
      ensures r[Total(meshes[..m]) + t] == CombineInstance(meshes[m], t)
    {
      if m < |meshes| - 1 {
        EarlierMeshKept(meshes, m, t);
      } else {
        assert meshes[..m] == init;
      }
    }
  }

  /** A slot of an earlier mesh lies before the last mesh's slots. */
  lemma EarlierMeshKept(meshes: seq<Mesh>, m: nat, t: nat)
    requires m < |meshes| - 1 && t < meshes[m].subMeshCount
    ensures var init := meshes[..|meshes| - 1];
      && Total(meshes[..m]) == Total(init[..m]) && meshes[m] == init[m]
      && Total(meshes[..m]) + t < Total(init)
  {
    var init := meshes[..|meshes| - 1];
    assert meshes[..m] == init[..m];
    TotalPrefix(init, m);
  }

  lemma {:induction false} TotalPrefix(meshes: seq<Mesh>, m: nat)
    requires m < |meshes|
    ensures Total(meshes[..m]) + meshes[m].subMeshCount <= Total(meshes)
    decreases |meshes|
  {
    if m < |meshes| - 1 {
      var init := meshes[..|meshes| - 1];
      assert init[..m] == meshes[..m] && init[m] == meshes[m];
      TotalPrefix(init, m);
    } else {
      assert meshes[..m] == meshes[..|meshes| - 1];
    }
  }

  // ---------------------------------------------------------------------
  // Missing humanoid bones.

  /** Humanoid bone numbers. */
  const SPINE: nat := 7
  const CHEST: nat := 8
  const NECK: nat := 9
  const HEAD: nat := 10
  const UPPER_CHEST: nat := 54

  /** (bone, stand-in) pairs, applied in this order. */
  const DUMMY_HUMAN_BONES: seq<nat> := [CHEST, SPINE, UPPER_CHEST, CHEST, NECK, HEAD]

  /** The fix-up over pairs 0..k-1: the bones and whether no index was out
      of range.  Both entries of a pair are read before its write. */
  function FixPairs(bones: seq<Option<Transform>>, k: nat): (r: (seq<Option<Transform>>, bool))
    requires k <= |DUMMY_HUMAN_BONES| / 2
    ensures |r.0| == |bones|
  {
    if k == 0 then (bones, true)
    else
      var (b, ok) := FixPairs(bones, k - 1);
      var boneIndex := DUMMY_HUMAN_BONES[2 * (k - 1)];
      var boneParentIndex := DUMMY_HUMAN_BONES[2 * (k - 1) + 1];
      if !ok || boneIndex >= |b| || boneParentIndex >= |b| then (b, false)
      else if b[boneIndex].None? && b[boneParentIndex].Some? then (b[boneIndex := b[boneParentIndex]], true)
      else (b, true)
  }

  /** `FixUnavailableBones`; `false` when an index throws. */
  method FixUnavailableBones(bones: array<Option<Transform>>) returns (ok: bool)
    modifies bones
    ensures (bones[..], ok) == FixPairs(old(bones[..]), |DUMMY_HUMAN_BONES| / 2)
  {
    ghost var before := bones[..];
    var nDummyBones := |DUMMY_HUMAN_BONES|;
    var index := 0;
    while index < nDummyBones
      invariant 0 <= index <= nDummyBones && index % 2 == 0
      invariant FixPairs(before, index / 2) == (bones[..], true)
    {
      var boneIndex := DUMMY_HUMAN_BONES[index + 0];
      var boneParentIndex := DUMMY_HUMAN_BONES[index + 1];
      if boneIndex >= bones.Length || boneParentIndex >= bones.Length {
        FixFaultStays(before, index / 2 + 1);
        return false;
      }
      var bone := bones[boneIndex];
      var boneParent := bones[boneParentIndex];
      if bone.None? && boneParent.Some? {
        bones[boneIndex] := boneParent;
      }
      index := index + 2;
    }
    return true;
  }

  lemma {:induction false} FixFaultStays(bones: seq<Option<Transform>>, k: nat)
    requires k <= |DUMMY_HUMAN_BONES| / 2 && !FixPairs(bones, k).1
    ensures FixPairs(bones, |DUMMY_HUMAN_BONES| / 2) == FixPairs(bones, k)
    decreases |DUMMY_HUMAN_BONES| / 2 - k
  {
    if k < |DUMMY_HUMAN_BONES| / 2 {
      FixFaultStays(bones, k + 1);
    }
  }

  /** With every humanoid bone slot present, Chest falls back to Spine,
      UpperChest to the (fixed) Chest and Neck to Head, each only when
      missing; nothing else changes.  A shorter array throws, after the
      Chest pair when that one fits. */
  lemma FixSpec(bones: seq<Option<Transform>>)
    ensures var (r, ok) := FixPairs(bones, |DUMMY_HUMAN_BONES| / 2);
      && (ok <==> |bones| > UPPER_CHEST)
      && (ok ==> r[CHEST] == (if bones[CHEST].None? then bones[SPINE] else bones[CHEST]))
      && (ok ==> r[UPPER_CHEST] == (if bones[UPPER_CHEST].None? then r[CHEST] else bones[UPPER_CHEST]))
      && (ok ==> r[NECK] == (if bones[NECK].None? then bones[HEAD] else bones[NECK]))
      && (forall i :: 0 <= i < |bones| && i != CHEST && i != UPPER_CHEST && i != NECK ==> r[i] == bones[i])
      && (!ok ==> forall i :: 0 <= i < |bones| && i != CHEST ==> r[i] == bones[i])
      && (|bones| <= CHEST ==> r == bones)
  {
    FixFirst(bones);
    FixSecond(bones);
    FixThird(bones);
  }

  lemma FixFirst(bones: seq<Option<Transform>>)
    ensures var (b1, ok1) := FixPairs(bones, 1);
      && (ok1 <==> |bones| > CHEST)
      && (ok1 ==> b1 == if bones[CHEST].None? && bones[SPINE].Some? then bones[CHEST := bones[SPINE]] else bones)
      && (!ok1 ==> b1 == bones)
  {
    assert FixPairs(bones, 0) == (bones, true);
    assert DUMMY_HUMAN_BONES[0] == CHEST && DUMMY_HUMAN_BONES[1] == SPINE;
  }

  lemma FixSecond(bones: seq<Option<Transform>>)
    ensures var (b1, ok1) := FixPairs(bones, 1);
      var (b2, ok2) := FixPairs(bones, 2);
      && (ok2 <==> ok1 && |bones| > UPPER_CHEST)
      && (ok2 ==> b2 == if b1[UPPER_CHEST].None? && b1[CHEST].Some? then b1[UPPER_CHEST := b1[CHEST]] else b1)
      && (!ok2 ==> b2 == b1)
  {
    assert DUMMY_HUMAN_BONES[2] == UPPER_CHEST && DUMMY_HUMAN_BONES[3] == CHEST;
  }

  lemma FixThird(bones: seq<Option<Transform>>)
    ensures var (b2, ok2) := FixPairs(bones, 2);
      var (b3, ok3) := FixPairs(bones, 3);
      && (ok3 == ok2)
      && (ok3 ==> b3 == if b2[NECK].None? && b2[HEAD].Some? then b2[NECK := b2[HEAD]] else b2)
      && (!ok3 ==> b3 == b2)
  {
    assert DUMMY_HUMAN_BONES[4] == NECK && DUMMY_HUMAN_BONES[5] == HEAD;
  }

  lemma GoodUpToAt(infos: seq<seq<Boxed>>, boneMap: seq<int>, srcBones: seq<Option<Transform>>,
                   dstBones: seq<Option<Transform>>, v: nat, u: nat)
    requires |boneMap| == |srcBones| && v <= |infos| && u < |infos|
    requires GoodUpTo(infos, boneMap, srcBones, dstBones, v)
    requires v < |infos| ==> !GoodUpTo(infos, boneMap, srcBones, dstBones, v + 1)
    ensures GoodUpTo(infos, boneMap, srcBones, dstBones, u + 1) <==> u < v
  {
    if u >= v {
      assert !RewriteVertex(infos[v], boneMap, srcBones, dstBones).Ok?;
    }
  }

  /** One more vertex of the used-bone pass. */
  lemma MarkAllNext(used: seq<bool>, infos: seq<seq<Boxed>>, w: nat, u: seq<bool>)
    requires w < |infos| && MarkAll(used, infos[..w]) == Ok(u)
    ensures MarkAll(used, infos[..w + 1]) == MarkVertex(u, infos[w], PAIRS)
  {
    assert infos[..w + 1][..w] == infos[..w];
  }

  lemma RefilledSlots(info: seq<Boxed>, best: seq<int>, ws: seq<real>)
    requires |best| <= PAIRS && forall i :: 0 <= i < |best| ==> 0 <= best[i] < |ws|
    requires |info| >= 2 * PAIRS
    ensures var r := Refilled(info, best, ws);
      && (forall i :: 0 <= i < |best| ==> r[2 * i] == BoxedInt(best[i]) && r[2 * i + 1] == BoxedFloat(ws[best[i]]))
      && (forall k :: 2 * |best| <= k < 2 * PAIRS ==> r[k] == BoxedInt(0))
      && (forall k :: 2 * PAIRS <= k < |info| ==> r[k] == info[k])
  {
    var r := Refilled(info, best, ws);
    forall i | 0 <= i < |best|
      ensures r[2 * i] == BoxedInt(best[i]) && r[2 * i + 1] == BoxedFloat(ws[best[i]])
    {
      assert (2 * i) / 2 == i && (2 * i) % 2 == 0 && (2 * i + 1) / 2 == i && (2 * i + 1) % 2 == 1;
    }
  }
}
