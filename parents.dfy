/** The parent links of the loaders' spawned nodes, and the rule Unity's
    `Transform.SetParent` follows: a transform is never put under itself
    or under one of its own descendants (the call leaves it where it
    was), so the nodes stay a forest under the loader's root. */
module Parents {
  import opened Wrappers

  /** Entry x is the index of node x's parent, or none for a node that
      sits directly under the loader's root. */
  type Table = seq<Option<nat>>

  /** The parent of x; an index outside the table has none. */
  function Up(t: Table, x: nat): Option<nat>
  {
    if x < |t| then t[x] else None
  }

  /** The node k parent links above x, or none once the walk has left
      the nodes through the root. */
  function Walk(t: Table, x: nat, k: nat): Option<nat>
    decreases k
  {
    if k == 0 then Some(x)
    else
      match Up(t, x)
      case None => None
      case Some(p) => Walk(t, p, k - 1)
  }

  /** Whether a is x or one of its ancestors no more than `fuel` links
      above it. */
  predicate Reaches(t: Table, x: nat, a: nat, fuel: nat)
    decreases fuel
  {
    x == a || (fuel > 0 && Up(t, x).Some? && Reaches(t, Up(t, x).value, a, fuel - 1))
  }

  /** Unity refuses to put child c under node n when c is n or one of
      n's ancestors. */
  predicate Refused(t: Table, c: nat, n: nat)
  {
    Reaches(t, n, c, |t|)
  }

  /** Every parent link names a node of the table. */
  predicate Linked(t: Table)
  {
    forall x :: 0 <= x < |t| && t[x].Some? ==> t[x].value < |t|
  }

  /** A forest: the links stay inside the table and every walk upwards
      leaves the nodes, through the root, within |t| links. */
  predicate Forest(t: Table)
  {
    Linked(t) && forall x :: 0 <= x < |t| ==> Walk(t, x, |t|).None?
  }

  /** The children loop of one node: each listed child in [0, nNodes)
      is put under node n in turn, unless Unity refuses it. */
  function AdoptAll(t: Table, children: seq<int>, n: nat, nNodes: int): (r: Table)
    ensures |r| == |t|
    decreases |children|
  {
    if children == [] then t
    else
      var a := AdoptAll(t, children[..|children| - 1], n, nNodes);
      var c := children[|children| - 1];
      if c < 0 || c >= nNodes || c >= |a| || Refused(a, c, n) then a
      else a[c := Some(n)]
  }

  // ---------------------------------------------------------------------
  // Walks.

  lemma {:induction false} WalkAdd(t: Table, x: nat, a: nat, b: nat)
    requires Walk(t, x, a).Some?
    ensures Walk(t, x, a + b) == Walk(t, Walk(t, x, a).value, b)
    decreases a
  {
    if a > 0 {
      WalkAdd(t, Up(t, x).value, a - 1, b);
    }
  }

  /** A walk that has left the nodes stays out. */
  lemma {:induction false} LeftStaysOut(t: Table, x: nat, a: nat, b: nat)
    requires a <= b
    ensures Walk(t, x, a).None? ==> Walk(t, x, b).None?
    decreases a
  {
    if a > 0 && Up(t, x).Some? {
      LeftStaysOut(t, Up(t, x).value, a - 1, b - 1);
    }
  }

  /** A node the walk passes within the fuel is found by the search. */
  lemma {:induction false} WalkReaches(t: Table, x: nat, a: nat, i: nat, fuel: nat)
    requires i <= fuel && Walk(t, x, i) == Some(a)
    ensures Reaches(t, x, a, fuel)
    decreases i
  {
    if i > 0 {
      WalkReaches(t, Up(t, x).value, a, i - 1, fuel - 1);
    }
  }

  /** A node the search finds is passed by the walk within the fuel. */
  lemma {:induction false} ReachesWalk(t: Table, x: nat, a: nat, fuel: nat) returns (i: nat)
    requires Reaches(t, x, a, fuel)
    ensures i <= fuel && Walk(t, x, i) == Some(a)
    decreases fuel
  {
    if x == a {
      i := 0;
    } else {
      var j := ReachesWalk(t, Up(t, x).value, a, fuel - 1);
      i := j + 1;
    }
  }

  /** In a forest the bounded test is Unity's test: c is refused under n
      exactly when c is n or an ancestor of n at any distance. */
  lemma RefusedExact(t: Table, c: nat, n: nat)
    requires Forest(t) && n < |t|
    ensures Refused(t, c, n) <==> exists i: nat :: Walk(t, n, i) == Some(c)
  {
    if Refused(t, c, n) {
      var i := ReachesWalk(t, n, c, |t|);
    }
    if exists i: nat :: Walk(t, n, i) == Some(c) {
      var i: nat :| Walk(t, n, i) == Some(c);
      if i > |t| {
        LeftStaysOut(t, n, |t|, i);
        assert false;
      }
      WalkReaches(t, n, c, i, |t|);
    }
  }

  /** Walking the links from a node of a linked table stays inside it. */
  lemma {:induction false} WalkInside(t: Table, x: nat, k: nat)
    requires Linked(t) && x < |t|
    ensures Walk(t, x, k).Some? ==> Walk(t, x, k).value < |t|
    decreases k
  {
    if k > 0 && Up(t, x).Some? {
      WalkInside(t, Up(t, x).value, k - 1);
    }
  }

  /** Going round a loop q times comes back to its start. */
  lemma {:induction false} Loops(t: Table, z: nat, len: nat, q: nat)
    requires Walk(t, z, len) == Some(z)
    ensures Walk(t, z, q * len) == Some(z)
    decreases q
  {
    if q > 0 {
      Loops(t, z, len, q - 1);
      WalkAdd(t, z, (q - 1) * len, len);
      assert (q - 1) * len + len == q * len;
    }
  }

  /** A forest has no loop. */
  lemma NoLoop(t: Table, z: nat, len: nat)
    requires Forest(t) && z < |t| && len > 0
    ensures Walk(t, z, len) != Some(z)
  {
    if Walk(t, z, len) == Some(z) {
      Loops(t, z, len, |t|);
      assert |t| <= |t| * len;
      LeftStaysOut(t, z, |t|, |t| * len);
      assert false;
    }
  }

  // ---------------------------------------------------------------------
  // Changing one link.

  /** A walk on the table with c's link changed either meets c, i
      links up, at the same point in both tables, or ends where the old
      walk ends. */
  lemma {:induction false} Meet(t: Table, c: nat, v: Option<nat>, x: nat, k: nat) returns (met: bool, i: nat)
    requires c < |t|
    ensures met ==> i <= k && Walk(t[c := v], x, i) == Some(c) && Walk(t, x, i) == Some(c)
    ensures !met ==> Walk(t[c := v], x, k) == Walk(t, x, k)
    decreases k
  {
    var t' := t[c := v];
    if x == c {
      met, i := true, 0;
    } else if k > 0 && Up(t, x).Some? {
      assert Up(t', x) == Up(t, x);
      var j;
      met, j := Meet(t, c, v, Up(t, x).value, k - 1);
      i := j + 1;
    } else {
      met, i := false, 0;
      assert Up(t', x) == Up(t, x);
    }
  }

  /** A search that never meets a changed link gives the same answer. */
  lemma {:induction false} ReachesAgree(t: Table, t': Table, x: nat, a: nat, fuel: nat)
    requires |t'| == |t|
    requires forall j :: 0 <= j < |t| && t'[j] != t[j] ==> !Reaches(t, x, j, fuel)
    ensures Reaches(t', x, a, fuel) == Reaches(t, x, a, fuel)
    decreases fuel
  {
    if x != a && fuel > 0 {
      if x < |t| {
        assert Reaches(t, x, x, fuel);
      }
      assert Up(t', x) == Up(t, x);
      if Up(t, x).Some? {
        ReachesAgree(t, t', Up(t, x).value, a, fuel - 1);
      }
    }
  }

  /** Following at most |t| + 1 links from every node, a linked table
      without a walk out of the nodes has a loop of at most |t| links. */
  lemma FindLoop(t: Table, x: nat) returns (z: nat, len: nat)
    requires Linked(t) && x < |t| && Walk(t, x, |t|).Some?
    ensures z < |t| && 0 < len <= |t| && Walk(t, z, len) == Some(z)
  {
    var s := seq(|t| + 1, k requires 0 <= k <= |t| => if Walk(t, x, k).Some? then Walk(t, x, k).value else 0);
    forall k | 0 <= k <= |t|
      ensures Walk(t, x, k).Some? && s[k] == Walk(t, x, k).value && s[k] < |t|
    {
      LeftStaysOut(t, x, k, |t|);
      WalkInside(t, x, k);
    }
    if forall i, j :: 0 <= i < j < |s| ==> s[i] != s[j] {
      forall k | 0 <= k < |s|
        ensures s[k] in Below(|t|)
      {
        BelowSpec(|t|, s[k]);
      }
      BelowCount(|t|);
      Distinct(s, Below(|t|));
      assert false;
    }
    var i, j :| 0 <= i < j < |s| && s[i] == s[j];
    z, len := s[i], j - i;
    WalkAdd(t, x, i, len);
  }

  /** Distinct values drawn from a set are at most as many as the set. */
  lemma {:induction false} Distinct(s: seq<nat>, allowed: set<nat>)
    requires forall i :: 0 <= i < |s| ==> s[i] in allowed
    requires forall i, j :: 0 <= i < j < |s| ==> s[i] != s[j]
    ensures |s| <= |allowed|
    decreases |s|
  {
    if s != [] {
      var e := s[|s| - 1];
      var init := s[..|s| - 1];
      forall i | 0 <= i < |init|
        ensures init[i] in allowed - {e}
      {
        assert init[i] == s[i] && i < |s| - 1;
      }
      Distinct(init, allowed - {e});
    }
  }

  /** The indices below n. */
  function Below(n: nat): set<nat>
    decreases n
  {
    if n == 0 then {} else Below(n - 1) + {n - 1}
  }

  lemma {:induction false} BelowSpec(n: nat, y: nat)
    ensures y in Below(n) <==> y < n
    decreases n
  {
    if n > 0 {
      BelowSpec(n - 1, y);
    }
  }

  lemma {:induction false} BelowCount(n: nat)
    ensures |Below(n)| == n
    decreases n
  {
    if n > 0 {
      BelowCount(n - 1);
      BelowSpec(n - 1, n - 1);
    }
  }

  /** Putting c under n when Unity does not refuse it keeps a forest a
      forest. */
  lemma AdoptForest(t: Table, c: nat, n: nat)
    requires Forest(t) && c < |t| && n < |t| && !Refused(t, c, n)
    ensures Forest(t[c := Some(n)])
  {
    var t' := t[c := Some(n)];
    forall x | 0 <= x < |t'|
      ensures Walk(t', x, |t'|).None?
    {
      if Walk(t', x, |t'|).Some? {
        var z, len := FindLoop(t', x);
        NoNewLoop(t, c, n, z, len);
        assert false;
      }
    }
  }

  /** The loop a new link would close passes through c and then climbs
      from n back to c, which is what the refusal rules out. */
  lemma NoNewLoop(t: Table, c: nat, n: nat, z: nat, len: nat)
    requires Forest(t) && c < |t| && n < |t| && !Refused(t, c, n)
    requires z < |t| && 0 < len <= |t|
    ensures Walk(t[c := Some(n)], z, len) != Some(z)
  {
    var t' := t[c := Some(n)];
    if Walk(t', z, len) == Some(z) {
      var met, i := Meet(t, c, Some(n), z, len);
      if !met {
        NoLoop(t, z, len);
        assert false;
      }
      WalkAdd(t', z, i, len);
      WalkAdd(t', z, len, i);
      assert Walk(t', c, len) == Some(c);
      assert Up(t', c) == Some(n);
      assert Walk(t', n, len - 1) == Some(c);
      var met', i' := Meet(t, c, Some(n), n, len - 1);
      if met' {
        WalkReaches(t, n, c, i', |t|);
      } else {
        WalkReaches(t, n, c, len - 1, |t|);
      }
      assert false;
    }
  }

  // ---------------------------------------------------------------------
  // The children loop.

  /** A table without links is a forest. */
  lemma NoLinksForest(t: Table)
    requires forall x :: 0 <= x < |t| ==> t[x].None?
    ensures Forest(t)
  {
    forall x | 0 <= x < |t|
      ensures Walk(t, x, |t|).None?
    {
      assert Up(t, x) == None;
    }
  }

  /** The children loop of node n: a listed child in [0, nNodes) of the
      table goes under n unless, in the table the loop started from, it
      is n or one of n's ancestors; every other link stays.  The test
      can be made on the starting table because an accepted child is
      never on n's own chain, so n's chain does not change. */
  lemma {:induction false} AdoptAllSpec(t: Table, children: seq<int>, n: nat, nNodes: int)
    ensures var r := AdoptAll(t, children, n, nNodes);
      forall j :: 0 <= j < |t| ==>
        r[j] == if j in children && j < nNodes && !Refused(t, j, n) then Some(n) else t[j]
    decreases |children|
  {
    if children != [] {
      var init := children[..|children| - 1];
      var c := children[|children| - 1];
      assert children == init + [c];
      AdoptAllSpec(t, init, n, nNodes);
      var a := AdoptAll(t, init, n, nNodes);
      forall j | 0 <= j < |t| && a[j] != t[j]
        ensures !Reaches(t, n, j, |t|)
      {
      }
      if c >= 0 {
        ReachesAgree(t, a, n, c, |t|);
      }
    }
  }

  /** The children loop keeps a forest a forest. */
  lemma {:induction false} AdoptAllForest(t: Table, children: seq<int>, n: nat, nNodes: int)
    requires Forest(t) && n < |t|
    ensures Forest(AdoptAll(t, children, n, nNodes))
    decreases |children|
  {
    if children != [] {
      var init := children[..|children| - 1];
      var c := children[|children| - 1];
      AdoptAllForest(t, init, n, nNodes);
      var a := AdoptAll(t, init, n, nNodes);
      if !(c < 0 || c >= nNodes || c >= |a| || Refused(a, c, n)) {
        AdoptForest(a, c, n);
      }
    }
  }

  /** Two nodes listing each other: node 1 goes under node 0, and node 0
      then stays under the root instead of closing the loop. */
  lemma MutualListing()
    ensures AdoptAll(AdoptAll([None, None], [1], 0, 2), [0], 1, 2) == [None, Some(0)]
  {
    var t: Table := [None, None];
    assert AdoptAll(t, [], 0, 2) == t;
    assert !Refused(t, 1, 0) by {
      assert Up(t, 0) == None;
    }
    assert AdoptAll(t, [1], 0, 2) == [None, Some(0)];
    var t1: Table := [None, Some(0)];
    assert AdoptAll(t1, [], 1, 2) == t1;
    assert Refused(t1, 0, 1) by {
      assert Up(t1, 1) == Some(0);
      assert Reaches(t1, 0, 0, 1);
    }
  }

  /** A node listing itself stays where it is. */
  lemma SelfListing(t: Table, n: nat)
    requires n < |t|
    ensures AdoptAll(t, [n], n, |t|) == t
  {
    assert AdoptAll(t, [], n, |t|) == t;
    assert Refused(t, n, n);
  }

  // ---------------------------------------------------------------------
  // The children loops of a whole node list.

  /** A table of n nodes that all sit directly under the root. */
  function NoLinks(n: nat): (t: Table)
    ensures |t| == n
  {
    seq(n, _ => None)
  }

  /** The children loops of nodes 0 .. hi - 1 in turn, node p listing
      lists[p]. */
  function AdoptEach(t: Table, lists: seq<seq<int>>, hi: nat): (r: Table)
    requires hi <= |lists|
    ensures |r| == |t|
  {
    if hi == 0 then t
    else AdoptAll(AdoptEach(t, lists, hi - 1), lists[hi - 1], hi - 1, |t|)
  }

  /** The last of lists[0 .. hi) that lists c. */
  function LastLister(lists: seq<seq<int>>, c: int, hi: nat): (p: Option<nat>)
    requires hi <= |lists|
    ensures p.Some? ==> p.value < hi && c in lists[p.value]
    ensures p.Some? ==> forall j :: p.value < j < hi ==> c !in lists[j]
    ensures p.None? ==> forall j :: 0 <= j < hi ==> c !in lists[j]
  {
    if hi == 0 then None
    else if c in lists[hi - 1] then Some(hi - 1)
    else LastLister(lists, c, hi - 1)
  }

  /** The hierarchy the lists describe: each node under the last node
      listing it. */
  function Listers(lists: seq<seq<int>>): (t: Table)
    ensures |t| == |lists|
  {
    seq(|lists|, c requires 0 <= c < |lists| => LastLister(lists, c, |lists|))
  }

  /** No node is listed by two different nodes. */
  predicate ListedOnce(lists: seq<seq<int>>)
  {
    forall p, q, c :: 0 <= p < |lists| && 0 <= q < |lists| && c in lists[p] && c in lists[q] ==> p == q
  }

  /** The children loops keep a forest a forest. */
  lemma {:induction false} AdoptEachForest(t: Table, lists: seq<seq<int>>, hi: nat)
    requires hi <= |lists| <= |t| && Forest(t)
    ensures Forest(AdoptEach(t, lists, hi))
  {
    if hi > 0 {
      AdoptEachForest(t, lists, hi - 1);
      AdoptAllForest(AdoptEach(t, lists, hi - 1), lists[hi - 1], hi - 1, |t|);
    }
  }

  /** A walk on a table whose links all agree with those of a larger one
      is a walk on the larger one. */
  lemma {:induction false} SubWalk(t: Table, l: Table, x: nat, i: nat)
    requires forall y :: 0 <= y < |t| && t[y].Some? ==> y < |l| && l[y] == t[y]
    ensures Walk(t, x, i).Some? ==> Walk(l, x, i) == Walk(t, x, i)
    decreases i
  {
    if i > 0 && Up(t, x).Some? {
      SubWalk(t, l, Up(t, x).value, i - 1);
    }
  }

  /** When the lists describe strict trees (no node listed twice, no
      cycle), no children loop is ever refused: after the loops of nodes
      0 .. hi - 1, every node sits under the last of them listing it. */
  lemma {:induction false} AdoptEachTrees(lists: seq<seq<int>>, hi: nat)
    requires hi <= |lists| && ListedOnce(lists) && Forest(Listers(lists))
    ensures forall c :: 0 <= c < |lists| ==> AdoptEach(NoLinks(|lists|), lists, hi)[c] == LastLister(lists, c, hi)
  {
    var l := Listers(lists);
    if hi > 0 {
      var n := hi - 1;
      AdoptEachTrees(lists, n);
      var a := AdoptEach(NoLinks(|lists|), lists, n);
      AdoptAllSpec(a, lists[n], n, |lists|);
      forall y | 0 <= y < |a| && a[y].Some?
        ensures y < |l| && l[y] == a[y]
      {
        var p := a[y].value;
        assert y in lists[p];
        assert l[y].Some? && y in lists[l[y].value];
      }
      forall c | 0 <= c < |lists| && c in lists[n]
        ensures !Refused(a, c, n)
      {
        if Refused(a, c, n) {
          var i := ReachesWalk(a, n, c, |a|);
          SubWalk(a, l, n, i);
          assert l[c] == Some(n);
          assert Walk(l, c, 1) == Some(n) by {
            assert Up(l, c) == Some(n);
          }
          WalkAdd(l, c, 1, i);
          NoLoop(l, c, 1 + i);
          assert false;
        }
      }
    }
  }
}
