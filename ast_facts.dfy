/**
 * Properties of the two traversals over well-formed node records: pre-order
 * visits exactly the subtree, each node once, root first; level order visits
 * the same nodes, root first, in non-decreasing depth.
 */
module SyntaxFacts {
  import opened Wrappers
  import opened Syntax

  /** No id occurs twice. */
  predicate Distinct(s: seq<NodeId>) {
    forall i, j :: 0 <= i < j < |s| ==> s[i] != s[j]
  }

  /**
   * How many parent links lead from `x` up to `r`, or `None` when `r` is not
   * on the parent chain of `x`, that is, `x` is not in the subtree of `r`.
   */
  ghost function Depth(nodes: seq<Node>, x: NodeId, r: NodeId): Option<nat>
    requires WellFormed(nodes) && x < |nodes|
    decreases |nodes| - x
  {
    if x == r then Some(0)
    else if nodes[x].parent.None? then None
    else
      var d := Depth(nodes, nodes[x].parent.value, r);
      if d.None? then None else Some(d.value + 1)
  }

  /** The nodes of the subtree of `r`. */
  ghost function Subtree(nodes: seq<Node>, r: NodeId): set<NodeId>
    requires WellFormed(nodes)
  {
    set x | 0 <= x < |nodes| && Depth(nodes, x, r).Some?
  }

  // ---- the parent chain ----------------------------------------------------

  lemma {:induction false} WellFormedDescending(nodes: seq<Node>, x: NodeId)
    requires WellFormed(nodes) && x < |nodes|
    ensures Descending(nodes, x)
    decreases x
  {
    forall i | 0 <= i < |nodes[x].children| && nodes[x].children[i].Some?
      ensures Descending(nodes, nodes[x].children[i].value)
    {
      WellFormedDescending(nodes, nodes[x].children[i].value);
    }
  }

  lemma {:induction false} NullFreeDescending(nodes: seq<Node>, x: NodeId)
    requires NullFreeTree(nodes, x)
    ensures Descending(nodes, x)
    decreases x
  {
    forall i | 0 <= i < |nodes[x].children| && nodes[x].children[i].Some?
      ensures Descending(nodes, nodes[x].children[i].value)
    {
      NullFreeDescending(nodes, nodes[x].children[i].value);
    }
  }

  /** A node of the subtree of `r` is never newer than `r`. */
  lemma {:induction false} DepthBelow(nodes: seq<Node>, x: NodeId, r: NodeId)
    requires WellFormed(nodes) && x < |nodes| && Depth(nodes, x, r).Some?
    ensures x <= r
    decreases |nodes| - x
  {
    if x != r {
      DepthBelow(nodes, nodes[x].parent.value, r);
    }
  }

  /** A child of a node at depth `d` is at depth `d + 1`. */
  lemma ChildDepth(nodes: seq<Node>, y: NodeId, i: nat, r: NodeId)
    requires WellFormed(nodes) && y < |nodes| && Depth(nodes, y, r).Some?
    requires i < |nodes[y].children| && nodes[y].children[i].Some?
    ensures var c := nodes[y].children[i].value;
            c < |nodes| && Depth(nodes, c, r) == Some(Depth(nodes, y, r).value + 1)
  {
    DepthBelow(nodes, y, r);
  }

  /** Going one more link up: the subtree of `c` lies in the subtree of its parent `y`. */
  lemma {:induction false} DepthThroughParent(nodes: seq<Node>, x: NodeId, c: NodeId, y: NodeId)
    requires WellFormed(nodes) && x < |nodes| && c < |nodes| && nodes[c].parent == Some(y)
    requires Depth(nodes, x, c).Some?
    ensures Depth(nodes, x, y) == Some(Depth(nodes, x, c).value + 1)
    decreases |nodes| - x
  {
    DepthBelow(nodes, x, c);
    if x != c {
      DepthThroughParent(nodes, nodes[x].parent.value, c, y);
    }
  }

  /** Two subtrees that share a node are nested. */
  lemma {:induction false} SubtreesNest(nodes: seq<Node>, x: NodeId, a: NodeId, b: NodeId)
    requires WellFormed(nodes) && x < |nodes| && a < |nodes| && b < |nodes|
    requires Depth(nodes, x, a).Some? && Depth(nodes, x, b).Some?
    ensures Depth(nodes, a, b).Some? || Depth(nodes, b, a).Some?
    decreases |nodes| - x
  {
    if x != a && x != b {
      SubtreesNest(nodes, nodes[x].parent.value, a, b);
    }
  }

  /** Siblings have disjoint subtrees. */
  lemma SiblingsDisjoint(nodes: seq<Node>, x: NodeId, c1: NodeId, c2: NodeId, n: NodeId)
    requires WellFormed(nodes) && x < |nodes| && c1 < |nodes| && c2 < |nodes| && c1 != c2
    requires nodes[c1].parent == Some(n) && nodes[c2].parent == Some(n)
    requires Depth(nodes, x, c1).Some?
    ensures Depth(nodes, x, c2).None?
  {
    if Depth(nodes, x, c2).Some? {
      SubtreesNest(nodes, x, c1, c2);
      if Depth(nodes, c1, c2).Some? {
        DepthBelow(nodes, n, c2);
      } else {
        DepthBelow(nodes, n, c1);
      }
    }
  }

  // ---- pre-order -----------------------------------------------------------

  lemma {:induction false} PreOrderSeqMember(nodes: seq<Node>, cs: seq<Option<NodeId>>, above: nat, x: NodeId)
    requires forall i :: 0 <= i < |cs| && cs[i].Some? ==> cs[i].value < above && Descending(nodes, cs[i].value)
    ensures x in PreOrderSeq(nodes, cs, above) <==>
            exists i :: 0 <= i < |cs| && cs[i].Some? && x in PreOrder(nodes, cs[i])
    decreases |cs|
  {
    if cs != [] {
      PreOrderSeqMember(nodes, cs[1..], above, x);
      if x in PreOrderSeq(nodes, cs[1..], above) {
        var i :| 0 <= i < |cs[1..]| && cs[1..][i].Some? && x in PreOrder(nodes, cs[1..][i]);
        assert cs[i + 1] == cs[1..][i];
      }
      if exists i :: 0 <= i < |cs| && cs[i].Some? && x in PreOrder(nodes, cs[i]) {
        var i :| 0 <= i < |cs| && cs[i].Some? && x in PreOrder(nodes, cs[i]);
        if i > 0 {
          assert cs[1..][i - 1] == cs[i];
        }
      }
    }
  }

  /** The pre-order of `Some(r)` holds exactly the nodes of the subtree of `r`. */
  lemma {:induction false} PreOrderMembers(nodes: seq<Node>, r: NodeId, x: NodeId)
    requires WellFormed(nodes) && r < |nodes|
    ensures Descending(nodes, r)
    ensures x in PreOrder(nodes, Some(r)) <==> x < |nodes| && Depth(nodes, x, r).Some?
    decreases r
  {
    WellFormedDescending(nodes, r);
    if x in PreOrder(nodes, Some(r)) {
      PreOrderInSubtree(nodes, r, x);
    }
    if x < |nodes| && Depth(nodes, x, r).Some? {
      SubtreeInPreOrder(nodes, r, x);
    }
  }

  lemma {:induction false} PreOrderInSubtree(nodes: seq<Node>, r: NodeId, x: NodeId)
    requires WellFormed(nodes) && r < |nodes| && Descending(nodes, r)
    requires x in PreOrder(nodes, Some(r))
    ensures x < |nodes| && Depth(nodes, x, r).Some?
    decreases r
  {
    if x != r {
      var cs := nodes[r].children;
      PreOrderSeqMember(nodes, cs, r, x);
      var i :| 0 <= i < |cs| && cs[i].Some? && x in PreOrder(nodes, cs[i]);
      PreOrderInSubtree(nodes, cs[i].value, x);
      DepthThroughParent(nodes, x, cs[i].value, r);
    }
  }

  lemma {:induction false} SubtreeInPreOrder(nodes: seq<Node>, r: NodeId, x: NodeId)
    requires WellFormed(nodes) && r < |nodes| && Descending(nodes, r)
    requires x < |nodes| && Depth(nodes, x, r).Some?
    ensures x in PreOrder(nodes, Some(r))
    decreases |nodes| - x
  {
    if x != r {
      var p := nodes[x].parent.value;
      SubtreeInPreOrder(nodes, r, p);
      // `x` is a child of `p`, and the pre-order of `r` contains that of `p`
      var i :| 0 <= i < |nodes[p].children| && nodes[p].children[i] == Some(x);
      WellFormedDescending(nodes, p);
      PreOrderSeqMember(nodes, nodes[p].children, p, x);
      PreOrderClosed(nodes, r, p, x);
    }
  }

  /** The pre-order of a node contains the pre-order of every node it visits. */
  lemma {:induction false} PreOrderClosed(nodes: seq<Node>, r: NodeId, y: NodeId, x: NodeId)
    requires WellFormed(nodes) && r < |nodes| && Descending(nodes, r)
    requires y in PreOrder(nodes, Some(r)) && y < |nodes|
    requires Descending(nodes, y) && x in PreOrder(nodes, Some(y))
    ensures x in PreOrder(nodes, Some(r))
    decreases r
  {
    if y != r {
      var cs := nodes[r].children;
      PreOrderSeqMember(nodes, cs, r, y);
      var i :| 0 <= i < |cs| && cs[i].Some? && y in PreOrder(nodes, cs[i]);
      PreOrderClosed(nodes, cs[i].value, y, x);
      PreOrderSeqMember(nodes, cs, r, x);
    }
  }

  /** Pre-order visits each node at most once. */
  lemma {:induction false} PreOrderDistinct(nodes: seq<Node>, r: NodeId)
    requires WellFormed(nodes) && r < |nodes|
    ensures Descending(nodes, r) && Distinct(PreOrder(nodes, Some(r)))
    decreases r + 1, 0, 0
  {
    WellFormedDescending(nodes, r);
    var cs := nodes[r].children;
    PreOrderSeqDistinct(nodes, cs, r, r);
  }

  lemma {:induction false} PreOrderSeqDistinct(nodes: seq<Node>, cs: seq<Option<NodeId>>, above: nat, n: NodeId)
    requires WellFormed(nodes)
    requires forall i :: 0 <= i < |cs| && cs[i].Some? ==>
               cs[i].value < above && cs[i].value < |nodes| && nodes[cs[i].value].parent == Some(n)
    requires forall i, j :: 0 <= i < j < |cs| && cs[i].Some? ==> cs[i] != cs[j]
    ensures forall i :: 0 <= i < |cs| && cs[i].Some? ==> Descending(nodes, cs[i].value)
    ensures Distinct(PreOrderSeq(nodes, cs, above))
    decreases above, 1, |cs|
  {
    forall i | 0 <= i < |cs| && cs[i].Some?
      ensures Descending(nodes, cs[i].value)
    {
      WellFormedDescending(nodes, cs[i].value);
    }
    if cs != [] {
      PreOrderSeqDistinct(nodes, cs[1..], above, n);
      var a := PreOrder(nodes, cs[0]);
      var b := PreOrderSeq(nodes, cs[1..], above);
      if cs[0].Some? {
        PreOrderDistinct(nodes, cs[0].value);
        forall x | x in a && x in b
          ensures false
        {
          PreOrderInSubtree(nodes, cs[0].value, x);
          PreOrderSeqMember(nodes, cs[1..], above, x);
          var j :| 0 <= j < |cs[1..]| && cs[1..][j].Some? && x in PreOrder(nodes, cs[1..][j]);
          assert cs[j + 1] == cs[1..][j];
          PreOrderInSubtree(nodes, cs[j + 1].value, x);
          SiblingsDisjoint(nodes, x, cs[0].value, cs[j + 1].value, n);
        }
      }
      DistinctConcat(a, b);
    }
  }

  lemma DistinctConcat(a: seq<NodeId>, b: seq<NodeId>)
    requires Distinct(a) && Distinct(b) && forall x :: x in a ==> x !in b
    ensures Distinct(a + b)
  {
    forall i, j | 0 <= i < j < |a + b|
      ensures (a + b)[i] != (a + b)[j]
    {
      if i < |a| && j >= |a| {
        assert (a + b)[i] in a && (a + b)[j] in b;
      }
    }
  }

  /** A sequence without repetitions holds each member exactly once. */
  lemma {:induction false} DistinctCounts(s: seq<NodeId>)
    requires Distinct(s)
    ensures forall x :: multiset(s)[x] == if x in s then 1 else 0
  {
    if s != [] {
      var t := s[1..];
      assert s == [s[0]] + t;
      assert Distinct(t) by {
        forall i, j | 0 <= i < j < |t| ensures t[i] != t[j] {
          assert t[i] == s[i + 1] && t[j] == s[j + 1];
        }
      }
      DistinctCounts(t);
      assert s[0] !in t;
      assert multiset(s) == multiset{s[0]} + multiset(t);
      forall x ensures multiset(s)[x] == if x in s then 1 else 0 {
        assert x in s <==> x == s[0] || x in t;
      }
    }
  }

  /** The ids occurring in `s`. */
  function Members(s: seq<NodeId>): (m: set<NodeId>)
    ensures forall x :: x in m <==> x in s
  {
    set x | x in s
  }

  /** A sequence without repetitions has as many members as entries. */
  lemma {:induction false} DistinctSize(s: seq<NodeId>)
    requires Distinct(s)
    ensures |Members(s)| == |s|
  {
    if s != [] {
      var t := s[1..];
      assert Distinct(t) by {
        forall i, j | 0 <= i < j < |t| ensures t[i] != t[j] {
          assert t[i] == s[i + 1] && t[j] == s[j + 1];
        }
      }
      DistinctSize(t);
      assert s[0] !in Members(t);
      assert Members(s) == {s[0]} + Members(t) by {
        assert forall x :: x in s <==> x == s[0] || x in t;
      }
    } else {
      assert Members(s) == {};
    }
  }

  /**
   * `traversePreOrder` from `r` visits `r` first and every node of its
   * subtree exactly once, so it makes as many visits as the subtree has nodes.
   */
  lemma PreOrderOnce(nodes: seq<Node>, r: NodeId)
    requires WellFormed(nodes) && r < |nodes|
    ensures Descending(nodes, r)
    ensures PreOrder(nodes, Some(r))[0] == r
    ensures forall x :: multiset(PreOrder(nodes, Some(r)))[x] == if x in Subtree(nodes, r) then 1 else 0
    ensures |PreOrder(nodes, Some(r))| == |Subtree(nodes, r)|
  {
    PreOrderDistinct(nodes, r);
    var s := PreOrder(nodes, Some(r));
    DistinctCounts(s);
    DistinctSize(s);
    forall x
      ensures x in s <==> x in Subtree(nodes, r)
    {
      PreOrderMembers(nodes, r, x);
    }
    assert Members(s) == Subtree(nodes, r);
  }

  // ---- level order ---------------------------------------------------------

  /** The pre-orders of the trees rooted at `F`, one after another. */
  function PreOrderAll(nodes: seq<Node>, F: seq<NodeId>): (r: seq<NodeId>)
    requires forall i :: 0 <= i < |F| ==> Descending(nodes, F[i])
  {
    if F == [] then [] else PreOrder(nodes, Some(F[0])) + PreOrderAll(nodes, F[1..])
  }

  lemma AllNullFreeDescending(nodes: seq<Node>, F: seq<NodeId>)
    requires AllNullFree(nodes, F)
    ensures forall i :: 0 <= i < |F| ==> Descending(nodes, F[i])
  {
    forall i | 0 <= i < |F|
      ensures Descending(nodes, F[i])
    {
      NullFreeDescending(nodes, F[i]);
    }
  }

  lemma {:induction false} PreOrderAllConcat(nodes: seq<Node>, A: seq<NodeId>, B: seq<NodeId>)
    requires forall i :: 0 <= i < |A| ==> Descending(nodes, A[i])
    requires forall i :: 0 <= i < |B| ==> Descending(nodes, B[i])
    ensures forall i :: 0 <= i < |A + B| ==> Descending(nodes, (A + B)[i])
    ensures PreOrderAll(nodes, A + B) == PreOrderAll(nodes, A) + PreOrderAll(nodes, B)
    decreases |A|
  {
    assert forall i :: 0 <= i < |A + B| ==> (A + B)[i] == if i < |A| then A[i] else B[i - |A|];
    if A != [] {
      assert (A + B)[1..] == A[1..] + B;
      PreOrderAllConcat(nodes, A[1..], B);
    } else {
      assert A + B == B;
    }
  }

  /** Without null children, the pre-order of a child list is the forest of its children. */
  lemma {:induction false} PreOrderSeqForest(nodes: seq<Node>, cs: seq<Option<NodeId>>, above: nat)
    requires forall i :: 0 <= i < |cs| ==> cs[i].Some? && cs[i].value < above && Descending(nodes, cs[i].value)
    ensures forall i :: 0 <= i < |ChildIds(cs)| ==> Descending(nodes, ChildIds(cs)[i])
    ensures PreOrderSeq(nodes, cs, above) == PreOrderAll(nodes, ChildIds(cs))
    decreases |cs|
  {
    if cs != [] {
      PreOrderSeqForest(nodes, cs[1..], above);
      assert ChildIds(cs) == [cs[0].value] + ChildIds(cs[1..]);
    }
  }

  /** Without null children, the pre-order of a node is the node, then the forest of its children. */
  lemma PreOrderUnfold(nodes: seq<Node>, y: NodeId)
    requires NullFreeTree(nodes, y)
    ensures Descending(nodes, y)
    ensures forall i :: 0 <= i < |ChildIds(nodes[y].children)| ==> Descending(nodes, ChildIds(nodes[y].children)[i])
    ensures PreOrder(nodes, Some(y)) == [y] + PreOrderAll(nodes, ChildIds(nodes[y].children))
  {
    NullFreeDescending(nodes, y);
    var cs := nodes[y].children;
    forall i | 0 <= i < |cs|
      ensures cs[i].Some? && cs[i].value < y && Descending(nodes, cs[i].value)
    {
      NullFreeDescending(nodes, cs[i].value);
    }
    PreOrderSeqForest(nodes, cs, y);
  }

  /** The forest of `F` is `F` itself followed by the forest of their children, up to order. */
  lemma {:induction false} ForestUnfold(nodes: seq<Node>, F: seq<NodeId>)
    requires AllNullFree(nodes, F)
    ensures forall i :: 0 <= i < |F| ==> Descending(nodes, F[i])
    ensures forall i :: 0 <= i < |ChildrenOf(nodes, F)| ==> Descending(nodes, ChildrenOf(nodes, F)[i])
    ensures multiset(PreOrderAll(nodes, F))
            == multiset(F) + multiset(PreOrderAll(nodes, ChildrenOf(nodes, F)))
    decreases |F|
  {
    AllNullFreeDescending(nodes, F);
    AllNullFreeDescending(nodes, ChildrenOf(nodes, F));
    if F != [] {
      var G, y := F[..|F| - 1], F[|F| - 1];
      assert F == G + [y];
      ForestUnfold(nodes, G);
      ForestSnoc(nodes, G, y);
    }
  }

  /** The step of `ForestUnfold`: one more tree after the forest of `G`. */
  lemma ForestSnoc(nodes: seq<Node>, G: seq<NodeId>, y: NodeId)
    requires AllNullFree(nodes, G) && NullFreeTree(nodes, y)
    requires forall i :: 0 <= i < |G| ==> Descending(nodes, G[i])
    requires forall i :: 0 <= i < |ChildrenOf(nodes, G)| ==> Descending(nodes, ChildrenOf(nodes, G)[i])
    requires multiset(PreOrderAll(nodes, G)) == multiset(G) + multiset(PreOrderAll(nodes, ChildrenOf(nodes, G)))
    ensures AllNullFree(nodes, G + [y])
    ensures forall i :: 0 <= i < |G + [y]| ==> Descending(nodes, (G + [y])[i])
    ensures forall i :: 0 <= i < |ChildrenOf(nodes, G + [y])| ==> Descending(nodes, ChildrenOf(nodes, G + [y])[i])
    ensures multiset(PreOrderAll(nodes, G + [y]))
            == multiset(G + [y]) + multiset(PreOrderAll(nodes, ChildrenOf(nodes, G + [y])))
  {
    ChildrenOfSnoc(nodes, G, y);
    var F := G + [y];
    AllNullFreeDescending(nodes, F);
    AllNullFreeDescending(nodes, ChildrenOf(nodes, F));
    var mine := ChildIds(nodes[y].children);
    var cG := ChildrenOf(nodes, G);
    PreOrderAllSingle(nodes, y);
    PreOrderAllConcat(nodes, G, [y]);
    PreOrderAllConcat(nodes, cG, mine);
    MultisetStep(PreOrderAll(nodes, F), PreOrderAll(nodes, G), PreOrderAll(nodes, mine),
                 PreOrderAll(nodes, ChildrenOf(nodes, F)), PreOrderAll(nodes, cG), F, G, y);
  }

  /** The forest of one tree is the tree's root, then the forest of its children. */
  lemma PreOrderAllSingle(nodes: seq<Node>, y: NodeId)
    requires NullFreeTree(nodes, y)
    ensures Descending(nodes, y)
    ensures forall i :: 0 <= i < |ChildIds(nodes[y].children)| ==> Descending(nodes, ChildIds(nodes[y].children)[i])
    ensures PreOrderAll(nodes, [y]) == [y] + PreOrderAll(nodes, ChildIds(nodes[y].children))
  {
    PreOrderUnfold(nodes, y);
    assert PreOrderAll(nodes, [y]) == PreOrder(nodes, Some(y)) + PreOrderAll(nodes, []);
  }

  lemma MultisetStep(all: seq<NodeId>, allG: seq<NodeId>, allMine: seq<NodeId>, below: seq<NodeId>,
                     belowG: seq<NodeId>, F: seq<NodeId>, G: seq<NodeId>, y: NodeId)
    requires all == allG + ([y] + allMine) && below == belowG + allMine && F == G + [y]
    requires multiset(allG) == multiset(G) + multiset(belowG)
    ensures multiset(all) == multiset(F) + multiset(below)
  {
  }

  lemma {:induction false} LevelOrderForest(nodes: seq<Node>, F: seq<NodeId>)
    requires AllNullFree(nodes, F)
    ensures forall i :: 0 <= i < |F| ==> Descending(nodes, F[i])
    ensures multiset(LevelOrder(nodes, F)) == multiset(PreOrderAll(nodes, F))
    decreases Bound(F)
  {
    AllNullFreeDescending(nodes, F);
    if F != [] {
      NextLevelBound(nodes, F);
      LevelOrderForest(nodes, ChildrenOf(nodes, F));
      ForestUnfold(nodes, F);
    }
  }

  /**
   * `traverseLevelOrder` visits the same nodes as `traversePreOrder` from the
   * root, the same number of times, root first.
   */
  lemma LevelOrderMatchesPreOrder(nodes: seq<Node>, r: NodeId)
    requires NullFreeTree(nodes, r)
    ensures Descending(nodes, r)
    ensures LevelOrder(nodes, [r])[0] == r
    ensures multiset(LevelOrder(nodes, [r])) == multiset(PreOrder(nodes, Some(r)))
  {
    assert AllNullFree(nodes, [r]);
    NullFreeDescending(nodes, r);
    LevelOrderForest(nodes, [r]);
    assert PreOrderAll(nodes, [r]) == PreOrder(nodes, Some(r)) + PreOrderAll(nodes, []);
  }

  /** On a well-formed tree, level order visits every node of the subtree exactly once. */
  lemma LevelOrderOnce(nodes: seq<Node>, r: NodeId)
    requires WellFormed(nodes) && NullFreeTree(nodes, r)
    ensures AllNullFree(nodes, [r])
    ensures forall x :: multiset(LevelOrder(nodes, [r]))[x] == if x in Subtree(nodes, r) then 1 else 0
    ensures |LevelOrder(nodes, [r])| == |Subtree(nodes, r)|
  {
    assert AllNullFree(nodes, [r]);
    LevelOrderMatchesPreOrder(nodes, r);
    PreOrderOnce(nodes, r);
    assert |multiset(LevelOrder(nodes, [r]))| == |multiset(PreOrder(nodes, Some(r)))|;
  }

  // ---- depth order ---------------------------------------------------------

  /** Every node of `F` is at depth `d` below `r`. */
  ghost predicate AtDepth(nodes: seq<Node>, F: seq<NodeId>, r: NodeId, d: nat)
    requires WellFormed(nodes)
  {
    forall i :: 0 <= i < |F| ==> F[i] < |nodes| && Depth(nodes, F[i], r) == Some(d)
  }

  /** The depths along `s`, all defined, never decrease and are at least `d`. */
  ghost predicate DepthSorted(nodes: seq<Node>, s: seq<NodeId>, r: NodeId, d: nat)
    requires WellFormed(nodes)
  {
    && (forall i :: 0 <= i < |s| ==> s[i] < |nodes| && Depth(nodes, s[i], r).Some? && d <= Depth(nodes, s[i], r).value)
    && (forall i, j :: 0 <= i < j < |s| && s[i] < |nodes| && s[j] < |nodes| ==>
          Depth(nodes, s[i], r).Some? && Depth(nodes, s[j], r).Some? &&
          Depth(nodes, s[i], r).value <= Depth(nodes, s[j], r).value)
  }

  lemma {:induction false} ChildrenAtNextDepth(nodes: seq<Node>, F: seq<NodeId>, r: NodeId, d: nat)
    requires WellFormed(nodes) && AllNullFree(nodes, F) && AtDepth(nodes, F, r, d)
    ensures AtDepth(nodes, ChildrenOf(nodes, F), r, d + 1)
    decreases |F|
  {
    if F != [] {
      var G, y := F[..|F| - 1], F[|F| - 1];
      AtDepthSplit(nodes, F, r, d);
      ChildrenAtNextDepth(nodes, G, r, d);
      ChildrenOfSnoc(nodes, G, y);
      OwnChildrenAtNextDepth(nodes, y, r, d);
      AtDepthConcat(nodes, ChildrenOf(nodes, G), ChildIds(nodes[y].children), r, d + 1);
    }
  }

  lemma AtDepthSplit(nodes: seq<Node>, F: seq<NodeId>, r: NodeId, d: nat)
    requires WellFormed(nodes) && AllNullFree(nodes, F) && AtDepth(nodes, F, r, d) && F != []
    ensures F == F[..|F| - 1] + [F[|F| - 1]]
    ensures AllNullFree(nodes, F[..|F| - 1]) && AtDepth(nodes, F[..|F| - 1], r, d)
    ensures NullFreeTree(nodes, F[|F| - 1]) && Depth(nodes, F[|F| - 1], r) == Some(d)
  {
  }

  /** The children of one node at depth `d` are at depth `d + 1`. */
  lemma OwnChildrenAtNextDepth(nodes: seq<Node>, y: NodeId, r: NodeId, d: nat)
    requires WellFormed(nodes) && NullFreeTree(nodes, y) && Depth(nodes, y, r) == Some(d)
    ensures AtDepth(nodes, ChildIds(nodes[y].children), r, d + 1)
  {
    var mine := ChildIds(nodes[y].children);
    forall i | 0 <= i < |mine|
      ensures mine[i] < |nodes| && Depth(nodes, mine[i], r) == Some(d + 1)
    {
      ChildDepth(nodes, y, i, r);
    }
  }

  lemma AtDepthConcat(nodes: seq<Node>, A: seq<NodeId>, B: seq<NodeId>, r: NodeId, d: nat)
    requires WellFormed(nodes) && AtDepth(nodes, A, r, d) && AtDepth(nodes, B, r, d)
    ensures AtDepth(nodes, A + B, r, d)
  {
    forall i | 0 <= i < |A + B|
      ensures (A + B)[i] < |nodes| && Depth(nodes, (A + B)[i], r) == Some(d)
    {
      if i < |A| {
        assert (A + B)[i] == A[i];
      } else {
        assert (A + B)[i] == B[i - |A|];
      }
    }
  }

  lemma {:induction false} LevelOrderSorted(nodes: seq<Node>, F: seq<NodeId>, r: NodeId, d: nat)
    requires WellFormed(nodes) && AllNullFree(nodes, F) && AtDepth(nodes, F, r, d)
    ensures DepthSorted(nodes, LevelOrder(nodes, F), r, d)
    decreases Bound(F)
  {
    if F != [] {
      var next := ChildrenOf(nodes, F);
      NextLevelBound(nodes, F);
      ChildrenAtNextDepth(nodes, F, r, d);
      LevelOrderSorted(nodes, next, r, d + 1);
      var s := LevelOrder(nodes, F);
      var t := LevelOrder(nodes, next);
      assert s == F + t;
      forall i | 0 <= i < |s|
        ensures s[i] < |nodes| && Depth(nodes, s[i], r).Some? && d <= Depth(nodes, s[i], r).value
      {
        if i < |F| { assert s[i] == F[i]; } else { assert s[i] == t[i - |F|]; }
      }
      forall i, j | 0 <= i < j < |s| && s[i] < |nodes| && s[j] < |nodes|
        ensures Depth(nodes, s[i], r).Some? && Depth(nodes, s[j], r).Some? &&
                Depth(nodes, s[i], r).value <= Depth(nodes, s[j], r).value
      {
        if j < |F| {
          assert s[i] == F[i] && s[j] == F[j];
        } else if i < |F| {
          assert s[i] == F[i] && s[j] == t[j - |F|];
        } else {
          assert s[i] == t[i - |F|] && s[j] == t[j - |F|];
        }
      }
    }
  }

  /** Level order visits every node at depth `d` before any node at depth `d + 1`. */
  lemma LevelOrderByDepth(nodes: seq<Node>, r: NodeId)
    requires WellFormed(nodes) && NullFreeTree(nodes, r)
    ensures AllNullFree(nodes, [r])
    ensures var s := LevelOrder(nodes, [r]);
            forall i, j :: 0 <= i < j < |s| ==>
              s[i] < |nodes| && s[j] < |nodes| &&
              Depth(nodes, s[i], r).Some? && Depth(nodes, s[j], r).Some? &&
              Depth(nodes, s[i], r).value <= Depth(nodes, s[j], r).value
  {
    assert AllNullFree(nodes, [r]);
    assert AtDepth(nodes, [r], r, 0);
    LevelOrderSorted(nodes, [r], r, 0);
  }

  // ---- sibling order -------------------------------------------------------

  /** `cs` occurs in `s` as the block starting at `o`. */
  predicate BlockAt(s: seq<NodeId>, cs: seq<NodeId>, o: nat) {
    o + |cs| <= |s| && s[o..o + |cs|] == cs
  }

  /** Every node level order visits roots a null-free subtree. */
  lemma {:induction false} LevelOrderNullFree(nodes: seq<Node>, F: seq<NodeId>)
    requires AllNullFree(nodes, F)
    ensures AllNullFree(nodes, LevelOrder(nodes, F))
    decreases Bound(F)
  {
    if F != [] {
      var G := ChildrenOf(nodes, F);
      NextLevelBound(nodes, F);
      LevelOrderNullFree(nodes, G);
      var s, t := LevelOrder(nodes, F), LevelOrder(nodes, G);
      assert s == F + t;
      forall i | 0 <= i < |s|
        ensures NullFreeTree(nodes, s[i])
      {
        if i < |F| { assert s[i] == F[i]; } else { assert s[i] == t[i - |F|]; }
      }
    }
  }

  /** The children of the first `k` nodes of `F` come first among the children of `F`. */
  lemma {:induction false} ChildrenOfPrefix(nodes: seq<Node>, F: seq<NodeId>, k: nat)
    requires AllNullFree(nodes, F) && k <= |F|
    ensures AllNullFree(nodes, F[..k])
    ensures |ChildrenOf(nodes, F[..k])| <= |ChildrenOf(nodes, F)|
    ensures ChildrenOf(nodes, F)[..|ChildrenOf(nodes, F[..k])|] == ChildrenOf(nodes, F[..k])
    decreases |F| - k
  {
    if k == |F| {
      assert F[..k] == F;
    } else {
      var G := F[..|F| - 1];
      assert G[..k] == F[..k];
      ChildrenOfPrefix(nodes, G, k);
    }
  }

  /** The children of the first `k + 1` nodes: those of the first `k`, then those of `F[k]`. */
  lemma ChildrenOfTake(nodes: seq<Node>, F: seq<NodeId>, k: nat)
    requires AllNullFree(nodes, F) && k < |F|
    ensures NullFreeTree(nodes, F[k]) && AllNullFree(nodes, F[..k]) && AllNullFree(nodes, F[..k + 1])
    ensures ChildrenOf(nodes, F[..k + 1]) == ChildrenOf(nodes, F[..k]) + ChildIds(nodes[F[k]].children)
  {
    assert F[..k + 1] == F[..k] + [F[k]];
    ChildrenOfSnoc(nodes, F[..k], F[k]);
  }

  /** A sequence ending in `cs` holds `cs` as a block at its end. */
  lemma BlockAtEnd(q: seq<NodeId>, cs: seq<NodeId>)
    ensures BlockAt(q + cs, cs, |q|)
  {
    assert (q + cs)[|q|..|q| + |cs|] == cs;
  }

  /** The children of `F[k]` sit, in their list order, as one block among the children of `F`. */
  lemma ChildrenOfBlock(nodes: seq<Node>, F: seq<NodeId>, k: nat)
    requires AllNullFree(nodes, F) && k < |F|
    ensures NullFreeTree(nodes, F[k])
    ensures var cs := ChildIds(nodes[F[k]].children);
            var G := ChildrenOf(nodes, F);
            exists o: nat :: BlockAt(G, cs, o)
  {
    var cs := ChildIds(nodes[F[k]].children);
    ChildrenOfTake(nodes, F, k);
    ChildrenOfPrefix(nodes, F, k + 1);
    var Q := ChildrenOf(nodes, F[..k]);
    BlockAtEnd(Q, cs);
    BlockExtend(Q + cs, ChildrenOf(nodes, F), cs, |Q|);
  }

  /** A block of `t` is a block of `F + t`, shifted by `|F|`. */
  lemma BlockShift(F: seq<NodeId>, t: seq<NodeId>, cs: seq<NodeId>, o: nat)
    requires BlockAt(t, cs, o)
    ensures BlockAt(F + t, cs, |F| + o)
  {
    assert (F + t)[|F| + o..|F| + o + |cs|] == t[o..o + |cs|];
  }

  /** A block of a prefix `G` of `t` is a block of `t`. */
  lemma BlockExtend(G: seq<NodeId>, t: seq<NodeId>, cs: seq<NodeId>, o: nat)
    requires |G| <= |t| && t[..|G|] == G && BlockAt(G, cs, o)
    ensures BlockAt(t, cs, o)
  {
    assert t[o..o + |cs|] == G[o..o + |cs|];
  }

  /**
   * In level order the children of a visited node are visited after it, in
   * their list order and with nothing between them.
   */
  lemma {:induction false} LevelOrderChildrenInOrder(nodes: seq<Node>, F: seq<NodeId>, p: nat)
    requires AllNullFree(nodes, F) && p < |LevelOrder(nodes, F)|
    ensures NullFreeTree(nodes, LevelOrder(nodes, F)[p])
    ensures var s := LevelOrder(nodes, F);
            var cs := ChildIds(nodes[s[p]].children);
            exists o: nat :: p < o && BlockAt(s, cs, o)
    decreases Bound(F)
  {
    LevelOrderNullFree(nodes, F);
    var s := LevelOrder(nodes, F);
    var G := ChildrenOf(nodes, F);
    NextLevelBound(nodes, F);
    var t := LevelOrder(nodes, G);
    assert s == F + t;
    if p < |F| {
      assert s[p] == F[p];
      var cs := ChildIds(nodes[F[p]].children);
      ChildrenOfBlock(nodes, F, p);
      var o: nat :| BlockAt(G, cs, o);
      BlockExtend(G, t, cs, o);
      BlockShift(F, t, cs, o);
    } else {
      assert s[p] == t[p - |F|];
      var cs := ChildIds(nodes[t[p - |F|]].children);
      LevelOrderChildrenInOrder(nodes, G, p - |F|);
      var o: nat :| p - |F| < o && BlockAt(t, cs, o);
      BlockShift(F, t, cs, o);
    }
  }

  /** From the root: a node's children are visited later, consecutively, in list order. */
  lemma LevelOrderSiblings(nodes: seq<Node>, r: NodeId, p: nat)
    requires NullFreeTree(nodes, r) && p < |LevelOrder(nodes, [r])|
    ensures AllNullFree(nodes, [r]) && NullFreeTree(nodes, LevelOrder(nodes, [r])[p])
    ensures var s := LevelOrder(nodes, [r]);
            var cs := ChildIds(nodes[s[p]].children);
            exists o: nat :: p < o && BlockAt(s, cs, o)
  {
    assert AllNullFree(nodes, [r]);
    LevelOrderChildrenInOrder(nodes, [r], p);
  }
}
