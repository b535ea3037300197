/**
 * The syntax tree container (src/ast.cpp, inc/ast.hpp).
 *
 * Nodes live in an `Arena`, a growing sequence of node records addressed by
 * `NodeId`. A node's `children` are the ids of the nodes it owns (`None` for a
 * null child pointer) and `parent` is the non-owning back link. Because a node
 * is built from children that already exist, every child id is smaller than
 * its parent's id; the traversals terminate on that order.
 */
module Syntax {
  import opened Wrappers
  import opened Scanning
  import opened Seqs

  type NodeId = nat

  datatype NodeKind =
    | TopDecl
    | ModuleDecl | FunctionDecl | StructDecl | InterfaceDecl | ImplDecl | ImportDecl
    | ConstructorDecl | OperatorDecl | VarDecl
    | ReturnStmt | PrintStmt | ExprStmt | BlockStmt | IfStmt | WhileStmt | ForStmt
    | BinaryExpr | UnaryExpr | CallExpr | MemberAccess | IdentifierExpr | Literal | GroupExpr
    | Parameter | TypeRef | StringInterpolation | InterpolationText | ArrayAccess
    | ThisExpr | RangeExpr

  datatype TypeInfo = TypeInfo(name: string, isBuiltin: bool, isGeneric: bool, genericParams: seq<TypeInfo>)

  /** The value-initialised `TypeInfo` every new node starts with. */
  const NoType := TypeInfo("", false, false, [])

  datatype Node = Node(token: Token, kind: NodeKind, typeInfo: TypeInfo,
                       children: seq<Option<NodeId>>, parent: Option<NodeId>)

  /**
   * The ownership invariant of the node records: every child is an older node
   * that links back to its owner, no node owns the same child twice, and a
   * parent link points at a node that owns this one.
   */
  ghost predicate WellFormed(nodes: seq<Node>) {
    && (forall n, i :: 0 <= n < |nodes| && 0 <= i < |nodes[n].children| && nodes[n].children[i].Some? ==>
          nodes[n].children[i].value < n && nodes[nodes[n].children[i].value].parent == Some(n))
    && (forall n, i, j :: 0 <= n < |nodes| && 0 <= i < j < |nodes[n].children| && nodes[n].children[i].Some? ==>
          nodes[n].children[i] != nodes[n].children[j])
    && (forall x :: 0 <= x < |nodes| && nodes[x].parent.Some? ==>
          x < nodes[x].parent.value < |nodes| && Some(x) in nodes[nodes[x].parent.value].children)
  }

  /** The ids of a list of children that has no null entry, in list order. */
  function ChildIds(cs: seq<Option<NodeId>>): (r: seq<NodeId>)
    requires forall i :: 0 <= i < |cs| ==> cs[i].Some?
    ensures |r| == |cs| && forall i :: 0 <= i < |r| ==> r[i] == cs[i].value
  {
    if cs == [] then [] else ChildIds(cs[..|cs| - 1]) + [cs[|cs| - 1].value]
  }

  /**
   * The subtree below `x` is complete and has no null child pointers, which
   * the level-order traversal needs because it dereferences every child.
   */
  predicate NullFreeTree(nodes: seq<Node>, x: NodeId)
    decreases x
  {
    && x < |nodes|
    && forall i :: 0 <= i < |nodes[x].children| ==>
         && nodes[x].children[i].Some?
         && nodes[x].children[i].value < x
         && NullFreeTree(nodes, nodes[x].children[i].value)
  }

  /**
   * Every node of the subtree below `x` is in range and older than its
   * parent, so recursion over children terminates. Null children are allowed.
   */
  predicate Descending(nodes: seq<Node>, x: NodeId)
    decreases x
  {
    && x < |nodes|
    && forall i :: 0 <= i < |nodes[x].children| && nodes[x].children[i].Some? ==>
         && nodes[x].children[i].value < x
         && Descending(nodes, nodes[x].children[i].value)
  }

  /** Every node of `F` roots a null-free subtree. */
  predicate AllNullFree(nodes: seq<Node>, F: seq<NodeId>) {
    forall i :: 0 <= i < |F| ==> NullFreeTree(nodes, F[i])
  }

  /** `traversePreOrder`: a node, then the subtree of each child from left to right; nothing for null. */
  function PreOrder(nodes: seq<Node>, p: Option<NodeId>): (r: seq<NodeId>)
    requires p.Some? ==> Descending(nodes, p.value)
    ensures p.None? ==> r == []
    ensures p.Some? ==> |r| >= 1 && r[0] == p.value
    ensures forall i :: 0 <= i < |r| ==> r[i] < |nodes|
    ensures p.Some? ==> forall i :: 0 <= i < |r| ==> r[i] <= p.value
    decreases if p.Some? then p.value + 1 else 0, 0, 0
  {
    if p.None? then []
    else [p.value] + PreOrderSeq(nodes, nodes[p.value].children, p.value)
  }

  /** The pre-order visits of a list of sibling subtrees, all below `above`. */
  function PreOrderSeq(nodes: seq<Node>, cs: seq<Option<NodeId>>, ghost above: nat): (r: seq<NodeId>)
    requires forall i :: 0 <= i < |cs| && cs[i].Some? ==> cs[i].value < above && Descending(nodes, cs[i].value)
    ensures forall i :: 0 <= i < |r| ==> r[i] < |nodes| && r[i] < above
    decreases above, 1, |cs|
  {
    if cs == [] then []
    else PreOrder(nodes, cs[0]) + PreOrderSeq(nodes, cs[1..], above)
  }

  /** One past the largest id in `F`, or 0 when `F` is empty. */
  function Bound(F: seq<NodeId>): (b: nat)
    ensures forall i :: 0 <= i < |F| ==> F[i] < b
    ensures F != [] ==> b >= 1
  {
    if F == [] then 0
    else
      var b0 := Bound(F[..|F| - 1]);
      if F[|F| - 1] + 1 > b0 then F[|F| - 1] + 1 else b0
  }

  /** The children of every node of `F`, in order: what the queue receives while `F` is dequeued. */
  function ChildrenOf(nodes: seq<Node>, F: seq<NodeId>): (r: seq<NodeId>)
    requires AllNullFree(nodes, F)
    ensures AllNullFree(nodes, r)
    ensures forall i :: 0 <= i < |r| ==> r[i] + 1 < Bound(F)
  {
    if F == [] then []
    else
      var y := F[|F| - 1];
      assert NullFreeTree(nodes, y);
      var cs := nodes[y].children;
      var mine := ChildIds(cs);
      ChildrenOf(nodes, F[..|F| - 1]) + mine
  }

  /** Breadth-first order: the nodes of `F`, then level order of all their children. */
  function LevelOrder(nodes: seq<Node>, F: seq<NodeId>): (r: seq<NodeId>)
    requires AllNullFree(nodes, F)
    ensures |r| >= |F| && r[..|F|] == F
    decreases Bound(F)
  {
    if F == [] then []
    else
      var next := ChildrenOf(nodes, F);
      BoundBelow(next, Bound(F) - 1);
      F + LevelOrder(nodes, next)
  }

  lemma BoundBelow(F: seq<NodeId>, b: nat)
    requires forall i :: 0 <= i < |F| ==> F[i] < b
    ensures Bound(F) <= b
  {
    if F != [] {
      BoundBelow(F[..|F| - 1], b);
    }
  }

  /**
   * The state of the level-order queue: the current level `done + rest` has
   * been dequeued up to `rest`, the queue holds `rest` and then the children of
   * `done`, and `tail` is the level order of everything below the level.
   */
  ghost predicate QueueState(nodes: seq<Node>, done: seq<NodeId>, rest: seq<NodeId>, tail: seq<NodeId>,
                             queue: seq<NodeId>, visits: seq<NodeId>, target: seq<NodeId>)
  {
    && AllNullFree(nodes, done) && AllNullFree(nodes, rest) && AllNullFree(nodes, done + rest)
    && tail == LevelOrder(nodes, ChildrenOf(nodes, done + rest))
    && queue == rest + ChildrenOf(nodes, done)
    && visits + rest + tail == target
  }

  lemma QueueStart(nodes: seq<Node>, r: NodeId)
    requires NullFreeTree(nodes, r)
    ensures QueueState(nodes, [], [r], LevelOrder(nodes, ChildrenOf(nodes, [r])), [r], [], LevelOrder(nodes, [r]))
  {
    assert [] + [r] == [r];
    NextLevelBound(nodes, [r]);
  }

  /** Dequeuing the front of the current level: the queue gains its children, the visits gain it. */
  lemma DequeueStep(nodes: seq<Node>, done: seq<NodeId>, rest: seq<NodeId>, tail: seq<NodeId>,
                    queue: seq<NodeId>, visits: seq<NodeId>, target: seq<NodeId>)
    requires QueueState(nodes, done, rest, tail, queue, visits, target) && rest != []
    ensures queue != [] && queue[0] == rest[0] && NullFreeTree(nodes, rest[0])
    ensures (done + [rest[0]]) + rest[1..] == done + rest
    ensures QueueState(nodes, done + [rest[0]], rest[1..], tail,
                       queue[1..] + ChildIds(nodes[rest[0]].children), visits + [rest[0]], target)
  {
    var x := rest[0];
    var done', rest' := done + [x], rest[1..];
    assert [x] + rest' == rest;
    AppendAssoc(done, [x], rest');
    ChildrenOfSnoc(nodes, done, x);
    AppendAssoc([x], rest', ChildrenOf(nodes, done));
    assert queue[1..] == rest' + ChildrenOf(nodes, done);
    AppendAssoc(rest', ChildrenOf(nodes, done), ChildIds(nodes[x].children));
    AppendAssoc(visits, [x], rest');
  }

  /** With the current level dequeued, the queue holds exactly the next level. */
  lemma NextLevel(nodes: seq<Node>, done: seq<NodeId>, tail: seq<NodeId>,
                  queue: seq<NodeId>, visits: seq<NodeId>, target: seq<NodeId>)
    requires QueueState(nodes, done, [], tail, queue, visits, target) && queue != []
    ensures Bound(queue) < Bound(done + [])
    ensures QueueState(nodes, [], queue, LevelOrder(nodes, ChildrenOf(nodes, queue)), queue, visits, target)
  {
    AppendEmpty(done);
    AppendEmpty(ChildrenOf(nodes, done));
    assert queue == ChildrenOf(nodes, done);
    NextLevelBound(nodes, done);
    var tail' := LevelOrder(nodes, ChildrenOf(nodes, queue));
    NextLevelBound(nodes, queue);
    assert tail == queue + tail';
    AppendEmpty(visits);
    AppendAssoc(visits, queue, tail');
    AppendEmpty(queue);
  }

  /** Dequeuing `y` after `F` adds its children after those of `F`. */
  lemma ChildrenOfSnoc(nodes: seq<Node>, F: seq<NodeId>, y: NodeId)
    requires AllNullFree(nodes, F) && NullFreeTree(nodes, y)
    ensures AllNullFree(nodes, F + [y])
    ensures ChildrenOf(nodes, F + [y]) == ChildrenOf(nodes, F) + ChildIds(nodes[y].children)
  {
    assert (F + [y])[..|F|] == F;
  }

  lemma QueueEnd(nodes: seq<Node>, done: seq<NodeId>, rest: seq<NodeId>, tail: seq<NodeId>,
                 visits: seq<NodeId>, target: seq<NodeId>)
    requires QueueState(nodes, done, rest, tail, [], visits, target)
    ensures visits == target
  {
    assert done + rest == done;
  }

  lemma NextLevelBound(nodes: seq<Node>, L: seq<NodeId>)
    requires AllNullFree(nodes, L) && L != []
    ensures Bound(ChildrenOf(nodes, L)) < Bound(L)
    ensures LevelOrder(nodes, L) == L + LevelOrder(nodes, ChildrenOf(nodes, L))
  {
    BoundBelow(ChildrenOf(nodes, L), Bound(L) - 1);
  }

  /** Appending a node that adopts unowned children keeps the ownership invariant. */
  lemma AdoptKeepsWellFormed(o: seq<Node>, n: seq<Node>, id: NodeId, children: seq<Option<NodeId>>)
    requires WellFormed(o) && id == |o| && |n| == id + 1
    requires forall i :: 0 <= i < |children| && children[i].Some? ==>
               children[i].value < |o| && o[children[i].value].parent.None?
    requires forall i, j :: 0 <= i < j < |children| && children[i].Some? ==> children[i] != children[j]
    requires n[id].children == children && n[id].parent.None?
    requires forall x :: 0 <= x < id ==>
               n[x] == if Some(x) in children then o[x].(parent := Some(id)) else o[x]
    ensures WellFormed(n)
  {
    forall x, i | 0 <= x < |n| && 0 <= i < |n[x].children| && n[x].children[i].Some?
      ensures n[x].children[i].value < x && n[n[x].children[i].value].parent == Some(x)
    {
      var c := n[x].children[i].value;
      if x < id {
        assert o[x].children[i] == Some(c);
        assert Some(c) !in children;
      }
    }
    forall x | 0 <= x < |n| && n[x].parent.Some?
      ensures x < n[x].parent.value < |n| && Some(x) in n[n[x].parent.value].children
    {
      if Some(x) !in children {
        assert o[x].parent == n[x].parent;
      }
    }
  }

  /**
   * The record store every `ASTNode` lives in. Allocation appends; the only
   * later change is the parent link a new owner writes into its children.
   */
  class Arena {
    var nodes: seq<Node>

    ghost predicate Valid()
      reads this
    {
      WellFormed(nodes)
    }

    constructor()
      ensures Valid() && nodes == []
    {
      nodes := [];
    }

    /**
     * `ASTNode(t, nt, children)`: the new node keeps the children in the given
     * order and becomes the parent of each non-null child. The children are
     * moved in, so each must be an existing node without an owner, and no
     * node may be passed twice.
     */
    method NewNode(token: Token, kind: NodeKind, children: seq<Option<NodeId>>) returns (id: NodeId)
      requires Valid()
      requires forall i :: 0 <= i < |children| && children[i].Some? ==>
                 children[i].value < |nodes| && nodes[children[i].value].parent.None?
      requires forall i, j :: 0 <= i < j < |children| && children[i].Some? ==> children[i] != children[j]
      modifies this
      ensures Valid()
      ensures id == old(|nodes|) && |nodes| == id + 1
      ensures nodes[id] == Node(token, kind, NoType, children, None)
      ensures forall x :: 0 <= x < id ==>
                nodes[x] == if Some(x) in children then old(nodes[x]).(parent := Some(id)) else old(nodes[x])
      ensures children == [] ==> nodes == old(nodes) + [Node(token, kind, NoType, children, None)]
    {
      id := |nodes|;
      nodes := nodes + [Node(token, kind, NoType, children, None)];
      var k := 0;
      while k < |children|
        invariant 0 <= k <= |children|
        invariant |nodes| == id + 1 && nodes[id] == Node(token, kind, NoType, children, None)
        invariant forall x :: 0 <= x < id ==>
                    nodes[x] == if Some(x) in children[..k] then old(nodes[x]).(parent := Some(id)) else old(nodes[x])
      {
        assert children[..k + 1] == children[..k] + [children[k]];
        if children[k].Some? {
          var c := children[k].value;
          nodes := nodes[c := nodes[c].(parent := Some(id))];
        }
        k := k + 1;
      }
      assert children[..k] == children;
      if children == [] {
        assert nodes == old(nodes) + [Node(token, kind, NoType, children, None)];
      }
      AdoptKeepsWellFormed(old(nodes), nodes, id, children);
    }
  }

  /** The inner loop of `traverseLevelOrder`: push every child, in order, onto the queue. */
  method EnqueueChildren(queue: seq<NodeId>, cs: seq<Option<NodeId>>) returns (q: seq<NodeId>)
    requires forall i :: 0 <= i < |cs| ==> cs[i].Some?
    ensures q == queue + ChildIds(cs)
  {
    q := queue;
    var i := 0;
    while i < |cs|
      invariant 0 <= i <= |cs|
      invariant q == queue + ChildIds(cs[..i])
    {
      assert cs[..i + 1][..i] == cs[..i];
      q := q + [cs[i].value];
      i := i + 1;
    }
    assert cs[..i] == cs;
  }

  /** `ASTTree`: the owner of the root node of one tree. */
  class ASTTree {
    const arena: Arena
    var root: Option<NodeId>

    ghost predicate Valid()
      reads this, arena
    {
      arena.Valid() && (root.Some? ==> root.value < |arena.nodes|)
    }

    constructor(arena: Arena, r: Option<NodeId>)
      requires arena.Valid() && (r.Some? ==> r.value < |arena.nodes|)
      ensures Valid() && this.arena == arena && root == r
    {
      this.arena := arena;
      root := r;
    }

    method SetRoot(node: Option<NodeId>)
      requires Valid() && (node.Some? ==> node.value < |arena.nodes|)
      modifies this`root
      ensures Valid() && root == node && GetRoot() == node
    {
      root := node;
    }

    function GetRoot(): (r: Option<NodeId>)
      reads this, arena
      ensures Valid() && r.Some? ==> r.value < |arena.nodes|
    {
      root
    }

    method Clear()
      requires Valid()
      modifies this`root
      ensures Valid() && IsEmpty() && GetRoot() == None
    {
      root := None;
    }

    function IsEmpty(): (b: bool)
      reads this
      ensures b <==> GetRoot() == None
    {
      root.None?
    }

    /**
     * `traverseLevelOrder`: the nodes in the order the queue hands them to the
     * visitor. Each dequeued node pushes all its children, null or not, so the
     * tree must have no null children.
     */
    method TraverseLevelOrder() returns (visits: seq<NodeId>)
      requires root.Some? ==> NullFreeTree(arena.nodes, root.value)
      ensures visits == if root.None? then [] else LevelOrder(arena.nodes, [root.value])
    {
      visits := [];
      if root.None? {
        return;
      }
      var nodes := arena.nodes;
      var queue: seq<NodeId> := [root.value];
      ghost var target := LevelOrder(nodes, [root.value]);
      ghost var done: seq<NodeId>, rest: seq<NodeId> := [], [root.value];
      ghost var tail := LevelOrder(nodes, ChildrenOf(nodes, rest));
      QueueStart(nodes, root.value);
      while queue != []
        invariant QueueState(nodes, done, rest, tail, queue, visits, target)
        decreases Bound(done + rest), |rest|
      {
        if rest == [] {
          NextLevel(nodes, done, tail, queue, visits, target);
          done, rest, tail := [], queue, LevelOrder(nodes, ChildrenOf(nodes, queue));
          assert done + rest == queue;
        }
        var node := queue[0];
        DequeueStep(nodes, done, rest, tail, queue, visits, target);
        queue := EnqueueChildren(queue[1..], nodes[node].children);
        visits := visits + [node];
        done, rest := done + [node], rest[1..];
      }
      QueueEnd(nodes, done, rest, tail, visits, target);
    }
  }
}
