/** Node counting, clearing and the statistics walk, against the stored prompts. */
module RadixStats {
  import opened Keys
  import opened RadixShape
  import opened RadixCanon
  import opened PrefixTree

  /** What one node, or a set of nodes, contributes to the statistics. */
  datatype Totals = Totals(nodes: nat, prefixLen: nat, serverRefs: nat, servers: set<Ref>, leaves: nat,
                           depth: nat, maxDepth: nat, internalNodes: nat, children: nat)
  {
    function Plus(o: Totals): Totals {
      Totals(nodes + o.nodes, prefixLen + o.prefixLen, serverRefs + o.serverRefs, servers + o.servers,
             leaves + o.leaves, depth + o.depth, if maxDepth < o.maxDepth then o.maxDepth else maxDepth,
             internalNodes + o.internalNodes, children + o.children)
    }
  }

  const ZERO := Totals(0, 0, 0, {}, 0, 0, 0, 0, 0)

  function Named(servers: seq<Ref>): set<Ref> {
    set s | s in servers && s != Nil
  }

  function NodeTotals(k: Key, cell: Cell): Totals {
    if cell.kids == map[] then
      Totals(1, |cell.prefix|, |cell.servers|, Named(cell.servers), 1, |k|, |k|, 0, 0)
    else
      Totals(1, |cell.prefix|, |cell.servers|, Named(cell.servers), 0, 0, 0, 1, |cell.kids|)
  }

  ghost function Total(t: Shape, ks: set<Key>): Totals
    requires ks <= t.Keys
    decreases |ks|
  {
    if ks == {} then ZERO else var k :| k in ks; NodeTotals(k, t[k]).Plus(Total(t, ks - {k}))
  }

  lemma PlusLaws(a: Totals, b: Totals, c: Totals)
    ensures a.Plus(b.Plus(c)) == b.Plus(a.Plus(c)) == a.Plus(b).Plus(c)
    ensures ZERO.Plus(a) == a == a.Plus(ZERO)
  {
    assert a.servers + (b.servers + c.servers) == b.servers + (a.servers + c.servers);
    assert a.servers + (b.servers + c.servers) == a.servers + b.servers + c.servers;
    assert ZERO.servers + a.servers == a.servers == a.servers + ZERO.servers;
  }

  lemma {:induction false} TotalPick(t: Shape, ks: set<Key>, k: Key)
    requires ks <= t.Keys && k in ks
    ensures Total(t, ks) == NodeTotals(k, t[k]).Plus(Total(t, ks - {k}))
    decreases |ks|
  {
    var x :| x in ks && Total(t, ks) == NodeTotals(x, t[x]).Plus(Total(t, ks - {x}));
    if x != k {
      var rest := ks - {x} - {k};
      assert rest == ks - {k} - {x};
      TotalPick(t, ks - {x}, k);
      TotalPick(t, ks - {k}, x);
      PlusLaws(NodeTotals(x, t[x]), NodeTotals(k, t[k]), Total(t, rest));
    }
  }

  lemma {:induction false} TotalUnion(t: Shape, a: set<Key>, b: set<Key>)
    requires a <= t.Keys && b <= t.Keys && a !! b
    ensures Total(t, a + b) == Total(t, a).Plus(Total(t, b))
    decreases |a|
  {
    if a == {} {
      assert a + b == b;
      PlusLaws(Total(t, b), ZERO, ZERO);
    } else {
      var k :| k in a;
      TotalPick(t, a, k);
      TotalPick(t, a + b, k);
      assert a + b - {k} == a - {k} + b;
      TotalUnion(t, a - {k}, b);
      PlusLaws(NodeTotals(k, t[k]), Total(t, a - {k}), Total(t, b));
    }
  }

  // ----- a walk visits each subtree once

  /** The subtree at k without the branches in `left`. */
  ghost function Visited(t: Shape, k: Key, left: set<byte>): set<Key> {
    set x | x in t && k <= x && (x == k || x[|k|] !in left)
  }

  lemma VisitedStart(t: Shape, k: Key)
    requires Radix(t) && k in t
    ensures Visited(t, k, t[k].kids.Keys) == {k}
    ensures Visited(t, k, {}) == Below(t, k)
  {
    forall x | x in Visited(t, k, t[k].kids.Keys) ensures x == k {
      GoDown(t, k, x);
    }
  }

  lemma VisitedStep(t: Shape, k: Key, left: set<byte>, c: byte)
    requires Radix(t) && k in t && left <= t[k].kids.Keys && c in left
    ensures var r := t[k].kids[c];
            && r in t && Below(t, r) < Below(t, k)
            && Visited(t, k, left - {c}) == Visited(t, k, left) + Below(t, r)
            && Visited(t, k, left) !! Below(t, r)
  {
    var r := t[k].kids[c];
    assert EdgeOk(t, k, c);
    forall x | x in Below(t, r) ensures x in Below(t, k) && x[|k|] == c {
      assert k < r <= x && x[|k|] == r[|k|];
    }
    assert k in Below(t, k) && k !in Below(t, r);
    forall x | x in Visited(t, k, left - {c}) && x !in Visited(t, k, left) ensures x in Below(t, r) {
      GoDown(t, k, x);
    }
  }

  method CountNodes(tree: Tree, n: GORGONode) returns (count: nat)
    requires tree.Valid() && n in tree.nodes && n.name in tree.shape
    ensures count == |Below(tree.shape, n.name)|
    decreases Below(tree.shape, n.name)
  {
    ghost var t, k := tree.shape, n.name;
    assert tree.Fits(n);
    VisitedStart(t, k);
    count := 1;
    var left := n.children.Keys;
    while left != {}
      invariant left <= n.children.Keys && count == |Visited(t, k, left)|
    {
      var c :| c in left;
      VisitedStep(t, k, left, c);
      tree.ChildOf(n, c);
      var child := n.children[c];
      var below := CountNodes(tree, child);
      count := count + below;
      left := left - {c};
    }
  }

  /** Clearing reports the number of nodes, the root included, and leaves nothing stored. */
  method ClearPrefixCache(tree: Tree) returns (count: nat)
    requires tree.Valid()
    modifies tree
    ensures tree.Valid() && tree.Contents() == map[] && fresh(tree.nodes)
    ensures count == old(|tree.shape|)
  {
    tree.RootNamed();
    assert Below(tree.shape, []) == tree.shape.Keys;
    count := CountNodes(tree, tree.root);
    tree.Reset();
  }

  // ----- the statistics

  /** The totals after a walk from `start` has done the subtree at k without the branches in `left`. */
  ghost function WalkedSoFar(start: Totals, t: Shape, k: Key, left: set<byte>): Totals {
    start.Plus(Total(t, Visited(t, k, left)))
  }

  lemma WalkStart(t: Shape, k: Key)
    requires Radix(t) && k in t
    ensures Total(t, Visited(t, k, t[k].kids.Keys)) == NodeTotals(k, t[k])
    ensures Visited(t, k, {}) == Below(t, k)
  {
    VisitedStart(t, k);
    TotalPick(t, {k}, k);
    assert {k} - {k} == {};
    PlusLaws(NodeTotals(k, t[k]), ZERO, ZERO);
  }

  lemma WalkStep(start: Totals, t: Shape, k: Key, left: set<byte>, c: byte)
    requires Radix(t) && k in t && left <= t[k].kids.Keys && c in left
    ensures var r := t[k].kids[c];
            && EdgeOk(t, k, c) && Below(t, r) < Below(t, k)
            && WalkedSoFar(start, t, k, left).Plus(Total(t, Below(t, r))) == WalkedSoFar(start, t, k, left - {c})
  {
    var r := t[k].kids[c];
    assert EdgeOk(t, k, c);
    VisitedStep(t, k, left, c);
    TotalUnion(t, Visited(t, k, left), Below(t, r));
    PlusLaws(start, Total(t, Visited(t, k, left)), Total(t, Below(t, r)));
  }

  /** The variables that the walk closure of PrefixTreeStats updates. */
  class StatsWalk {
    var nodes: nat
    var leaves: nat
    var maxDepth: nat
    var totalServerRefs: nat
    var uniqueServers: set<Ref>
    var totalDepth: nat
    var totalPrefixLen: nat
    var totalChildren: nat
    var internalNodes: nat

    ghost function View(): Totals
      reads this
    {
      Totals(nodes, totalPrefixLen, totalServerRefs, uniqueServers, leaves, totalDepth, maxDepth,
             internalNodes, totalChildren)
    }

    constructor ()
      ensures View() == ZERO
    {
      nodes, leaves, maxDepth, totalServerRefs, uniqueServers := 0, 0, 0, 0, {};
      totalDepth, totalPrefixLen, totalChildren, internalNodes := 0, 0, 0, 0;
    }

    /** The part of the walk before its child loop: this node's own contribution. */
    method Visit(node: GORGONode, depth: nat, ghost cell: Cell)
      requires node.Matches(cell) && depth == |node.name|
      modifies this
      ensures View() == old(View()).Plus(NodeTotals(node.name, cell))
    {
      nodes := nodes + 1;
      totalPrefixLen := totalPrefixLen + |node.prefix|;
      totalServerRefs := totalServerRefs + |node.servers|;
      AddServers(node.servers);
      if |node.children| == 0 {
        leaves := leaves + 1;
        totalDepth := totalDepth + depth;
        if depth > maxDepth {
          maxDepth := depth;
        }
      } else {
        internalNodes := internalNodes + 1;
        totalChildren := totalChildren + |node.children|;
      }
      assert |cell.kids| == |cell.kids.Keys| == |node.children.Keys|;
    }

    method AddServers(servers: seq<Ref>)
      modifies `uniqueServers
      ensures uniqueServers == old(uniqueServers) + Named(servers)
    {
      for j := 0 to |servers|
        invariant uniqueServers == old(uniqueServers) + Named(servers[..j])
      {
        if servers[j] != Nil {
          uniqueServers := uniqueServers + {servers[j]};
        }
      }
      assert servers[..|servers|] == servers;
    }

    method Walk(tree: Tree, node: GORGONode, depth: nat)
      requires tree.Valid() && node in tree.nodes && node.name in tree.shape && depth == |node.name|
      modifies this
      ensures View() == old(View()).Plus(Total(tree.shape, Below(tree.shape, node.name)))
      decreases Below(tree.shape, node.name), 1
    {
      ghost var t, k, start := tree.shape, node.name, View();
      assert tree.Fits(node);
      WalkStart(t, k);
      Visit(node, depth, t[k]);
      var left := node.children.Keys;
      while left != {}
        invariant left <= node.children.Keys && View() == WalkedSoFar(start, t, k, left)
      {
        var c :| c in left;
        WalkChild(tree, node, depth, c, start, left);
        left := left - {c};
      }
    }

    /** One turn of the child loop: the branch under c. */
    method WalkChild(tree: Tree, node: GORGONode, depth: nat, c: byte, ghost start: Totals, ghost left: set<byte>)
      requires tree.Valid() && node in tree.nodes && node.name in tree.shape && depth == |node.name|
      requires c in left && left <= node.children.Keys
      requires View() == WalkedSoFar(start, tree.shape, node.name, left)
      modifies this
      ensures View() == WalkedSoFar(start, tree.shape, node.name, left - {c})
      decreases Below(tree.shape, node.name), 0
    {
      assert tree.Fits(node);
      tree.ChildOf(node, c);
      WalkStep(start, tree.shape, node.name, left, c);
      var child := node.children[c];
      Walk(tree, child, depth + |child.prefix|);
    }
  }
}
