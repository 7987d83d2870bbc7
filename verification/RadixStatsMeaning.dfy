/** What the totals of the statistics walk say about the stored prompts. */
module RadixStatsMeaning {
  import opened Keys
  import opened RadixShape
  import opened RadixCanon
  import opened PrefixTree
  import opened RadixStats
  import opened Sets

  /** The (prompt, server) pairs that are stored. */
  function Pairs(m: Contents): set<(Key, Ref)> {
    set k, s | k in m && s in m[k] :: (k, s)
  }

  /** The stored prompts that no other stored prompt extends. */
  ghost function Maximal(m: Contents): set<Key> {
    set k | k in m && forall x | x in m :: !(k < x)
  }

  ghost function PairsIn(t: Shape, ks: set<Key>): set<(Key, Ref)> {
    set k, s | k in ks && k in t && s in t[k].servers :: (k, s)
  }

  ghost function LeavesIn(t: Shape, ks: set<Key>): set<Key> {
    set k | k in ks && k in t && t[k].kids == map[]
  }

  ghost function KidsIn(t: Shape, ks: set<Key>): set<Key> {
    set k, c | k in ks && k in t && c in t[k].kids :: t[k].kids[c]
  }

  lemma {:induction false} NodeTotalsSum(t: Shape, ks: set<Key>)
    requires ks <= t.Keys
    ensures Total(t, ks).nodes == |ks| == Total(t, ks).leaves + Total(t, ks).internalNodes
    ensures Total(t, ks).leaves == |LeavesIn(t, ks)|
    decreases |ks|
  {
    if ks != {} {
      var k :| k in ks;
      TotalPick(t, ks, k);
      NodeTotalsSum(t, ks - {k});
      assert LeavesIn(t, ks) - {k} == LeavesIn(t, ks - {k});
    }
  }

  lemma {:induction false} DepthSum(t: Shape, ks: set<Key>)
    requires ks <= t.Keys
    ensures forall k | k in LeavesIn(t, ks) :: |k| <= Total(t, ks).maxDepth
    ensures Total(t, ks).maxDepth > 0 ==> exists k :: k in LeavesIn(t, ks) && |k| == Total(t, ks).maxDepth
    decreases |ks|
  {
    if ks != {} {
      var k :| k in ks;
      TotalPick(t, ks, k);
      DepthSum(t, ks - {k});
      assert forall x | x in LeavesIn(t, ks) :: x == k || x in LeavesIn(t, ks - {k});
      assert forall x | x in LeavesIn(t, ks - {k}) :: x in LeavesIn(t, ks);
      if t[k].kids == map[] {
        assert k in LeavesIn(t, ks);
      }
    }
  }

  /** The lengths of the given prompts. */
  function Lengths(ks: set<Key>): map<Key, nat> {
    map k | k in ks :: |k|
  }

  lemma {:induction false} LeafDepthSum(t: Shape, ks: set<Key>)
    requires ks <= t.Keys
    ensures Total(t, ks).depth == Sum(Lengths(t.Keys), LeavesIn(t, ks))
    decreases |ks|
  {
    if ks != {} {
      var k :| k in ks;
      TotalPick(t, ks, k);
      LeafDepthSum(t, ks - {k});
      if t[k].kids == map[] {
        SumPick(Lengths(t.Keys), LeavesIn(t, ks), k);
        assert LeavesIn(t, ks) - {k} == LeavesIn(t, ks - {k});
      } else {
        assert LeavesIn(t, ks) == LeavesIn(t, ks - {k});
      }
    }
  }

  /** The prefixes that end on the edge above a node: longer than its parent's name, up to its own. */
  ghost function OnEdge(k: Key, from: int): set<Key> {
    set i | 0 <= i <= |k| && from < i :: k[..i]
  }

  ghost function EdgesIn(t: Shape, ks: set<Key>): set<Key> {
    set k, i | k in ks && k in t && 0 <= i <= |k| && |k| - |t[k].prefix| < i :: k[..i]
  }

  lemma {:induction false} EdgeSize(k: Key, from: nat)
    requires from <= |k|
    ensures |OnEdge(k, from)| == |k| - from
    decreases |k| - from
  {
    if from == |k| {
      assert OnEdge(k, from) == {};
    } else {
      var longer := OnEdge(k, from + 1);
      EdgeSize(k, from + 1);
      forall x ensures x in OnEdge(k, from) <==> x in longer + {k[..from + 1]} {
      }
      assert OnEdge(k, from) == longer + {k[..from + 1]};
      assert forall x | x in longer :: |x| > from + 1;
      SizeWith(longer, k[..from + 1]);
    }
  }

  /** Where the edge above a node begins. */
  lemma AboveEdge(t: Shape, k: Key) returns (q: Key)
    requires Radix(t) && k in t && k != []
    ensures q in t && q < k && |q| == |k| - |t[k].prefix| && k[|q|] in t[q].kids && t[q].kids[k[|q|]] == k
  {
    q := Parent(t, k);
    assert EdgeOk(t, q, k[|q|]);
  }

  /** No string lies on two edges. */
  lemma EdgesApart(t: Shape, k: Key, r: Key, x: Key)
    requires Radix(t) && k in t && r in t && x <= k && x <= r
    requires |k| - |t[k].prefix| < |x| && |r| - |t[r].prefix| < |x|
    ensures k == r
  {
    var q := AboveEdge(t, k);
    var u := AboveEdge(t, r);
    PrefixesComparable(q, u, x);
    PrefixesComparable(u, q, x);
    GoDown(t, q, u);
    GoDown(t, u, q);
  }

  lemma EdgesPick(t: Shape, ks: set<Key>, k: Key)
    requires Radix(t) && ks <= t.Keys && k in ks
    ensures var mine := OnEdge(k, |k| - |t[k].prefix|);
            EdgesIn(t, ks) == EdgesIn(t, ks - {k}) + mine && EdgesIn(t, ks - {k}) !! mine
  {
    var mine := OnEdge(k, |k| - |t[k].prefix|);
    forall x | x in mine && x in EdgesIn(t, ks - {k}) ensures false {
      var r, i :| r in ks - {k} && 0 <= i <= |r| && |r| - |t[r].prefix| < i && r[..i] == x;
      EdgesApart(t, k, r, x);
    }
  }

  lemma {:induction false} LabelSum(t: Shape, ks: set<Key>)
    requires Radix(t) && ks <= t.Keys
    ensures Total(t, ks).prefixLen == |EdgesIn(t, ks)|
    decreases |ks|
  {
    if ks != {} {
      var k :| k in ks;
      TotalPick(t, ks, k);
      LabelSum(t, ks - {k});
      EdgesPick(t, ks, k);
      LabelFits(t, k);
      EdgeSize(k, |k| - |t[k].prefix|);
      SizeOfUnion(EdgesIn(t, ks - {k}), OnEdge(k, |k| - |t[k].prefix|));
    }
  }

  lemma LabelFits(t: Shape, k: Key)
    requires Radix(t) && k in t
    ensures |t[k].prefix| <= |k|
  {
    if k != [] {
      var q := AboveEdge(t, k);
    }
  }

  /** The non-empty prefixes of stored prompts. */
  ghost function Prefixes(m: Contents): set<Key> {
    set k, i | k in m && 0 < i <= |k| :: k[..i]
  }

  /** A non-empty prefix of a node's name lies on some edge. */
  lemma OnSomeEdge(t: Shape, a: Key, i: nat)
    requires Radix(t) && a in t && 0 < i <= |a|
    ensures a[..i] in EdgesIn(t, t.Keys)
  {
    var q := DeepestNode(t, a, i - 1);
    GoDown(t, q, a);
    var r := t[q].kids[a[|q|]];
    assert EdgeOk(t, q, a[|q|]);
    assert |r| >= i && a[..i] == r[..i];
  }

  /** The labels of the tree spell out each prefix of a stored prompt exactly once. */
  lemma EdgesArePrefixes(t: Shape)
    requires WellFormed(t)
    ensures EdgesIn(t, t.Keys) == Prefixes(ContentsOf(t))
  {
    var m := ContentsOf(t);
    forall x | x in EdgesIn(t, t.Keys) ensures x in Prefixes(m) {
      var k, i :| k in t && 0 <= i <= |k| && |k| - |t[k].prefix| < i && k[..i] == x;
      LabelFits(t, k);
      var a := StoredBelow(t, k);
      assert x == a[..i];
    }
    forall x | x in Prefixes(m) ensures x in EdgesIn(t, t.Keys) {
      var a, i :| a in m && 0 < i <= |a| && a[..i] == x;
      OnSomeEdge(t, a, i);
    }
  }

  lemma {:induction false} ListSize(k: Key, servers: seq<Ref>)
    requires NoRepeats(servers)
    ensures |set s | s in servers :: (k, s)| == |servers|
  {
    if servers != [] {
      var n := |servers| - 1;
      ListSize(k, servers[..n]);
      assert (set s | s in servers :: (k, s)) == (set s | s in servers[..n] :: (k, s)) + {(k, servers[n])};
    }
  }

  lemma PairsPick(t: Shape, ks: set<Key>, k: Key)
    requires ks <= t.Keys && k in ks
    ensures var mine := set s | s in t[k].servers :: (k, s);
            PairsIn(t, ks) == PairsIn(t, ks - {k}) + mine && PairsIn(t, ks - {k}) !! mine
  {
  }

  lemma {:induction false} RefSum(t: Shape, ks: set<Key>)
    requires ks <= t.Keys && forall k | k in ks :: NoRepeats(t[k].servers)
    ensures Total(t, ks).serverRefs == |PairsIn(t, ks)|
    decreases |ks|
  {
    if ks != {} {
      var k :| k in ks;
      TotalPick(t, ks, k);
      RefSum(t, ks - {k});
      ListSize(k, t[k].servers);
      PairsPick(t, ks, k);
    }
  }

  lemma {:induction false} ServerSum(t: Shape, ks: set<Key>, s: Ref)
    requires ks <= t.Keys
    ensures s in Total(t, ks).servers <==> s != Nil && exists k :: k in ks && s in t[k].servers
    decreases |ks|
  {
    if ks != {} {
      var k :| k in ks;
      TotalPick(t, ks, k);
      ServerSum(t, ks - {k}, s);
    }
  }

  lemma {:induction false} InjectiveValues(m: map<byte, Key>)
    requires forall c, d | c in m && d in m && m[c] == m[d] :: c == d
    ensures |m.Values| == |m|
    decreases |m|
  {
    if m != map[] {
      var c :| c in m;
      InjectiveValues(m - {c});
      var rest := m - {c};
      forall k ensures k in m.Values <==> k in rest.Values + {m[c]} {
        if k in m.Values {
          var d :| d in m && m[d] == k;
          assert d == c || d in rest;
        }
      }
      assert m.Values == rest.Values + {m[c]};
      assert rest.Keys == m.Keys - {c};
    }
  }

  /** The children of k are as many as its bytes, and no other node's. */
  lemma KidsPick(t: Shape, ks: set<Key>, k: Key)
    requires Radix(t) && ks <= t.Keys && k in ks
    ensures |t[k].kids.Values| == |t[k].kids|
    ensures KidsIn(t, ks) == KidsIn(t, ks - {k}) + t[k].kids.Values && KidsIn(t, ks - {k}) !! t[k].kids.Values
  {
    forall c, d | c in t[k].kids && d in t[k].kids && t[k].kids[c] == t[k].kids[d] ensures c == d {
      UniqueParent(t, k, c, k, d);
    }
    InjectiveValues(t[k].kids);
    forall r | r in KidsIn(t, ks - {k}) && r in t[k].kids.Values ensures false {
      var q, c :| q in ks - {k} && c in t[q].kids && t[q].kids[c] == r;
      var d :| d in t[k].kids && t[k].kids[d] == r;
      UniqueParent(t, q, c, k, d);
    }
  }

  lemma {:induction false} KidSum(t: Shape, ks: set<Key>)
    requires Radix(t) && ks <= t.Keys
    ensures Total(t, ks).children == |KidsIn(t, ks)|
    decreases |ks|
  {
    if ks != {} {
      var k :| k in ks;
      TotalPick(t, ks, k);
      KidSum(t, ks - {k});
      KidsPick(t, ks, k);
      SizeOfUnion(KidsIn(t, ks - {k}), t[k].kids.Values);
    }
  }

  lemma AllKids(t: Shape)
    requires Radix(t)
    ensures KidsIn(t, t.Keys) == t.Keys - {[]}
  {
    forall r | r in KidsIn(t, t.Keys) ensures r in t.Keys - {[]} {
      var k, c :| k in t && c in t[k].kids && t[k].kids[c] == r;
      assert EdgeOk(t, k, c);
    }
    forall r | r in t.Keys - {[]} ensures r in KidsIn(t, t.Keys) {
      var q := Parent(t, r);
    }
  }

  /** A leaf is a stored prompt that none extends. */
  lemma LeavesAreMaximal(t: Shape)
    requires WellFormed(t) && ContentsOf(t) != map[]
    ensures LeavesIn(t, t.Keys) == Maximal(ContentsOf(t))
  {
    var m := ContentsOf(t);
    forall k ensures k in LeavesIn(t, t.Keys) <==> k in Maximal(m) {
      if k in LeavesIn(t, t.Keys) {
        forall x | x in t ensures !(k < x) {
          GoDown(t, k, x);
        }
        var x :| x in m;
        assert x != [] && (k == [] ==> k < x);
        assert CellCompressed(t, k);
      }
      if k in Maximal(m) && t[k].kids != map[] {
        var c :| c in t[k].kids;
        var x := StoredUnder(t, k, c);
      }
    }
  }

  /** The stored prompts at which a path through the tree can end; with nothing stored, the root. */
  ghost function Ends(m: Contents): set<Key> {
    if m == map[] then {[]} else Maximal(m)
  }

  /** Every server stored somewhere, the nil marker aside. */
  ghost function ServersOf(m: Contents): set<Ref> {
    set k, s | k in m && s in m[k] && s != Nil :: s
  }

  ghost function LengthSum(ks: set<Key>): nat {
    Sum(Lengths(ks), ks)
  }

  /** d is the length of the longest stored prompt, 0 when nothing is stored. */
  ghost predicate LongestStored(m: Contents, d: nat) {
    && (forall k | k in m :: |k| <= d)
    && (d > 0 ==> exists k :: k in m && |k| == d)
  }

  lemma RefsMeaning(t: Shape)
    requires Radix(t)
    ensures Total(t, t.Keys).serverRefs == |Pairs(ContentsOf(t))|
    ensures Total(t, t.Keys).servers == ServersOf(ContentsOf(t))
  {
    var m := ContentsOf(t);
    RefSum(t, t.Keys);
    assert PairsIn(t, t.Keys) == Pairs(m);
    forall s ensures s in Total(t, t.Keys).servers <==> s in ServersOf(m) {
      ServerSum(t, t.Keys, s);
      forall k | k in t && s in t[k].servers ensures k in m && s in m[k] {
      }
    }
  }

  lemma EmptyTree(t: Shape)
    requires WellFormed(t) && ContentsOf(t) == map[]
    ensures t.Keys == {[]} && t[[]].kids == map[]
  {
    forall k | k in t ensures k == [] && t[k].kids == map[] {
      if k != [] || t[k].kids != map[] {
        var x := StoredBelow(t, k);
      }
    }
  }

  lemma LeavesAreEnds(t: Shape)
    requires WellFormed(t)
    ensures LeavesIn(t, t.Keys) == Ends(ContentsOf(t))
  {
    if ContentsOf(t) == map[] {
      EmptyTree(t);
    } else {
      LeavesAreMaximal(t);
    }
  }

  lemma LeavesMeaning(t: Shape)
    requires WellFormed(t)
    ensures Total(t, t.Keys).leaves == |Ends(ContentsOf(t))|
    ensures Total(t, t.Keys).depth == LengthSum(Ends(ContentsOf(t)))
  {
    var leaves := LeavesIn(t, t.Keys);
    NodeTotalsSum(t, t.Keys);
    LeafDepthSum(t, t.Keys);
    LeavesAreEnds(t);
    SumAgree(Lengths(t.Keys), Lengths(leaves), leaves);
  }

  ghost function Above(m: Contents, k: Key): set<Key> {
    set y | y in m && k < y
  }

  lemma {:induction false} LongestExtension(m: Contents, k: Key) returns (x: Key)
    requires k in m
    ensures x in Maximal(m) && k <= x
    decreases Above(m, k)
  {
    if y :| y in m && k < y {
      forall z | z in Above(m, y) ensures z in Above(m, k) {
        assert k < y < z;
      }
      assert y in Above(m, k) && y !in Above(m, y);
      x := LongestExtension(m, y);
    } else {
      x := k;
    }
  }

  lemma DepthMeaning(t: Shape)
    requires WellFormed(t)
    ensures LongestStored(ContentsOf(t), Total(t, t.Keys).maxDepth)
  {
    var m, d := ContentsOf(t), Total(t, t.Keys).maxDepth;
    DepthSum(t, t.Keys);
    LeavesAreEnds(t);
    forall k | k in m ensures |k| <= d {
      var x := LongestExtension(m, k);
      assert x in LeavesIn(t, t.Keys);
    }
  }

  lemma LabelMeaning(t: Shape)
    requires WellFormed(t)
    ensures Total(t, t.Keys).prefixLen == |Prefixes(ContentsOf(t))|
  {
    LabelSum(t, t.Keys);
    EdgesArePrefixes(t);
  }

  /** What the walk's totals say about the stored prompts. */
  ghost predicate Tallies(m: Contents, nodes: nat, v: Totals) {
    && v.nodes == nodes && v.children == nodes - 1
    && v.leaves == |Ends(m)| && v.internalNodes == nodes - |Ends(m)|
    && v.serverRefs == |Pairs(m)| && v.servers == ServersOf(m)
    && LongestStored(m, v.maxDepth) && v.depth == LengthSum(Ends(m)) && v.prefixLen == |Prefixes(m)|
  }

  /** On a tree that satisfies the radix invariant the walk's totals describe the stored prompts. */
  lemma TotalsMeaning(t: Shape)
    requires WellFormed(t)
    ensures Tallies(ContentsOf(t), |t|, Total(t, t.Keys))
  {
    NodeTotalsSum(t, t.Keys);
    KidSum(t, t.Keys);
    AllKids(t);
    RefsMeaning(t);
    LeavesMeaning(t);
    DepthMeaning(t);
    LabelMeaning(t);
    assert |t| == |t.Keys| && |t.Keys - {[]}| == |t.Keys| - 1;
  }

  datatype Stats = Stats(nodes: nat, leaves: nat, maxDepth: nat, avgDepth: real, avgPrefixLen: real,
                         avgBranching: real, totalServerRefs: nat, uniqueServerCount: nat)

  /** A quotient, left at 0 when there is nothing to divide by. */
  function Average(total: nat, count: nat): real {
    if count > 0 then total as real / count as real else 0.0
  }

  lemma AverageMeans(total: nat, count: nat)
    ensures if count > 0 then Average(total, count) * count as real == total as real else Average(total, count) == 0.0
  {
  }

  /** What the statistics say about the stored prompts: how many nodes, paths and (prompt, server) pairs
      there are, how long the prompts are that no other extends, and the number of prefixes that the
      labels spell out, each once. */
  ghost predicate Reports(m: Contents, nodes: nat, stats: Stats) {
    && stats.nodes == nodes && stats.leaves == |Ends(m)|
    && LongestStored(m, stats.maxDepth)
    && stats.avgDepth == Average(LengthSum(Ends(m)), |Ends(m)|)
    && stats.avgPrefixLen == Average(|Prefixes(m)|, nodes)
    && stats.avgBranching == (if nodes > |Ends(m)| then Average(nodes - 1, nodes - |Ends(m)|) else 0.0)
    && stats.totalServerRefs == |Pairs(m)| && stats.uniqueServerCount == |ServersOf(m)|
  }

  function Summary(v: Totals): Stats {
    Stats(v.nodes, v.leaves, v.maxDepth, Average(v.depth, v.leaves), Average(v.prefixLen, v.nodes),
          Average(v.children, v.internalNodes), v.serverRefs, |v.servers|)
  }

  lemma SummaryReports(m: Contents, nodes: nat, v: Totals)
    requires Tallies(m, nodes, v)
    ensures Reports(m, nodes, Summary(v))
  {
  }

  method PrefixTreeStats(tree: Tree) returns (stats: Stats)
    requires tree.Valid()
    ensures Reports(tree.Contents(), |tree.shape|, stats)
  {
    var walk := WalkAll(tree);
    stats := Stats(walk.nodes, walk.leaves, walk.maxDepth,
                   Average(walk.totalDepth, walk.leaves),
                   Average(walk.totalPrefixLen, walk.nodes),
                   Average(walk.totalChildren, walk.internalNodes),
                   walk.totalServerRefs, |walk.uniqueServers|);
    assert stats == Summary(walk.View());
    TotalsMeaning(tree.shape);
    SummaryReports(tree.Contents(), |tree.shape|, walk.View());
  }

  method WalkAll(tree: Tree) returns (stats: StatsWalk)
    requires tree.Valid()
    ensures stats.View() == Total(tree.shape, tree.shape.Keys)
  {
    stats := new StatsWalk();
    tree.RootNamed();
    stats.Walk(tree, tree.root, 0);
    WholeTree(tree.shape);
  }

  lemma WholeTree(t: Shape)
    ensures Total(t, Below(t, [])) == Total(t, t.Keys) == ZERO.Plus(Total(t, t.Keys))
  {
    assert Below(t, []) == t.Keys;
    PlusLaws(Total(t, t.Keys), ZERO, ZERO);
  }
}
