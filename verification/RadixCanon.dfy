/** The stored prompts alone decide the tree: its nodes, its edges and how many there are. */
module RadixCanon {
  import opened Keys
  import opened RadixShape
  import opened Sets

  /** Two stored prompts part company right after k. */
  ghost predicate Fork(stored: set<Key>, k: Key) {
    exists a, b :: ForkAt(stored, k, a, b)
  }

  ghost predicate ForkAt(stored: set<Key>, k: Key, a: Key, b: Key) {
    a in stored && b in stored && k < a && k < b && a[|k|] != b[|k|]
  }

  ghost predicate IsNode(stored: set<Key>, k: Key) {
    k == [] || k in stored || Fork(stored, k)
  }

  /** The longest node name of at most n bytes along p. */
  lemma DeepestNode(t: Shape, p: Key, n: nat) returns (q: Key)
    requires Radix(t) && n <= |p|
    ensures q in t && q <= p && |q| <= n
    ensures forall k | k in t && k <= p && |k| <= n :: |k| <= |q|
  {
    if p[..n] in t {
      q := p[..n];
    } else {
      assert p[..0] == [];
      q := DeepestNode(t, p, n - 1);
      forall k | k in t && k <= p && |k| <= n ensures |k| <= |q| {
        assert k == p[..|k|];
      }
    }
  }

  /** The names of the nodes in the subtree at k. */
  ghost function Below(t: Shape, k: Key): set<Key> {
    set x | x in t && k <= x
  }

  /** Some prompt is stored at or below every node but a bare root. */
  lemma {:induction false} StoredBelow(t: Shape, k: Key) returns (m: Key)
    requires WellFormed(t) && k in t && (k != [] || t[k].kids != map[])
    ensures m in ContentsOf(t) && k <= m && (t[k].servers == [] ==> k < m)
    decreases Below(t, k), 1
  {
    if t[k].servers != [] {
      m := k;
    } else {
      assert CellCompressed(t, k);
      var c :| c in t[k].kids;
      m := StoredUnder(t, k, c);
    }
  }

  lemma {:induction false} StoredUnder(t: Shape, k: Key, c: byte) returns (m: Key)
    requires WellFormed(t) && k in t && c in t[k].kids
    ensures m in ContentsOf(t) && t[k].kids[c] <= m && k < m && m[|k|] == c
    decreases Below(t, k), 0
  {
    var r := t[k].kids[c];
    assert EdgeOk(t, k, c);
    forall x | x in Below(t, r) ensures x in Below(t, k) {
      assert k <= r <= x;
    }
    assert k in Below(t, k) && k !in Below(t, r);
    m := StoredBelow(t, r);
  }

  lemma ForkIsNode(t: Shape, k: Key, a: Key, b: Key)
    requires WellFormed(t) && ForkAt(ContentsOf(t).Keys, k, a, b)
    ensures k in t
  {
    assert a[..|k|] == k;
    var q := DeepestNode(t, a, |k|);
    PrefixesComparable(q, k, a);
    GoDown(t, q, a);
    GoDown(t, q, b);
    var r := t[q].kids[a[|q|]];
    assert EdgeOk(t, q, a[|q|]);
    PrefixesComparable(r, k, a);
  }

  /** A string names a node exactly when it is empty, stored, or a fork of two stored prompts. */
  lemma NodesAreForks(t: Shape, k: Key)
    requires WellFormed(t)
    ensures k in t <==> IsNode(ContentsOf(t).Keys, k)
  {
    var stored := ContentsOf(t).Keys;
    if k in t && k != [] && k !in stored {
      assert CellCompressed(t, k);
      var c, d :| c in t[k].kids && d in t[k].kids && c != d;
      var a := StoredUnder(t, k, c);
      var b := StoredUnder(t, k, d);
      assert ForkAt(stored, k, a, b);
    }
    if Fork(stored, k) {
      var a, b :| ForkAt(stored, k, a, b);
      ForkIsNode(t, k, a, b);
    }
  }

  /** Every node but the root hangs under its deepest proper prefix. */
  lemma Parent(t: Shape, k: Key) returns (q: Key)
    requires Radix(t) && k in t && k != []
    ensures q in t && q < k && k[|q|] in t[q].kids && t[q].kids[k[|q|]] == k
  {
    q := DeepestNode(t, k, |k| - 1);
    GoDown(t, q, k);
    assert EdgeOk(t, q, k[|q|]);
  }

  lemma SameKid(t: Shape, u: Shape, k: Key, c: byte)
    requires Radix(t) && Radix(u) && t.Keys == u.Keys && k in t && c in t[k].kids
    ensures c in u[k].kids && u[k].kids[c] == t[k].kids[c]
  {
    var r := t[k].kids[c];
    assert EdgeOk(t, k, c);
    GoDown(u, k, r);
    assert EdgeOk(u, k, c);
    GoDown(t, k, u[k].kids[c]);
  }

  /** Canonical form: trees that store the same prompts have the same nodes, labels and branching. */
  lemma SameSkeleton(t: Shape, u: Shape)
    requires WellFormed(t) && WellFormed(u)
    requires ContentsOf(t).Keys == ContentsOf(u).Keys
    ensures t.Keys == u.Keys
    ensures forall k | k in t :: t[k].prefix == u[k].prefix && t[k].kids == u[k].kids
  {
    forall k ensures k in t <==> k in u {
      NodesAreForks(t, k);
      NodesAreForks(u, k);
    }
    forall k | k in t ensures t[k].prefix == u[k].prefix && t[k].kids == u[k].kids {
      forall c ensures c in t[k].kids ==> c in u[k].kids && u[k].kids[c] == t[k].kids[c] {
        if c in t[k].kids {
          SameKid(t, u, k, c);
        }
      }
      forall c ensures c in u[k].kids ==> c in t[k].kids {
        if c in u[k].kids {
          SameKid(u, t, k, c);
        }
      }
      if k != [] {
        var q := Parent(t, k);
        assert EdgeOk(t, q, k[|q|]);
        SameKid(t, u, q, k[|q|]);
        assert EdgeOk(u, q, k[|q|]);
      }
    }
  }

  /** So the abstract map, with its server lists, determines the whole tree. */
  lemma Canonical(t: Shape, u: Shape)
    requires WellFormed(t) && WellFormed(u) && ContentsOf(t) == ContentsOf(u)
    ensures t == u
  {
    SameSkeleton(t, u);
    forall k | k in t ensures t[k] == u[k] {
      assert t[k].servers != [] <==> k in ContentsOf(t);
      assert u[k].servers != [] <==> k in ContentsOf(u);
      assert t[k].servers != [] ==> t[k].servers == ContentsOf(t)[k] == u[k].servers;
    }
  }

  // ----- the size bound

  ghost function NodesFor(stored: set<Key>): set<Key> {
    {[]} + (set a, i | a in stored && 0 <= i <= |a| && IsNode(stored, a[..i]) :: a[..i])
  }

  lemma NodesForIsNode(stored: set<Key>, k: Key)
    ensures k in NodesFor(stored) <==> IsNode(stored, k)
  {
    if k in stored {
      assert k[..|k|] == k;
    }
    if Fork(stored, k) {
      var a, b :| ForkAt(stored, k, a, b);
      assert a[..|k|] == k;
    }
  }

  /** The depth at which a leaves the prompts in `stored`. */
  lemma Departure(stored: set<Key>, a: Key) returns (y: Key)
    requires stored != {}
    ensures y in stored && forall x | x in stored :: Shared(a, x) <= Shared(a, y)
    decreases |stored|
  {
    var x :| x in stored;
    if stored == {x} {
      y := x;
    } else {
      y := Departure(stored - {x}, a);
      if Shared(a, y) < Shared(a, x) {
        y := x;
      }
    }
  }

  lemma NewFork(stored: set<Key>, a: Key, y: Key, k: Key, x: Key)
    requires y in stored && x in stored && Shared(a, x) <= Shared(a, y)
    requires k < a && k < x && a[|k|] != x[|k|]
    ensures Fork(stored, k) || k == a[..Shared(a, y)]
  {
    var d := Shared(a, y);
    SharedUnique(a, x, |k|);
    if |k| < d {
      assert k == a[..d][..|k|] == y[..|k|] && a[|k|] == a[..d][|k|] == y[|k|];
      assert ForkAt(stored, k, x, y);
    }
  }

  /** One more prompt makes at most two more nodes: itself and the fork where it leaves the rest. */
  lemma OneMorePrompt(stored: set<Key>, a: Key, y: Key, k: Key)
    requires y in stored && forall x | x in stored :: Shared(a, x) <= Shared(a, y)
    requires IsNode(stored + {a}, k)
    ensures IsNode(stored, k) || k == a || k == a[..Shared(a, y)]
  {
    if k != [] && k !in stored + {a} {
      var u, v :| ForkAt(stored + {a}, k, u, v);
      if u in stored && v in stored {
        assert ForkAt(stored, k, u, v);
      } else {
        NewFork(stored, a, y, k, if u == a then v else u);
      }
    }
  }

  lemma {:induction false} NodeBound(stored: set<Key>)
    requires stored != {}
    ensures |NodesFor(stored)| <= 2 * |stored|
    decreases |stored|
  {
    var a :| a in stored;
    var rest := stored - {a};
    var nodes := NodesFor(stored);
    forall k ensures k in nodes <==> IsNode(stored, k) {
      NodesForIsNode(stored, k);
    }
    if rest == {} {
      assert forall k | k in nodes :: k in {[], a};
      SubsetSize(nodes, {[], a});
    } else {
      NodeBound(rest);
      var y := Departure(rest, a);
      var bound := NodesFor(rest) + {a, a[..Shared(a, y)]};
      forall k | k in nodes ensures k in bound {
        assert rest + {a} == stored;
        OneMorePrompt(rest, a, y, k);
        NodesForIsNode(rest, k);
      }
      SubsetSize(nodes, bound);
    }
  }

  /** With n >= 1 stored prompts there are at most 2n - 1 nodes besides the root. */
  lemma TreeSize(t: Shape)
    requires WellFormed(t) && ContentsOf(t) != map[]
    ensures |t.Keys - {[]}| <= 2 * |ContentsOf(t)| - 1
  {
    var stored := ContentsOf(t).Keys;
    forall k ensures k in t <==> k in NodesFor(stored) {
      NodesAreForks(t, k);
      NodesForIsNode(stored, k);
    }
    assert t.Keys == NodesFor(stored);
    assert stored != {} by {
      var k :| k in ContentsOf(t);
    }
    NodeBound(stored);
    assert |stored| == |ContentsOf(t)|;
  }
}
