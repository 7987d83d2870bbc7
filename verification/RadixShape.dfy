/** The shape of a compressed prefix tree, as a value: every node is named by the full
    byte string on the path from the root to it.  A split gives the node it moves a
    shorter label but leaves its name alone. */
module RadixShape {
  import opened Keys

  datatype Cell = Cell(prefix: Key, servers: seq<Ref>, kids: map<byte, Key>)

  type Shape = map<Key, Cell>

  /** What the tree means: the servers stored at each prompt. */
  type Contents = map<Key, seq<Ref>>

  function ContentsOf(t: Shape): Contents {
    map k | k in t && t[k].servers != [] :: t[k].servers
  }

  function Holds(m: Contents, k: Key): seq<Ref> {
    if k in m then m[k] else []
  }

  /** The abstract effect of `insertPrefix(p, s)`. */
  function Add(m: Contents, p: Key, s: Ref): Contents {
    if p == [] || s in Holds(m, p) then m else m[p := Holds(m, p) + [s]]
  }

  /** An insert leaves every other prompt alone; a new server goes last in the list of its own prompt, and
      one that is listed already, or an empty prompt, changes nothing. */
  lemma AddExact(m: Contents, p: Key, s: Ref, k: Key)
    ensures Holds(Add(m, p, s), k) == if k == p && p != [] && s !in Holds(m, p) then Holds(m, p) + [s] else Holds(m, k)
    ensures k in Add(m, p, s) <==> k in m || (k == p && p != [] && s !in Holds(m, p))
  {
  }

  const EMPTY: Shape := map[[] := Cell([], [], map[])]

  ghost predicate RootOk(t: Shape) {
    [] in t && t[[]].prefix == [] && t[[]].servers == []
  }

  /** Each child under byte c has a non-empty label starting with c. */
  ghost predicate EdgeOk(t: Shape, k: Key, c: byte)
    requires k in t && c in t[k].kids
  {
    var r := t[k].kids[c];
    r in t && k < r && r[|k|] == c && t[r].prefix == r[|k|..]
  }

  /** A node below k is reached through k's child under the next byte. */
  ghost predicate Down(t: Shape, k: Key, m: Key)
    requires k in t && k < m
  {
    m[|k|] in t[k].kids && t[k].kids[m[|k|]] <= m
  }

  ghost predicate Branching(kids: map<byte, Key>) {
    exists c, d | c in kids && d in kids :: c != d
  }

  ghost predicate CellCompressed(t: Shape, k: Key)
    requires k in t
  {
    k == [] || t[k].servers != [] || Branching(t[k].kids)
  }

  ghost predicate Radix(t: Shape) {
    && RootOk(t)
    && (forall k, c {:trigger EdgeOk(t, k, c)} | k in t && c in t[k].kids :: EdgeOk(t, k, c))
    && (forall k, m {:trigger Down(t, k, m)} | k in t && m in t && k < m :: Down(t, k, m))
    && (forall k | k in t :: NoRepeats(t[k].servers))
  }

  ghost predicate CompressedBut(t: Shape, x: Key) {
    forall k {:trigger CellCompressed(t, k)} | k in t && k != x :: CellCompressed(t, k)
  }

  /** The radix invariant. */
  ghost predicate WellFormed(t: Shape) {
    Radix(t) && CompressedBut(t, [])
  }

  // ----- the three local edits made by insertPrefix

  /** Hang a leaf for p under node q. */
  function AddLeaf(t: Shape, q: Key, p: Key, s: Ref): Shape
    requires q in t && q < p
  {
    t[q := t[q].(kids := t[q].kids[p[|q|] := p])][p := Cell(p[|q|..], [s], map[])]
  }

  /** Put a node mid on the edge from q to r. */
  function Split(t: Shape, q: Key, r: Key, mid: Key): Shape
    requires q in t && r in t && |q| < |mid| < |r|
    requires |t[r].prefix| == |r| - |q|
  {
    var n := |mid| - |q|;
    t[q := t[q].(kids := t[q].kids[r[|q|] := mid])]
     [r := t[r].(prefix := t[r].prefix[n..])]
     [mid := Cell(t[r].prefix[..n], [], map[r[|mid|] := r])]
  }

  /** Append a server to the list at node k. */
  function AddServer(t: Shape, k: Key, s: Ref): Shape
    requires k in t
  {
    t[k := t[k].(servers := t[k].servers + [s])]
  }

  lemma EmptyWellFormed()
    ensures WellFormed(EMPTY) && ContentsOf(EMPTY) == map[]
  {
  }

  lemma GoDown(t: Shape, k: Key, m: Key)
    requires Radix(t) && k in t && m in t
    ensures k < m ==> m[|k|] in t[k].kids && t[k].kids[m[|k|]] <= m
  {
    assert k < m ==> Down(t, k, m);
  }

  /** No node is the child of two others, or of one under two bytes. */
  lemma UniqueParent(t: Shape, q: Key, c: byte, k: Key, d: byte)
    requires Radix(t) && q in t && c in t[q].kids && k in t && d in t[k].kids
    requires t[q].kids[c] == t[k].kids[d]
    ensures q == k && c == d
  {
    var r := t[q].kids[c];
    assert EdgeOk(t, q, c) && EdgeOk(t, k, d);
    PrefixesComparable(k, q, r);
    PrefixesComparable(q, k, r);
    GoDown(t, k, q);
    GoDown(t, q, k);
  }

  lemma AddLeafFresh(t: Shape, q: Key, p: Key)
    requires Radix(t) && q in t && q < p && p[|q|] !in t[q].kids
    ensures forall m | m in t && q < m :: m[|q|] != p[|q|]
    ensures forall m | m in t :: !(p <= m)
  {
    forall m | m in t && q < m ensures m[|q|] != p[|q|] {
      GoDown(t, q, m);
    }
  }

  lemma AddLeafEdge(t: Shape, q: Key, p: Key, s: Ref, k: Key, c: byte)
    requires Radix(t) && q in t && q < p && p !in t
    requires k in t && c in AddLeaf(t, q, p, s)[k].kids
    ensures EdgeOk(AddLeaf(t, q, p, s), k, c)
  {
    if k == q && c == p[|q|] {
    } else {
      assert EdgeOk(t, k, c);
    }
  }

  lemma AddLeafDown(t: Shape, q: Key, p: Key, s: Ref, k: Key, m: Key)
    requires Radix(t) && q in t && q < p && p[|q|] !in t[q].kids
    requires k in t && (m == p || m in t) && k < m
    ensures Down(AddLeaf(t, q, p, s), k, m)
  {
    AddLeafFresh(t, q, p);
    if m == p {
      PrefixesComparable(k, q, p);
      PrefixesComparable(q, k, p);
      GoDown(t, k, q);
    } else {
      GoDown(t, k, m);
    }
  }

  lemma AddLeafTree(t: Shape, q: Key, p: Key, s: Ref)
    requires Radix(t) && q in t && q < p && p[|q|] !in t[q].kids
    ensures p !in t && Radix(AddLeaf(t, q, p, s))
  {
    AddLeafFresh(t, q, p);
    var t' := AddLeaf(t, q, p, s);
    forall k, c | k in t' && c in t'[k].kids ensures EdgeOk(t', k, c) {
      assert k in t;
      AddLeafEdge(t, q, p, s, k, c);
    }
    forall k, m | k in t' && m in t' && k < m ensures Down(t', k, m) {
      assert k != p;
      AddLeafDown(t, q, p, s, k, m);
    }
  }

  lemma AddLeafContents(t: Shape, q: Key, p: Key, s: Ref)
    requires q in t && q < p && p !in t
    ensures ContentsOf(AddLeaf(t, q, p, s)) == Add(ContentsOf(t), p, s)
  {
    var m, m' := ContentsOf(t), ContentsOf(AddLeaf(t, q, p, s));
    assert p !in m && m'[p] == [] + [s];
  }

  lemma SplitFresh(t: Shape, q: Key, r: Key, mid: Key)
    requires Radix(t) && q in t && r in t && q < mid < r
    requires r[|q|] in t[q].kids && t[q].kids[r[|q|]] == r
    ensures forall m | m in t && q < m && m[|q|] == r[|q|] :: r <= m
    ensures mid !in t && t[r].prefix == r[|q|..]
  {
    assert EdgeOk(t, q, r[|q|]);
    forall m | m in t && q < m && m[|q|] == r[|q|] ensures r <= m {
      GoDown(t, q, m);
    }
  }

  lemma SplitEdge(t: Shape, q: Key, r: Key, mid: Key, k: Key, c: byte)
    requires Radix(t) && q in t && r in t && q < mid < r
    requires r[|q|] in t[q].kids && t[q].kids[r[|q|]] == r && t[r].prefix == r[|q|..]
    requires mid !in t && k in Split(t, q, r, mid) && c in Split(t, q, r, mid)[k].kids
    ensures EdgeOk(Split(t, q, r, mid), k, c)
  {
    if k == mid {
      assert r[|q|..][|mid| - |q|..] == r[|mid|..];
    } else if k == q && c == r[|q|] {
      assert r[|q|..][..|mid| - |q|] == mid[|q|..];
    } else {
      assert EdgeOk(t, k, c);
      if t[k].kids[c] == r {
        UniqueParent(t, k, c, q, r[|q|]);
      }
    }
  }

  lemma SplitDown(t: Shape, q: Key, r: Key, mid: Key, k: Key, m: Key)
    requires Radix(t) && q in t && r in t && q < mid < r
    requires r[|q|] in t[q].kids && t[q].kids[r[|q|]] == r && t[r].prefix == r[|q|..]
    requires k in Split(t, q, r, mid) && m in Split(t, q, r, mid) && k < m
    ensures Down(Split(t, q, r, mid), k, m)
  {
    SplitFresh(t, q, r, mid);
    if k == mid {
      assert q < m && m[|q|] == r[|q|];
    } else if m == mid {
      PrefixesComparable(k, q, r);
      PrefixesComparable(q, k, r);
      GoDown(t, k, q);
    } else {
      GoDown(t, k, m);
    }
  }

  lemma SplitTree(t: Shape, q: Key, r: Key, mid: Key)
    requires Radix(t) && q in t && r in t && q < mid < r
    requires r[|q|] in t[q].kids && t[q].kids[r[|q|]] == r
    ensures mid !in t && t[r].prefix == r[|q|..]
    ensures Radix(Split(t, q, r, mid))
  {
    SplitFresh(t, q, r, mid);
    var t' := Split(t, q, r, mid);
    forall k, c | k in t' && c in t'[k].kids ensures EdgeOk(t', k, c) {
      SplitEdge(t, q, r, mid, k, c);
    }
    forall k, m | k in t' && m in t' && k < m ensures Down(t', k, m) {
      SplitDown(t, q, r, mid, k, m);
    }
  }

  lemma SplitContents(t: Shape, q: Key, r: Key, mid: Key)
    requires q in t && r in t && q < mid < r
    requires |t[r].prefix| == |r| - |q| && mid !in t
    ensures ContentsOf(Split(t, q, r, mid)) == ContentsOf(t)
  {
  }

  lemma AddServerTree(t: Shape, k: Key, s: Ref)
    requires Radix(t) && k in t && k != [] && s !in t[k].servers
    ensures Radix(AddServer(t, k, s))
    ensures ContentsOf(AddServer(t, k, s)) == Add(ContentsOf(t), k, s)
  {
    var t' := AddServer(t, k, s);
    forall q, c | q in t' && c in t'[q].kids ensures EdgeOk(t', q, c) {
      assert EdgeOk(t, q, c);
    }
    forall q, m | q in t' && m in t' && q < m ensures Down(t', q, m) {
      assert Down(t, q, m);
    }
  }

  // ----- each edit of insertPrefix, whole

  lemma LeafInsert(t: Shape, q: Key, p: Key, s: Ref)
    requires Radix(t) && CompressedBut(t, q) && q in t && q < p && p[|q|] !in t[q].kids
    requires q == [] || t[q].servers != [] || t[q].kids != map[]
    ensures p !in t && WellFormed(AddLeaf(t, q, p, s)) && |AddLeaf(t, q, p, s)| == |t| + 1
    ensures ContentsOf(AddLeaf(t, q, p, s)) == Add(ContentsOf(t), p, s)
  {
    AddLeafTree(t, q, p, s);
    AddLeafContents(t, q, p, s);
    var t' := AddLeaf(t, q, p, s);
    assert t'.Keys == t.Keys + {p};
    forall k | k in t' && k != [] ensures CellCompressed(t', k) {
      if k == q && t[q].servers == [] {
        var c :| c in t[q].kids;
        assert c in t'[q].kids && p[|q|] in t'[q].kids;
      } else if k != p {
        KidsKeepBranching(t, k, t'[k]);
      }
    }
  }

  lemma KidsKeepBranching(t: Shape, k: Key, cell: Cell)
    requires k in t && CellCompressed(t, k)
    requires t[k].kids.Keys <= cell.kids.Keys
    ensures k == [] || t[k].servers != [] || Branching(cell.kids)
  {
    if Branching(t[k].kids) {
      var c, d :| c in t[k].kids && d in t[k].kids && c != d;
      assert c in cell.kids && d in cell.kids;
    }
  }

  lemma SplitInsert(t: Shape, q: Key, r: Key, mid: Key)
    requires WellFormed(t) && q in t && r in t && q < mid < r
    requires r[|q|] in t[q].kids && t[q].kids[r[|q|]] == r
    ensures mid !in t && t[r].prefix == r[|q|..]
    ensures Radix(Split(t, q, r, mid)) && CompressedBut(Split(t, q, r, mid), mid) && |Split(t, q, r, mid)| == |t| + 1
    ensures Split(t, q, r, mid)[mid].servers == [] && Split(t, q, r, mid)[mid].kids.Keys == {r[|mid|]}
    ensures ContentsOf(Split(t, q, r, mid)) == ContentsOf(t)
  {
    SplitTree(t, q, r, mid);
    SplitContents(t, q, r, mid);
    var t' := Split(t, q, r, mid);
    assert t'.Keys == t.Keys + {mid};
    forall k | k in t' && k != mid ensures CellCompressed(t', k) {
      KidsKeepBranching(t, k, t'[k]);
    }
  }

  lemma ServerInsert(t: Shape, k: Key, s: Ref)
    requires Radix(t) && CompressedBut(t, k) && k in t && k != [] && s !in t[k].servers
    ensures WellFormed(AddServer(t, k, s)) && |AddServer(t, k, s)| == |t|
    ensures ContentsOf(AddServer(t, k, s)) == Add(ContentsOf(t), k, s)
  {
    AddServerTree(t, k, s);
    var t' := AddServer(t, k, s);
    assert t'.Keys == t.Keys;
    forall q | q in t' && q != [] ensures CellCompressed(t', q) {
      assert q != k ==> CellCompressed(t, q);
    }
  }

  // ----- one step of a descent along p

  /** Where p leaves r, both of which extend q. */
  lemma SharedBeyond(q: Key, p: Key, r: Key)
    requires q < p && q < r && p[|q|] == r[|q|]
    ensures Shared(p, r) == |q| + Shared(p[|q|..], r[|q|..]) && Shared(p, r) > |q|
  {
    var n := Shared(p[|q|..], r[|q|..]);
    var d := |q| + n;
    assert forall i | |q| <= i < d :: p[i] == p[|q|..][..n][i - |q|] == r[|q|..][..n][i - |q|] == r[i];
    SharedUnique(p, r, d);
    assert p[|q|..][0] == r[|q|..][0];
  }

  /** The child under p's next byte shares d bytes with p, more than the current node does. */
  lemma Descend(t: Shape, q: Key, p: Key)
    requires Radix(t) && q in t && q < p && p[|q|] in t[q].kids
    ensures var r := t[q].kids[p[|q|]];
            && r in t && q < r && r[|q|] == p[|q|] && t[r].prefix == r[|q|..]
            && var d := |q| + Shared(p[|q|..], t[r].prefix);
               && |q| < d <= |r| && d <= |p| && d == Shared(p, r)
               && q < p[..d] <= r && (d < |p| && d < |r| ==> p[d] != r[d])
               && (d == |r| ==> r == p[..d])
  {
    var r := t[q].kids[p[|q|]];
    assert EdgeOk(t, q, p[|q|]);
    SharedBeyond(q, p, r);
    var d := Shared(p, r);
    assert r[..d] == p[..d];
  }
}
