/** What a lookup returns, said in terms of the stored prompts alone. */
module RadixLookup {
  import opened Keys
  import opened RadixShape
  import opened RadixCanon

  datatype Match = Match(server: Ref, matchedLen: nat)

  function Tag(servers: seq<Ref>, n: nat): seq<Match> {
    seq(|servers|, i requires 0 <= i < |servers| => Match(servers[i], n))
  }

  lemma InTag(servers: seq<Ref>, n: nat, e: Match)
    ensures e in Tag(servers, n) <==> e.matchedLen == n && e.server in servers
  {
    if e.matchedLen == n && e.server in servers {
      var i :| 0 <= i < |servers| && servers[i] == e.server;
      assert Tag(servers, n)[i] == e;
    }
  }

  /** n is the length of s's longest match among es, or 0 if it has none. */
  ghost predicate LongestFor(s: Ref, es: seq<Match>, n: nat) {
    && (n > 0 ==> Match(s, n) in es)
    && (forall e | e in es && e.server == s :: e.matchedLen <= n)
  }

  /** The length of a server's longest match. */
  ghost function Longest(s: Ref, es: seq<Match>): nat {
    if es == [] then 0
    else
      var e := es[|es| - 1];
      var n := Longest(s, es[..|es| - 1]);
      if e.server == s && e.matchedLen > n then e.matchedLen else n
  }

  lemma {:induction false} LongestIs(s: Ref, es: seq<Match>)
    ensures LongestFor(s, es, Longest(s, es))
  {
    if es != [] {
      LongestIs(s, es[..|es| - 1]);
      assert forall x | x in es :: x == es[|es| - 1] || x in es[..|es| - 1];
    }
  }

  lemma LongestUnique(s: Ref, es: seq<Match>, n: nat)
    requires LongestFor(s, es, n)
    ensures n == Longest(s, es)
  {
    LongestIs(s, es);
  }

  lemma LongestAppend(s: Ref, es: seq<Match>, servers: seq<Ref>, i: nat)
    requires Longest(s, es) <= i
    ensures Longest(s, es + Tag(servers, i)) == if s in servers then i else Longest(s, es)
  {
    LongestIs(s, es);
    forall e | e in Tag(servers, i) ensures e.matchedLen == i && e.server in servers {
      InTag(servers, i, e);
    }
    InTag(servers, i, Match(s, i));
    LongestUnique(s, es + Tag(servers, i), if s in servers then i else Longest(s, es));
  }

  /** One entry for each server of each stored prefix of p with at most n bytes. */
  function UpTo(m: Contents, p: Key, n: nat): seq<Match>
    requires n <= |p|
  {
    if n == 0 then [] else UpTo(m, p, n - 1) + Tag(Holds(m, p[..n]), n)
  }

  /** Some stored prompt starts with the first n bytes of p. */
  ghost predicate Touches(m: Contents, p: Key, n: nat)
    requires n <= |p|
  {
    exists k :: k in m && p[..n] <= k
  }

  /** The longest prefix of p, among those of at most n bytes, shared with a stored prompt. */
  ghost function Reach(m: Contents, p: Key, n: nat): (d: nat)
    requires n <= |p|
    ensures d <= n && (d > 0 ==> Touches(m, p, d))
    ensures forall j | d < j <= n :: !Touches(m, p, j)
  {
    if n == 0 || Touches(m, p, n) then n else Reach(m, p, n - 1)
  }

  /** k is stored, goes on past the shared part of p, and starts every stored prompt that has that part. */
  ghost predicate Hangs(m: Contents, p: Key, k: Key) {
    var d := Reach(m, p, |p|);
    d > 0 && k in m && p[..d] < k && forall x | x in m && p[..d] <= x :: k <= x
  }

  lemma HangsUnique(m: Contents, p: Key, k: Key, x: Key)
    requires Hangs(m, p, k) && Hangs(m, p, x)
    ensures k == x
  {
    assert k <= x && x <= k;
  }

  ghost function Lookup(m: Contents, p: Key): seq<Match> {
    UpTo(m, p, |p|) +
    if k :| Hangs(m, p, k) then Tag(m[k], Reach(m, p, |p|)) else []
  }

  // ----- a descent computes it

  /** If no stored prompt ends between depth i and depth j, the entries up to them are the same. */
  lemma {:induction false} UpToSkips(m: Contents, p: Key, i: nat, j: nat)
    requires i <= j <= |p| && forall k | k in m && k <= p && |k| <= j :: |k| <= i
    ensures UpTo(m, p, j) == UpTo(m, p, i)
    decreases j
  {
    if i < j {
      assert p[..j] !in m;
      UpToSkips(m, p, i, j - 1);
    }
  }

  lemma ReachIs(m: Contents, p: Key, n: nat)
    requires n <= |p| && (n > 0 ==> Touches(m, p, n))
    requires forall j | n < j <= |p| :: !Touches(m, p, j)
    ensures Reach(m, p, |p|) == n
  {
  }

  /** The descent went along a whole edge, from q to r. */
  lemma LookupThrough(t: Shape, q: Key, r: Key, p: Key)
    requires Radix(t) && q in t && q < r <= p && r in t
    requires r[|q|] in t[q].kids && t[q].kids[r[|q|]] == r
    ensures UpTo(ContentsOf(t), p, |r|) == UpTo(ContentsOf(t), p, |q|) + Tag(t[r].servers, |r|)
  {
    var m := ContentsOf(t);
    forall k | k in m && k <= p && |k| <= |r| - 1 ensures |k| <= |q| {
      PrefixesComparable(q, k, p);
      GoDown(t, q, k);
    }
    UpToSkips(m, p, |q|, |r| - 1);
    assert p[..|r|] == r && Holds(m, r) == t[r].servers;
  }

  /** The descent stopped at node q: p ends there, or no child takes its next byte. */
  lemma LookupEndsAtNode(t: Shape, q: Key, p: Key)
    requires WellFormed(t) && q in t && q <= p
    requires q < p ==> p[|q|] !in t[q].kids
    ensures Lookup(ContentsOf(t), p) == UpTo(ContentsOf(t), p, |q|)
  {
    var m := ContentsOf(t);
    assert p[..|q|] == q;
    forall j | |q| < j <= |p| ensures !Touches(m, p, j) {
      forall k | k in m && p[..j] <= k ensures false {
        assert q < k && k[|q|] == p[..j][|q|];
        GoDown(t, q, k);
      }
    }
    if q != [] {
      var k := StoredBelow(t, q);
    }
    ReachIs(m, p, |q|);
    forall k | k in m && k <= p && |k| <= |p| ensures |k| <= |q| {
      assert |k| > |q| ==> p[..|k|] == k && Touches(m, p, |k|);
    }
    UpToSkips(m, p, |q|, |p|);
    forall k ensures !Hangs(m, p, k) {
      if Hangs(m, p, k) {
        var x := NothingHangs(t, q, k);
      }
    }
  }

  /** No stored prompt strictly below a node starts every prompt stored at or below it. */
  lemma NothingHangs(t: Shape, q: Key, k: Key) returns (x: Key)
    requires WellFormed(t) && q in t && q != [] && q < k
    ensures x in ContentsOf(t) && q <= x && !(k <= x)
  {
    assert CellCompressed(t, q);
    if t[q].servers != [] {
      x := q;
    } else {
      var c, d :| c in t[q].kids && d in t[q].kids && c != d;
      var a := StoredUnder(t, q, c);
      var b := StoredUnder(t, q, d);
      x := if k <= a then b else a;
    }
  }

  lemma Diverged(p: Key, r: Key, k: Key, n: nat, j: nat)
    requires n < j <= |p| && n < |r| && p[n] != r[n]
    requires p[..n] <= k ==> r <= k
    ensures !(p[..j] <= k)
  {
    assert p[..j][n] == p[n];
    assert p[..n] == p[..j][..n];
  }

  lemma LookupWith(m: Contents, p: Key, k: Key)
    requires Hangs(m, p, k)
    ensures Lookup(m, p) == UpTo(m, p, |p|) + Tag(m[k], Reach(m, p, |p|))
  {
    forall x | Hangs(m, p, x) ensures x == k {
      HangsUnique(m, p, k, x);
    }
  }

  /** Inside the edge from q to r, n bytes along p, the stored prompts in reach are those below r. */
  lemma EdgeReach(t: Shape, q: Key, r: Key, p: Key, n: nat)
    requires WellFormed(t) && q in t && r in t && n <= |p| && q < p[..n] < r
    requires r[|q|] in t[q].kids && t[q].kids[r[|q|]] == r
    requires n < |p| ==> p[n] != r[n]
    ensures forall k | k in ContentsOf(t) && p[..n] <= k :: r <= k
    ensures Reach(ContentsOf(t), p, |p|) == n
  {
    var m := ContentsOf(t);
    forall k | k in m && p[..n] <= k ensures r <= k {
      assert q < k && k[|q|] == p[..n][|q|] == r[|q|];
      GoDown(t, q, k);
    }
    var below := StoredBelow(t, r);
    assert p[..n] <= below;
    forall j | n < j <= |p| ensures !Touches(m, p, j) {
      forall k | k in m ensures !(p[..j] <= k) {
        Diverged(p, r, k, n, j);
      }
    }
    ReachIs(m, p, n);
  }

  lemma EdgeHangs(t: Shape, r: Key, p: Key, n: nat)
    requires WellFormed(t) && r in t && 0 < n <= |p| && p[..n] < r
    requires Reach(ContentsOf(t), p, |p|) == n
    requires forall k | k in ContentsOf(t) && p[..n] <= k :: r <= k
    ensures r in ContentsOf(t) ==> Hangs(ContentsOf(t), p, r)
    ensures forall k | Hangs(ContentsOf(t), p, k) :: k == r
  {
    var m := ContentsOf(t);
    forall k | Hangs(m, p, k) ensures k == r {
      if r < k {
        var x := NothingHangs(t, r, k);
      }
    }
  }

  lemma EdgeUpTo(t: Shape, q: Key, r: Key, p: Key, n: nat)
    requires WellFormed(t) && q in t && r in t && n <= |p| && q < p[..n] < r
    requires r[|q|] in t[q].kids && t[q].kids[r[|q|]] == r
    requires n < |p| ==> p[n] != r[n]
    ensures UpTo(ContentsOf(t), p, |p|) == UpTo(ContentsOf(t), p, |q|)
  {
    var m := ContentsOf(t);
    forall k | k in m && k <= p && |k| <= |p| ensures |k| <= |q| {
      PrefixesComparable(q, k, p);
      GoDown(t, q, k);
    }
    UpToSkips(m, p, |q|, |p|);
  }

  /** The descent stopped inside the edge from q to r, with n bytes of p used. */
  lemma LookupEndsInEdge(t: Shape, q: Key, r: Key, p: Key, n: nat)
    requires WellFormed(t) && q in t && r in t && n <= |p| && q < p[..n] < r
    requires r[|q|] in t[q].kids && t[q].kids[r[|q|]] == r
    requires n < |p| ==> p[n] != r[n]
    ensures Lookup(ContentsOf(t), p) == UpTo(ContentsOf(t), p, |q|) + Tag(t[r].servers, n)
  {
    var m := ContentsOf(t);
    EdgeReach(t, q, r, p, n);
    EdgeHangs(t, r, p, n);
    EdgeUpTo(t, q, r, p, n);
    if r in m {
      LookupWith(m, p, r);
    } else {
      assert t[r].servers == [] && forall k :: !Hangs(m, p, k);
    }
  }
}
