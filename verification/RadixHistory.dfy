/** Whole histories of inserts and clears: what is stored afterwards, and that neither the tree
    nor a lookup depends on the order of the inserts. */
module RadixHistory {
  import opened Keys
  import opened RadixShape
  import opened RadixCanon
  import opened RadixLookup

  datatype Op = Insert(prompt: Key, server: Ref) | Clear

  /** What is stored after a history that starts with nothing stored. */
  function Run(ops: seq<Op>): Contents {
    if ops == [] then map[] else Apply(Run(ops[..|ops| - 1]), ops[|ops| - 1])
  }

  /** One operation more. */
  function Apply(m: Contents, op: Op): Contents {
    match op
    case Insert(p, s) => Add(m, p, s)
    case Clear => map[]
  }

  lemma RunSnoc(ops: seq<Op>, op: Op)
    ensures Run(ops + [op]) == Apply(Run(ops), op)
  {
    assert (ops + [op])[..|ops|] == ops;
  }

  /** The inserts since the last clear. */
  function Live(ops: seq<Op>): seq<Op> {
    if ops == [] || ops[|ops| - 1] == Clear then
      []
    else
      Live(ops[..|ops| - 1]) + [ops[|ops| - 1]]
  }

  ghost predicate Lists(m: Contents) {
    forall k | k in m :: k != [] && m[k] != [] && NoRepeats(m[k])
  }

  /** After any history, a server is listed at a prompt exactly when it was inserted there since
      the last clear, and it is listed once. */
  lemma {:induction false} RunExact(ops: seq<Op>)
    ensures Lists(Run(ops))
    ensures forall k, s :: s in Holds(Run(ops), k) <==> k != [] && Insert(k, s) in Live(ops)
  {
    if ops != [] {
      RunExact(ops[..|ops| - 1]);
    }
  }

  // ----- entries of a lookup

  lemma {:induction false} InUpTo(m: Contents, p: Key, n: nat, e: Match)
    requires n <= |p|
    ensures e in UpTo(m, p, n) <==> 0 < e.matchedLen <= n && e.server in Holds(m, p[..e.matchedLen])
  {
    if n > 0 {
      InUpTo(m, p, n - 1, e);
      InTag(Holds(m, p[..n]), n, e);
    }
  }

  /** Exactly the servers of stored prefixes of p, and of the one prompt hanging off its shared part. */
  ghost predicate Expected(m: Contents, p: Key, e: Match) {
    || (0 < e.matchedLen <= |p| && e.server in Holds(m, p[..e.matchedLen]))
    || (e.matchedLen == Reach(m, p, |p|) && exists k :: Hangs(m, p, k) && e.server in Holds(m, k))
  }

  lemma LookupExact(m: Contents, p: Key, e: Match)
    ensures e in Lookup(m, p) <==> Expected(m, p, e)
  {
    InUpTo(m, p, |p|, e);
    if k :| Hangs(m, p, k) {
      LookupWith(m, p, k);
      InTag(m[k], Reach(m, p, |p|), e);
      forall x | Hangs(m, p, x) ensures x == k {
        HangsUnique(m, p, k, x);
      }
    }
  }

  /** k is stored and starts every stored prompt that has the prefix q. */
  ghost predicate StartsAll(m: Contents, q: Key, k: Key) {
    k in m && q <= k && forall x | x in m && q <= x :: k <= x
  }

  lemma NeverPastReach(m: Contents, p: Key, e: Match)
    requires e in Lookup(m, p)
    ensures e.matchedLen <= Reach(m, p, |p|)
  {
    LookupExact(m, p, e);
    if 0 < e.matchedLen <= |p| && e.server in Holds(m, p[..e.matchedLen]) {
      assert Touches(m, p, e.matchedLen);
    }
  }

  /** When the longest prefix of p shared with a stored prompt is found: exactly when one of the stored
      prompts that share it starts all the others. */
  lemma LongestSharedFound(m: Contents, p: Key)
    requires Lists(m) && Reach(m, p, |p|) > 0
    ensures var d := Reach(m, p, |p|);
            && (forall e | e in Lookup(m, p) :: e.matchedLen <= d)
            && ((exists e :: e in Lookup(m, p) && e.matchedLen == d) <==> exists k :: StartsAll(m, p[..d], k))
  {
    var d := Reach(m, p, |p|);
    forall e | e in Lookup(m, p) ensures e.matchedLen <= d {
      NeverPastReach(m, p, e);
    }
    if e :| e in Lookup(m, p) && e.matchedLen == d {
      LookupExact(m, p, e);
      if e.server in Holds(m, p[..d]) {
        assert StartsAll(m, p[..d], p[..d]);
      } else {
        var k :| Hangs(m, p, k) && e.server in Holds(m, k);
        assert StartsAll(m, p[..d], k);
      }
    }
    if k :| StartsAll(m, p[..d], k) {
      assert k == p[..d] || Hangs(m, p, k);
      var e := Match(m[k][0], d);
      assert e.server in Holds(m, k);
      LookupExact(m, p, e);
    }
  }

  lemma LongestWithin(m: Contents, p: Key, s: Ref)
    ensures Longest(s, Lookup(m, p)) <= |p|
  {
    var n := Longest(s, Lookup(m, p));
    LongestIs(s, Lookup(m, p));
    if n > 0 {
      LookupExact(m, p, Match(s, n));
    }
  }

  ghost predicate Ordered(es: seq<Match>) {
    forall i, j | 0 <= i < j < |es| :: es[i].matchedLen <= es[j].matchedLen && es[i] != es[j]
  }

  lemma TagOrdered(es: seq<Match>, servers: seq<Ref>, n: nat)
    requires Ordered(es) && NoRepeats(servers) && forall i | 0 <= i < |es| :: es[i].matchedLen < n
    ensures Ordered(es + Tag(servers, n))
    ensures forall i | 0 <= i < |es + Tag(servers, n)| :: (es + Tag(servers, n))[i].matchedLen <= n
  {
  }

  lemma {:induction false} UpToOrdered(m: Contents, p: Key, n: nat)
    requires Lists(m) && n <= |p|
    ensures Ordered(UpTo(m, p, n))
    ensures forall i | 0 <= i < |UpTo(m, p, n)| :: UpTo(m, p, n)[i].matchedLen <= n
  {
    if n > 0 {
      UpToOrdered(m, p, n - 1);
      TagOrdered(UpTo(m, p, n - 1), Holds(m, p[..n]), n);
    }
  }

  /** When a prompt hangs off the shared part, the stored prefixes of p are shorter than that part. */
  lemma HangsBeyond(m: Contents, p: Key, k: Key)
    requires Hangs(m, p, k)
    ensures var d := Reach(m, p, |p|);
            d > 0 && UpTo(m, p, |p|) == UpTo(m, p, d - 1)
  {
    var d := Reach(m, p, |p|);
    forall x | x in m && x <= p && |x| <= |p| ensures |x| <= d - 1 {
      assert p[..|x|] == x;
      assert Touches(m, p, |x|);
    }
    UpToSkips(m, p, d - 1, |p|);
  }

  /** Entries come in non-decreasing length, none twice. */
  lemma LookupOrdered(m: Contents, p: Key)
    requires Lists(m)
    ensures Ordered(Lookup(m, p))
  {
    if k :| Hangs(m, p, k) {
      LookupWith(m, p, k);
      HangsBeyond(m, p, k);
      var d := Reach(m, p, |p|);
      UpToOrdered(m, p, d - 1);
      TagOrdered(UpTo(m, p, d - 1), m[k], d);
    } else {
      UpToOrdered(m, p, |p|);
    }
  }

  // ----- the order of inserts

  ghost predicate SameHeld(m: Contents, u: Contents) {
    m.Keys == u.Keys && forall k, s :: s in Holds(m, k) <==> s in Holds(u, k)
  }

  lemma {:induction false} SameReach(m: Contents, u: Contents, p: Key, n: nat)
    requires m.Keys == u.Keys && n <= |p|
    ensures Reach(m, p, n) == Reach(u, p, n)
  {
    assert Touches(m, p, n) <==> Touches(u, p, n);
    if n > 0 {
      SameReach(m, u, p, n - 1);
    }
  }

  lemma SameLookup(m: Contents, u: Contents, p: Key, e: Match)
    requires SameHeld(m, u)
    ensures e in Lookup(m, p) <==> e in Lookup(u, p)
  {
    LookupExact(m, p, e);
    LookupExact(u, p, e);
    SameReach(m, u, p, |p|);
    forall k ensures Hangs(m, p, k) <==> Hangs(u, p, k) {
    }
  }

  lemma SameLive(ops: seq<Op>, other: seq<Op>)
    requires forall o :: o in Live(ops) <==> o in Live(other)
    ensures SameHeld(Run(ops), Run(other))
  {
    RunExact(ops);
    RunExact(other);
    var m, u := Run(ops), Run(other);
    forall k ensures k in m <==> k in u {
      assert k in m ==> Holds(m, k)[0] in Holds(u, k);
      assert k in u ==> Holds(u, k)[0] in Holds(m, k);
    }
  }

  /** Any two trees reached by histories with the same live inserts, in whatever order, have the
      same nodes, labels and branching, and every lookup returns the same entries from both. */
  lemma InsertionOrderIrrelevant(ops: seq<Op>, other: seq<Op>, t: Shape, u: Shape, p: Key, e: Match)
    requires forall o :: o in Live(ops) <==> o in Live(other)
    requires WellFormed(t) && WellFormed(u) && ContentsOf(t) == Run(ops) && ContentsOf(u) == Run(other)
    ensures t.Keys == u.Keys
    ensures forall k | k in t :: t[k].prefix == u[k].prefix && t[k].kids == u[k].kids
    ensures e in Lookup(ContentsOf(t), p) <==> e in Lookup(ContentsOf(u), p)
  {
    SameLive(ops, other);
    SameSkeleton(t, u);
    SameLookup(Run(ops), Run(other), p, e);
  }
}
