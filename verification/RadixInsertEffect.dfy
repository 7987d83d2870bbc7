/** What one insert does to later lookups: which matches it adds, keeps and hides. */
module RadixInsertEffect {
  import opened Keys
  import opened RadixShape
  import opened RadixLookup
  import opened RadixHistory

  /** A server inserted for a prompt is found for every prompt that starts with it. */
  lemma InsertThenFound(m: Contents, k: Key, s: Ref, p: Key)
    requires k != [] && k <= p
    ensures Match(s, |k|) in Lookup(Add(m, k, s), p)
  {
    assert p[..|k|] == k;
    LookupExact(Add(m, k, s), p, Match(s, |k|));
  }

  /** A match against a stored prefix of the prompt is never lost. */
  lemma PrefixMatchesKept(m: Contents, k: Key, s: Ref, p: Key, e: Match)
    requires 0 < e.matchedLen <= |p| && e.server in Holds(m, p[..e.matchedLen])
    ensures e in Lookup(Add(m, k, s), p)
  {
    LookupExact(Add(m, k, s), p, e);
  }

  lemma PrefixByte(p: Key, j: nat, k: Key, d: nat)
    requires d < j <= |p|
    ensures p[..j] <= k ==> |k| > d && k[d] == p[d] && p[..d] <= k
  {
    assert p[..j][d] == p[d] && p[..j][..d] == p[..d];
  }

  /** p and the hanging prompt differ right after the shared part. */
  lemma HangDiverges(m: Contents, p: Key, h: Key)
    requires Hangs(m, p, h)
    ensures var d := Reach(m, p, |p|);
            d < |h| && (d < |p| ==> h[d] != p[d])
  {
    var d := Reach(m, p, |p|);
    if d < |p| {
      assert !Touches(m, p, d + 1);
      assert !(p[..d + 1] <= h);
    }
  }

  /** An insert that does not fork off within the hanging edge leaves the reach of p unchanged. */
  lemma ReachKept(m: Contents, k: Key, s: Ref, p: Key, h: Key)
    requires Hangs(m, p, h) && k != []
    requires !(p[..Reach(m, p, |p|)] <= k) || h <= k || k <= h
    ensures Reach(Add(m, k, s), p, |p|) == Reach(m, p, |p|)
  {
    var d := Reach(m, p, |p|);
    var m' := Add(m, k, s);
    var x :| x in m && p[..d] <= x;
    assert x in m';
    HangDiverges(m, p, h);
    forall j | d < j <= |p| ensures !Touches(m', p, j) {
      assert !Touches(m, p, j);
      PrefixByte(p, j, k, d);
      forall y | y in m' ensures !(p[..j] <= y) {
        assert y == k || y in m;
      }
    }
    ReachIs(m', p, d);
  }

  /** Elsewhere, or below h: h still hangs. */
  lemma HangKept(m: Contents, k: Key, s: Ref, p: Key, h: Key, e: Match)
    requires k != [] && Hangs(m, p, h) && e.matchedLen == Reach(m, p, |p|) && e.server in m[h]
    requires !(p[..e.matchedLen] <= k) || h <= k
    ensures e in Lookup(Add(m, k, s), p)
  {
    ReachKept(m, k, s, p, h);
    var m' := Add(m, k, s);
    assert Hangs(m', p, h) && e.server in Holds(m', h);
    LookupExact(m', p, e);
  }

  lemma NotStoredYet(m: Contents, p: Key, h: Key)
    requires Hangs(m, p, h)
    ensures p[..Reach(m, p, |p|)] !in m
  {
  }

  /** Between the shared part and h: the new prompt takes h's place. */
  lemma HangReplaced(m: Contents, k: Key, s: Ref, p: Key, h: Key, e: Match)
    requires k != [] && k !in m && Hangs(m, p, h) && e.matchedLen == Reach(m, p, |p|) && e.server in m[h]
    requires p[..e.matchedLen] <= k < h
    ensures e in Lookup(Add(m, k, s), p) <==> s == e.server
  {
    ReachKept(m, k, s, p, h);
    NotStoredYet(m, p, h);
    var m', q := Add(m, k, s), p[..e.matchedLen];
    LookupExact(m', p, e);
    assert Holds(m', k) == [] + [s];
    forall x | Hangs(m', p, x) ensures x == k {
      assert x <= k;
      assert x in m ==> h <= x;
    }
    if q < k {
      assert Hangs(m', p, k);
    } else {
      assert k == q;
    }
  }

  /** Forking off within the hanging edge: the fork has no servers, and nothing hangs any more. */
  lemma HangLost(m: Contents, k: Key, s: Ref, p: Key, h: Key, e: Match)
    requires k != [] && k !in m && Hangs(m, p, h) && e.matchedLen == Reach(m, p, |p|)
    requires p[..e.matchedLen] <= k && !(h <= k) && !(k <= h)
    ensures e !in Lookup(Add(m, k, s), p)
  {
    NotStoredYet(m, p, h);
    var m' := Add(m, k, s);
    LookupExact(m', p, e);
    assert p[..e.matchedLen] != k && p[..e.matchedLen] !in m';
    if Reach(m', p, |p|) == e.matchedLen {
      forall x ensures !Hangs(m', p, x) {
        NothingHangsAtFork(m, k, s, p, h, x);
      }
    }
  }

  lemma NothingHangsAtFork(m: Contents, k: Key, s: Ref, p: Key, h: Key, x: Key)
    requires k != [] && k !in m && Hangs(m, p, h) && Reach(Add(m, k, s), p, |p|) == Reach(m, p, |p|)
    requires p[..Reach(m, p, |p|)] <= k && !(h <= k) && !(k <= h)
    ensures !Hangs(Add(m, k, s), p, x)
  {
    var m' := Add(m, k, s);
    assert k in m' && h in m';
    assert x in m && p[..Reach(m, p, |p|)] <= x ==> h <= x;
  }

  /** A match against the hanging prompt h survives the insert of s at a new prompt k exactly when k
      is not below the shared part, or extends h, or lies between the two and lists the same server. */
  lemma HangingMatchKept(m: Contents, k: Key, s: Ref, p: Key, h: Key, e: Match)
    requires k != [] && k !in m && Hangs(m, p, h) && e.matchedLen == Reach(m, p, |p|) && e.server in m[h]
    ensures e in Lookup(Add(m, k, s), p)
            <==> !(p[..e.matchedLen] <= k) || h <= k || (k <= h && s == e.server)
  {
    if !(p[..e.matchedLen] <= k) || h <= k {
      HangKept(m, k, s, p, h, e);
    } else if k <= h {
      HangReplaced(m, k, s, p, h, e);
    } else {
      HangLost(m, k, s, p, h, e);
    }
  }

  /** The insert of s for k takes e, a match against the one prompt that hangs off p's shared part, away:
      k is new, forks off within that prompt's last edge, and does not take its place with the same server. */
  ghost predicate Hides(m: Contents, k: Key, s: Ref, p: Key, e: Match) {
    && k !in m && e.matchedLen == Reach(m, p, |p|) && e.matchedLen <= |p| && p[..e.matchedLen] <= k
    && exists h :: Hangs(m, p, h) && e.server in m[h] && !(h <= k) && !(k <= h && s == e.server)
  }

  /** At a prompt that is stored already an insert adds no node, and hides nothing. */
  lemma StoredInsertKeeps(m: Contents, k: Key, s: Ref, p: Key, e: Match)
    requires k in m && e in Lookup(m, p)
    ensures e in Lookup(Add(m, k, s), p)
  {
    var m' := Add(m, k, s);
    LookupExact(m, p, e);
    LookupExact(m', p, e);
    SameReach(m, m', p, |p|);
    forall h | Hangs(m, p, h) && e.server in Holds(m, h) ensures Hangs(m', p, h) && e.server in Holds(m', h) {
    }
  }

  /** Exactly which entries an insert takes away from a lookup, for all inserts, prompts and entries. */
  lemma EntryKept(m: Contents, k: Key, s: Ref, p: Key, e: Match)
    requires e in Lookup(m, p)
    ensures e in Lookup(Add(m, k, s), p) <==> !Hides(m, k, s, p, e)
  {
    LookupExact(m, p, e);
    if k == [] {
      assert Hides(m, k, s, p, e) ==> e.matchedLen == 0;
    } else if k in m {
      StoredInsertKeeps(m, k, s, p, e);
    } else if 0 < e.matchedLen <= |p| && e.server in Holds(m, p[..e.matchedLen]) {
      PrefixMatchesKept(m, k, s, p, e);
      forall h | Hangs(m, p, h) ensures e.matchedLen != Reach(m, p, |p|) {
        NotStoredYet(m, p, h);
      }
    } else {
      var h :| Hangs(m, p, h) && e.server in Holds(m, h);
      HangingMatchKept(m, k, s, p, h, e);
      forall x | Hangs(m, p, x) ensures x == h {
        HangsUnique(m, p, h, x);
      }
    }
  }

  const A: Key := [97]
  const AB: Key := [97, 98]
  const AC: Key := [97, 99]

  lemma FirstServer(m: Contents, k: Key, s: Ref)
    requires k != [] && k !in m
    ensures Add(m, k, s) == m[k := [s]]
  {
    assert Holds(m, k) == [] && [] + [s] == [s];
  }

  lemma TwoInserts(x: Ref, y: Ref)
    ensures Run([Insert(AB, x)]) == map[AB := [x]]
    ensures Run([Insert(AB, x), Insert(AC, y)]) == map[AB := [x], AC := [y]]
  {
    var before := [Insert(AB, x)];
    assert AB[1] != AC[1];
    RunSnoc([], Insert(AB, x));
    RunSnoc(before, Insert(AC, y));
    FirstServer(map[], AB, x);
    FirstServer(map[AB := [x]], AC, y);
    assert [] + before == before && before + [Insert(AC, y)] == [Insert(AB, x), Insert(AC, y)];
  }

  /** Of a lookup of "a", when "ab" is stored alone or with another extension of "a". */
  lemma LookupOfA(m: Contents)
    requires AB in m && A !in m
    ensures Reach(m, A, 1) == 1 && UpTo(m, A, 1) == []
  {
    assert A[..1] == A && A <= AB;
    assert Touches(m, A, 1);
    assert UpTo(m, A, 0) == [];
  }

  /** A concrete loss: after storing "ab" a lookup of "a" finds its server; storing "ac" as well leaves
      that lookup nothing at all, although "a" is still a shared prefix. */
  lemma InsertCanHideAMatch(x: Ref, y: Ref)
    ensures Lookup(Run([Insert(AB, x)]), A) == [Match(x, 1)]
    ensures Lookup(Run([Insert(AB, x), Insert(AC, y)]), A) == []
    ensures Reach(Run([Insert(AB, x), Insert(AC, y)]), A, 1) == 1
  {
    TwoInserts(x, y);
    var m: Contents, m': Contents := map[AB := [x]], map[AB := [x], AC := [y]];
    LookupOfA(m);
    LookupOfA(m');
    assert A[..1] == A && AB[1] != AC[1];
    assert Hangs(m, A, AB);
    LookupWith(m, A, AB);
    assert Tag(m[AB], 1) == [Match(x, 1)];
    forall k ensures !Hangs(m', A, k) {
      assert AB in m' && AC in m' && A <= AB && A <= AC;
      assert k <= AB && k <= AC ==> |k| <= 1;
    }
  }
}
