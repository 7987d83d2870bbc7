/** Sizes and sums over finite sets. */
module Sets {
  lemma {:induction false} SubsetSize<T>(a: set<T>, b: set<T>)
    requires a <= b
    ensures |a| <= |b|
  {
    if a != {} {
      var x :| x in a;
      SubsetSize(a - {x}, b - {x});
    }
  }

  lemma SizeWith<T>(a: set<T>, x: T)
    ensures |a + {x}| == if x in a then |a| else |a| + 1
  {
    if x in a {
      assert a + {x} == a;
    } else {
      assert a !! {x};
    }
  }

  lemma SizeWithout<T>(a: set<T>, x: T)
    ensures |a - {x}| == if x in a then |a| - 1 else |a|
  {
    if x in a {
      assert a - {x} + {x} == a;
      SizeWith(a - {x}, x);
    } else {
      assert a - {x} == a;
    }
  }

  /** The sum of m's values over the given keys. */
  ghost function Sum<T>(m: map<T, nat>, ids: set<T>): nat
    requires ids <= m.Keys
    decreases |ids|
  {
    if ids == {} then 0 else var r :| r in ids; m[r] + Sum(m, ids - {r})
  }

  lemma {:induction false} SumPick<T>(m: map<T, nat>, ids: set<T>, r: T)
    requires ids <= m.Keys && r in ids
    ensures Sum(m, ids) == m[r] + Sum(m, ids - {r})
    decreases |ids|
  {
    var x :| x in ids && Sum(m, ids) == m[x] + Sum(m, ids - {x});
    if x != r {
      SumPick(m, ids - {x}, r);
      SumPick(m, ids - {r}, x);
      assert ids - {x} - {r} == ids - {r} - {x};
    }
  }

  lemma {:induction false} SumAgree<T>(m: map<T, nat>, m': map<T, nat>, ids: set<T>)
    requires ids <= m.Keys && ids <= m'.Keys && forall r | r in ids :: m[r] == m'[r]
    ensures Sum(m, ids) == Sum(m', ids)
    decreases |ids|
  {
    if ids != {} {
      var r :| r in ids;
      SumPick(m, ids, r);
      SumPick(m', ids, r);
      SumAgree(m, m', ids - {r});
    }
  }

  lemma SizeOfUnion<T>(a: set<T>, b: set<T>)
    requires a !! b
    ensures |a + b| == |a| + |b|
  {
  }
}
