/** Prompts as byte strings, and the prefix order on them. */
module Keys {
  newtype byte = x: int | 0 <= x < 256

  /** A prompt, or any prefix of one. */
  type Key = seq<byte>

  /** A server or peer pointer, compared by identity. `Nil` is Go's nil pointer,
      which the load balancer also stores as its marker for the local node. */
  datatype Ref = Nil | Ref(id: nat)

  /** The length of the longest common prefix. */
  function Shared(a: Key, b: Key): (n: nat)
    ensures n <= |a| && n <= |b|
    ensures a[..n] == b[..n]
    ensures n < |a| && n < |b| ==> a[n] != b[n]
  {
    if a == [] || b == [] || a[0] != b[0] then
      0
    else
      var n := Shared(a[1..], b[1..]);
      assert forall i | 0 < i < n + 1 :: a[i] == a[1..][..n][i - 1] == b[1..][..n][i - 1] == b[i];
      1 + n
  }

  lemma SharedUnique(a: Key, b: Key, n: nat)
    requires n <= |a| && n <= |b| && a[..n] == b[..n]
    requires n < |a| && n < |b| ==> a[n] != b[n]
    ensures n == Shared(a, b)
  {
    var m := Shared(a, b);
    assert forall i | 0 <= i < n :: a[..n][i] == a[i] && b[..n][i] == b[i];
    assert forall i | 0 <= i < m :: a[..m][i] == a[i] && b[..m][i] == b[i];
  }

  method SharedPrefixLength(a: Key, b: Key) returns (n: nat)
    ensures n == Shared(a, b)
  {
    var minLen := |a|;
    if |b| < minLen {
      minLen := |b|;
    }
    for i := 0 to minLen
      invariant a[..i] == b[..i]
    {
      if a[i] != b[i] {
        SharedUnique(a, b, i);
        return i;
      }
    }
    SharedUnique(a, b, minLen);
    return minLen;
  }

  /** Two prefixes of one key are comparable. */
  lemma PrefixesComparable(a: Key, b: Key, k: Key)
    requires a <= k && b <= k
    ensures |a| <= |b| ==> a <= b
    ensures |a| < |b| ==> a < b && b[|a|] == k[|a|]
    ensures |a| == |b| ==> a == b
  {
  }

  predicate NoRepeats(s: seq<Ref>) {
    forall i, j | 0 <= i < j < |s| :: s[i] != s[j]
  }
}
