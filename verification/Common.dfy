/** Small facts about finite collections shared by the models. */
module Common {

  datatype Option<+T> = None | Some(value: T)

  function Min(a: int, b: int): int { if a <= b then a else b }

  function Max(a: int, b: int): int { if a >= b then a else b }

  predicate Distinct<T(==)>(s: seq<T>) {
    forall i, j :: 0 <= i < j < |s| ==> s[i] != s[j]
  }

  /** The elements of a sequence. */
  function Elements<T>(s: seq<T>): set<T> { set x | x in s }

  lemma SubsetCardinality<T>(a: set<T>, b: set<T>)
    requires a <= b
    ensures |a| <= |b|
    ensures |a| == |b| ==> a == b
  {
    assert b == a + (b - a);
    assert |b| == |a| + |b - a|;
  }

  lemma SameMap<K, V>(a: map<K, V>, b: map<K, V>)
    requires forall k :: k in b ==> k in a && a[k] == b[k]
    requires forall k :: k in a ==> k in b
    ensures a == b
  {
  }

  lemma SliceOfSlice<T>(s: seq<T>, i: nat, j: nat)
    requires i <= j <= |s|
    ensures s[i..][..j - i] == s[i..j] && s[i..][j - i..] == s[j..]
  {
  }

  lemma SplitAt<T>(a: seq<T>, b: seq<T>, n: nat)
    requires n <= |b|
    ensures b == b[..n] + b[n..] && (a + b[..n]) + b[n..] == a + b && a + b[..n] <= a + b
    ensures forall x :: x in b <==> x in b[..n] || x in b[n..]
  {
    assert b == b[..n] + b[n..];
  }

  lemma WholeSlice<T>(s: seq<T>)
    ensures s[..|s|] == s && [] + s == s
  {
  }

  lemma SlicePlus<T>(s: seq<T>, i: nat)
    requires i < |s|
    ensures s[..i + 1] == s[..i] + [s[i]]
  {
  }

  lemma SliceLast<T>(s: seq<T>, i: nat, j: nat)
    requires i <= j < |s|
    ensures forall x :: x in s[i..j + 1] <==> x in s[i..j] || x == s[j]
  {
    assert s[i..j + 1] == s[i..j] + [s[j]];
  }

  lemma SliceStep<T>(before: seq<T>, s: seq<T>, i: nat)
    requires i < |s|
    ensures before + s[..i + 1] == before + s[..i] + [s[i]]
  {
  }

  lemma PrefixStep<T>(order: seq<T>, i: nat)
    requires i < |order| && Distinct(order)
    ensures order[..i + 1][..i] == order[..i] && order[..i + 1] == order[..i] + [order[i]]
    ensures Elements(order[..i + 1]) == Elements(order[..i]) + {order[i]} && order[i] !in Elements(order[..i])
  {
    assert order[..i + 1] == order[..i] + [order[i]];
  }

  /** A sequence without repetition has as many elements as positions. */
  lemma {:induction false} DistinctCardinality<T>(s: seq<T>)
    requires Distinct(s)
    ensures |Elements(s)| == |s|
  {
    if s != [] {
      var front, last := s[..|s| - 1], s[|s| - 1];
      DistinctCardinality(front);
      assert s == front + [last];
      assert last !in front;
      assert Elements(s) == Elements(front) + {last};
    }
  }

  lemma DivisionIsUnique(x: int, n: nat, k: int, t: int)
    requires n > 0 && x == k * n + t && 0 <= t < n
    ensures x / n == k && x % n == t
  {
    QuotientsAgree(n, k, t, x / n, x % n);
  }

  lemma QuotientsAgree(n: nat, k: int, t: int, k': int, t': int)
    requires n > 0 && k * n + t == k' * n + t' && 0 <= t < n && 0 <= t' < n
    ensures k == k' && t == t'
  {
    assert (k - k') * n == k * n - k' * n;
    if k > k' { MultipleIsLarge(k - k', n); }
    if k < k' { MultipleIsLarge(k' - k, n); }
  }

  lemma {:induction false} MultipleIsLarge(d: nat, n: nat)
    requires d > 0
    ensures d * n >= n
  {
    if d > 1 { MultipleIsLarge(d - 1, n); }
  }

  /** Whether an operation of the environment works: arbitrary, but yes if it is reliable. */
  method StoreAnswers(reliable: bool) returns (ok: bool)
    ensures reliable ==> ok
  {
    ok := *;
    if reliable { ok := true; }
  }

  /** Up to `limit` elements of a set, in any order: a bounded, unordered SQL select. */
  method TakeAny<T(==)>(all: set<T>, limit: nat) returns (taken: seq<T>)
    ensures Distinct(taken) && |taken| == Min(limit, |all|)
    ensures forall x :: x in taken ==> x in all
  {
    taken := [];
    var left := all;
    while |taken| < limit && left != {}
      invariant Distinct(taken) && |taken| <= limit && |taken| + |left| == |all|
      invariant left <= all && forall x :: x in taken ==> x in all && x !in left
      decreases left
    {
      var x :| x in left;
      taken, left := taken + [x], left - {x};
    }
  }
}
