/** Sequences that are permutations of each other. */
module Seqs {

  function Without<T>(s: seq<T>, j: nat): seq<T>
    requires j < |s|
  {
    s[..j] + s[j + 1..]
  }

  lemma WithoutCounts<T>(s: seq<T>, j: nat)
    requires j < |s|
    ensures multiset(s) == multiset(Without(s, j)) + multiset{s[j]}
  {
    assert s == s[..j] + [s[j]] + s[j + 1..];
  }

  /** The rest of two permutations of each other, once the last element of the first is taken out of both. */
  lemma SameWithout<T>(a: seq<T>, b: seq<T>) returns (j: nat)
    requires multiset(a) == multiset(b) && a != []
    ensures j < |b| && b[j] == a[|a| - 1] && multiset(a[..|a| - 1]) == multiset(Without(b, j))
  {
    var n := |a| - 1;
    WithoutCounts(a, n);
    assert Without(a, n) == a[..n];
    assert a[n] in multiset(b);
    j :| 0 <= j < |b| && b[j] == a[n];
    WithoutCounts(b, j);
    assert multiset(a[..n]) == multiset(a) - multiset{a[n]};
    assert multiset(Without(b, j)) == multiset(b) - multiset{b[j]};
  }

  lemma SameInit<T>(a: seq<T>, b: seq<T>)
    requires a != [] && |a| == |b| && multiset(a) == multiset(b) && a[|a| - 1] == b[|b| - 1]
    ensures multiset(a[..|a| - 1]) == multiset(b[..|b| - 1])
  {
    var n := |a| - 1;
    WithoutCounts(a, n);
    WithoutCounts(b, n);
    assert Without(a, n) == a[..n] && Without(b, n) == b[..n];
    Cancel(multiset(a[..n]), multiset(b[..n]), a[n]);
  }

  lemma Cancel<T>(a: multiset<T>, b: multiset<T>, x: T)
    requires a + multiset{x} == b + multiset{x}
    ensures a == b
  {
    assert a == a + multiset{x} - multiset{x};
    assert b == b + multiset{x} - multiset{x};
  }

  lemma MoveOver<T>(s: seq<T>, x: T, rest: seq<T>)
    ensures s + ([x] + rest) == (s + [x]) + rest
  {
  }

  function Inserted<T>(s: seq<T>, k: nat, x: T): seq<T>
    requires k <= |s|
  {
    s[..k] + [x] + s[k..]
  }

  lemma InsertedCounts<T>(s: seq<T>, k: nat, x: T)
    requires k <= |s|
    ensures multiset(Inserted(s, k, x)) == multiset(s) + multiset{x}
  {
    assert s == s[..k] + s[k..];
  }

  lemma TakeMore<T>(s: seq<T>, n: nat, m: nat)
    requires n + m <= |s|
    ensures s[..n + m] == s[..n] + s[n..][..m]
  {
  }
}
