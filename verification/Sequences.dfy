/** Facts about sequences that several models use. */
module Sequences {

  ghost predicate Ascending(l: seq<nat>) {
    forall i, j :: 0 <= i < j < |l| ==> l[i] < l[j]
  }

  lemma Regroup<T>(a: seq<T>, b: seq<T>, c: seq<T>)
    ensures (a + b) + c == a + (b + c)
  {
  }

  lemma TailOfJoined<T>(a: seq<T>, b: seq<T>)
    requires a != []
    ensures (a + b)[0] == a[0] && (a + b)[1..] == a[1..] + b
  {
  }

  lemma TakeOfTail<T>(s: seq<T>, n: nat)
    requires 0 < n <= |s|
    ensures s[..n][1..] == s[1..][..n - 1]
  {
  }

  lemma SliceOfSlice<T>(s: seq<T>, from: nat, end: nat, a: nat, b: nat)
    requires from <= end <= |s| && a <= b <= end - from
    ensures s[from..end][a..b] == s[from + a..from + b]
  {
    var x, y := s[from..end][a..b], s[from + a..from + b];
    assert forall k :: 0 <= k < b - a ==> x[k] == y[k];
  }

  lemma JoinedAt<T>(a: seq<T>, b: seq<T>, k: nat)
    requires k < |b|
    ensures |a| + k < |a + b| && (a + b)[|a| + k] == b[k]
  {
  }

  lemma RegroupInner<T>(a: seq<T>, b: seq<T>, c: seq<T>, d: seq<T>)
    ensures (a + b) + d == a + (b + d)
    ensures (a + (b + c)) + d == a + (b + (c + d))
  {
  }

  lemma RegroupFour<T>(a: seq<T>, b: seq<T>, c: seq<T>, d: seq<T>)
    ensures a + b + c + d == a + (b + (c + d))
  {
  }

  lemma RegroupFive<T>(a: seq<T>, b: seq<T>, c: seq<T>, d: seq<T>, e: seq<T>)
    ensures (a + b + c + d) + e == a + (b + (c + (d + e)))
  {
  }
}
