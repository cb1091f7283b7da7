/** Concatenation of byte chunks, and the offset at which each chunk starts. */
module Chunks {
  import opened Sequences

  function Map<A, B>(f: A -> B, s: seq<A>): (r: seq<B>)
    ensures |r| == |s|
    ensures forall i :: 0 <= i < |s| ==> r[i] == f(s[i])
  {
    seq(|s|, i requires 0 <= i < |s| => f(s[i]))
  }

  lemma MapConcat<A, B>(f: A -> B, a: seq<A>, b: seq<A>)
    ensures Map(f, a + b) == Map(f, a) + Map(f, b)
  {
  }

  function Flat(cs: seq<seq<int>>): seq<int> {
    if cs == [] then [] else Flat(cs[..|cs| - 1]) + cs[|cs| - 1]
  }

  /** The offset at which each chunk starts, and where the last one ends. */
  function Offsets(sizes: seq<nat>): (r: seq<nat>)
    ensures |r| == |sizes| + 1 && r[0] == 0
    ensures forall i :: 0 <= i < |sizes| ==> r[i + 1] == r[i] + sizes[i]
  {
    if sizes == [] then [0]
    else
      var n := |sizes| - 1;
      var r := Offsets(sizes[..n]);
      r + [r[n] + sizes[n]]
  }

  ghost predicate Positive(sizes: seq<nat>) {
    forall i :: 0 <= i < |sizes| ==> sizes[i] > 0
  }

  lemma {:induction false} OffsetsAscend(sizes: seq<nat>)
    requires Positive(sizes)
    ensures Ascending(Offsets(sizes))
  {
    if sizes != [] {
      OffsetsAscend(sizes[..|sizes| - 1]);
    }
  }

  lemma {:induction false} FlatLength(cs: seq<seq<int>>, sizes: seq<nat>, i: nat)
    requires |cs| == |sizes| && i <= |cs|
    requires forall k :: 0 <= k < |cs| ==> sizes[k] == |cs[k]|
    ensures Offsets(sizes)[i] == |Flat(cs[..i])|
  {
    if i > 0 {
      FlatLength(cs, sizes, i - 1);
      assert cs[..i][..i - 1] == cs[..i - 1];
      assert Offsets(sizes)[(i - 1) + 1] == Offsets(sizes)[i - 1] + sizes[i - 1];
    }
  }

  lemma {:induction false} FlatConcat(a: seq<seq<int>>, b: seq<seq<int>>)
    ensures Flat(a + b) == Flat(a) + Flat(b)
  {
    if b == [] {
      assert a + b == a;
    } else {
      var n := |b| - 1;
      FlatConcat(a, b[..n]);
      assert (a + b)[..|a + b| - 1] == a + b[..n];
      assert (Flat(a) + Flat(b[..n])) + b[n] == Flat(a) + (Flat(b[..n]) + b[n]);
    }
  }

  lemma FlatSingle(c: seq<int>)
    ensures Flat([c]) == c
  {
    assert [c][..0] == [];
    assert Flat([c][..0]) == [];
  }

  lemma FlatHead(cs: seq<seq<int>>)
    requires cs != []
    ensures Flat(cs) == cs[0] + Flat(cs[1..])
  {
    FlatConcat([cs[0]], cs[1..]);
    FlatSingle(cs[0]);
    assert cs == [cs[0]] + cs[1..];
  }

  /** The concatenation of the encodings of a sequence. */
  function FlatMap<A>(f: A -> seq<int>, s: seq<A>): seq<int> {
    Flat(Map(f, s))
  }

  lemma FlatMapConcat<A>(f: A -> seq<int>, a: seq<A>, b: seq<A>)
    ensures FlatMap(f, a + b) == FlatMap(f, a) + FlatMap(f, b)
  {
    MapConcat(f, a, b);
    FlatConcat(Map(f, a), Map(f, b));
  }

  lemma FlatMapHead<A>(f: A -> seq<int>, s: seq<A>)
    requires s != []
    ensures FlatMap(f, s) == f(s[0]) + FlatMap(f, s[1..])
  {
    FlatHead(Map(f, s));
    assert Map(f, s)[1..] == Map(f, s[1..]);
  }

  /** Non-empty encodings of which none is a prefix of another. */
  ghost predicate PrefixFree<A(!new)>(f: A -> seq<int>, ok: A -> bool) {
    && (forall a :: ok(a) ==> f(a) != [])
    && forall a, b, x, y :: ok(a) && ok(b) && f(a) + x == f(b) + y ==> a == b && x == y
  }

  /** A prefix-free code is uniquely decodable: equal concatenations come from
      equal sequences. */
  lemma {:induction false} UniquelyDecodable<A(!new)>(f: A -> seq<int>, ok: A -> bool, a: seq<A>, b: seq<A>)
    requires PrefixFree(f, ok)
    requires forall i :: 0 <= i < |a| ==> ok(a[i])
    requires forall i :: 0 <= i < |b| ==> ok(b[i])
    requires FlatMap(f, a) == FlatMap(f, b)
    ensures a == b
    decreases |a|
  {
    if a != [] {
      FlatMapHead(f, a);
    }
    if b != [] {
      FlatMapHead(f, b);
    }
    if a != [] && b != [] {
      UniquelyDecodable(f, ok, a[1..], b[1..]);
      assert a == [a[0]] + a[1..] && b == [b[0]] + b[1..];
    }
  }
}
