/** What a signature over the regions protects: the bytes they hold are the
    encoding of the covered tags, they determine those tags, and nothing about
    an excluded property can be seen in them. */
module FdtHash {
  import opened Sequences
  import opened Chunks
  import opened FdtFormat
  import opened FdtScan
  import opened FdtCollect

  // -------------------------------------------------------------------------
  // The covered tags as a sequence
  // -------------------------------------------------------------------------

  function Last(flags: seq<bool>, prev: bool): bool {
    if flags == [] then prev else flags[|flags| - 1]
  }

  /** The covered tags in order; `prev` says whether the tag before the first
      one is included. */
  function Kept(tags: seq<Tag>, flags: seq<bool>, prev: bool): seq<Tag>
    requires |tags| == |flags|
    decreases |tags|
  {
    if tags == [] then []
    else
      OneKept(tags[0], flags[0], prev) + Kept(tags[1..], flags[1..], flags[0])
  }

  function OneKept(t: Tag, keep: bool, prev: bool): seq<Tag> {
    if keep || (prev && t.EndNode?) then [t] else []
  }

  lemma LastOfTail(f: seq<bool>, prev: bool)
    requires f != []
    ensures Last(f[1..], f[0]) == Last(f, prev)
  {
  }

  lemma KeptCons(t: Tag, keep: bool, ts: seq<Tag>, fs: seq<bool>, prev: bool)
    requires |ts| == |fs|
    ensures Kept([t] + ts, [keep] + fs, prev) == OneKept(t, keep, prev) + Kept(ts, fs, keep)
  {
    assert ([t] + ts)[1..] == ts && ([keep] + fs)[1..] == fs;
  }

  lemma KeptOne(t: Tag, keep: bool, prev: bool)
    ensures Kept([t], [keep], prev) == OneKept(t, keep, prev)
  {
  }

  lemma {:induction false} KeptConcat(t: seq<Tag>, f: seq<bool>, t': seq<Tag>, f': seq<bool>, prev: bool)
    requires |t| == |f| && |t'| == |f'|
    ensures Kept(t + t', f + f', prev) == Kept(t, f, prev) + Kept(t', f', Last(f, prev))
    decreases |t|
  {
    if t == [] {
      assert t + t' == t' && f + f' == f';
    } else {
      TailOfJoined(t, t');
      TailOfJoined(f, f');
      KeptConcat(t[1..], f[1..], t', f', f[0]);
      LastOfTail(f, prev);
      Regroup(OneKept(t[0], f[0], prev), Kept(t[1..], f[1..], f[0]), Kept(t', f', Last(f, prev)));
    }
  }

  // -------------------------------------------------------------------------
  // From regions to tags
  // -------------------------------------------------------------------------

  ghost predicate RunsWithin(runs: seq<Run>, n: nat) {
    forall k :: 0 <= k < |runs| ==> runs[k].a <= runs[k].b <= n
  }

  function RunTags(tags: seq<Tag>, runs: seq<Run>): seq<Tag>
    requires RunsWithin(runs, |tags|)
  {
    if runs == [] then []
    else
      var n := |runs| - 1;
      RunTags(tags, runs[..n]) + tags[runs[n].a..runs[n].b]
  }

  lemma RunTagsAppend(tags: seq<Tag>, runs: seq<Run>, r: Run)
    requires RunsWithin(runs, |tags|) && r.a <= r.b <= |tags|
    ensures RunTags(tags, runs + [r]) == RunTags(tags, runs) + tags[r.a..r.b]
  {
    assert (runs + [r])[..|runs|] == runs;
  }

  lemma RunTagsExtend(tags: seq<Tag>, runs: seq<Run>, n: nat)
    requires n < |tags| && RunsWithin(runs, |tags|) && Reaches(runs, n)
    ensures RunsWithin(Extend(runs, n + 1), |tags|)
    ensures RunTags(tags, Extend(runs, n + 1)) == RunTags(tags, runs) + [tags[n]]
  {
    var m := |runs| - 1;
    var front, a := runs[..m], runs[m].a;
    assert Extend(runs, n + 1) == front + [Run(a, n + 1)];
    RunTagsAppend(tags, front, Run(a, n + 1));
    assert tags[a..n + 1] == tags[a..n] + [tags[n]];
    Regroup(RunTags(tags, front), tags[a..n], [tags[n]]);
  }

  lemma KeptSnoc(t: seq<Tag>, f: seq<bool>, x: Tag, keep: bool)
    requires |t| == |f|
    ensures Kept(t + [x], f + [keep], false) ==
            Kept(t, f, false) + OneKept(x, keep, Last(f, false))
  {
    KeptConcat(t, f, [x], [keep], false);
    KeptOne(x, keep, Last(f, false));
  }

  lemma RunTagsSnoc(tags: seq<Tag>, runs: seq<Run>, n: nat, open: bool, keep: bool)
    requires n < |tags| && RunsWithin(runs, |tags|)
    ensures var runs' := NextRuns(runs, n, open, keep, tags[n]);
            RunsWithin(runs', |tags|) && RunTags(tags, runs') == RunTags(tags, runs) + OneKept(tags[n], keep, open)
  {
    if OneKept(tags[n], keep, open) == [] {
      assert RunTags(tags, runs) + [] == RunTags(tags, runs);
    } else if Reaches(runs, n) {
      RunTagsExtend(tags, runs, n);
    } else {
      RunTagsAppend(tags, runs, Run(n, n + 1));
      assert tags[n..n + 1] == [tags[n]];
    }
  }

  lemma RunTagsStep(tags: seq<Tag>, flags: seq<bool>, keep: bool)
    requires |flags| < |tags| && RunsWithin(Runs(tags, flags), |tags|)
    ensures RunsWithin(Runs(tags, flags + [keep]), |tags|)
    ensures var n := |flags|;
            RunTags(tags, Runs(tags, flags + [keep])) ==
            RunTags(tags, Runs(tags, flags)) + OneKept(tags[n], keep, Last(flags, false))
  {
    RunsStep(tags, flags, keep);
    RunTagsSnoc(tags, Runs(tags, flags), |flags|, Last(flags, false), keep);
  }

  lemma LastSplit<T>(s: seq<T>, n: nat)
    requires n < |s|
    ensures s[..n] + [s[n]] == s[..n + 1] && s[..|s|] == s
  {
  }

  /** The runs hold exactly the covered tags, in order. */
  lemma {:induction false} RunsAreKept(tags: seq<Tag>, flags: seq<bool>)
    requires |flags| <= |tags|
    ensures RunsWithin(Runs(tags, flags), |tags|)
    ensures RunTags(tags, Runs(tags, flags)) == Kept(tags[..|flags|], flags, false)
    decreases |flags|
  {
    if flags != [] {
      var n := |flags| - 1;
      var before := flags[..n];
      RunsAreKept(tags, before);
      RunTagsStep(tags, before, flags[n]);
      KeptSnoc(tags[..n], before, tags[n], flags[n]);
      LastSplit(flags, n);
      LastSplit(tags, n);
    }
  }

  // -------------------------------------------------------------------------
  // From tags to bytes
  // -------------------------------------------------------------------------

  lemma BytesLength(tags: seq<Tag>, i: nat)
    requires i <= |tags|
    ensures TagOffsets(tags)[i] == |Bytes(tags[..i])|
  {
    FlatLength(Map(TagBytes, tags), Map(Size, tags), i);
    assert Map(TagBytes, tags)[..i] == Map(TagBytes, tags[..i]);
  }

  lemma SliceMiddle(x: seq<int>, y: seq<int>, z: seq<int>)
    ensures ((x + y) + z)[|x|..|x| + |y|] == y
  {
  }

  lemma BytesParts(x: seq<Tag>, y: seq<Tag>, z: seq<Tag>)
    ensures Bytes((x + y) + z) == (Bytes(x) + Bytes(y)) + Bytes(z)
    ensures Bytes(x + y) == Bytes(x) + Bytes(y)
  {
    FlatMapConcat(TagBytes, x, y);
    FlatMapConcat(TagBytes, x + y, z);
  }

  /** The bytes between the offsets of two tags encode the tags between. */
  lemma BytesSlice(tags: seq<Tag>, a: nat, b: nat)
    requires a <= b <= |tags|
    ensures var offs := TagOffsets(tags);
            offs[a] <= offs[b] <= |Bytes(tags)| && Bytes(tags)[offs[a]..offs[b]] == Bytes(tags[a..b])
  {
    var x, y, z := tags[..a], tags[a..b], tags[b..];
    assert x + y == tags[..b] && (x + y) + z == tags;
    BytesLength(tags, a);
    BytesLength(tags, b);
    BytesParts(x, y, z);
    SliceMiddle(Bytes(x), Bytes(y), Bytes(z));
  }

  /** The bytes of each run. */
  function RunBytes(tags: seq<Tag>, runs: seq<Run>): (r: seq<seq<int>>)
    requires RunsWithin(runs, |tags|)
    ensures |r| == |runs|
    ensures forall k :: 0 <= k < |runs| ==> r[k] == Bytes(tags[runs[k].a..runs[k].b])
  {
    seq(|runs|, k requires 0 <= k < |runs| => Bytes(tags[runs[k].a..runs[k].b]))
  }

  lemma {:induction false} RunBytesFlat(tags: seq<Tag>, runs: seq<Run>)
    requires RunsWithin(runs, |tags|)
    ensures Flat(RunBytes(tags, runs)) == Bytes(RunTags(tags, runs))
    decreases |runs|
  {
    if runs != [] {
      var n := |runs| - 1;
      RunBytesFlat(tags, runs[..n]);
      assert RunBytes(tags, runs)[..n] == RunBytes(tags, runs[..n]);
      FlatMapConcat(TagBytes, RunTags(tags, runs[..n]), tags[runs[n].a..runs[n].b]);
    }
  }

  // -------------------------------------------------------------------------
  // The bytes of the regions
  // -------------------------------------------------------------------------

  /** A region's part of the image, which starts at `base`. */
  function Part(image: seq<int>, base: int, r: Region): seq<int> {
    var at := r.offset - base;
    if 0 <= at <= at + r.size <= |image| then image[at..at + r.size] else []
  }

  function Reader(image: seq<int>, base: int): (f: Region -> seq<int>)
    ensures forall r :: f(r) == Part(image, base, r)
  {
    (r: Region) => Part(image, base, r)
  }

  /** What is fed to the hash. */
  function Hashed(image: seq<int>, base: int, regions: seq<Region>): seq<int> {
    FlatMap(Reader(image, base), regions)
  }

  lemma PartOfPrefix(x: seq<int>, y: seq<int>, base: int, a: nat, b: nat)
    requires a <= b <= |x|
    ensures Part(x + y, base, Region(base + a, b as int - a)) == x[a..b]
  {
  }

  lemma RunPart(tags: seq<Tag>, table: seq<int>, base: int, r: Run)
    requires r.a <= r.b <= |tags|
    ensures Part(Bytes(tags) + table, base, RegionOf(base, TagOffsets(tags), r)) == Bytes(tags[r.a..r.b])
  {
    var a, b := TagOffsets(tags)[r.a], TagOffsets(tags)[r.b];
    BytesSlice(tags, r.a, r.b);
    var block := Bytes(tags);
    PartOfPrefix(block, table, base, a, b);
    assert RegionOf(base, TagOffsets(tags), r) == Region(base + a, b as int - a);
  }

  lemma HashedRuns(tags: seq<Tag>, table: seq<int>, base: int, runs: seq<Run>)
    requires RunsWithin(runs, |tags|)
    ensures Hashed(Bytes(tags) + table, base, RegionsOf(base, TagOffsets(tags), runs)) == Bytes(RunTags(tags, runs))
  {
    var image, rs := Bytes(tags) + table, RegionsOf(base, TagOffsets(tags), runs);
    var parts := Map(Reader(image, base), rs);
    forall k | 0 <= k < |runs| ensures parts[k] == RunBytes(tags, runs)[k] {
      RunPart(tags, table, base, runs[k]);
    }
    assert parts == RunBytes(tags, runs);
    RunBytesFlat(tags, runs);
  }

  /** The last region also takes in the string table. */
  lemma GrowPart(image: seq<int>, table: seq<int>, base: int, r: Region)
    requires 0 <= r.offset - base && 0 <= r.size && r.offset - base + r.size == |image|
    ensures Part(image + table, base, Region(r.offset, r.size + |table|)) == Part(image + table, base, r) + table
  {
    var at := r.offset - base;
    assert (image + table)[at..at + (r.size + |table|)] == image[at..] + table;
    assert (image + table)[at..at + r.size] == image[at..];
  }

  lemma FlatMapLast(f: Region -> seq<int>, rs: seq<Region>, r: Region)
    ensures FlatMap(f, rs + [r]) == FlatMap(f, rs) + f(r)
  {
    FlatMapConcat(f, rs, [r]);
    FlatMapOne(f, r);
  }

  lemma HashedGrow(image: seq<int>, table: seq<int>, base: int, rs: seq<Region>)
    requires rs != []
    requires var r := rs[|rs| - 1]; 0 <= r.offset - base && 0 <= r.size && r.offset - base + r.size == |image|
    ensures Hashed(image + table, base, GrowLast(rs, |table|)) == Hashed(image + table, base, rs) + table
  {
    var n := |rs| - 1;
    var front, r, f := rs[..n], rs[n], Reader(image + table, base);
    var grown := Region(r.offset, r.size + |table|);
    assert rs == front + [r];
    GrowPart(image, table, base, r);
    FlatMapLast(f, front, grown);
    FlatMapLast(f, front, r);
    Regroup(FlatMap(f, front), f(r), table);
  }

  lemma FlatMapOne(f: Region -> seq<int>, r: Region)
    ensures FlatMap(f, [r]) == f(r)
  {
    FlatSingle(f(r));
    assert Map(f, [r]) == [f(r)];
  }

  // -------------------------------------------------------------------------
  // The theorems
  // -------------------------------------------------------------------------

  /** A blob whose structure block ends with its last tag and is followed by its
      string table. */
  ghost predicate WellFormed(blob: Blob, table: seq<int>) {
    blob.Valid() && blob.structSize == blob.offs[|blob.tags|] && |table| == blob.stringsSize
  }

  function CoveredTags(blob: Blob, q: Query): seq<Tag>
    requires Decide(blob.strings, q, START, blob.tags).Accepted?
  {
    var flags := Decide(blob.strings, q, START, blob.tags).flags;
    Kept(blob.tags[..|flags|], flags, false)
  }

  lemma HashedPlain(blob: Blob, table: seq<int>, q: Query)
    requires WellFormed(blob, table) && Decide(blob.strings, q, START, blob.tags).Accepted?
    ensures Hashed(Bytes(blob.tags) + table, blob.base,
                   PlainRegions(blob, Decide(blob.strings, q, START, blob.tags).flags)) == Bytes(CoveredTags(blob, q))
  {
    var flags := Decide(blob.strings, q, START, blob.tags).flags;
    RunsAreKept(blob.tags, flags);
    HashedRuns(blob.tags, table, blob.base, Runs(blob.tags, flags));
  }

  lemma HashedTable(blob: Blob, table: seq<int>, flags: seq<bool>)
    requires WellFormed(blob, table) && 0 < |flags| <= |blob.tags| && flags[|flags| - 1]
    requires blob.offs[|flags|] == blob.structSize
    ensures var image, rs := Bytes(blob.tags) + table, PlainRegions(blob, flags);
            Hashed(image, blob.base, GrowLast(rs, |table|)) == Hashed(image, blob.base, rs) + table
  {
    var rs := PlainRegions(blob, flags);
    PlainApart(blob, flags);
    BytesOfAll(blob.tags);
    assert rs[|rs| - 1].size > 0;
    HashedGrow(Bytes(blob.tags), table, blob.base, rs);
  }

  lemma BytesOfAll(tags: seq<Tag>)
    ensures |Bytes(tags)| == TagOffsets(tags)[|tags|]
  {
    BytesLength(tags, |tags|);
    assert tags[..|tags|] == tags;
  }

  /** Hashing the found regions hashes the encoding of the covered tags, and
      then the string table if asked for. */
  lemma HashedAreCovered(blob: Blob, table: seq<int>, q: Query, addStringTab: bool)
    requires WellFormed(blob, table) && Find(blob, q, addStringTab).Found?
    ensures Hashed(Bytes(blob.tags) + table, blob.base, Find(blob, q, addStringTab).regions) ==
            Bytes(CoveredTags(blob, q)) + if addStringTab then table else []
  {
    var flags := Decide(blob.strings, q, START, blob.tags).flags;
    HashedPlain(blob, table, q);
    if addStringTab {
      HashedTable(blob, table, flags);
    } else {
      GrowNothing(PlainRegions(blob, flags));
    }
  }

  /** The bytes hashed without the string table. */
  function HashedOf(blob: Blob, table: seq<int>, q: Query): seq<int>
    requires |blob.offs| == |blob.tags| + 1 && Find(blob, q, false).Found?
  {
    Hashed(Bytes(blob.tags) + table, blob.base, Find(blob, q, false).regions)
  }

  lemma HashedOfIs(blob: Blob, table: seq<int>, q: Query)
    requires WellFormed(blob, table) && Find(blob, q, false).Found?
    ensures HashedOf(blob, table, q) == Bytes(CoveredTags(blob, q))
  {
    HashedAreCovered(blob, table, q, false);
  }

  ghost predicate NamesNulFree(tags: seq<Tag>) {
    forall i :: 0 <= i < |tags| ==> NulFree(tags[i])
  }

  lemma {:induction false} KeptNulFree(tags: seq<Tag>, flags: seq<bool>, prev: bool)
    requires |tags| == |flags| && NamesNulFree(tags)
    ensures NamesNulFree(Kept(tags, flags, prev))
    decreases |tags|
  {
    if tags != [] {
      KeptNulFree(tags[1..], flags[1..], flags[0]);
    }
  }

  /** The hashed bytes of two devicetrees agree exactly when their covered tags
      do: nothing covered can change unseen, nothing else can be seen. */
  lemma SameHashSameTags(a: Blob, b: Blob, ta: seq<int>, tb: seq<int>, q: Query)
    requires WellFormed(a, ta) && WellFormed(b, tb) && NamesNulFree(a.tags) && NamesNulFree(b.tags)
    requires Find(a, q, false).Found? && Find(b, q, false).Found?
    ensures HashedOf(a, ta, q) == HashedOf(b, tb, q) <==> CoveredTags(a, q) == CoveredTags(b, q)
  {
    HashedOfIs(a, ta, q);
    HashedOfIs(b, tb, q);
    CoveredNulFree(a, q);
    CoveredNulFree(b, q);
    if Bytes(CoveredTags(a, q)) == Bytes(CoveredTags(b, q)) {
      BytesInjective(CoveredTags(a, q), CoveredTags(b, q));
    }
  }

  lemma CoveredNulFree(blob: Blob, q: Query)
    requires NamesNulFree(blob.tags) && Decide(blob.strings, q, START, blob.tags).Accepted?
    ensures NamesNulFree(CoveredTags(blob, q))
  {
    var flags := Decide(blob.strings, q, START, blob.tags).flags;
    KeptNulFree(blob.tags[..|flags|], flags, false);
  }

  // -------------------------------------------------------------------------
  // Excluded properties, in any stream
  // -------------------------------------------------------------------------

  ghost predicate Excluded(strings: map<nat, string>, q: Query, nameOff: nat) {
    nameOff in strings && strings[nameOff] in q.excProp
  }

  /** Equal tags, or the same excluded property with any two values. */
  ghost predicate AlikeTag(strings: map<nat, string>, q: Query, s: Tag, t: Tag) {
    s == t || (s.Prop? && t.Prop? && s.nameOff == t.nameOff && Excluded(strings, q, s.nameOff))
  }

  ghost predicate Alike(strings: map<nat, string>, q: Query, a: seq<Tag>, b: seq<Tag>) {
    |a| == |b| && forall i :: 0 <= i < |a| ==> AlikeTag(strings, q, a[i], b[i])
  }

  lemma {:induction false} AlikeDecided(strings: map<nat, string>, q: Query, c: Ctl, a: seq<Tag>, b: seq<Tag>)
    requires Alike(strings, q, a, b)
    ensures Decide(strings, q, c, a) == Decide(strings, q, c, b)
    decreases |a|
  {
    if a != [] {
      var s := StepTag(strings, q, c, a[0]);
      assert AlikeTag(strings, q, a[0], b[0]);
      assert s == StepTag(strings, q, c, b[0]);
      if s.Next? {
        AlikeDecided(strings, q, s.ctl, a[1..], b[1..]);
      }
    }
  }

  /** No excluded property is included. */
  lemma {:induction false} ExcludedDropped(strings: map<nat, string>, q: Query, c: Ctl, a: seq<Tag>,
                                           b: seq<Tag>, prev: bool)
    requires Alike(strings, q, a, b) && Decide(strings, q, c, a).Accepted?
    ensures var flags := Decide(strings, q, c, a).flags;
            Kept(a[..|flags|], flags, prev) == Kept(b[..|flags|], flags, prev)
    decreases |a|
  {
    var flags, s := Decide(strings, q, c, a).flags, StepTag(strings, q, c, a[0]);
    assert AlikeTag(strings, q, a[0], b[0]);
    if a[0].End? {
      assert a[..1] == b[..1];
    } else {
      var n, rest := |flags| - 1, Decide(strings, q, s.ctl, a[1..]).flags;
      ExcludedDropped(strings, q, s.ctl, a[1..], b[1..], s.keep);
      KeptCons(a[0], s.keep, a[1..][..n], rest, prev);
      KeptCons(b[0], s.keep, b[1..][..n], rest, prev);
      SliceHead(a, n);
      SliceHead(b, n);
    }
  }

  lemma SliceHead(a: seq<Tag>, n: nat)
    requires n < |a|
    ensures a[..n + 1] == [a[0]] + a[1..][..n]
  {
  }

  /** Changing the values, and the lengths, of excluded properties anywhere
      leaves the hashed bytes unchanged, although later offsets shift. */
  lemma ExcludedValuesInvisible(a: Blob, b: Blob, ta: seq<int>, tb: seq<int>, q: Query)
    requires WellFormed(a, ta) && WellFormed(b, tb)
    requires a.strings == b.strings && Alike(a.strings, q, a.tags, b.tags)
    requires Find(a, q, false).Found?
    ensures Find(b, q, false).Found?
    ensures HashedOf(a, ta, q) == HashedOf(b, tb, q)
  {
    AlikeDecided(a.strings, q, START, a.tags, b.tags);
    ExcludedDropped(a.strings, q, START, a.tags, b.tags, false);
    var n := |Decide(a.strings, q, START, a.tags).flags|;
    TagOffsetsAscend(a.tags);
    assert n < |a.tags| ==> a.offs[n] < a.offs[|a.tags|];
    HashedOfIs(a, ta, q);
    HashedOfIs(b, tb, q);
  }
}
