/** What fdt_find_regions() decides and delivers, without the buffers: which
    tags are included, and the maximal runs of covered tags. */
module FdtScan {
  import opened Sequences
  import opened FdtFormat

  const MAX_DEPTH: nat := 32

  datatype Error = BadLayout | BadStructure | NoSpace

  datatype Region = Region(offset: int, size: int)

  /** A devicetree blob: its tags, the offset of each tag and of the end of the
      last one, the position and size of the structure block, the size of the
      string table and the strings in it. */
  datatype Blob = Blob(tags: seq<Tag>, offs: seq<nat>, base: nat, structSize: nat,
                       stringsSize: nat, strings: map<nat, string>)
  {
    ghost predicate Valid() {
      offs == TagOffsets(tags)
    }
  }

  /** Node paths to include, property names to leave out, room for the path. */
  datatype Query = Query(inc: seq<string>, excProp: seq<string>, pathLen: int)

  // -------------------------------------------------------------------------
  // Which tags are included
  // -------------------------------------------------------------------------

  /** The scanner's position in the tree: the path buffer, the saved `want` of
      each open node, the current `want`, and whether the root was closed. */
  datatype Ctl = Ctl(path: string, stack: seq<int>, want: int, expectEnd: bool)

  const START: Ctl := Ctl("", [], 0, false)

  datatype Step = Fail(error: Error) | Next(ctl: Ctl, keep: bool)

  /** The path buffer after appending a name. */
  function Append(path: string, name: string): string {
    (if |path| != 1 then path + "/" else path) + name
  }

  /** The path buffer after cutting it at its last '/'. */
  function Cut(path: string): string {
    if path == "" then ""
    else if path[|path| - 1] == '/' then path[..|path| - 1]
    else Cut(path[..|path| - 1])
  }

  function BeginStep(q: Query, c: Ctl, name: string): Step {
    if |c.stack| == MAX_DEPTH then Fail(BadStructure)
    else if c.stack == [] && name != "" then Fail(BadLayout)
    else if |c.path| + 2 + |name| >= q.pathLen then Fail(NoSpace)
    else
      var path := Append(c.path, name);
      var want := if path in q.inc then 2 else if c.want != 0 then c.want - 1 else 0;
      Next(Ctl(path, c.stack + [c.want], want, c.expectEnd), want != 0)
  }

  function EndStep(c: Ctl): Step {
    if c.stack == [] then Fail(BadStructure)
    else
      var n := |c.stack| - 1;
      Next(Ctl(Cut(c.path), c.stack[..n], c.stack[n], c.expectEnd || n == 0), c.want != 0)
  }

  function PropStep(strings: map<nat, string>, q: Query, c: Ctl, nameOff: nat): Step {
    if nameOff !in strings then Fail(BadStructure)
    else Next(c, c.want >= 2 && strings[nameOff] !in q.excProp)
  }

  /** One turn of the scanning loop, as far as inclusion goes. */
  function StepTag(strings: map<nat, string>, q: Query, c: Ctl, t: Tag): Step {
    if c.expectEnd && !t.End? then Fail(BadLayout)
    else
      match t
      case Prop(nameOff, _) => PropStep(strings, q, c, nameOff)
      case Nop => Next(c, c.want >= 2)
      case BeginNode(name) => BeginStep(q, c, name)
      case EndNode => EndStep(c)
      case End => Next(c, true)
  }

  datatype Decisions = Rejected(error: Error) | Accepted(flags: seq<bool>)

  function Prepend(flags: seq<bool>, d: Decisions): Decisions {
    if d.Rejected? then d else Accepted(flags + d.flags)
  }

  /** The include decision for each tag up to and including the first FDT_END;
      a stream that ends without one is rejected. */
  function Decide(strings: map<nat, string>, q: Query, c: Ctl, tags: seq<Tag>): (d: Decisions)
    ensures d.Accepted? ==> 0 < |d.flags| <= |tags| && d.flags[|d.flags| - 1]
    decreases |tags|
  {
    if tags == [] then Rejected(BadLayout)
    else
      var s := StepTag(strings, q, c, tags[0]);
      if s.Fail? then Rejected(s.error)
      else if tags[0].End? then Accepted([s.keep])
      else Prepend([s.keep], Decide(strings, q, s.ctl, tags[1..]))
  }

  // -------------------------------------------------------------------------
  // Which tags are covered, and by which regions
  // -------------------------------------------------------------------------

  /** A tag is covered when it is included, or when it is an FDT_END_NODE that
      directly follows an included tag. */
  predicate Covered(tags: seq<Tag>, flags: seq<bool>, i: nat)
    requires i < |flags| <= |tags|
  {
    flags[i] || (i > 0 && flags[i - 1] && tags[i].EndNode?)
  }

  /** Tags number `a` up to but excluding `b`. */
  datatype Run = Run(a: nat, b: nat)

  /** The last run is made to end at `b`. */
  function Extend(runs: seq<Run>, b: nat): seq<Run> {
    if runs == [] then runs else runs[|runs| - 1 := Run(runs[|runs| - 1].a, b)]
  }

  /** The maximal runs of covered tags, in order. */
  function Runs(tags: seq<Tag>, flags: seq<bool>): seq<Run>
    requires |flags| <= |tags|
    decreases |flags|
  {
    if flags == [] then []
    else
      var n := |flags| - 1;
      var before := Runs(tags, flags[..n]);
      if !Covered(tags, flags, n) then before
      else if n > 0 && Covered(tags, flags, n - 1) then Extend(before, n + 1)
      else before + [Run(n, n + 1)]
  }

  /** Non-empty runs below `n`, in order, with a gap between any two. */
  ghost predicate Separated(runs: seq<Run>, n: nat) {
    && (forall k :: 0 <= k < |runs| ==> runs[k].a < runs[k].b <= n)
    && (forall k, l :: 0 <= k < l < |runs| ==> runs[k].b < runs[l].a)
  }

  ghost predicate Reaches(runs: seq<Run>, n: nat) {
    runs != [] && runs[|runs| - 1].b == n
  }

  lemma SeparatedExtend(runs: seq<Run>, n: nat)
    requires Separated(runs, n) && Reaches(runs, n)
    ensures Separated(Extend(runs, n + 1), n + 1) && Reaches(Extend(runs, n + 1), n + 1)
  {
  }

  lemma SeparatedAppend(runs: seq<Run>, n: nat)
    requires Separated(runs, n) && !Reaches(runs, n)
    ensures Separated(runs + [Run(n, n + 1)], n + 1) && Reaches(runs + [Run(n, n + 1)], n + 1)
  {
    forall k | 0 <= k < |runs| ensures runs[k].b < n {
      assert k < |runs| - 1 ==> runs[k].b < runs[|runs| - 1].a;
    }
  }

  /** The runs are non-empty, in order, with a gap between any two; the last
      one reaches the end exactly when the last tag is covered. */
  lemma {:induction false} RunsSeparated(tags: seq<Tag>, flags: seq<bool>)
    requires |flags| <= |tags|
    ensures Separated(Runs(tags, flags), |flags|)
    ensures Reaches(Runs(tags, flags), |flags|) <==> flags != [] && Covered(tags, flags, |flags| - 1)
    decreases |flags|
  {
    if flags != [] {
      var n := |flags| - 1;
      var before := Runs(tags, flags[..n]);
      RunsSeparated(tags, flags[..n]);
      assert n > 0 ==> Covered(tags, flags[..n], n - 1) == Covered(tags, flags, n - 1);
      if Covered(tags, flags, n) {
        if Reaches(before, n) {
          SeparatedExtend(before, n);
        } else {
          SeparatedAppend(before, n);
        }
      }
    }
  }

  ghost predicate InSomeRun(runs: seq<Run>, i: nat) {
    exists k :: 0 <= k < |runs| && runs[k].a <= i < runs[k].b
  }

  /** The runs hold exactly the covered tags. */
  lemma {:induction false} RunsExact(tags: seq<Tag>, flags: seq<bool>, i: nat)
    requires i < |flags| <= |tags|
    ensures InSomeRun(Runs(tags, flags), i) <==> Covered(tags, flags, i)
    decreases |flags|
  {
    var n := |flags| - 1;
    var before, after := Runs(tags, flags[..n]), Runs(tags, flags);
    RunsSeparated(tags, flags[..n]);
    RunsSeparated(tags, flags);
    assert n > 0 ==> Covered(tags, flags[..n], n - 1) == Covered(tags, flags, n - 1);
    if i < n {
      RunsExact(tags, flags[..n], i);
      assert Covered(tags, flags[..n], i) == Covered(tags, flags, i);
      SameBelow(before, after, n, i);
    } else if Covered(tags, flags, n) {
      var m := |after| - 1;
      assert after[m].a <= i < after[m].b;
    }
  }

  /** Extending the last run, or adding one, at `n` does not change which
      earlier tags are in a run. */
  lemma SameBelow(before: seq<Run>, after: seq<Run>, n: nat, i: nat)
    requires i < n
    requires after == before || after == before + [Run(n, n + 1)] ||
             (before != [] && before[|before| - 1].b == n && after == Extend(before, n + 1))
    ensures InSomeRun(before, i) <==> InSomeRun(after, i)
  {
    if InSomeRun(before, i) {
      var k :| 0 <= k < |before| && before[k].a <= i < before[k].b;
      assert after[k].a <= i < after[k].b;
    }
    if InSomeRun(after, i) {
      var k :| 0 <= k < |after| && after[k].a <= i < after[k].b;
      assert k < |before| && before[k].a <= i < before[k].b;
    }
  }

  // -------------------------------------------------------------------------
  // The result
  // -------------------------------------------------------------------------

  function RegionOf(base: int, offs: seq<nat>, r: Run): Region
    requires r.a < |offs| && r.b < |offs|
  {
    Region(base + offs[r.a], offs[r.b] as int - offs[r.a])
  }

  function RegionsOf(base: int, offs: seq<nat>, runs: seq<Run>): (rs: seq<Region>)
    requires forall k :: 0 <= k < |runs| ==> runs[k].a < |offs| && runs[k].b < |offs|
    ensures |rs| == |runs|
    ensures forall k :: 0 <= k < |runs| ==> rs[k] == RegionOf(base, offs, runs[k])
  {
    seq(|runs|, k requires 0 <= k < |runs| => RegionOf(base, offs, runs[k]))
  }

  /** The string table directly follows the structure block, so it is taken in
      by making the last region longer. */
  function GrowLast(regions: seq<Region>, extra: int): (rs: seq<Region>)
    ensures |rs| == |regions|
  {
    if regions == [] then regions
    else
      var n := |regions| - 1;
      regions[..n] + [Region(regions[n].offset, regions[n].size + extra)]
  }

  datatype Outcome = Refused(error: Error) | Found(regions: seq<Region>)

  /** The regions of the maximal runs. */
  function PlainRegions(blob: Blob, flags: seq<bool>): (rs: seq<Region>)
    requires |flags| <= |blob.tags| && |blob.offs| == |blob.tags| + 1
    ensures |rs| == |Runs(blob.tags, flags)|
  {
    RunsSeparated(blob.tags, flags);
    RegionsOf(blob.base, blob.offs, Runs(blob.tags, flags))
  }

  /** The regions of a blob, with no bound on their number. */
  function Find(blob: Blob, q: Query, addStringTab: bool): Outcome
    requires |blob.offs| == |blob.tags| + 1
  {
    var d := Decide(blob.strings, q, START, blob.tags);
    if d.Rejected? then Refused(d.error)
    else if blob.offs[|d.flags|] != blob.structSize then Refused(BadLayout)
    else Found(GrowLast(PlainRegions(blob, d.flags), if addStringTab then blob.stringsSize else 0))
  }

  ghost predicate Apart(rs: seq<Region>) {
    && (forall k :: 0 <= k < |rs| ==> rs[k].size > 0)
    && (forall k, l :: 0 <= k < l < |rs| ==> rs[k].offset + rs[k].size < rs[l].offset)
  }

  lemma SeparatedApart(base: int, offs: seq<nat>, runs: seq<Run>, n: nat)
    requires Separated(runs, n) && n < |offs| && Ascending(offs)
    ensures Apart(RegionsOf(base, offs, runs))
  {
    var rs := RegionsOf(base, offs, runs);
    forall k | 0 <= k < |rs| ensures rs[k].size > 0 {
      assert offs[runs[k].a] < offs[runs[k].b];
    }
    forall k, l | 0 <= k < l < |rs| ensures rs[k].offset + rs[k].size < rs[l].offset {
      assert offs[runs[k].b] < offs[runs[l].a];
    }
  }

  lemma PlainApart(blob: Blob, flags: seq<bool>)
    requires blob.Valid() && 0 < |flags| <= |blob.tags| && flags[|flags| - 1]
    ensures var rs := PlainRegions(blob, flags);
            && rs != [] && Apart(rs)
            && rs[|rs| - 1].offset >= blob.base
            && rs[|rs| - 1].offset + rs[|rs| - 1].size == blob.base + blob.offs[|flags|]
  {
    var runs := Runs(blob.tags, flags);
    RunsSeparated(blob.tags, flags);
    TagOffsetsAscend(blob.tags);
    SeparatedApart(blob.base, blob.offs, runs, |flags|);
    assert PlainRegions(blob, flags)[|runs| - 1] == RegionOf(blob.base, blob.offs, runs[|runs| - 1]);
  }

  /** Regions are non-empty, ascending, disjoint and never adjacent; the last
      one ends with the structure block, or with the string table. */
  lemma FoundRegionsApart(blob: Blob, q: Query, addStringTab: bool)
    requires blob.Valid() && Find(blob, q, addStringTab).Found?
    ensures var rs := Find(blob, q, addStringTab).regions;
            && rs != []
            && Apart(rs)
            && rs[|rs| - 1].offset + rs[|rs| - 1].size ==
               blob.base + blob.structSize + (if addStringTab then blob.stringsSize else 0)
  {
    var flags := Decide(blob.strings, q, START, blob.tags).flags;
    FoundFlags(blob, q, addStringTab, flags);
    FoundAre(blob, flags, if addStringTab then blob.stringsSize else 0);
  }

  lemma FoundAre(blob: Blob, flags: seq<bool>, extra: nat)
    requires blob.Valid() && 0 < |flags| <= |blob.tags| && flags[|flags| - 1]
    ensures var rs := GrowLast(PlainRegions(blob, flags), extra);
            && rs != [] && Apart(rs)
            && rs[|rs| - 1].offset + rs[|rs| - 1].size == blob.base + blob.offs[|flags|] + extra
  {
    PlainApart(blob, flags);
    GrowLastApart(PlainRegions(blob, flags), extra);
  }

  lemma GrowLastApart(rs: seq<Region>, extra: nat)
    requires rs != [] && Apart(rs)
    ensures Apart(GrowLast(rs, extra))
    ensures var n := |rs| - 1; GrowLast(rs, extra)[n] == Region(rs[n].offset, rs[n].size + extra)
  {
  }

  ghost predicate InRegions(rs: seq<Region>, x: int) {
    exists k :: 0 <= k < |rs| && rs[k].offset <= x < rs[k].offset + rs[k].size
  }

  /** A byte of tag `i` is in run `k`'s region exactly when tag `i` is in run `k`. */
  lemma ByteInRun(base: int, offs: seq<nat>, r: Run, i: nat, x: int)
    requires Ascending(offs) && r.a < |offs| && r.b < |offs| && i + 1 < |offs|
    requires offs[i] <= x < offs[i + 1]
    ensures var reg := RegionOf(base, offs, r);
            reg.offset <= base + x < reg.offset + reg.size <==> r.a <= i < r.b
  {
    assert r.a < i + 1 ==> r.a == i || offs[r.a] < offs[i];
    assert i + 1 <= r.a ==> i + 1 == r.a || offs[i + 1] < offs[r.a];
    assert r.b <= i ==> r.b == i || offs[r.b] < offs[i];
    assert i < r.b ==> i + 1 == r.b || offs[i + 1] < offs[r.b];
  }

  lemma ByteInRuns(base: int, offs: seq<nat>, runs: seq<Run>, n: nat, i: nat, x: int)
    requires Ascending(offs) && Separated(runs, n) && n < |offs| && i + 1 < |offs|
    requires offs[i] <= x < offs[i + 1]
    ensures InRegions(RegionsOf(base, offs, runs), base + x) <==> InSomeRun(runs, i)
  {
    var rs := RegionsOf(base, offs, runs);
    forall k | 0 <= k < |runs|
      ensures rs[k].offset <= base + x < rs[k].offset + rs[k].size <==> runs[k].a <= i < runs[k].b
    {
      ByteInRun(base, offs, runs[k], i, x);
    }
  }

  lemma PlainCovers(blob: Blob, flags: seq<bool>, i: nat, x: int)
    requires blob.Valid() && i < |flags| <= |blob.tags| && blob.offs[i] <= x < blob.offs[i + 1]
    ensures InRegions(PlainRegions(blob, flags), blob.base + x) <==> Covered(blob.tags, flags, i)
  {
    RunsSeparated(blob.tags, flags);
    TagOffsetsAscend(blob.tags);
    ByteInRuns(blob.base, blob.offs, Runs(blob.tags, flags), |flags|, i, x);
    RunsExact(blob.tags, flags, i);
  }

  lemma GrowNothing(rs: seq<Region>)
    ensures GrowLast(rs, 0) == rs
  {
  }

  lemma ApartEnd(rs: seq<Region>, x: int)
    requires rs != [] && Apart(rs) && x >= rs[|rs| - 1].offset + rs[|rs| - 1].size
    ensures !InRegions(rs, x)
  {
    var n := |rs| - 1;
    forall k | 0 <= k < |rs| ensures rs[k].offset + rs[k].size <= x {
      assert k < n ==> rs[k].offset + rs[k].size < rs[n].offset;
      assert rs[n].size > 0;
    }
  }

  /** Making the last region longer adds what comes directly after it. */
  lemma GrowLastCovers(rs: seq<Region>, extra: nat, x: int)
    requires rs != [] && Apart(rs)
    ensures var end := rs[|rs| - 1].offset + rs[|rs| - 1].size;
            InRegions(GrowLast(rs, extra), x) <==> if x < end then InRegions(rs, x) else x < end + extra
  {
    var n, gs := |rs| - 1, GrowLast(rs, extra);
    assert gs[n] == Region(rs[n].offset, rs[n].size + extra) && rs[n].size > 0;
    assert forall k :: 0 <= k < n ==> gs[k] == rs[k];
    if x >= rs[n].offset + rs[n].size {
      ApartEnd(rs, x);
      forall k | 0 <= k < n ensures !(gs[k].offset <= x < gs[k].offset + gs[k].size) {
        assert !(rs[k].offset <= x < rs[k].offset + rs[k].size);
      }
    }
  }

  lemma FoundCovers(blob: Blob, flags: seq<bool>, extra: nat, x: int)
    requires blob.Valid() && 0 < |flags| <= |blob.tags| && flags[|flags| - 1]
    ensures var rs, end := PlainRegions(blob, flags), blob.base + blob.offs[|flags|];
            InRegions(GrowLast(rs, extra), x) <==> if x < end then InRegions(rs, x) else x < end + extra
  {
    PlainApart(blob, flags);
    GrowLastCovers(PlainRegions(blob, flags), extra, x);
  }

  lemma TagBelow(blob: Blob, i: nat, n: nat)
    requires blob.Valid() && i < n <= |blob.tags|
    ensures blob.offs[i + 1] <= blob.offs[n]
  {
    TagOffsetsAscend(blob.tags);
  }

  /** What was decided when regions were found. */
  lemma FoundFlags(blob: Blob, q: Query, addStringTab: bool, flags: seq<bool>)
    requires |blob.offs| == |blob.tags| + 1 && Find(blob, q, addStringTab).Found?
    requires Decide(blob.strings, q, START, blob.tags) == Accepted(flags)
    ensures 0 < |flags| <= |blob.tags| && flags[|flags| - 1] && blob.offs[|flags|] == blob.structSize
    ensures Find(blob, q, addStringTab).regions ==
            GrowLast(PlainRegions(blob, flags), if addStringTab then blob.stringsSize else 0)
  {
  }

  lemma TagCovered(blob: Blob, flags: seq<bool>, extra: nat, i: nat, x: nat)
    requires blob.Valid() && i < |flags| <= |blob.tags| && flags[|flags| - 1] && blob.offs[i] <= x < blob.offs[i + 1]
    ensures InRegions(GrowLast(PlainRegions(blob, flags), extra), blob.base + x) <==> Covered(blob.tags, flags, i)
  {
    FoundCovers(blob, flags, extra, blob.base + x);
    TagBelow(blob, i, |flags|);
    PlainCovers(blob, flags, i, x);
  }

  /** Inside the structure block, the found regions cover exactly the bytes of the
      covered tags. */
  lemma FoundCoversExactly(blob: Blob, q: Query, addStringTab: bool, i: nat, x: nat)
    requires blob.Valid() && Find(blob, q, addStringTab).Found?
    requires i < |Decide(blob.strings, q, START, blob.tags).flags| && blob.offs[i] <= x < blob.offs[i + 1]
    ensures InRegions(Find(blob, q, addStringTab).regions, blob.base + x) <==>
            Covered(blob.tags, Decide(blob.strings, q, START, blob.tags).flags, i)
  {
    var flags := Decide(blob.strings, q, START, blob.tags).flags;
    FoundFlags(blob, q, addStringTab, flags);
    TagCovered(blob, flags, if addStringTab then blob.stringsSize else 0, i, x);
  }

  /** Behind it, they cover the string table if asked for, and nothing else. */
  lemma FoundCoversTable(blob: Blob, q: Query, addStringTab: bool, x: nat)
    requires blob.Valid() && Find(blob, q, addStringTab).Found? && x >= blob.structSize
    ensures InRegions(Find(blob, q, addStringTab).regions, blob.base + x) <==>
            addStringTab && x < blob.structSize + blob.stringsSize
  {
    var flags := Decide(blob.strings, q, START, blob.tags).flags;
    FoundFlags(blob, q, addStringTab, flags);
    FoundCovers(blob, flags, if addStringTab then blob.stringsSize else 0, blob.base + x);
  }
}
