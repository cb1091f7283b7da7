/** How fdt_find_regions() turns a stream of include decisions into a bounded
    list of regions: a region is open, is closed, or is reopened when the next
    one starts where it ended. */
module FdtCollect {
  import opened Sequences
  import opened FdtFormat
  import opened FdtScan

  /** The regions stored so far (never more than the caller has room for), the
      number there should be, and the start of the open region or -1. */
  datatype Col = Col(stored: seq<Region>, count: nat, start: int)

  function Min(a: nat, b: nat): nat {
    if a < b then a else b
  }

  /** One turn of the loop for a tag at `offset`; a region closed by this tag
      stops at `stopAt`. */
  function Collect(col: Col, max: nat, base: int, keep: bool, offset: int, stopAt: int): Col
    requires |col.stored| == Min(col.count, max)
  {
    if keep && col.start == -1 then
      if 0 < col.count <= max && offset == col.stored[col.count - 1].offset + col.stored[col.count - 1].size - base
      then Col(col.stored[..col.count - 1], col.count - 1, col.stored[col.count - 1].offset - base)
      else Col(col.stored, col.count, offset)
    else if !keep && col.start != -1 then
      Col(if col.count < max then col.stored + [Region(base + col.start, stopAt - col.start)] else col.stored,
          col.count + 1, -1)
    else col
  }

  /** Where a region closed by tag `t` stops: after an FDT_END_NODE, before any
      other tag. */
  function StopAt(t: Tag, offset: int, next: int): int {
    if t.EndNode? then next else offset
  }

  /** The collector agrees with the maximal runs of covered tags: exactly while
      it has not run out of room, and on everything it stored afterwards. The
      open region, if any, is the last run. */
  ghost predicate Tracks(col: Col, max: nat, base: int, offs: seq<nat>, runs: seq<Run>, open: bool) {
    && |col.stored| == Min(col.count, max)
    && open == (col.start != -1)
    && RunsIn(runs, |offs|)
    && (col.count <= max && !open ==> col.count == |runs|)
    && (col.count <= max && open ==>
          col.count == |runs| - 1 && col.start == offs[runs[col.count].a])
    && (col.count > max ==> |runs| > max)
    && StoredAre(col.stored, base, offs, runs)
  }

  ghost predicate RunsIn(runs: seq<Run>, n: nat) {
    forall k :: 0 <= k < |runs| ==> runs[k].a <= runs[k].b < n
  }

  /** The regions are those of the first runs. */
  ghost predicate StoredAre(stored: seq<Region>, base: int, offs: seq<nat>, runs: seq<Run>)
    requires RunsIn(runs, |offs|)
  {
    |stored| <= |runs| && forall k :: 0 <= k < |stored| ==> stored[k] == RegionOf(base, offs, runs[k])
  }

  /** A kept tag after an open region makes the region longer. */
  lemma KeepOpen(col: Col, max: nat, base: int, offs: seq<nat>, runs: seq<Run>, m: nat)
    requires Tracks(col, max, base, offs, runs, true)
    requires runs != [] && runs[|runs| - 1].a <= m < |offs|
    ensures Tracks(col, max, base, offs, Extend(runs, m), true)
  {
    ExtendStored(col.stored, base, offs, runs, m);
  }

  lemma ExtendStored(stored: seq<Region>, base: int, offs: seq<nat>, runs: seq<Run>, m: nat)
    requires RunsIn(runs, |offs|) && StoredAre(stored, base, offs, runs) && |stored| < |runs|
    requires runs[|runs| - 1].a <= m < |offs|
    ensures RunsIn(Extend(runs, m), |offs|) && StoredAre(stored, base, offs, Extend(runs, m))
    ensures Extend(runs, m)[|runs| - 1] == Run(runs[|runs| - 1].a, m)
  {
  }

  /** A kept tag after a closed region opens a new one ... */
  lemma KeepFresh(col: Col, max: nat, base: int, offs: seq<nat>, runs: seq<Run>, n: nat, stopAt: int)
    requires Tracks(col, max, base, offs, runs, false) && n + 1 < |offs| && Ascending(offs)
    requires runs != [] ==> runs[|runs| - 1].b < n
    ensures Tracks(Collect(col, max, base, true, offs[n], stopAt), max, base, offs, runs + [Run(n, n + 1)], true)
  {
    if 0 < col.count <= max {
      var last := runs[col.count - 1];
      assert col.stored[col.count - 1] == RegionOf(base, offs, last);
      assert offs[last.b] < offs[n];
    }
  }

  /** ... or, when the last one ended right here, reopens that. */
  lemma KeepAgain(col: Col, max: nat, base: int, offs: seq<nat>, runs: seq<Run>, n: nat, stopAt: int)
    requires Tracks(col, max, base, offs, runs, false) && n + 1 < |offs| && Reaches(runs, n)
    ensures Tracks(Collect(col, max, base, true, offs[n], stopAt), max, base, offs, Extend(runs, n + 1), true)
  {
    if col.count <= max {
      Reopens(col, max, base, offs, runs, n, stopAt);
      ReopenedTracks(col, max, base, offs, runs, n);
    } else {
      FullTracks(col, max, base, offs, runs, n + 1, offs[n]);
    }
  }

  lemma Reopens(col: Col, max: nat, base: int, offs: seq<nat>, runs: seq<Run>, n: nat, stopAt: int)
    requires Tracks(col, max, base, offs, runs, false) && n < |offs| && Reaches(runs, n) && col.count <= max
    ensures var l := |runs| - 1;
            Collect(col, max, base, true, offs[n], stopAt) == Col(col.stored[..l], l, offs[runs[l].a])
  {
    assert col.stored[|runs| - 1] == RegionOf(base, offs, runs[|runs| - 1]);
  }

  lemma ReopenedTracks(col: Col, max: nat, base: int, offs: seq<nat>, runs: seq<Run>, n: nat)
    requires Tracks(col, max, base, offs, runs, false) && n + 1 < |offs| && Reaches(runs, n) && col.count <= max
    ensures var l := |runs| - 1;
            Tracks(Col(col.stored[..l], l, offs[runs[l].a]), max, base, offs, Extend(runs, n + 1), true)
  {
  }

  /** Once there is no more room, only the number of runs matters. */
  lemma FullTracks(col: Col, max: nat, base: int, offs: seq<nat>, runs: seq<Run>, m: nat, start: int)
    requires Tracks(col, max, base, offs, runs, false) && col.count > max && start != -1
    requires runs[|runs| - 1].a <= m < |offs|
    ensures Tracks(col.(start := start), max, base, offs, Extend(runs, m), true)
  {
  }

  /** A tag that is not kept closes the open region. */
  lemma DropOpen(col: Col, max: nat, base: int, offs: seq<nat>, runs: seq<Run>, offset: int, m: nat)
    requires Tracks(col, max, base, offs, runs, true)
    requires runs != [] && runs[|runs| - 1].a <= m < |offs|
    ensures Tracks(Collect(col, max, base, false, offset, offs[m]), max, base, offs, Extend(runs, m), false)
  {
    var col', runs' := Collect(col, max, base, false, offset, offs[m]), Extend(runs, m);
    var l := |runs| - 1;
    assert runs'[l] == Run(runs[l].a, m);
    if col.count < max {
      assert col'.stored[l] == RegionOf(base, offs, runs'[l]);
    }
  }

  /** The runs after tag number `n`, which is `t`; `open` says that the tag before it
      is kept. */
  ghost function NextRuns(runs: seq<Run>, n: nat, open: bool, keep: bool, t: Tag): seq<Run> {
    if !(keep || (open && t.EndNode?)) then runs
    else if Reaches(runs, n) then Extend(runs, n + 1)
    else runs + [Run(n, n + 1)]
  }

  lemma RunsStep(tags: seq<Tag>, flags: seq<bool>, keep: bool)
    requires |flags| < |tags|
    ensures var n, runs := |flags|, Runs(tags, flags);
            Separated(runs, n) && Runs(tags, flags + [keep]) == NextRuns(runs, n, n > 0 && flags[n - 1], keep, tags[n])
    ensures |flags| > 0 && flags[|flags| - 1] ==> Reaches(Runs(tags, flags), |flags|)
  {
    var n := |flags|;
    RunsSeparated(tags, flags);
    assert (flags + [keep])[..n] == flags;
    assert n > 0 ==> Covered(tags, flags + [keep], n - 1) == Covered(tags, flags, n - 1);
  }

  /** The same, for what RunsStep says the next runs are. */
  lemma TracksKeep(col: Col, max: nat, base: int, offs: seq<nat>, runs: seq<Run>, open: bool, n: nat, stopAt: int)
    requires Tracks(col, max, base, offs, runs, open) && n + 1 < |offs| && Ascending(offs)
    requires (runs != [] ==> runs[|runs| - 1].b <= n) && (open ==> Reaches(runs, n))
    ensures Tracks(Collect(col, max, base, true, offs[n], stopAt), max, base, offs,
                   if Reaches(runs, n) then Extend(runs, n + 1) else runs + [Run(n, n + 1)], true)
  {
    if open {
      KeepOpen(col, max, base, offs, runs, n + 1);
    } else if Reaches(runs, n) {
      KeepAgain(col, max, base, offs, runs, n, stopAt);
    } else {
      KeepFresh(col, max, base, offs, runs, n, stopAt);
    }
  }

  lemma TracksDrop(col: Col, max: nat, base: int, offs: seq<nat>, runs: seq<Run>, open: bool, n: nat, t: Tag)
    requires Tracks(col, max, base, offs, runs, open) && n + 1 < |offs|
    requires open ==> Reaches(runs, n)
    ensures Tracks(Collect(col, max, base, false, offs[n], StopAt(t, offs[n], offs[n + 1])), max, base, offs,
                   if open && t.EndNode? then Extend(runs, n + 1) else runs, false)
  {
    if open && t.EndNode? {
      DropOpen(col, max, base, offs, runs, offs[n], n + 1);
    } else if open {
      ExtendSame(runs, n);
      DropOpen(col, max, base, offs, runs, offs[n], n);
    }
  }

  lemma ExtendSame(runs: seq<Run>, n: nat)
    requires Reaches(runs, n)
    ensures Extend(runs, n) == runs
  {
  }

  /** The collector and the runs take one tag alike. */
  lemma TracksStep(col: Col, max: nat, base: int, offs: seq<nat>, runs: seq<Run>, open: bool, n: nat,
                   keep: bool, t: Tag)
    requires Tracks(col, max, base, offs, runs, open) && n + 1 < |offs| && Ascending(offs)
    requires (runs != [] ==> runs[|runs| - 1].b <= n) && (open ==> Reaches(runs, n))
    ensures Tracks(Collect(col, max, base, keep, offs[n], StopAt(t, offs[n], offs[n + 1])), max, base, offs,
                   NextRuns(runs, n, open, keep, t), keep)
  {
    if keep {
      TracksKeep(col, max, base, offs, runs, open, n, StopAt(t, offs[n], offs[n + 1]));
    } else {
      TracksDrop(col, max, base, offs, runs, open, n, t);
    }
  }

  /** The collector's table after all of `flags`. */
  function CollectAll(blob: Blob, max: nat, flags: seq<bool>): (col: Col)
    requires |flags| <= |blob.tags| && |blob.offs| == |blob.tags| + 1
    ensures |col.stored| == Min(col.count, max)
    decreases |flags|
  {
    if flags == [] then Col([], 0, -1)
    else
      var n := |flags| - 1;
      Collect(CollectAll(blob, max, flags[..n]), max, blob.base, flags[n], blob.offs[n],
              StopAt(blob.tags[n], blob.offs[n], blob.offs[n + 1]))
  }

  lemma CollectAllNext(blob: Blob, max: nat, flags: seq<bool>, keep: bool)
    requires |flags| < |blob.tags| && |blob.offs| == |blob.tags| + 1
    ensures var n := |flags|;
            CollectAll(blob, max, flags + [keep]) ==
            Collect(CollectAll(blob, max, flags), max, blob.base, keep, blob.offs[n],
                    StopAt(blob.tags[n], blob.offs[n], blob.offs[n + 1]))
  {
    assert (flags + [keep])[..|flags|] == flags;
  }

  /** The collector and the runs agree after these decisions. */
  ghost predicate InStep(blob: Blob, max: nat, flags: seq<bool>)
    requires |flags| <= |blob.tags| && |blob.offs| == |blob.tags| + 1
  {
    Tracks(CollectAll(blob, max, flags), max, blob.base, blob.offs, Runs(blob.tags, flags),
           flags != [] && flags[|flags| - 1])
  }

  lemma StaysInStep(blob: Blob, max: nat, flags: seq<bool>, keep: bool)
    requires |flags| < |blob.tags| && |blob.offs| == |blob.tags| + 1 && Ascending(blob.offs)
    requires InStep(blob, max, flags)
    ensures InStep(blob, max, flags + [keep])
  {
    var n, runs := |flags|, Runs(blob.tags, flags);
    CollectAllNext(blob, max, flags, keep);
    RunsStep(blob.tags, flags, keep);
    assert runs != [] ==> runs[|runs| - 1].b <= n;
    TracksStep(CollectAll(blob, max, flags), max, blob.base, blob.offs, runs, n > 0 && flags[n - 1], n, keep,
               blob.tags[n]);
  }

  lemma {:induction false} AlwaysInStep(blob: Blob, max: nat, flags: seq<bool>)
    requires |flags| <= |blob.tags| && |blob.offs| == |blob.tags| + 1 && Ascending(blob.offs)
    ensures InStep(blob, max, flags)
    decreases |flags|
  {
    if flags != [] {
      var n := |flags| - 1;
      var before := flags[..n];
      assert flags == before + [flags[n]];
      AlwaysInStep(blob, max, before);
      StaysInStep(blob, max, before, flags[n]);
    }
  }

  /** The collector keeps in step with the runs. */
  lemma CollectAllTracks(blob: Blob, max: nat, flags: seq<bool>)
    requires |flags| <= |blob.tags| && |blob.offs| == |blob.tags| + 1 && Ascending(blob.offs)
    ensures Tracks(CollectAll(blob, max, flags), max, blob.base, blob.offs, Runs(blob.tags, flags),
                   flags != [] && flags[|flags| - 1])
  {
    AlwaysInStep(blob, max, flags);
  }

  /** The region that is still open at FDT_END is closed by the end of the
      block, and made longer by the string table if asked. */
  function Finish(col: Col, max: nat, base: int, next: int, extra: int): Col
    requires |col.stored| == Min(col.count, max)
  {
    Col(if col.count < max then col.stored + [Region(base + col.start, next - col.start + extra)] else col.stored,
        col.count + 1, -1)
  }

  /** What a caller with room for `max` regions gets when there are `all`. */
  ghost predicate Delivered(stored: seq<Region>, count: nat, max: nat, all: seq<Region>) {
    && (|all| <= max ==> count == |all| && stored == all)
    && (|all| > max ==> count > max && stored == all[..max])
  }

  lemma FinishDelivers(col: Col, max: nat, base: int, offs: seq<nat>, runs: seq<Run>, n: nat, extra: int)
    requires n < |offs| && Tracks(col, max, base, offs, runs, true) && Reaches(runs, n)
    ensures var f := Finish(col, max, base, offs[n], extra);
            Delivered(f.stored, f.count, max, GrowLast(RegionsOf(base, offs, runs), extra))
  {
    var f, all := Finish(col, max, base, offs[n], extra), GrowLast(RegionsOf(base, offs, runs), extra);
    var rs := RegionsOf(base, offs, runs);
    assert forall k :: 0 <= k < |runs| ==> rs[k] == RegionOf(base, offs, runs[k]);
    if |all| <= max {
      assert forall k :: 0 <= k < |all| - 1 ==> all[k] == rs[k];
    }
  }

  // -------------------------------------------------------------------------
  // The whole scan
  // -------------------------------------------------------------------------

  datatype Scanned = Broken(error: Error) | Complete(col: Col)

  /** The scanning loop from tag `i` on, with position `c` and table `col`. */
  function ScanFrom(blob: Blob, q: Query, max: nat, addStringTab: bool, i: nat, c: Ctl, col: Col): Scanned
    requires i <= |blob.tags| && |blob.offs| == |blob.tags| + 1
    requires |col.stored| == Min(col.count, max)
    decreases |blob.tags| - i
  {
    if i == |blob.tags| then Broken(BadLayout)
    else
      match StepTag(blob.strings, q, c, blob.tags[i])
      case Fail(e) => Broken(e)
      case Next(c', keep) =>
        var offset, next := blob.offs[i], blob.offs[i + 1];
        var col' := Collect(col, max, blob.base, keep, offset, StopAt(blob.tags[i], offset, next));
        if !blob.tags[i].End? then ScanFrom(blob, q, max, addStringTab, i + 1, c', col')
        else if next != blob.structSize then Broken(BadLayout)
        else Complete(Finish(col', max, blob.base, next, if addStringTab then blob.stringsSize else 0))
  }

  /** One turn of it. */
  lemma ScanTurn(blob: Blob, q: Query, max: nat, addStringTab: bool, i: nat, c: Ctl, col: Col,
                 c': Ctl, keep: bool, col': Col)
    requires i < |blob.tags| && |blob.offs| == |blob.tags| + 1 && |col.stored| == Min(col.count, max)
    requires StepTag(blob.strings, q, c, blob.tags[i]) == Next(c', keep)
    requires col' == Collect(col, max, blob.base, keep, blob.offs[i],
                             StopAt(blob.tags[i], blob.offs[i], blob.offs[i + 1]))
    ensures |col'.stored| == Min(col'.count, max)
    ensures ScanFrom(blob, q, max, addStringTab, i, c, col) ==
            if !blob.tags[i].End? then ScanFrom(blob, q, max, addStringTab, i + 1, c', col')
            else if blob.offs[i + 1] != blob.structSize then Broken(BadLayout)
            else Complete(Finish(col', max, blob.base, blob.offs[i + 1], if addStringTab then blob.stringsSize else 0))
  {
  }

  function Scan(blob: Blob, q: Query, max: nat, addStringTab: bool): Scanned
    requires |blob.offs| == |blob.tags| + 1
  {
    ScanFrom(blob, q, max, addStringTab, 0, START, Col([], 0, -1))
  }

  /** Unfolds the decisions by the tag after those already decided. */
  lemma DecideStep(strings: map<nat, string>, q: Query, c: Ctl, tags: seq<Tag>, flags: seq<bool>)
    requires |flags| < |tags|
    ensures var n := |flags|;
            var d, s := Prepend(flags, Decide(strings, q, c, tags[n..])), StepTag(strings, q, c, tags[n]);
            match s
            case Fail(e) => d == Rejected(e)
            case Next(c', keep) =>
              d == if tags[n].End? then Accepted(flags + [keep])
                   else Prepend(flags + [keep], Decide(strings, q, c', tags[n + 1..]))
  {
    var n := |flags|;
    assert tags[n..][1..] == tags[n + 1..];
    var s := StepTag(strings, q, c, tags[n]);
    if s.Next? && !tags[n].End? {
      var d := Decide(strings, q, s.ctl, tags[n + 1..]);
      assert d.Accepted? ==> flags + ([s.keep] + d.flags) == (flags + [s.keep]) + d.flags;
    }
  }

  /** The bounded scan delivers what the unbounded specification finds. */
  ghost predicate ScanMeets(s: Scanned, max: nat, found: Outcome) {
    match s
    case Broken(e) => found == Refused(e)
    case Complete(col) => found.Found? && Delivered(col.stored, col.count, max, found.regions)
  }

  /** The result when the decisions for the whole stream are known. */
  function Conclude(blob: Blob, max: nat, addStringTab: bool, d: Decisions): Scanned
    requires |blob.offs| == |blob.tags| + 1
    requires d.Accepted? ==> |d.flags| <= |blob.tags|
  {
    if d.Rejected? then Broken(d.error)
    else if blob.offs[|d.flags|] != blob.structSize then Broken(BadLayout)
    else
      Complete(Finish(CollectAll(blob, max, d.flags), max, blob.base, blob.offs[|d.flags|],
                      if addStringTab then blob.stringsSize else 0))
  }

  /** Deciding and collecting in one pass is deciding first, then collecting. */
  lemma {:induction false} ScanFromConcludes(blob: Blob, q: Query, max: nat, addStringTab: bool,
                                             flags: seq<bool>, c: Ctl, d: Decisions)
    requires |flags| <= |blob.tags| && |blob.offs| == |blob.tags| + 1
    requires d == Prepend(flags, Decide(blob.strings, q, c, blob.tags[|flags|..]))
    ensures ScanFrom(blob, q, max, addStringTab, |flags|, c, CollectAll(blob, max, flags)) ==
            Conclude(blob, max, addStringTab, d)
    decreases |blob.tags| - |flags|
  {
    var n := |flags|;
    if n < |blob.tags| {
      DecideStep(blob.strings, q, c, blob.tags, flags);
      var s := StepTag(blob.strings, q, c, blob.tags[n]);
      if s.Next? {
        var flags' := flags + [s.keep];
        CollectAllNext(blob, max, flags, s.keep);
        ScanTurn(blob, q, max, addStringTab, n, c, CollectAll(blob, max, flags), s.ctl, s.keep,
                 CollectAll(blob, max, flags'));
        if !blob.tags[n].End? {
          ScanFromConcludes(blob, q, max, addStringTab, flags', s.ctl, d);
        }
      }
    }
  }

  lemma ConcludeMeets(blob: Blob, q: Query, max: nat, addStringTab: bool, d: Decisions)
    requires |blob.offs| == |blob.tags| + 1 && Ascending(blob.offs)
    requires d == Decide(blob.strings, q, START, blob.tags)
    ensures ScanMeets(Conclude(blob, max, addStringTab, d), max, Find(blob, q, addStringTab))
  {
    if d.Accepted? && blob.offs[|d.flags|] == blob.structSize {
      RunsSeparated(blob.tags, d.flags);
      CollectAllTracks(blob, max, d.flags);
      FinishDelivers(CollectAll(blob, max, d.flags), max, blob.base, blob.offs, Runs(blob.tags, d.flags), |d.flags|,
                     if addStringTab then blob.stringsSize else 0);
    }
  }

  /** For every blob and query: a scan limited to `max` regions fails exactly
      when the unlimited one does, with the same error; it counts at most `max`
      regions exactly when there are at most `max`, and has then stored exactly
      those; otherwise it has stored the first `max` of them. */
  lemma ScanDelivers(blob: Blob, q: Query, max: nat, addStringTab: bool)
    requires blob.Valid()
    ensures ScanMeets(Scan(blob, q, max, addStringTab), max, Find(blob, q, addStringTab))
  {
    var d := Decide(blob.strings, q, START, blob.tags);
    assert blob.tags[0..] == blob.tags;
    assert d == Prepend([], d);
    ScanFromConcludes(blob, q, max, addStringTab, [], START, d);
    TagOffsetsAscend(blob.tags);
    ConcludeMeets(blob, q, max, addStringTab, d);
  }
}
