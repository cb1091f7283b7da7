/** fdt_first_region() and fdt_next_region(): one region per call, for any
    callback that chooses what to include. */
module FdtNextRegion {
  import opened FdtFormat
  import opened FdtScan
  import opened FdtFindRegions

  datatype Opts = Opts(addStringTab: bool, supernodes: bool, directSubnodes: bool, allSubnodes: bool, addRsvmap: bool)

  /** An open node: where its first tag starts and ends, the `want` before it, and
      whether it is included. */
  datatype Frame = Frame(offset: int, stop: int, want: int, included: bool)

  /** The state that is kept when a tag has to be looked at again: depth of the
      tree, completed phase, `want`, length of the path, number of the next tag and
      whether the data ended too early. */
  datatype Ptrs = Ptrs(depth: int, done: nat, want: int, end: nat, next: nat, truncated: bool)

  const DONE_NOTHING: nat := 0
  const DONE_MEM_RSVMAP: nat := 1
  const DONE_STRUCT: nat := 2
  const DONE_EMPTY: nat := 3
  const DONE_END: nat := 4
  const DONE_STRINGS: nat := 5

  datatype Result = Delivered | NotFound | Invalid(error: Error)

  /** How one turn of the loop over the tags ends. */
  datatype Turn = Committed | Retry | Broken(error: Error)

  /** Open nodes that are not included yet. */
  function Missing(stack: seq<Frame>, n: nat): nat
    requires n <= |stack|
  {
    if n == 0 then 0 else Missing(stack, n - 1) + if stack[n - 1].included then 0 else 1
  }

  lemma {:induction false} MissingSame(s: seq<Frame>, t: seq<Frame>, n: nat)
    requires n <= |s| && n <= |t| && forall i :: 0 <= i < n ==> s[i].included == t[i].included
    ensures Missing(s, n) == Missing(t, n)
  {
    if n > 0 {
      MissingSame(s, t, n - 1);
    }
  }

  lemma {:induction false} MissingLess(s: seq<Frame>, t: seq<Frame>, n: nat)
    requires n <= |s| && n <= |t| && forall i :: 0 <= i < n && s[i].included ==> t[i].included
    ensures Missing(t, n) <= Missing(s, n)
    ensures (exists i :: 0 <= i < n && !s[i].included && t[i].included) ==> Missing(t, n) < Missing(s, n)
  {
    if n > 0 {
      MissingLess(s, t, n - 1);
    }
  }

  /** Phases, tags and supernodes that are left. */
  datatype Work = Work(phases: int, tags: int, missing: int)

  ghost predicate Less(a: Work, b: Work) {
    a.phases < b.phases || (a.phases == b.phases && (a.tags < b.tags || (a.tags == b.tags && a.missing < b.missing)))
  }

  ghost predicate AtMost(a: Work, b: Work) {
    a == b || Less(a, b)
  }

  /** An open node once it is included: the end of its parent will be written too. */
  function Forced(f: Frame): Frame {
    f.(included := true, want := if f.want == 0 then 1 else f.want)
  }

  lemma ForcedMeans(f: Frame)
    ensures var f' := Forced(f);
            && f'.included && f'.offset == f.offset && f'.stop == f.stop
            && f'.want != 0 && (f.want != 0 ==> f'.want == f.want) && (f.want == 0 ==> f'.want == 1)
  {
  }

  /** The region of a call, how many were added, and whether the next can be merged. */
  datatype Buf = Buf(region: Region, count: nat, canMerge: bool)

  /** With room for one region: a range that reaches back to it makes it longer, the
      first one is stored, and any other is only counted. */
  function Added(b: Buf, offset: int, size: int): Buf {
    if b.canMerge && b.count == 1 && offset <= b.region.offset + b.region.size then
      b.(region := Region(b.region.offset, offset + size - b.region.offset))
    else if b.count == 0 then b.(region := Region(offset, size), count := 1)
    else b.(count := b.count + 1)
  }

  ghost predicate Covers(r: Region, x: int) {
    r.offset <= x < r.offset + r.size
  }

  /** The first range is stored; one that starts in the region or at its end is joined
      to it; one that starts beyond it leaves the region as it is and finds no room. */
  lemma AddedMeans(b: Buf, offset: int, size: int)
    ensures b.count == 0 ==> Added(b, offset, size) == Buf(Region(offset, size), 1, b.canMerge)
    ensures var r, r' := b.region, Added(b, offset, size).region;
            b.count == 1 && b.canMerge && r.offset <= offset <= r.offset + r.size <= offset + size ==>
              && Added(b, offset, size).count == 1
              && forall x :: Covers(r', x) <==> Covers(r, x) || Covers(Region(offset, size), x)
    ensures b.count == 1 && (!b.canMerge || offset > b.region.offset + b.region.size) ==>
              Added(b, offset, size).count == 2 && Added(b, offset, size).region == b.region
  {
  }

  /** The first tags of the open nodes from `i` to `depth` that are not included, up to
      one for which there is no room. */
  function SupernodesAdded(b: Buf, base: int, stack: seq<Frame>, i: nat, depth: int): Buf
    requires depth < |stack|
    decreases depth - i
  {
    if i > depth || b.count > 1 then b
    else if stack[i].included then SupernodesAdded(b, base, stack, i + 1, depth)
    else
      var b' := Added(b, base + stack[i].offset, stack[i].stop - stack[i].offset);
      if b'.count > 1 then b' else SupernodesAdded(b'.(canMerge := true), base, stack, i + 1, depth)
  }

  /** Open node `k` is the next one after `j` that is not included. */
  ghost predicate NextMissing(stack: seq<Frame>, j: nat, k: nat) {
    && j < k < |stack| && !stack[j].included && !stack[k].included
    && forall m :: j < m < k ==> stack[m].included
  }

  /** From `i` to `depth` there is no gap between the first tags of two open nodes that
      are not included, one after the other. */
  ghost predicate NoGap(stack: seq<Frame>, i: nat, depth: int) {
    forall j: nat, k: nat :: i <= j && k <= depth && NextMissing(stack, j, k) ==> stack[k].offset <= stack[j].stop
  }

  ghost predicate LastMissing(stack: seq<Frame>, last: nat, depth: int) {
    last <= depth < |stack| && !stack[last].included && forall m :: last < m <= depth ==> stack[m].included
  }

  lemma NoGapFrom(stack: seq<Frame>, j: nat, i: nat, depth: int)
    requires NextMissing(stack, j, i) && i <= depth
    ensures NoGap(stack, j, depth) <==> stack[i].offset <= stack[j].stop && NoGap(stack, i, depth)
  {
    forall a: nat, k: nat | j <= a && k <= depth && NextMissing(stack, a, k) ensures a == j ==> k == i {
    }
  }

  /** The region ends with open node `j`, and those up to `i` are included. */
  lemma {:induction false} SupernodesOn(b: Buf, base: int, stack: seq<Frame>, j: nat, i: nat, depth: int, last: nat)
    requires LastMissing(stack, last, depth) && j < i && j <= last && !stack[j].included
    requires forall m :: j < m < i && m <= depth ==> stack[m].included
    requires b.count == 1 && b.canMerge && b.region.offset + b.region.size == base + stack[j].stop
    ensures var r := SupernodesAdded(b, base, stack, i, depth);
            && r.region.offset == b.region.offset && (r.count == 1 <==> NoGap(stack, j, depth))
            && (r.count == 1 ==> r.region.offset + r.region.size == base + stack[last].stop)
    decreases depth - i
  {
    if i <= depth {
      if stack[i].included {
        SupernodesOn(b, base, stack, j, i + 1, depth, last);
      } else {
        NoGapFrom(stack, j, i, depth);
        if stack[i].offset <= stack[j].stop {
          var b' := Added(b, base + stack[i].offset, stack[i].stop - stack[i].offset);
          SupernodesOn(b', base, stack, i, i + 1, depth, last);
        }
      }
    }
  }

  /** One region is enough for the first tags of all open nodes that are not included
      exactly when there is no gap between them. It then reaches from the first of
      them to the last. */
  lemma {:induction false} SupernodesMean(
    b: Buf, base: int, stack: seq<Frame>, i: nat, depth: int, first: nat, last: nat)
    requires b.count == 0 && i <= first <= last && LastMissing(stack, last, depth) && !stack[first].included
    requires forall m :: i <= m < first ==> stack[m].included
    ensures var r := SupernodesAdded(b, base, stack, i, depth);
            && r.region.offset == base + stack[first].offset && (r.count == 1 <==> NoGap(stack, i, depth))
            && (r.count == 1 ==> r.region.offset + r.region.size == base + stack[last].stop)
    decreases first - i
  {
    if i < first {
      SupernodesMean(b, base, stack, i + 1, depth, first, last);
    } else {
      var b' := Added(b, base + stack[i].offset, stack[i].stop - stack[i].offset).(canMerge := true);
      SupernodesOn(b', base, stack, i, i + 1, depth, last);
    }
  }

  class RegionIter {
    const blob: Blob
    const rsvmapOff: int
    const stringsOff: int
    const opts: Opts
    const path: array<char>
    const callback: nat -> int
    var asked: nat
    var stack: seq<Frame>
    var region: Region
    var count: nat
    var canMerge: bool
    var start: int
    var haveNode: bool
    var ptrs: Ptrs

    ghost predicate Valid()
      reads this
    {
      && |blob.offs| == |blob.tags| + 1
      && |stack| == MAX_DEPTH
      && -1 <= ptrs.depth < MAX_DEPTH && ptrs.done <= DONE_STRINGS
      && ptrs.end < path.Length && ptrs.next <= |blob.tags|
    }

    /** What is left to do. */
    ghost function Left(): Work
      reads this
      requires Valid()
    {
      Work(DONE_STRINGS - ptrs.done, |blob.tags| - ptrs.next, Missing(stack, ptrs.depth + 1))
    }

    /** The include callback: it may answer anything, each time it is asked. */
    method Ask() returns (val: int)
      modifies this`asked
    {
      val := callback(asked);
      asked := asked + 1;
    }

    ghost function Now(): Buf
      reads this`region, this`count, this`canMerge
    {
      Buf(region, count, canMerge)
    }

    /** fdt_add_region() with room for one region: fails only when there is a region
        already and the new one cannot be merged with it. */
    method AddRegion(offset: int, size: int) returns (ok: bool)
      modifies this`region, this`count, this`haveNode
      ensures Now() == Added(old(Now()), offset, size)
      ensures ok <==> count <= 1
      ensures haveNode == (old(haveNode) || (old(count) == 0 && offset == blob.base))
    {
      if canMerge && count == 1 && offset <= region.offset + region.size {
        region := Region(region.offset, offset + size - region.offset);
        return true;
      }
      count := count + 1;
      if count == 1 {
        region := Region(offset, size);
        if offset == blob.base {
          haveNode := true;
        }
        return true;
      }
      return false;
    }

    /** fdt_include_supernodes(): adds the first tag of every open node that is not
        included yet. */
    method IncludeSupernodes(depth: int) returns (ok: bool)
      requires |stack| == MAX_DEPTH && -1 <= depth < MAX_DEPTH && count <= 1
      modifies this`region, this`count, this`haveNode, this`stack, this`canMerge
      ensures |stack| == MAX_DEPTH
      ensures forall i :: 0 <= i < MAX_DEPTH ==> (old(stack)[i].included ==> stack[i].included)
      ensures forall i :: depth < i < MAX_DEPTH ==> stack[i] == old(stack)[i]
      ensures ok && old(count) == 0 && count != 0 ==>
                exists i :: 0 <= i <= depth && !old(stack)[i].included && stack[i].included
      ensures ok ==> old(count) <= count <= 1
      ensures Now() == SupernodesAdded(old(Now()), blob.base, old(stack), 0, depth)
      ensures ok ==> forall i :: 0 <= i <= depth ==> stack[i] == Forced(old(stack)[i])
      ensures ok <==> count <= 1
      ensures !ok ==> count > 0
      ensures !ok && old(count) == 0 ==> exists i :: 0 <= i <= depth && !old(stack)[i].included && stack[i].included
    {
      var i := 0;
      while i <= depth
        invariant 0 <= i <= depth + 1 && |stack| == MAX_DEPTH
        invariant forall j :: 0 <= j < MAX_DEPTH ==> (old(stack)[j].included ==> stack[j].included)
        invariant forall j :: i <= j < MAX_DEPTH ==> stack[j] == old(stack)[j]
        invariant old(count) <= count <= 1
        invariant forall j :: 0 <= j < i ==> stack[j] == Forced(old(stack)[j])
        invariant SupernodesAdded(Now(), blob.base, old(stack), i, depth)
               == SupernodesAdded(old(Now()), blob.base, old(stack), 0, depth)
        invariant old(count) == 0 && count != 0 ==>
          exists j :: 0 <= j < i && !old(stack)[j].included && stack[j].included
      {
        if !stack[i].included {
          var added := AddRegion(blob.base + stack[i].offset, stack[i].stop - stack[i].offset);
          if !added {
            return false;
          }
          stack := stack[i := stack[i].(included := true)];
          canMerge := true;
          assert !old(stack)[i].included && stack[i].included;
        }
        if stack[i].want == 0 {
          stack := stack[i := stack[i].(want := 1)];
        }
        i := i + 1;
      }
      return true;
    }

    /** fdt_next_tag() */
    method Tag() returns (tag: Tag, offset: int, p: Ptrs, stopAt: int)
      requires Valid()
      ensures p == ptrs.(next := if ptrs.next < |blob.tags| then ptrs.next + 1 else ptrs.next,
                         truncated := ptrs.next == |blob.tags|)
      ensures ptrs.next == |blob.tags| ==> tag.End?
    {
      p, offset := ptrs, blob.offs[ptrs.next];
      if p.next < |blob.tags| {
        tag, stopAt, p := blob.tags[p.next], blob.offs[p.next + 1], p.(next := p.next + 1, truncated := false);
      } else {
        tag, stopAt, p := End, -1, p.(truncated := true);
      }
    }

    /** A property: the callback decides, or `want` if it returns -1. */
    method LookProp(p: Ptrs) returns (p': Ptrs, keep: bool)
      modifies this`asked
      ensures p' == p.(want := p'.want)
    {
      var val := Ask();
      p', keep := p, val != 0;
      if val == -1 {
        keep := p.want >= 2;
      } else if opts.supernodes && val != 0 && p.want == 0 {
        p' := p.(want := 1);
      }
    }

    /** The first tag of a node. */
    method LookBegin(name: string, offset: int, p: Ptrs, stopAt: int)
        returns (ok: bool, p': Ptrs, keep: bool, stopAt': int, error: Error)
      requires |stack| == MAX_DEPTH && -1 <= p.depth < MAX_DEPTH && p.end < path.Length
      modifies this`asked, this`stack, path
      ensures |stack| == MAX_DEPTH
      ensures forall i :: 0 <= i <= p.depth ==> stack[i] == old(stack)[i]
      ensures ok ==> p'.depth == p.depth + 1 < MAX_DEPTH && p'.end < path.Length
      ensures ok ==> p' == p.(depth := p.depth + 1, want := p'.want, end := p'.end)
      ensures ok && keep ==> stack[p'.depth].included
    {
      p', keep, stopAt', error := p.(depth := p.depth + 1), false, stopAt, BadStructure;
      if p'.depth == MAX_DEPTH {
        return false, p', keep, stopAt', BadStructure;
      }
      if p.end + 2 + |name| >= path.Length {
        return false, p', keep, stopAt', NoSpace;
      }
      var end := PathAppend(path, p.end, name);
      p' := p'.(end := end);
      if p'.want == 1 || !(opts.directSubnodes || opts.allSubnodes) {
        stopAt', p' := offset, p'.(want := 0);
      }
      var val := Ask();
      if val != 0 {
        p' := p'.(want := if opts.allSubnodes then 3 else 2);
      } else if p'.want != 0 {
        if p'.want != 3 {
          p' := p'.(want := p'.want - 1);
        }
      } else {
        stopAt' := offset;
      }
      keep := p'.want != 0;
      stack := stack[p'.depth := Frame(offset, stopAt, p.want, keep)];
      return true, p', keep, stopAt', BadStructure;
    }

    /** Looks at the next tag; nothing that counts is committed yet. */
    method Look() returns (ok: bool, p: Ptrs, offset: int, keep: bool, stopAt: int, error: Error)
      requires Valid()
      modifies this`asked, this`stack, path
      ensures Valid() && Left() == old(Left())
      ensures forall i :: 0 <= i <= ptrs.depth ==> stack[i] == old(stack)[i]
      ensures ok ==> -1 <= p.depth < MAX_DEPTH && p.end < path.Length && p.next <= |blob.tags|
      ensures ok ==> (p.done == ptrs.done && p.next == ptrs.next + 1) || p.done == DONE_STRUCT
      ensures ok ==> p.depth <= ptrs.depth || (p.depth == ptrs.depth + 1 && (keep ==> stack[p.depth].included))
    {
      var tag;
      tag, offset, p, stopAt := Tag();
      ok, keep, error := true, false, BadStructure;
      match tag {
        case Prop(_, _) =>
          p, keep := LookProp(p);
          stopAt := offset;
        case Nop =>
          keep, stopAt := p.want >= 2, offset;
        case BeginNode(name) =>
          ok, p, keep, stopAt, error := LookBegin(name, offset, p, stopAt);
        case EndNode =>
          keep := p.want != 0;
          if p.depth < 0 {
            ok := false;
          } else {
            if p.want == 0 && !opts.directSubnodes {
              stopAt := offset;
            }
            var end := PathCut(path, p.end);
            p := p.(want := stack[p.depth].want, depth := p.depth - 1, end := end);
          }
        case End =>
          keep := true;
          p := p.(done := DONE_STRUCT);
      }
      MissingSame(old(stack), stack, ptrs.depth + 1);
    }

    /** Within a call, a region is only there if work was done. */
    ghost predicate Working(before: Work)
      reads this
    {
      Valid() && count <= 1 && AtMost(Left(), before) && (count > 0 ==> Less(Left(), before))
    }

    /** When a call returns a region, work was done. */
    ghost predicate Gave(before: Work)
      reads this
    {
      Valid() && count > 0 && Less(Left(), before)
    }

    /** Starts a region at this tag, after the supernodes it needs. */
    method Open(p: Ptrs, offset: int, ghost before: Work) returns (ok: bool)
      requires Working(before) && -1 <= p.depth < MAX_DEPTH
      requires p.depth <= ptrs.depth || (p.depth == ptrs.depth + 1 && stack[p.depth].included)
      modifies this`region, this`count, this`haveNode, this`stack, this`canMerge, this`start
      ensures ok ==> Valid() && count <= 1 && AtMost(Left(), before)
      ensures ok ==> Left().phases == old(Left()).phases && Left().tags == old(Left()).tags
      ensures !ok ==> Gave(before)
    {
      ok := true;
      if opts.supernodes {
        ok := IncludeSupernodes(p.depth);
        MissingLess(old(stack), stack, ptrs.depth + 1);
      }
      if ok {
        start := offset;
      }
    }

    /** Ends the region that was open before this tag. */
    method Finish(stopAt: int, ghost before: Work) returns (ok: bool)
      requires Working(before)
      modifies this`region, this`count, this`haveNode, this`start, this`canMerge
      ensures ok ==> Valid() && count <= 1 && Left() == old(Left())
      ensures !ok ==> Gave(before)
    {
      if start == 0 {
        haveNode := true;
      }
      ok := AddRegion(blob.base + start, stopAt - start);
      if ok {
        start, canMerge := -1, true;
      }
    }

    /** One turn of the loop over the tags: the tag is done with, or is left for the
        next call. */
    method DoTag(ghost before: Work) returns (t: Turn)
      requires Working(before) && ptrs.done < DONE_STRUCT
      modifies this, path
      ensures t == Committed ==> Working(before) && Less(Left(), old(Left()))
      ensures t == Retry ==> Gave(before)
    {
      var ok, p, offset, keep, stopAt, error := Look();
      if !ok {
        return Broken(error);
      }
      if keep && start == -1 {
        ok := Open(p, offset, before);
        if !ok {
          return Retry;
        }
      } else if !keep && start != -1 {
        ok := Finish(stopAt, before);
        if !ok {
          return Retry;
        }
      }
      ptrs := p;
      return Committed;
    }

    /** The phases after the tags: a first tag for an otherwise empty tree, the end
        of the structure block, the string table. */
    method DoRest(ghost before: Work) returns (r: Result)
      requires Working(before) && ptrs.done >= DONE_STRUCT
      modifies this
      ensures r == Delivered ==> Gave(before)
    {
      if ptrs.done < DONE_EMPTY {
        if opts.supernodes && !haveNode && start != 0 {
          var ok := AddRegion(blob.base, 8);
          if !ok {
            return Delivered;
          }
        }
        ptrs := ptrs.(done := ptrs.done + 1);
      }
      r := DoEnds(before);
    }

    method DoEnds(ghost before: Work) returns (r: Result)
      requires Working(before) && ptrs.done >= DONE_EMPTY
      modifies this
      ensures r == Delivered ==> Gave(before)
    {
      var next := if ptrs.truncated then -1 else blob.offs[ptrs.next];
      if ptrs.done < DONE_END {
        if next != blob.structSize {
          return Invalid(BadStructure);
        }
        if start == blob.structSize - 4 {
          start := start - 4;
        }
        var ok := AddRegion(blob.base + start, next - start);
        if !ok {
          return Delivered;
        }
        ptrs := ptrs.(done := ptrs.done + 1);
      }
      r := DoStrings(next, before);
    }

    method DoStrings(next: int, ghost before: Work) returns (r: Result)
      requires Working(before) && ptrs.done >= DONE_END
      modifies this
      ensures r == Delivered ==> Gave(before)
    {
      if ptrs.done < DONE_STRINGS {
        if opts.addStringTab {
          canMerge := false;
          if stringsOff < blob.base + next {
            return Invalid(BadLayout);
          }
          var ok := AddRegion(stringsOff, blob.stringsSize);
          if !ok {
            return Delivered;
          }
        }
        ptrs := ptrs.(done := ptrs.done + 1);
      }
      r := if count > 0 then Delivered else NotFound;
    }

    /** fdt_next_region(): a call that returns a region has stored one, and leaves
        less to do than there was. */
    method NextRegion() returns (r: Result)
      requires Valid()
      modifies this, path
      ensures r == Delivered ==> Valid() && count > 0 && Less(Left(), old(Left()))
    {
      ghost var before := Left();
      count := 0;
      if ptrs.done < DONE_MEM_RSVMAP && opts.addRsvmap {
        var ok := AddRegion(rsvmapOff, blob.base - rsvmapOff);
        if !ok {
          return Delivered;
        }
        canMerge := false;
        ptrs := ptrs.(done := DONE_MEM_RSVMAP);
      }
      while ptrs.done < DONE_STRUCT
        invariant Working(before)
        decreases Left().phases, Left().tags, Left().missing
      {
        var t := DoTag(before);
        if t == Retry {
          return Delivered;
        } else if t.Broken? {
          return Invalid(t.error);
        }
      }
      r := DoRest(before);
    }

    /** fdt_first_region(): sets up the state. */
    constructor (blob: Blob, rsvmapOff: int, stringsOff: int, opts: Opts, path: array<char>, callback: nat -> int)
      requires |blob.offs| == |blob.tags| + 1 && path.Length > 0
      modifies path
      ensures Valid() && this.path == path
    {
      this.blob, this.rsvmapOff, this.stringsOff, this.opts, this.path := blob, rsvmapOff, stringsOff, opts, path;
      this.callback, asked := callback, 0;
      stack := seq(MAX_DEPTH, _ => Frame(0, 0, 0, false));
      region, count, canMerge, start, haveNode := Region(0, 0), 0, true, -1, false;
      ptrs := Ptrs(-1, DONE_NOTHING, 0, 0, 0, false);
      new;
      path[0] := '\0';
    }

    /** Asking for regions until there are no more: this ends, whatever the callback
        answers. */
    method Drain() returns (l: seq<Region>, r: Result)
      requires Valid()
      modifies this, path
      ensures r != Delivered
    {
      l := [];
      r := NextRegion();
      while r == Delivered
        invariant r == Delivered ==> Valid()
        decreases r == Delivered, if r == Delivered then Left().phases else 0,
                  if r == Delivered then Left().tags else 0, if r == Delivered then Left().missing else 0
      {
        l := l + [region];
        r := NextRegion();
      }
    }
  }
}
