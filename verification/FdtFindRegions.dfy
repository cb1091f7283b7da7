/** fdt_find_regions() with the buffers it works in: a `want` stack, the path
    buffer, and the caller's region table. */
module FdtFindRegions {
  import opened FdtFormat
  import opened FdtScan
  import opened FdtCollect

  datatype Return = Failed(error: Error) | Count(count: nat)

  /** fdt_next_tag(): at the end of the data it reports FDT_END and a negative
      next offset. */
  method NextTag(blob: Blob, i: nat) returns (tag: Tag, offset: int, next: int)
    requires i <= |blob.tags| && |blob.offs| == |blob.tags| + 1
    ensures offset == blob.offs[i]
    ensures i < |blob.tags| ==> tag == blob.tags[i] && next == blob.offs[i + 1]
    ensures i == |blob.tags| ==> tag == End && next < 0
  {
    offset := blob.offs[i];
    if i < |blob.tags| {
      tag, next := blob.tags[i], blob.offs[i + 1];
    } else {
      tag, next := End, -1;
    }
  }

  method StrInList(str: string, list: seq<string>) returns (found: bool)
    ensures found <==> str in list
  {
    for i := 0 to |list|
      invariant str !in list[..i]
    {
      if list[i] == str {
        return true;
      }
    }
    return false;
  }

  /** Adds a node name to the path of `end` characters held in the buffer. */
  method PathAppend(path: array<char>, end: nat, name: string) returns (end': nat)
    requires end + 2 + |name| < path.Length
    modifies path
    ensures end' < path.Length && path[end'] == '\0'
    ensures path[..end'] == Append(old(path[..end]), name)
  {
    end' := end;
    if end' != 1 {
      path[end'] := '/';
      end' := end' + 1;
    }
    ghost var prefix := path[..end'];
    assert prefix == if end != 1 then old(path[..end]) + "/" else old(path[..end]);
    for k := 0 to |name|
      invariant path[..end'] == prefix
      invariant path[end'..end' + k] == name[..k]
    {
      path[end' + k] := name[k];
    }
    path[end' + |name|] := '\0';
    assert path[..end' + |name|] == path[..end'] + path[end'..end' + |name|];
    end' := end' + |name|;
  }

  /** Cuts the path at its last '/'. */
  method PathCut(path: array<char>, end: nat) returns (end': nat)
    requires end < path.Length
    modifies path
    ensures end' <= end && path[end'] == '\0'
    ensures path[..end'] == Cut(old(path[..end]))
  {
    end' := end;
    while end' > 0
      invariant end' <= end && path[..] == old(path[..])
      invariant Cut(path[..end']) == Cut(old(path[..end]))
    {
      end' := end' - 1;
      assert path[..end' + 1][..end'] == path[..end'];
      if path[end'] == '/' {
        break;
      }
    }
    path[end'] := '\0';
  }

  /** Opens, closes or reopens a region in the caller's table. */
  method Emit(region: array<Region>, max: nat, base: int, count: nat, start: int, keep: bool, offset: int, stopAt: int)
      returns (count': nat, start': int)
    requires max <= region.Length
    modifies region
    ensures Col(region[..Min(count', max)], count', start') ==
            Collect(Col(old(region[..Min(count, max)]), count, start), max, base, keep, offset, stopAt)
    ensures region[max..] == old(region[max..])
  {
    count', start' := count, start;
    if keep && start == -1 {
      if 0 < count <= max && offset == region[count - 1].offset + region[count - 1].size - base {
        count' := count - 1;
        start' := region[count'].offset - base;
      } else {
        start' := offset;
      }
    }
    if !keep && start != -1 {
      if count < max {
        region[count] := Region(base + start, stopAt - start);
      }
      count' := count + 1;
      start' := -1;
    }
  }

  datatype Verdict = Stop(error: Error) | Take(keep: bool, stopAt: int)

  /** What one turn must do: fail as the specification fails, or move to its
      next position with its decision. */
  ghost predicate Agrees(v: Verdict, s: Step, t: Tag, offset: int, next: int) {
    match s
    case Fail(e) => v == Stop(e)
    case Next(_, keep) => v.Take? && v.keep == keep && (!keep ==> v.stopAt == StopAt(t, offset, next))
  }

  /** The variables of the scanning loop that decide what is included. */
  class Scanner {
    const path: array<char>
    const stack: array<int>
    var end: nat
    var depth: int
    var want: int
    var expectEnd: bool

    ghost predicate Valid()
      reads this, path, stack
    {
      stack.Length == MAX_DEPTH && -1 <= depth < MAX_DEPTH && end < path.Length
    }

    ghost function Pos(): Ctl
      reads this, path, stack
      requires Valid()
    {
      Ctl(path[..end], stack[..depth + 1], want, expectEnd)
    }

    constructor (buf: array<char>)
      requires buf.Length > 0
      modifies buf
      ensures Valid() && path == buf && fresh(stack)
      ensures Pos() == START
    {
      path := buf;
      stack := new int[MAX_DEPTH];
      end, depth, want, expectEnd := 0, -1, 0, false;
      new;
      path[0] := '\0';
    }

    method BeginNode(inc: seq<string>, name: string, offset: int, next: int, ghost q: Query) returns (v: Verdict)
      requires Valid() && q.inc == inc && q.pathLen == path.Length
      modifies this, path, stack
      ensures var s := BeginStep(q, old(Pos()), name);
              Agrees(v, s, Tag.BeginNode(name), offset, next) && (s.Next? ==> Valid() && Pos() == s.ctl)
    {
      var stopAt := next;
      if depth + 1 == MAX_DEPTH {
        return Stop(BadStructure);
      }
      if depth + 1 == 0 && name != "" {
        return Stop(BadLayout);
      }
      if end + 2 + |name| >= path.Length {
        return Stop(NoSpace);
      }
      end := PathAppend(path, end, name);
      depth := depth + 1;
      stack[depth] := want;
      if want == 1 {
        stopAt := offset;
      }
      var listed := StrInList(path[..end], inc);
      if listed {
        want := 2;
      } else if want != 0 {
        want := want - 1;
      } else {
        stopAt := offset;
      }
      v := Take(want != 0, stopAt);
    }

    method EndNode(offset: int, next: int) returns (v: Verdict)
      requires Valid()
      modifies this, path
      ensures var s := EndStep(old(Pos()));
              Agrees(v, s, Tag.EndNode, offset, next) && (s.Next? ==> Valid() && Pos() == s.ctl)
    {
      if depth < 0 {
        return Stop(BadStructure);
      }
      v := Take(want != 0, next);
      want := stack[depth];
      depth := depth - 1;
      end := PathCut(path, end);
      if depth == -1 {
        expectEnd := true;
      }
    }

    method Prop(strings: map<nat, string>, excProp: seq<string>, nameOff: nat, offset: int,
                ghost q: Query, ghost tag: Tag, ghost next: int) returns (v: Verdict)
      requires Valid() && q.excProp == excProp && tag.Prop?
      ensures Agrees(v, PropStep(strings, q, Pos(), nameOff), tag, offset, next)
    {
      if nameOff !in strings {
        return Stop(BadStructure);
      }
      var excluded := StrInList(strings[nameOff], excProp);
      v := Take(want >= 2 && !excluded, offset);
    }

    /** One turn of the loop: fail, or decide about this tag and move on. */
    method Turn(strings: map<nat, string>, inc: seq<string>, excProp: seq<string>, tag: Tag, offset: int, next: int)
        returns (v: Verdict)
      requires Valid()
      modifies this, path, stack
      ensures var s := StepTag(strings, Query(inc, excProp, path.Length), old(Pos()), tag);
              Agrees(v, s, tag, offset, next) && (s.Next? ==> Valid() && Pos() == s.ctl)
    {
      ghost var q := Query(inc, excProp, path.Length);
      if expectEnd && tag != End {
        return Stop(BadLayout);
      }
      match tag {
        case Prop(nameOff, _) => v := Prop(strings, excProp, nameOff, offset, q, tag, next);
        case Nop => v := Take(want >= 2, offset);
        case BeginNode(name) => v := BeginNode(inc, name, offset, next, q);
        case EndNode => v := EndNode(offset, next);
        case End => v := Take(true, next);
      }
    }
  }

  /** Closes the last region, counts it, and makes it longer by `extra`. */
  method Close(region: array<Region>, max: nat, base: int, count: nat, start: int, next: int, extra: int)
      returns (count': nat)
    requires max <= region.Length
    modifies region
    ensures Col(region[..Min(count', max)], count', -1) ==
            Finish(Col(old(region[..Min(count, max)]), count, start), max, base, next, extra)
    ensures region[max..] == old(region[max..])
  {
    if count < max {
      region[count] := Region(base + start, next - start + extra);
    }
    count' := count + 1;
  }

  /** The result of the function and what it left in the region table. */
  ghost predicate Returned(s: Scanned, r: Return, stored: seq<Region>) {
    match s
    case Broken(e) => r == Failed(e)
    case Complete(col) => r == Count(col.count) && stored == col.stored
  }

  method FindRegions(blob: Blob, inc: seq<string>, excProp: seq<string>, region: array<Region>, max: nat,
                     path: array<char>, addStringTab: bool) returns (r: Return)
    requires |blob.offs| == |blob.tags| + 1 && max <= region.Length && path.Length > 0
    modifies region, path
    ensures Returned(Scan(blob, Query(inc, excProp, path.Length), max, addStringTab), r,
                     if r.Count? then region[..Min(r.count, max)] else [])
    ensures region[max..] == old(region[max..])
  {
    var s := new Scanner(path);
    var i: nat, nextOffset: nat, count: nat, start := 0, 0, 0, -1;
    ghost var q := Query(inc, excProp, path.Length);
    while true
      invariant i <= |blob.tags|
      invariant s.Valid() && s.path == path && fresh(s) && fresh(s.stack)
      invariant Scan(blob, q, max, addStringTab) ==
                ScanFrom(blob, q, max, addStringTab, i, s.Pos(), Col(region[..Min(count, max)], count, start))
      invariant region[max..] == old(region[max..])
      decreases |blob.tags| - i
    {
      ghost var c, col := s.Pos(), Col(region[..Min(count, max)], count, start);
      var tag, offset, next := NextTag(blob, i);
      var v := s.Turn(blob.strings, inc, excProp, tag, offset, next);
      if next < 0 {
        return Failed(BadLayout);
      }
      if v.Stop? {
        return Failed(v.error);
      }
      count, start := Emit(region, max, blob.base, count, start, v.keep, offset, v.stopAt);
      ScanTurn(blob, q, max, addStringTab, i, c, col, s.Pos(), v.keep, Col(region[..Min(count, max)], count, start));
      i, nextOffset := i + 1, next;
      if tag == End {
        break;
      }
    }
    if nextOffset != blob.structSize {
      return Failed(BadLayout);
    }
    count := Close(region, max, blob.base, count, start, nextOffset, if addStringTab then blob.stringsSize else 0);
    r := Count(count);
  }

  /** fdt_find_regions() on a blob whose offsets are those of its tags: it fails
      exactly when the specification does, or returns the number of regions and
      as many of the specified regions as there is room for. */
  method FindRegionsOf(blob: Blob, inc: seq<string>, excProp: seq<string>, region: array<Region>, max: nat,
                       path: array<char>, addStringTab: bool) returns (r: Return)
    requires blob.Valid() && max <= region.Length && path.Length > 0
    modifies region, path
    ensures var found := Find(blob, Query(inc, excProp, path.Length), addStringTab);
            match r
            case Failed(e) => found == Refused(e)
            case Count(n) => found.Found? && Delivered(region[..Min(n, max)], n, max, found.regions)
    ensures region[max..] == old(region[max..])
  {
    ScanDelivers(blob, Query(inc, excProp, path.Length), max, addStringTab);
    r := FindRegions(blob, inc, excProp, region, max, path, addStringTab);
  }
}
