/** A scan, check by check: which check follows which, for every outcome. */
module BootPath {
  import opened BootOrder
  import opened BootScan

  /** Where a scan is: at a global method, at a method on a partition of a device, or
      at its end. All are numbers in their lists. */
  datatype Pos = Global(g: nat) | Local(i: nat, part: nat, m: nat) | Finished

  /** What a scan goes through: all methods, those for devices, and the devices. */
  datatype Lists = Lists(meths: seq<nat>, normal: seq<nat>, devs: seq<nat>)

  predicate InLists(l: Lists, p: Pos) {
    match p
    case Global(g) => g < |l.meths|
    case Local(i, _, m) => i < |l.devs| && m < |l.normal|
    case Finished => true
  }

  /** The check that is made there. */
  function CallAt(l: Lists, p: Pos): Call
    requires InLists(l, p) && p != Finished
  {
    match p
    case Global(g) => GlobalCall(l.meths[g])
    case Local(i, part, m) => DevCall(l.devs[i], part, l.normal[m])
  }

  /** The first method on the first partition of a device. */
  function Device(l: Lists, i: nat): Pos {
    if i < |l.devs| then Local(i, 0, 0) else Finished
  }

  /** Where the scan goes after a check with this answer. Success and -ENODEV end it.
      -ESHUTDOWN leaves the device, or starts all methods again as global ones.
      Otherwise the next method follows, the next partition up to the bound in the
      answer, or the next device. */
  function NextPos(l: Lists, p: Pos, a: Answer): Pos {
    if a.ret.Ok? || a.ret.NoMoreDevices? then Finished
    else
      match p
      case Global(g) =>
        if a.ret.NoMoreParts? then if l.devs == [] then Finished else Global(0)
        else if g + 1 < |l.meths| then Global(g + 1)
        else Device(l, 0)
      case Local(i, part, m) =>
        if a.ret.NoMoreParts? then Device(l, i + 1)
        else if m + 1 < |l.normal| then Local(i, part, m + 1)
        else if part < a.maxPart then Local(i, part + 1, 0)
        else Device(l, i + 1)
      case Finished => Finished
  }

  /** From number `k` on, the checks are those of a scan that is at `p`, and it is
      at `last` after them. */
  ghost predicate Follows(o: Oracle, l: Lists, calls: seq<Call>, k: nat, p: Pos, last: Pos)
    requires k <= |calls|
    decreases |calls| - k
  {
    if k == |calls| then p == last
    else
      && p != Finished && InLists(l, p) && calls[k] == CallAt(l, p)
      && Follows(o, l, calls, k + 1, NextPos(l, p, o(calls[..k + 1])), last)
  }

  lemma FollowsOne(o: Oracle, l: Lists, h: seq<Call>, calls: seq<Call>, p: Pos, last: Pos)
    requires p != Finished && InLists(l, p)
    requires var h' := h + [CallAt(l, p)];
             && |h'| <= |calls| && calls[..|h'|] == h'
             && Follows(o, l, calls, |h'|, NextPos(l, p, o(h')), last)
    ensures Follows(o, l, calls, |h|, p, last)
  {
    var h' := h + [CallAt(l, p)];
    assert calls[|h|] == calls[..|h'|][|h|];
  }

  // -------------------------------------------------------------------------
  // On devices
  // -------------------------------------------------------------------------

  /** The rest of the nested loops from a position on. */
  ghost function LoopsFrom(o: Oracle, l: Lists, p: Pos, maxPart: PartBound, h: seq<Call>): seq<Call>
    requires p.Local? && InLists(l, p)
  {
    match Methods(o, l.normal, p.m, l.devs[p.i], p.part, maxPart, h)
    case Halt(h') => h'
    case Leave(h') => Devices(o, l.normal, l.devs[p.i + 1..], h')
    case Next(h', maxPart') =>
      match Parts(o, l.normal, l.devs[p.i], p.part + 1, maxPart', h')
      case Halt(h'') => h''
      case Leave(h'') => Devices(o, l.normal, l.devs[p.i + 1..], h'')
  }

  /** The rest of the nested loops from a device on. */
  ghost function LoopsAt(o: Oracle, l: Lists, p: Pos, maxPart: PartBound, h: seq<Call>): seq<Call>
    requires !p.Global? && InLists(l, p)
  {
    if p == Finished then h else LoopsFrom(o, l, p, maxPart, h)
  }

  lemma DevicesAt(o: Oracle, l: Lists, i: nat, h: seq<Call>)
    requires i <= |l.devs| && l.normal != []
    ensures Devices(o, l.normal, l.devs[i..], h) == LoopsAt(o, l, Device(l, i), 0, h)
  {
    if i < |l.devs| {
      assert l.devs[i..][1..] == l.devs[i + 1..];
    }
  }

  /** One check, and then the rest from the next position on. */
  lemma LoopsStep(o: Oracle, l: Lists, p: Pos, maxPart: PartBound, h: seq<Call>)
    requires p.Local? && InLists(l, p)
    ensures var h' := h + [CallAt(l, p)];
            var p' := NextPos(l, p, o(h'));
            !p'.Global? && InLists(l, p') &&
            LoopsFrom(o, l, p, maxPart, h) ==
            LoopsAt(o, l, p', if p'.Local? && p'.i > p.i then 0 else o(h').maxPart, h')
  {
    var h', dev := h + [CallAt(l, p)], l.devs[p.i];
    var a := o(h');
    DevicesAt(o, l, p.i + 1, h');
    if !(a.ret.Ok? || a.ret.NoMoreDevices? || a.ret.NoMoreParts?) {
      assert Methods(o, l.normal, p.m, dev, p.part, maxPart, h) ==
             Methods(o, l.normal, p.m + 1, dev, p.part, a.maxPart, h');
      if p.m + 1 == |l.normal| {
        assert Methods(o, l.normal, p.m + 1, dev, p.part, a.maxPart, h') == Next(h', a.maxPart);
      }
    }
  }

  lemma LoopsGrow(o: Oracle, l: Lists, p: Pos, maxPart: PartBound, h: seq<Call>)
    requires !p.Global? && InLists(l, p)
    ensures var r := LoopsAt(o, l, p, maxPart, h); |h| <= |r| && r[..|h|] == h
  {
    if p.Local? {
      var f := Methods(o, l.normal, p.m, l.devs[p.i], p.part, maxPart, h);
      MethodsCalls(o, l.normal, p.m, l.devs[p.i], p.part, maxPart, h);
      if f.Leave? {
        Grown(o, l, p.i, h, f.calls);
      } else if f.Next? && p.part + 1 <= f.maxPart {
        var f' := Parts(o, l.normal, l.devs[p.i], p.part + 1, f.maxPart, f.calls);
        PartsCalls(o, l.normal, l.devs[p.i], p.part + 1, f.maxPart, f.calls);
        Prefix(h, f.calls, f'.calls);
        Grown(o, l, p.i, h, f'.calls);
      } else if f.Next? {
        Grown(o, l, p.i, h, f.calls);
      }
    }
  }

  lemma Prefix(a: seq<Call>, b: seq<Call>, c: seq<Call>)
    requires |a| <= |b| <= |c| && b[..|a|] == a && c[..|b|] == b
    ensures c[..|a|] == a
  {
    assert c[..|a|] == c[..|b|][..|a|];
  }

  lemma Grown(o: Oracle, l: Lists, i: nat, h: seq<Call>, h': seq<Call>)
    requires i < |l.devs| && |h| <= |h'| && h'[..|h|] == h
    ensures var r := Devices(o, l.normal, l.devs[i + 1..], h'); |h| <= |r| && r[..|h|] == h
  {
    DevicesCalls(o, l.normal, l.devs[i + 1..], h');
    Prefix(h, h', Devices(o, l.normal, l.devs[i + 1..], h'));
  }

  /** The nested loops make one check after the other, to the end. */
  lemma {:induction false} LoopsFollow(o: Oracle, l: Lists, p: Pos, maxPart: PartBound, h: seq<Call>)
    requires !p.Global? && InLists(l, p) && (p.Local? ==> p.part <= MAX_PART_PER_BOOTDEV)
    ensures var r := LoopsAt(o, l, p, maxPart, h); |h| <= |r| && Follows(o, l, r, |h|, p, Finished)
    decreases p.Local?, if p.Local? then |l.devs| - p.i else 0,
              if p.Local? then MAX_PART_PER_BOOTDEV - p.part else 0, if p.Local? then |l.normal| - p.m else 0
  {
    if p.Local? {
      var h' := h + [CallAt(l, p)];
      var p' := NextPos(l, p, o(h'));
      var maxPart' := if p'.Local? && p'.i > p.i then 0 else o(h').maxPart;
      LoopsStep(o, l, p, maxPart, h);
      LoopsGrow(o, l, p', maxPart', h');
      LoopsFollow(o, l, p', maxPart', h');
      FollowsOne(o, l, h, LoopsAt(o, l, p, maxPart, h), p, Finished);
    }
  }

  // -------------------------------------------------------------------------
  // The whole scan
  // -------------------------------------------------------------------------

  /** Where a scan starts. */
  function Begin(l: Lists, firstGlob: int): Pos {
    if 0 <= firstGlob < |l.meths| then Global(firstGlob) else Device(l, 0)
  }

  ghost function ListsOf(devs: seq<Dev>, meths: seq<nat>, firstGlob: int): Lists {
    Lists(meths, Normal(meths, firstGlob), DeviceOrder(devs))
  }

  /** The scan from a global method on, if all methods are started again at most `n`
      times. */
  ghost function RunFrom(
    o: Oracle, devs: seq<Dev>, meths: seq<nat>, firstGlob: int, g: nat, h: seq<Call>, n: nat): Outcome
  {
    Rounds(o, devs, meths, firstGlob, Globals(o, meths, g, h), n)
  }

  lemma RunFromGrow(o: Oracle, devs: seq<Dev>, meths: seq<nat>, firstGlob: int, g: nat, h: seq<Call>, n: nat)
    requires g < |meths|
    ensures var r, h' := RunFrom(o, devs, meths, firstGlob, g, h, n).calls, h + [GlobalCall(meths[g])];
            |h'| <= |r| && r[..|h'|] == h'
  {
    var f, h' := Globals(o, meths, g, h), h + [GlobalCall(meths[g])];
    GlobalsGrow(o, meths, g + 1, h');
    RoundsGrow(o, devs, meths, firstGlob, f, n);
    Prefix(h', f.calls, RunFrom(o, devs, meths, firstGlob, g, h, n).calls);
  }

  lemma RunFromStep(o: Oracle, devs: seq<Dev>, meths: seq<nat>, firstGlob: int, g: nat, h: seq<Call>, n: nat)
    requires g < |meths|
    ensures var h', ds := h + [GlobalCall(meths[g])], DeviceOrder(devs);
            RunFrom(o, devs, meths, firstGlob, g, h, n) ==
            match o(h').ret
            case Ok => Over(h')
            case NoMoreDevices => Over(h')
            case NoMoreParts =>
              if ds == [] then Over(h')
              else if n == 0 then Open(h')
              else RunFrom(o, devs, meths, firstGlob, 0, h', n - 1)
            case _ =>
              if g + 1 < |meths| then RunFrom(o, devs, meths, firstGlob, g + 1, h', n)
              else Over(Devices(o, Normal(meths, firstGlob), ds, h'))
  {
    var h' := h + [GlobalCall(meths[g])];
    if g + 1 == |meths| {
      assert Globals(o, meths, g + 1, h') == Next(h', 0);
    }
  }

  /** After the last global method come the devices. */
  lemma DevicesFollow(o: Oracle, l: Lists, h: seq<Call>)
    requires l.normal != []
    ensures var r := Devices(o, l.normal, l.devs, h); |h| <= |r| && Follows(o, l, r, |h|, Device(l, 0), Finished)
  {
    DevicesAt(o, l, 0, h);
    assert l.devs[0..] == l.devs;
    LoopsFollow(o, l, Device(l, 0), 0, h);
  }

  /** Where a scan is when it is over, or is about to start again. */
  function LastPos(r: Outcome): Pos {
    if r.Over? then Finished else Global(0)
  }

  lemma {:induction false} GlobalsFollow(o: Oracle, devs: seq<Dev>, meths: seq<nat>, firstGlob: int,
                                         g: nat, h: seq<Call>, n: nat)
    requires g < |meths|
    ensures var r := RunFrom(o, devs, meths, firstGlob, g, h, n);
            |h| <= |r.calls| && Follows(o, ListsOf(devs, meths, firstGlob), r.calls, |h|, Global(g), LastPos(r))
    decreases n, |meths| - g
  {
    var l, h' := ListsOf(devs, meths, firstGlob), h + [GlobalCall(meths[g])];
    var r, a := RunFrom(o, devs, meths, firstGlob, g, h, n), o(h');
    RunFromGrow(o, devs, meths, firstGlob, g, h, n);
    RunFromStep(o, devs, meths, firstGlob, g, h, n);
    if a.ret.Ok? || a.ret.NoMoreDevices? {
    } else if a.ret.NoMoreParts? {
      if l.devs != [] && n > 0 {
        GlobalsFollow(o, devs, meths, firstGlob, 0, h', n - 1);
      }
    } else if g + 1 < |meths| {
      GlobalsFollow(o, devs, meths, firstGlob, g + 1, h', n);
    } else {
      DevicesFollow(o, l, h');
    }
    FollowsOne(o, l, h, r.calls, Global(g), LastPos(r));
  }

  /** For every scan: its checks are exactly those that follow one another from its
      start, each place after the one before it as the answers say; it is over when
      there is no next place, and otherwise about to start all methods again. */
  lemma RunFollows(o: Oracle, devs: seq<Dev>, meths: seq<nat>, firstGlob: int, n: nat)
    requires meths != []
    ensures var l, r := ListsOf(devs, meths, firstGlob), Run(o, devs, meths, firstGlob, n);
            Follows(o, l, r.calls, 0, Begin(l, firstGlob), LastPos(r))
  {
    if 0 <= firstGlob < |meths| {
      GlobalsFollow(o, devs, meths, firstGlob, firstGlob, [], n);
    } else {
      DevicesFollow(o, ListsOf(devs, meths, firstGlob), []);
    }
  }
}
