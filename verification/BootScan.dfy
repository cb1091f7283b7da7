/** Scanning for bootflows as three nested loops: every device, every partition
    of it, every method on it. The reference for the resumable iterator. */
module BootScan {
  import opened Sequences
  import opened BootOrder

  const MAX_PART_PER_BOOTDEV: nat := 30

  type PartBound = n: nat | n <= MAX_PART_PER_BOOTDEV

  /** What a check returns: success, -ESHUTDOWN, -ENODEV, -ENOSYS or another
      error. */
  datatype Ret = Ok | NoMoreParts | NoMoreDevices | NoSys | Other(code: int)

  datatype Call = GlobalCall(meth: nat) | DevCall(dev: nat, part: nat, meth: nat)

  /** The result of a check and the highest partition number it leaves. */
  datatype Answer = Answer(ret: Ret, maxPart: PartBound)

  /** Checks are arbitrary: an answer may depend on all checks so far. */
  type Oracle = seq<Call> -> Answer

  /** How a loop ends: the whole scan is over, the device is given up, or the loop
      ran to its end. */
  datatype Flow = Halt(calls: seq<Call>) | Leave(calls: seq<Call>) | Next(calls: seq<Call>, maxPart: PartBound)

  function Methods(o: Oracle, meths: seq<nat>, m: nat, dev: nat, part: nat, maxPart: PartBound, h: seq<Call>): Flow
    decreases |meths| - m
  {
    if m >= |meths| then Next(h, maxPart)
    else
      var h' := h + [DevCall(dev, part, meths[m])];
      match o(h').ret
      case Ok => Halt(h')
      case NoMoreDevices => Halt(h')
      case NoMoreParts => Leave(h')
      case _ => Methods(o, meths, m + 1, dev, part, o(h').maxPart, h')
  }

  /** The bound on the partition number is read anew after every partition. */
  function Parts(o: Oracle, meths: seq<nat>, dev: nat, part: nat, maxPart: PartBound, h: seq<Call>): (f: Flow)
    ensures !f.Next?
    decreases MAX_PART_PER_BOOTDEV + 1 - part
  {
    if part > maxPart then Leave(h)
    else
      match Methods(o, meths, 0, dev, part, maxPart, h)
      case Halt(h') => Halt(h')
      case Leave(h') => Leave(h')
      case Next(h', maxPart') => Parts(o, meths, dev, part + 1, maxPart', h')
  }

  function Devices(o: Oracle, meths: seq<nat>, devs: seq<nat>, h: seq<Call>): seq<Call>
    decreases |devs|
  {
    if devs == [] then h
    else
      match Parts(o, meths, devs[0], 0, 0, h)
      case Halt(h') => h'
      case Leave(h') => Devices(o, meths, devs[1..], h')
  }

  /** The global methods, from number `g` on. */
  function Globals(o: Oracle, meths: seq<nat>, g: nat, h: seq<Call>): Flow
    decreases |meths| - g
  {
    if g >= |meths| then Next(h, 0)
    else
      var h' := h + [GlobalCall(meths[g])];
      match o(h').ret
      case Ok => Halt(h')
      case NoMoreDevices => Halt(h')
      case NoMoreParts => Leave(h')
      case _ => Globals(o, meths, g + 1, h')
  }

  /** All checks of the scan that is meant: the global methods once, then the nested
      loops. */
  function Scan(o: Oracle, devs: seq<Dev>, meths: seq<nat>, firstGlob: int): seq<Call> {
    var normal := Normal(meths, firstGlob);
    if 0 <= firstGlob < |meths| then
      match Globals(o, meths, firstGlob, [])
      case Halt(h) => h
      case Leave(h) => Devices(o, normal, DeviceOrder(devs), h)
      case Next(h, _) => Devices(o, normal, DeviceOrder(devs), h)
    else Devices(o, normal, DeviceOrder(devs), [])
  }

  /** The methods that are used on devices. If all are global, that is the first. */
  function Normal(meths: seq<nat>, firstGlob: int): seq<nat> {
    if firstGlob == 0 < |meths| then meths[..1]
    else if 0 < firstGlob < |meths| then meths[..firstGlob]
    else meths
  }

  // -------------------------------------------------------------------------
  // The scan that is made
  // -------------------------------------------------------------------------

  /** A scan that is over, or one that is about to start all methods again. */
  datatype Outcome = Over(calls: seq<Call>) | Open(calls: seq<Call>)

  /** The scan after a pass over the global methods. A global method that returns
      -ESHUTDOWN makes it start again with the first method of all, used as a
      global one, if there is a device; this is followed up to `n` times. */
  function Rounds(o: Oracle, devs: seq<Dev>, meths: seq<nat>, firstGlob: int, f: Flow, n: nat): Outcome
    decreases n
  {
    match f
    case Halt(h) => Over(h)
    case Next(h, _) => Over(Devices(o, Normal(meths, firstGlob), DeviceOrder(devs), h))
    case Leave(h) =>
      if DeviceOrder(devs) == [] then Over(h)
      else if n == 0 then Open(h)
      else Rounds(o, devs, meths, firstGlob, Globals(o, meths, 0, h), n - 1)
  }

  /** All checks of the scan, if it starts again at most `n` times. */
  function Run(o: Oracle, devs: seq<Dev>, meths: seq<nat>, firstGlob: int, n: nat): Outcome {
    if 0 <= firstGlob < |meths| then Rounds(o, devs, meths, firstGlob, Globals(o, meths, firstGlob, []), n)
    else Over(Devices(o, Normal(meths, firstGlob), DeviceOrder(devs), []))
  }

  /** A larger bound changes nothing once the scan is over. */
  lemma {:induction false} OverStays(o: Oracle, devs: seq<Dev>, meths: seq<nat>, firstGlob: int, f: Flow,
                                     n: nat, n': nat)
    requires Rounds(o, devs, meths, firstGlob, f, n).Over? && n <= n'
    ensures Rounds(o, devs, meths, firstGlob, f, n') == Rounds(o, devs, meths, firstGlob, f, n)
    decreases n
  {
    if f.Leave? && DeviceOrder(devs) != [] {
      OverStays(o, devs, meths, firstGlob, Globals(o, meths, 0, f.calls), n - 1, n' - 1);
    }
  }

  /** `h'` goes on from `h` with check `c`. */
  ghost predicate GoesOnWith(h: seq<Call>, h': seq<Call>, c: Call) {
    |h| < |h'| && h'[..|h|] == h && h'[|h|] == c
  }

  lemma GoesOnFurther(h: seq<Call>, h': seq<Call>, h'': seq<Call>, c: Call)
    requires GoesOnWith(h, h', c) && |h'| <= |h''| && h''[..|h'|] == h'
    ensures GoesOnWith(h, h'', c)
  {
    assert h''[..|h|] == h''[..|h'|][..|h|];
    assert h''[|h|] == h''[..|h'|][|h|];
  }

  lemma {:induction false} GlobalsGrow(o: Oracle, meths: seq<nat>, g: nat, h: seq<Call>)
    ensures var h' := Globals(o, meths, g, h).calls; |h| <= |h'| && h'[..|h|] == h
    ensures g < |meths| ==> GoesOnWith(h, Globals(o, meths, g, h).calls, GlobalCall(meths[g]))
    decreases |meths| - g
  {
    if g < |meths| {
      var h1 := h + [GlobalCall(meths[g])];
      GlobalsGrow(o, meths, g + 1, h1);
      if Globals(o, meths, g, h).calls != h1 {
        GoesOnFurther(h, h1, Globals(o, meths, g, h).calls, GlobalCall(meths[g]));
      }
    }
  }

  lemma {:induction false} RoundsGrow(o: Oracle, devs: seq<Dev>, meths: seq<nat>, firstGlob: int, f: Flow, n: nat)
    ensures var h' := Rounds(o, devs, meths, firstGlob, f, n).calls; |f.calls| <= |h'| && h'[..|f.calls|] == f.calls
    decreases n
  {
    if f.Next? {
      DevicesCalls(o, Normal(meths, firstGlob), DeviceOrder(devs), f.calls);
    } else if f.Leave? && DeviceOrder(devs) != [] && n > 0 {
      var f', h' := Globals(o, meths, 0, f.calls), Rounds(o, devs, meths, firstGlob, f, n).calls;
      GlobalsGrow(o, meths, 0, f.calls);
      RoundsGrow(o, devs, meths, firstGlob, f', n - 1);
      assert h'[..|f.calls|] == h'[..|f'.calls|][..|f.calls|];
    }
  }

  /** The first check of the loops over devices is one on the first device. */
  lemma DevicesFirst(o: Oracle, meths: seq<nat>, devs: seq<nat>, h: seq<Call>)
    requires meths != [] && devs != []
    ensures GoesOnWith(h, Devices(o, meths, devs, h), DevCall(devs[0], 0, meths[0]))
  {
    var c := DevCall(devs[0], 0, meths[0]);
    var h1, f := h + [c], Methods(o, meths, 0, devs[0], 0, 0, h);
    assert GoesOnWith(h, h1, c);
    if f.calls != h1 {
      MethodsCalls(o, meths, 1, devs[0], 0, o(h1).maxPart, h1);
      GoesOnFurther(h, h1, f.calls, c);
    }
    var g := Parts(o, meths, devs[0], 0, 0, h);
    if f.Next? {
      PartsCalls(o, meths, devs[0], 1, f.maxPart, f.calls);
      GoesOnFurther(h, f.calls, g.calls, c);
    }
    if g.Leave? {
      DevicesCalls(o, meths, devs[1..], g.calls);
      GoesOnFurther(h, g.calls, Devices(o, meths, devs, h), c);
    }
  }

  /** The scan that is made is the one that is meant exactly when there is no device
      or the global methods are not left with -ESHUTDOWN. */
  lemma RunIsScanExactly(o: Oracle, devs: seq<Dev>, meths: seq<nat>, firstGlob: nat, n: nat)
    requires firstGlob < |meths|
    ensures Run(o, devs, meths, firstGlob, n) == Over(Scan(o, devs, meths, firstGlob))
       <==> DeviceOrder(devs) == [] || !Globals(o, meths, firstGlob, []).Leave?
  {
    var f, ds := Globals(o, meths, firstGlob, []), DeviceOrder(devs);
    if ds != [] && f.Leave? && n > 0 {
      var made, meant := Run(o, devs, meths, firstGlob, n).calls, Scan(o, devs, meths, firstGlob);
      var f' := Globals(o, meths, 0, f.calls);
      GlobalsGrow(o, meths, 0, f.calls);
      RoundsGrow(o, devs, meths, firstGlob, f', n - 1);
      GoesOnFurther(f.calls, f'.calls, made, GlobalCall(meths[0]));
      DevicesFirst(o, Normal(meths, firstGlob), ds, f.calls);
      assert made[|f.calls|] != meant[|f.calls|];
    }
  }

  /** Every check of a global method returns -ESHUTDOWN. */
  ghost predicate GlobalsLeave(o: Oracle) {
    forall h: seq<Call> :: h != [] && h[|h| - 1].GlobalCall? ==> o(h).ret == NoMoreParts
  }

  lemma {:induction false} RoundsNeverEnd(o: Oracle, devs: seq<Dev>, meths: seq<nat>, firstGlob: int,
                                          h: seq<Call>, n: nat)
    requires GlobalsLeave(o) && DeviceOrder(devs) != [] && meths != []
    ensures var r := Rounds(o, devs, meths, firstGlob, Leave(h), n); r.Open? && |r.calls| == |h| + n
    decreases n
  {
    if n > 0 {
      var h' := h + [GlobalCall(meths[0])];
      assert h'[|h'| - 1].GlobalCall?;
      RoundsNeverEnd(o, devs, meths, firstGlob, h', n - 1);
    }
  }

  /** With a device and a global method, and no global check that returns anything
      else than -ESHUTDOWN, the scan never ends. */
  lemma NeverEnds(o: Oracle, devs: seq<Dev>, meths: seq<nat>, firstGlob: nat, n: nat)
    requires firstGlob < |meths| && GlobalsLeave(o) && DeviceOrder(devs) != []
    ensures var r := Run(o, devs, meths, firstGlob, n); r.Open? && |r.calls| == n + 1
  {
    var h := [GlobalCall(meths[firstGlob])];
    assert [] + h == h && h[|h| - 1].GlobalCall?;
    RoundsNeverEnd(o, devs, meths, firstGlob, h, n);
  }

  // -------------------------------------------------------------------------
  // What a scan looks like
  // -------------------------------------------------------------------------

  /** `h'` is `h` and then at most `n` checks on devices, with these methods. */
  ghost predicate MoreDevCalls(h: seq<Call>, h': seq<Call>, meths: seq<nat>, n: int) {
    && |h| <= |h'| <= |h| + n && h'[..|h|] == h
    && forall k :: |h| <= k < |h'| ==> h'[k].DevCall? && h'[k].meth in meths
  }

  lemma MoreThenMore(h: seq<Call>, h': seq<Call>, h'': seq<Call>, meths: seq<nat>, m: int, n: int)
    requires MoreDevCalls(h, h', meths, m) && MoreDevCalls(h', h'', meths, n)
    ensures MoreDevCalls(h, h'', meths, m + n)
  {
    assert h''[..|h|] == h''[..|h'|][..|h|];
    forall k | |h| <= k < |h''| ensures h''[k].DevCall? && h''[k].meth in meths {
      assert k < |h'| ==> h''[k] == h''[..|h'|][k];
    }
  }

  lemma {:induction false} MethodsCalls(o: Oracle, meths: seq<nat>, m: nat, dev: nat, part: nat,
                                        maxPart: PartBound, h: seq<Call>)
    requires m <= |meths|
    ensures MoreDevCalls(h, Methods(o, meths, m, dev, part, maxPart, h).calls, meths, |meths| - m)
    decreases |meths| - m
  {
    if m < |meths| {
      var h' := h + [DevCall(dev, part, meths[m])];
      assert MoreDevCalls(h, h', meths, 1);
      if Methods(o, meths, m, dev, part, maxPart, h).calls != h' {
        MethodsCalls(o, meths, m + 1, dev, part, o(h').maxPart, h');
        MoreThenMore(h, h', Methods(o, meths, m, dev, part, maxPart, h).calls, meths, 1, |meths| - m - 1);
      }
    }
  }

  lemma OneMore(k: nat, n: nat)
    ensures (k + 1) * n == n + k * n && 0 <= k * n
  {
  }

  /** At most 31 partitions, and at most one check per method on each. */
  lemma {:induction false} PartsCalls(o: Oracle, meths: seq<nat>, dev: nat, part: nat, maxPart: PartBound, h: seq<Call>)
    requires part <= MAX_PART_PER_BOOTDEV + 1
    ensures MoreDevCalls(h, Parts(o, meths, dev, part, maxPart, h).calls, meths,
                         (MAX_PART_PER_BOOTDEV + 1 - part) * |meths|)
    decreases MAX_PART_PER_BOOTDEV + 1 - part
  {
    if part <= maxPart {
      var f, left := Methods(o, meths, 0, dev, part, maxPart, h), MAX_PART_PER_BOOTDEV - part;
      MethodsCalls(o, meths, 0, dev, part, maxPart, h);
      OneMore(left, |meths|);
      if f.Next? {
        PartsCalls(o, meths, dev, part + 1, f.maxPart, f.calls);
        MoreThenMore(h, f.calls, Parts(o, meths, dev, part, maxPart, h).calls, meths, |meths|, left * |meths|);
      }
    }
  }

  lemma {:induction false} DevicesCalls(o: Oracle, meths: seq<nat>, devs: seq<nat>, h: seq<Call>)
    ensures MoreDevCalls(h, Devices(o, meths, devs, h), meths, |devs| * (31 * |meths|))
    decreases |devs|
  {
    if devs != [] {
      var f, each := Parts(o, meths, devs[0], 0, 0, h), 31 * |meths|;
      PartsCalls(o, meths, devs[0], 0, 0, h);
      OneMore(|devs| - 1, each);
      if f.Leave? {
        DevicesCalls(o, meths, devs[1..], f.calls);
        MoreThenMore(h, f.calls, Devices(o, meths, devs, h), meths, each, (|devs| - 1) * each);
      }
    }
  }

  /** One check of each global method, in order. */
  function GlobalCalls(meths: seq<nat>, g: nat): (r: seq<Call>)
    requires g <= |meths|
    ensures |r| == |meths| - g && forall k :: 0 <= k < |r| ==> r[k] == GlobalCall(meths[g + k])
    decreases |meths| - g
  {
    if g == |meths| then [] else [GlobalCall(meths[g])] + GlobalCalls(meths, g + 1)
  }

  lemma {:induction false} GlobalsInOrder(o: Oracle, meths: seq<nat>, g: nat, h: seq<Call>)
    requires g <= |meths| && Globals(o, meths, g, h).Next?
    ensures Globals(o, meths, g, h) == Next(h + GlobalCalls(meths, g), 0)
    decreases |meths| - g
  {
    if g == |meths| {
      assert h + [] == h;
    } else {
      GlobalsInOrder(o, meths, g + 1, h + [GlobalCall(meths[g])]);
      Regroup(h, [GlobalCall(meths[g])], GlobalCalls(meths, g + 1));
    }
  }

  /** If no global method ends or restarts the scan, the checks start with one of each
      global method, in order. Then come checks on devices with the methods for
      devices, at most 31 for each method on each device. */
  lemma ScanShape(o: Oracle, devs: seq<Dev>, meths: seq<nat>, firstGlob: nat, n: nat)
    requires firstGlob < |meths| && Globals(o, meths, firstGlob, []).Next?
    ensures var r, normal := Run(o, devs, meths, firstGlob, n), Normal(meths, firstGlob);
            && r == Over(Devices(o, normal, DeviceOrder(devs), GlobalCalls(meths, firstGlob)))
            && MoreDevCalls(GlobalCalls(meths, firstGlob), r.calls, normal, |DeviceOrder(devs)| * (31 * |normal|))
  {
    GlobalsInOrder(o, meths, firstGlob, []);
    assert [] + GlobalCalls(meths, firstGlob) == GlobalCalls(meths, firstGlob);
    DevicesCalls(o, Normal(meths, firstGlob), DeviceOrder(devs), GlobalCalls(meths, firstGlob));
  }

  ghost predicate NoRepeats(meths: seq<nat>) {
    forall j, k :: 0 <= j < k < |meths| ==> meths[j] != meths[k]
  }

  /** Check number `g - firstGlob` is the only one that uses global method number `g`. */
  ghost predicate GlobalsOnce(calls: seq<Call>, meths: seq<nat>, firstGlob: nat) {
    && |calls| >= |meths| - firstGlob
    && forall k, g :: 0 <= k < |calls| && firstGlob <= g < |meths| ==>
         (calls[k].meth == meths[g] <==> k == g - firstGlob)
  }

  /** A global method is not one of the methods for devices. */
  lemma NormalNotGlobal(meths: seq<nat>, firstGlob: nat, g: nat)
    requires NoRepeats(meths) && 0 < firstGlob <= g < |meths|
    ensures meths[g] !in Normal(meths, firstGlob)
  {
  }

  /** If all methods are global, the first is used again on the first device. */
  lemma FirstGlobalAgain(o: Oracle, devs: seq<Dev>, meths: seq<nat>, n: nat)
    requires meths != [] && Globals(o, meths, 0, []).Next? && DeviceOrder(devs) != []
    ensures var r := Run(o, devs, meths, 0, n);
            && |r.calls| > |meths| && r.calls[0] == GlobalCall(meths[0])
            && r.calls[|meths|] == DevCall(DeviceOrder(devs)[0], 0, meths[0])
  {
    ScanShape(o, devs, meths, 0, n);
    var calls := Run(o, devs, meths, 0, n).calls;
    DevicesFirst(o, Normal(meths, 0), DeviceOrder(devs), GlobalCalls(meths, 0));
    assert calls[0] == calls[..|meths|][0];
  }

  /** If no global method ends or restarts the scan, each of them is checked exactly
      once, before any device and never again, exactly when there is a normal method
      or no device. */
  lemma GlobalsOnceExactly(o: Oracle, devs: seq<Dev>, meths: seq<nat>, firstGlob: nat, n: nat)
    requires firstGlob < |meths| && NoRepeats(meths) && Globals(o, meths, firstGlob, []).Next?
    ensures GlobalsOnce(Run(o, devs, meths, firstGlob, n).calls, meths, firstGlob)
       <==> firstGlob > 0 || DeviceOrder(devs) == []
  {
    var calls, first := Run(o, devs, meths, firstGlob, n).calls, GlobalCalls(meths, firstGlob);
    ScanShape(o, devs, meths, firstGlob, n);
    if firstGlob == 0 && DeviceOrder(devs) != [] {
      FirstGlobalAgain(o, devs, meths, n);
      assert calls[|meths|].meth == meths[0];
    } else {
      forall k, g | 0 <= k < |calls| && firstGlob <= g < |meths|
        ensures calls[k].meth == meths[g] <==> k == g - firstGlob
      {
        if k < |first| {
          assert calls[k] == calls[..|first|][k] == GlobalCall(meths[firstGlob + k]);
        } else {
          NormalNotGlobal(meths, firstGlob, g);
        }
      }
    }
  }

  // -------------------------------------------------------------------------
  // Checks without a memory
  // -------------------------------------------------------------------------

  /** What a check returns does not depend on the checks before it. */
  ghost predicate Memoryless(o: Oracle) {
    forall h, h', c :: o(h + [c]).ret == o(h' + [c]).ret
  }

  lemma {:induction false} SamePass(o: Oracle, meths: seq<nat>, g: nat, h: seq<Call>, h': seq<Call>)
    requires Memoryless(o)
    ensures Globals(o, meths, g, h).Leave? <==> Globals(o, meths, g, h').Leave?
    decreases |meths| - g
  {
    if g < |meths| {
      var c := GlobalCall(meths[g]);
      assert o(h + [c]).ret == o(h' + [c]).ret;
      SamePass(o, meths, g + 1, h + [c], h' + [c]);
    }
  }

  lemma {:induction false} RoundsStayOpen(o: Oracle, devs: seq<Dev>, meths: seq<nat>, firstGlob: int, f: Flow, n: nat)
    requires Memoryless(o) && DeviceOrder(devs) != [] && f.Leave? && Globals(o, meths, 0, []).Leave?
    ensures Rounds(o, devs, meths, firstGlob, f, n).Open?
    decreases n
  {
    if n > 0 {
      SamePass(o, meths, 0, f.calls, []);
      RoundsStayOpen(o, devs, meths, firstGlob, Globals(o, meths, 0, f.calls), n - 1);
    }
  }

  /** Such a scan never ends exactly when there is a device and -ESHUTDOWN leaves both
      the pass over the global methods and the pass over all methods. */
  lemma NeverEndsExactly(o: Oracle, devs: seq<Dev>, meths: seq<nat>, firstGlob: nat)
    requires firstGlob < |meths| && Memoryless(o)
    ensures (forall n: nat :: Run(o, devs, meths, firstGlob, n).Open?) <==>
            DeviceOrder(devs) != [] && Globals(o, meths, firstGlob, []).Leave? && Globals(o, meths, 0, []).Leave?
  {
    var f := Globals(o, meths, firstGlob, []);
    if DeviceOrder(devs) != [] && f.Leave? {
      SamePass(o, meths, 0, f.calls, []);
      if Globals(o, meths, 0, []).Leave? {
        forall n: nat ensures Run(o, devs, meths, firstGlob, n).Open? {
          RoundsStayOpen(o, devs, meths, firstGlob, f, n);
        }
      } else {
        assert Run(o, devs, meths, firstGlob, 1).Over?;
      }
    } else {
      assert Run(o, devs, meths, firstGlob, 0).Over?;
    }
  }
}
