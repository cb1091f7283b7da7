/** The bootflow iterator: a state machine that can stop after every check, and
    makes the checks of the nested loops, for as long as they go on. */
module BootIter {
  import opened BootOrder
  import opened BootScan

  class Iter {
    const o: Oracle
    const devs: seq<Dev>
    const order: seq<nat>
    const firstGlob: int
    var dev: int
    var part: nat
    var curMethod: nat
    var maxPart: PartBound
    var err: Ret
    var curPrio: nat
    var doingGlobal: bool
    var numMethods: nat
    var calls: seq<Call>

    ghost function Normals(): seq<nat> {
      Normal(order, firstGlob)
    }

    /** The methods used where the iterator is. */
    ghost function Meths(): seq<nat>
      reads this`doingGlobal
    {
      if doingGlobal then order else Normals()
    }

    /** Ready for a check. */
    ghost predicate Valid()
      reads this`dev, this`part, this`curMethod, this`maxPart, this`curPrio, this`doingGlobal, this`numMethods
    {
      && order != [] && curMethod < |Meths()| && curPrio < BOOTDEVP_COUNT && -1 <= dev < |devs|
      && if doingGlobal then
           && 0 <= firstGlob < |order| && numMethods == |order| && part == 0 && maxPart == 0
           && Listing(devs, curPrio, 0) == DeviceOrder(devs)
         else
           && 0 <= dev && part <= MAX_PART_PER_BOOTDEV
           && numMethods == if 0 <= firstGlob < |order| then firstGlob else |order|
    }

    /** A check was made here. */
    ghost predicate Checked()
      reads this`dev, this`part, this`curMethod, this`maxPart, this`curPrio, this`doingGlobal, this`numMethods
    {
      Valid() && (doingGlobal ==> dev == -1)
    }

    /** The devices after the current one. */
    ghost function Rest(): seq<nat>
      reads this`dev, this`curPrio
      requires -1 <= dev < |devs| && curPrio < BOOTDEVP_COUNT
    {
      Listing(devs, curPrio, dev + 1)
    }

    /** The rest of the nested loops, once the loop over the methods on the
        current device and partition ended with `f`. */
    ghost function FinishDev(f: Flow): seq<Call>
      reads this`dev, this`part, this`curPrio
      requires 0 <= dev < |devs| && curPrio < BOOTDEVP_COUNT
    {
      match f
      case Halt(h) => h
      case Leave(h) => Devices(o, Normals(), Rest(), h)
      case Next(h, mp) =>
        match Parts(o, Normals(), dev, part + 1, mp, h)
        case Halt(h') => h'
        case Leave(h') => Devices(o, Normals(), Rest(), h')
    }

    ghost function FinishGlobal(f: Flow, n: nat): Outcome {
      Rounds(o, devs, order, firstGlob, f, n)
    }

    /** All checks of the scan, from where it is about to use method number `m` at
        the current position, if all methods are started again at most `n` times. */
    ghost function From(m: nat, n: nat): Outcome
      reads this`dev, this`part, this`curMethod, this`maxPart, this`curPrio, this`doingGlobal, this`numMethods,
            this`calls
      requires Valid()
    {
      if doingGlobal then FinishGlobal(Globals(o, order, m, calls), n)
      else Over(FinishDev(Methods(o, Normals(), m, dev, part, maxPart, calls)))
    }

    /** All checks of the scan, when the last check returned `e`. */
    ghost function After(e: Ret, n: nat): Outcome
      reads this`dev, this`part, this`curMethod, this`maxPart, this`curPrio, this`doingGlobal, this`numMethods,
            this`calls
      requires Valid()
    {
      match e
      case NoMoreDevices => Over(calls)
      case NoMoreParts =>
        if doingGlobal then FinishGlobal(Leave(calls), n) else Over(Devices(o, Normals(), Rest(), calls))
      case _ => From(curMethod + 1, n)
    }

    /** Works towards the end: what is left to do gets smaller. */
    ghost function Left(): (int, int, int, int)
      reads this`dev, this`part, this`curMethod, this`maxPart, this`curPrio, this`doingGlobal, this`numMethods
      requires Valid()
    {
      (if doingGlobal then 1 else 0, if doingGlobal then 0 else |Rest()|, MAX_PART_PER_BOOTDEV - part,
       |Meths()| - curMethod)
    }

    /** bootflow_check(): one check at the current position. It either ends the
        scan with a success or leaves the rest of the scan to do. */
    method Check() returns (ret: Ret)
      requires Valid()
      modifies this`calls, this`maxPart, this`dev
      ensures Checked() && Left() == old(Left())
      ensures calls == old(calls) + [if doingGlobal then GlobalCall(order[curMethod])
                                     else DevCall(dev, part, order[curMethod])]
      ensures dev == if doingGlobal then -1 else old(dev)
      ensures ret == o(calls).ret
      ensures ret == Ok ==> forall n: nat :: old(From(curMethod, n)) == Over(calls)
      ensures ret != Ok ==> forall n: nat :: After(ret, n) == old(From(curMethod, n))
    {
      if doingGlobal {
        dev := -1;
        calls := calls + [GlobalCall(order[curMethod])];
        return o(calls).ret;
      }
      calls := calls + [DevCall(dev, part, order[curMethod])];
      maxPart := o(calls).maxPart;
      return o(calls).ret;
    }

    /** Moves to the next device after number `from`, at its first partition and
        the first method. */
    method NextDevice(from: int) returns (more: bool)
      requires -1 <= from < |devs| && curPrio < BOOTDEVP_COUNT && order != []
      requires !doingGlobal && curMethod == 0
      requires numMethods == if 0 <= firstGlob < |order| then firstGlob else |order|
      modifies this`dev, this`curPrio, this`part, this`maxPart
      ensures more <==> old(Listing(devs, curPrio, from + 1)) != []
      ensures more ==>
                && Valid() && |Rest()| < |old(Listing(devs, curPrio, from + 1))|
                && FinishDev(Methods(o, Normals(), 0, dev, part, maxPart, calls))
                   == Devices(o, Normals(), old(Listing(devs, curPrio, from + 1)), calls)
    {
      part, maxPart := 0, 0;
      ghost var ds := Listing(devs, curPrio, from + 1);
      var found, d, prio := NextPrio(devs, from, curPrio);
      dev, curPrio := d, prio;
      if found {
        assert ds[1..] == Rest();
      }
      return found;
    }

    /** Starts the normal methods after the last global one. */
    method StartDevices() returns (more: bool)
      requires Valid() && doingGlobal && curMethod + 1 == |order|
      modifies this
      ensures calls == old(calls) && err == old(err)
      ensures !more ==> forall n: nat :: old(From(|Meths()|, n)) == Over(calls)
      ensures more ==> Valid() && !doingGlobal && curMethod == 0
      ensures more ==> forall n: nat :: From(0, n) == old(From(|Meths()|, n))
    {
      numMethods := firstGlob;
      doingGlobal := false;
      curMethod := 0;
      more := NextDevice(-1);
    }

    /** Moves to the next partition, or the next device. */
    method NextPart() returns (more: bool)
      requires Valid() && !doingGlobal && curMethod + 1 == |Normals()|
      modifies this`curMethod, this`dev, this`curPrio, this`part, this`maxPart
      ensures !more ==> forall n: nat :: old(From(|Meths()|, n)) == Over(calls)
      ensures more ==> Valid() && curMethod == 0 && Less(Left(), old(Left()))
      ensures more ==> forall n: nat :: From(0, n) == old(From(|Meths()|, n))
    {
      ghost var f := Methods(o, Normals(), |Normals()|, dev, part, maxPart, calls);
      assert f == Next(calls, maxPart) && forall n: nat :: From(|Meths()|, n) == Over(FinishDev(f));
      curMethod := 0;
      part := part + 1;
      if part <= maxPart {
        return true;
      }
      more := NextDevice(dev);
    }

    /** What is left to do got smaller. */
    static ghost predicate Less(a: (int, int, int, int), b: (int, int, int, int)) {
      a.0 < b.0 || (a.0 == b.0 && (a.1 < b.1 || (a.1 == b.1 && (a.2 < b.2 || (a.2 == b.2 && a.3 < b.3)))))
    }

    /** A global method that returns -ESHUTDOWN makes the iterator start again with
        the first method of all, still as a global one. */
    method RestartGlobals() returns (more: bool)
      requires Checked() && doingGlobal
      modifies this`curMethod, this`dev, this`curPrio, this`part, this`maxPart
      ensures more <==> DeviceOrder(devs) != []
      ensures more ==> Valid() && curMethod == 0
      ensures more ==> forall n: nat :: From(0, n) == old(After(NoMoreParts, n + 1))
    {
      curMethod, part, maxPart := 0, 0, 0;
      var d, prio;
      more, d, prio := NextPrio(devs, dev, curPrio);
      dev, curPrio := d, prio;
    }

    /** The last check was a global one that makes the iterator start again. */
    ghost predicate Restarts()
      reads this`doingGlobal, this`err
    {
      doingGlobal && err == NoMoreParts
    }

    /** All checks of the scan, when moving on is one of the times it starts again. */
    ghost function Onwards(n: nat): Outcome
      reads this`dev, this`part, this`curMethod, this`maxPart, this`curPrio, this`doingGlobal, this`numMethods,
            this`calls, this`err
      requires Valid()
    {
      After(err, if Restarts() then n + 1 else n)
    }

    /** iter_incr(): moves to the next method, partition or device, or reports that
        there is none. */
    method Incr() returns (more: bool)
      requires Checked()
      modifies this
      ensures calls == old(calls) && err == old(err)
      ensures !more ==> forall n: nat :: old(After(err, n)) == Over(calls)
      ensures more ==> Valid() && if old(Restarts()) then DeviceOrder(devs) != [] else Less(Left(), old(Left()))
      ensures more ==> forall n: nat :: From(curMethod, n) == old(Onwards(n))
    {
      if err == NoMoreDevices {
        return false;
      }
      if err == NoMoreParts && doingGlobal {
        more := RestartGlobals();
      } else if err == NoMoreParts {
        curMethod := 0;
        more := NextDevice(dev);
      } else if curMethod + 1 < numMethods {
        curMethod := curMethod + 1;
        more := true;
      } else if doingGlobal {
        more := StartDevices();
      } else {
        more := NextPart();
      }
    }

    /** One turn of the loop in bootflow_scan_next(): moves on and makes a check. */
    method Turn() returns (ret: Ret, more: bool)
      requires Checked()
      modifies this
      ensures !more ==> ret == NoMoreDevices && calls == old(calls)
      ensures more ==> Checked() && |calls| == |old(calls)| + 1
      ensures more && ret != Ok ==> err == ret
      ensures more ==> if old(Restarts()) then DeviceOrder(devs) != [] else Less(Left(), old(Left()))
      ensures !more ==> forall n: nat :: old(After(err, n)) == Over(calls)
      ensures more && ret == Ok ==> forall n: nat :: old(Onwards(n)) == Over(calls)
      ensures more && ret != Ok ==> forall n: nat :: After(err, n) == old(Onwards(n))
    {
      more := Incr();
      if !more {
        return NoMoreDevices, false;
      }
      ret := Check();
      if ret != Ok {
        err := ret;
      }
    }

    /** bootflow_scan_next(): goes on after a check that failed, up to a success or
        the end, or only to the next error if `all` is set. Wherever it stops, the
        checks made and those left to make are those of the scan, provided that the
        scan ends after starting all methods again at most `n` times. */
    method ScanNext(all: bool, ghost n: nat) returns (ret: Ret, ghost left: nat)
      requires Checked() && After(err, n).Over?
      modifies this
      ensures ret == Ok ==> Checked()
      ensures ret == Ok || ret == NoMoreDevices ==> old(After(err, n)) == Over(calls)
      ensures !(ret == Ok || ret == NoMoreDevices) ==>
                all && Checked() && err == ret && After(err, left) == old(After(err, n))
    {
      left := n;
      while true
        invariant Checked() && After(err, left).Over? && After(err, left) == old(After(err, n))
        decreases left, Left().0, Left().1, Left().2, Left().3
      {
        ghost var next: nat := if Restarts() && left > 0 then left - 1 else left;
        var more;
        label Before: ret, more := Turn();
        if !more {
          assert old@Before(After(err, left)) == Over(calls);
          return;
        }
        assert old@Before(Onwards(next)) == old@Before(After(err, left));
        left := next;
        if ret == Ok {
          return;
        }
        if ret != NoMoreParts && ret != NoSys && all {
          return;
        }
      }
    }

    /** bootflow_iter_init() and the order of the methods. */
    constructor (o: Oracle, devs: seq<Dev>, order: seq<nat>, firstGlob: int)
      ensures this.o == o && this.devs == devs && this.order == order && this.firstGlob == firstGlob
      ensures Initial()
    {
      this.o, this.devs, this.order, this.firstGlob := o, devs, order, firstGlob;
      dev, part, maxPart, err, curPrio, numMethods, calls := -1, 0, 0, Ok, 0, |order|, [];
      doingGlobal := 0 <= firstGlob < |order|;
      curMethod := if 0 <= firstGlob < |order| then firstGlob else 0;
    }

    ghost predicate Initial()
      reads this
    {
      && dev == -1 && part == 0 && maxPart == 0 && err == Ok && curPrio == 0 && numMethods == |order| && calls == []
      && doingGlobal == (0 <= firstGlob < |order|)
      && curMethod == if doingGlobal then firstGlob else 0
    }

    /** Goes to the first global method or, without any, the first device, and makes
        the first check. The result is not yet remembered. */
    method Begin() returns (ret: Ret, more: bool)
      requires Initial() && order != []
      modifies this
      ensures err == Ok
      ensures !more ==> ret == NoMoreDevices && calls == []
      ensures more ==> Checked() && |calls| == 1
      ensures !more || ret == Ok ==> forall n: nat :: Run(o, devs, order, firstGlob, n) == Over(calls)
      ensures more && ret != Ok ==> forall n: nat :: After(ret, n) == Run(o, devs, order, firstGlob, n)
    {
      more := true;
      if !doingGlobal {
        more := NextDevice(-1);
        if !more {
          return NoMoreDevices, false;
        }
      }
      assert forall n: nat :: From(curMethod, n) == Run(o, devs, order, firstGlob, n);
      ret := Check();
    }

    /** bootflow_scan_first(): for every list of devices, order of methods and
        outcomes of the checks, the checks made and those left to make are those of
        the scan. It ends if the scan starts all methods again at most `n` times. */
    method ScanFirst(all: bool, ghost n: nat) returns (ret: Ret, ghost left: nat)
      requires Initial() && order != [] && Run(o, devs, order, firstGlob, n).Over?
      modifies this
      ensures ret == Ok || ret == NoMoreDevices ==> Run(o, devs, order, firstGlob, n) == Over(calls)
      ensures !(ret == Ok || ret == NoMoreDevices) ==>
                all && Checked() && After(err, left) == Run(o, devs, order, firstGlob, n)
    {
      var more;
      left := n;
      ret, more := Begin();
      if !more || ret == Ok {
        return;
      }
      assert After(ret, n) == Run(o, devs, order, firstGlob, n);
      if ret != NoMoreParts && ret != NoSys && all {
        assert ret.Other? ==> After(err, n) == After(ret, n);
        return;
      }
      err := ret;
      ret, left := ScanNext(all, n);
    }

    /** The iterator is where the scan is after it has started again `used` times. */
    ghost predicate Follows(used: nat)
      reads this
      requires Valid()
    {
      forall n: nat :: After(err, n) == Run(o, devs, order, firstGlob, n + used)
    }

    /** A turn of any scan. */
    method FollowTurn(ghost used: nat) returns (over: bool, ghost used': nat)
      requires Checked() && Follows(used)
      modifies this
      ensures over ==> exists n: nat :: Run(o, devs, order, firstGlob, n) == Over(calls)
      ensures !over ==> Checked() && Follows(used') && |calls| == |old(calls)| + 1
    {
      used' := if Restarts() then used + 1 else used;
      var ret, more := Turn();
      over := !more || ret == Ok;
      if !more {
        assert old(After(err, 0)) == Run(o, devs, order, firstGlob, 0 + used);
      } else if ret == Ok {
        assert old(Onwards(0)) == Run(o, devs, order, firstGlob, used');
      } else {
        forall n: nat ensures After(err, n) == Run(o, devs, order, firstGlob, n + used') {
          assert old(Onwards(n)) == Run(o, devs, order, firstGlob, n + used');
        }
      }
    }

    /** The first checks of any scan, at most `limit + 1`. If the scan is over then, it
        starts all methods again only so often; so bootflow_scan_first() ends for no
        other scans than those it is said to end for. */
    method ScanFor(limit: nat) returns (over: bool)
      requires Initial() && order != []
      modifies this
      ensures over ==> exists n: nat :: Run(o, devs, order, firstGlob, n) == Over(calls)
      ensures !over ==> |calls| == limit + 1
    {
      var ret, more := Begin();
      if !more || ret == Ok {
        assert Run(o, devs, order, firstGlob, 0) == Over(calls);
        return true;
      }
      err := ret;
      ghost var used: nat := 0;
      for i := 0 to limit
        invariant Checked() && Follows(used) && |calls| == i + 1
      {
        over, used := FollowTurn(used);
        if over {
          return;
        }
      }
      return false;
    }

    /** A scan that never ends: with a device and global methods that always return
        -ESHUTDOWN, there is no number of checks after which it is over. */
    method ScanForever(limit: nat) returns (over: bool)
      requires Initial() && 0 <= firstGlob < |order|
      requires GlobalsLeave(o) && DeviceOrder(devs) != []
      modifies this
      ensures !over && |calls| == limit + 1
    {
      over := ScanFor(limit);
      if over {
        ghost var n: nat :| Run(o, devs, order, firstGlob, n) == Over(calls);
        NeverEnds(o, devs, order, firstGlob, n);
      }
    }
  }
}
