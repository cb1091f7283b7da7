/** The order in which boot devices and boot methods are tried. */
module BootOrder {
  import opened Sequences

  const BOOTDEVP_COUNT: nat := 8

  /** A boot device: its priority and whether it can be probed. */
  datatype Dev = Dev(prio: nat, probes: bool)

  // -------------------------------------------------------------------------
  // Devices by priority
  // -------------------------------------------------------------------------

  /** The devices still to come when device `i` is the next one to look at for
      priority `prio`. */
  function Listing(devs: seq<Dev>, prio: nat, i: nat): seq<nat>
    requires i <= |devs| && prio < BOOTDEVP_COUNT
    decreases BOOTDEVP_COUNT - prio, |devs| - i
  {
    if i < |devs| then
      (if devs[i].prio == prio && devs[i].probes then [i] else []) + Listing(devs, prio, i + 1)
    else if prio + 1 < BOOTDEVP_COUNT then Listing(devs, prio + 1, 0)
    else []
  }

  /** All devices, in the order in which they are tried. */
  function DeviceOrder(devs: seq<Dev>): seq<nat> {
    Listing(devs, 0, 0)
  }

  /** Lower priority number first, then position in the device list. */
  predicate Before(devs: seq<Dev>, a: nat, b: nat)
    requires a < |devs| && b < |devs|
  {
    devs[a].prio < devs[b].prio || (devs[a].prio == devs[b].prio && a < b)
  }

  ghost predicate InRange(devs: seq<Dev>, l: seq<nat>) {
    forall k :: 0 <= k < |l| ==> l[k] < |devs|
  }

  /** Device `d` is at or after the position (`prio`, `i`). */
  ghost predicate FromHere(devs: seq<Dev>, prio: nat, i: nat, d: nat)
    requires d < |devs|
  {
    devs[d].probes && devs[d].prio < BOOTDEVP_COUNT &&
    (devs[d].prio > prio || (devs[d].prio == prio && d >= i))
  }

  lemma {:induction false} ListingHas(devs: seq<Dev>, prio: nat, i: nat)
    requires i <= |devs| && prio < BOOTDEVP_COUNT
    ensures InRange(devs, Listing(devs, prio, i))
    ensures forall d :: 0 <= d < |devs| ==> (d in Listing(devs, prio, i) <==> FromHere(devs, prio, i, d))
    decreases BOOTDEVP_COUNT - prio, |devs| - i
  {
    if i < |devs| {
      ListingHas(devs, prio, i + 1);
    } else if prio + 1 < BOOTDEVP_COUNT {
      ListingHas(devs, prio + 1, 0);
    }
  }

  lemma {:induction false} ListingSorted(devs: seq<Dev>, prio: nat, i: nat)
    requires i <= |devs| && prio < BOOTDEVP_COUNT
    ensures var l := Listing(devs, prio, i);
            InRange(devs, l) && forall j, k :: 0 <= j < k < |l| ==> Before(devs, l[j], l[k])
    decreases BOOTDEVP_COUNT - prio, |devs| - i
  {
    ListingHas(devs, prio, i);
    if i < |devs| {
      var rest := Listing(devs, prio, i + 1);
      ListingSorted(devs, prio, i + 1);
      ListingHas(devs, prio, i + 1);
      forall k | 0 <= k < |rest| ensures devs[rest[k]].prio == prio ==> rest[k] > i {
        assert rest[k] in rest && FromHere(devs, prio, i + 1, rest[k]);
      }
      forall k | 0 <= k < |rest| ensures devs[rest[k]].prio >= prio {
        assert rest[k] in rest && FromHere(devs, prio, i + 1, rest[k]);
      }
    } else if prio + 1 < BOOTDEVP_COUNT {
      ListingSorted(devs, prio + 1, 0);
    }
  }

  /** The order holds exactly the devices that can be probed and have a valid
      priority, each once, stably sorted by priority. */
  lemma DeviceOrderIsSorted(devs: seq<Dev>)
    ensures var l := DeviceOrder(devs);
            && InRange(devs, l)
            && (forall d :: 0 <= d < |devs| ==> (d in l <==> devs[d].probes && devs[d].prio < 8))
            && (forall j, k :: 0 <= j < k < |l| ==> l[j] != l[k] && Before(devs, l[j], l[k]))
  {
    ListingHas(devs, 0, 0);
    ListingSorted(devs, 0, 0);
  }

  /** bootdev_next_prio(): moves on from device `dev`, -1 for none. It returns the
      head of what is still to come, and what comes after it stays to come. */
  method NextPrio(devs: seq<Dev>, dev: int, curPrio: nat) returns (found: bool, dev': int, curPrio': nat)
    requires -1 <= dev < |devs| && curPrio < BOOTDEVP_COUNT
    ensures found <==> Listing(devs, curPrio, dev + 1) != []
    ensures found ==>
              && 0 <= dev' < |devs| && devs[dev'].probes && curPrio' < BOOTDEVP_COUNT
              && Listing(devs, curPrio, dev + 1) == [dev' as nat] + Listing(devs, curPrio', dev' + 1)
    ensures found && dev == -1 ==> Listing(devs, curPrio', 0) == Listing(devs, curPrio, 0)
    ensures !found ==> dev' == -1 && curPrio' == BOOTDEVP_COUNT
  {
    curPrio', found := curPrio, false;
    var d := dev + 1;
    while true
      invariant 0 <= d <= |devs| && curPrio' < BOOTDEVP_COUNT
      invariant Listing(devs, curPrio, dev + 1) == Listing(devs, curPrio', d)
      invariant dev == -1 ==> Listing(devs, curPrio', 0) == Listing(devs, curPrio, 0)
      decreases BOOTDEVP_COUNT - curPrio', |devs| - d
    {
      ghost var d0 := d;
      while d < |devs| && devs[d].prio != curPrio'
        invariant d0 <= d <= |devs|
        invariant Listing(devs, curPrio', d0) == Listing(devs, curPrio', d)
      {
        d := d + 1;
      }
      if d == |devs| {
        curPrio' := curPrio' + 1;
        if curPrio' == BOOTDEVP_COUNT {
          return false, -1, curPrio';
        }
        d := 0;
      } else if devs[d].probes {
        return true, d, curPrio';
      } else {
        d := d + 1;
      }
    }
  }

  /** Calling bootdev_next_prio() until it fails. */
  method AllDevices(devs: seq<Dev>) returns (l: seq<nat>)
    ensures l == DeviceOrder(devs)
  {
    l := [];
    var found, dev: int, prio: nat := NextPrio(devs, -1, 0);
    ghost var rest := DeviceOrder(devs);
    while found
      invariant found ==> 0 <= dev < |devs| && prio < BOOTDEVP_COUNT
      invariant rest == if found then [dev as nat] + Listing(devs, prio, dev + 1) else []
      invariant DeviceOrder(devs) == l + rest
      decreases |rest|
    {
      l := l + [dev as nat];
      rest := Listing(devs, prio, dev + 1);
      found, dev, prio := NextPrio(devs, dev, prio);
    }
  }

  // -------------------------------------------------------------------------
  // Methods
  // -------------------------------------------------------------------------

  datatype Meth = Meth(id: nat, isGlobal: bool)

  /** Boot methods by sequence number; there may be gaps, and methods that are
      registered but cannot be probed. */
  type Table = seq<Slot>
  datatype Slot = None | Unprobed | Some(meth: Meth)

  /** The number of methods that are registered. */
  function Registered(t: Table): nat {
    if t == [] then 0 else Registered(t[..|t| - 1]) + if t[|t| - 1].None? then 0 else 1
  }

  /** The sequence numbers that are taken. */
  function Taken(t: Table): set<int> {
    set i | 0 <= i < |t| && !t[i].None?
  }

  lemma TakenStep(t: Table, n: nat)
    requires n + 1 == |t|
    ensures Taken(t) == Taken(t[..n]) + if t[n].None? then {} else {n}
    ensures n !in Taken(t[..n])
  {
  }

  lemma {:induction false} RegisteredIsTaken(t: Table)
    ensures Registered(t) == |Taken(t)|
  {
    if t == [] {
      assert Taken(t) == {};
    } else {
      var n := |t| - 1;
      RegisteredIsTaken(t[..n]);
      TakenStep(t, n);
    }
  }

  /** The number of methods that can be used. */
  function CountMeths(t: Table): nat {
    if t == [] then 0 else (if t[0].Some? then 1 else 0) + CountMeths(t[1..])
  }

  /** The methods of one kind with a sequence number below `n`, in order. */
  function Kind(t: Table, n: nat, isGlobal: bool): seq<nat> {
    if n == 0 then []
    else
      Kind(t, n - 1, isGlobal) +
      if n <= |t| && t[n - 1].Some? && t[n - 1].meth.isGlobal == isGlobal then [t[n - 1].meth.id] else []
  }

  /** How far the sequence numbers are tried. */
  function Reach(t: Table): nat {
    20 + Registered(t) * 2
  }

  /** The number of usable methods below `n`. */
  function Below(t: Table, n: nat): nat {
    if n == 0 then 0 else Below(t, n - 1) + if n <= |t| && t[n - 1].Some? then 1 else 0
  }

  lemma {:induction false} BelowShift(t: Table, n: nat)
    requires t != []
    ensures Below(t, n + 1) == Below(t[1..], n) + if t[0].Some? then 1 else 0
  {
    if n > 0 {
      BelowShift(t, n - 1);
      assert n < |t| ==> t[1..][n - 1] == t[n];
    }
  }

  lemma {:induction false} BelowAll(t: Table, n: nat)
    ensures Below(t, n) <= CountMeths(t)
    decreases |t|
  {
    if t == [] {
      BelowNone(n);
    } else if n > 0 {
      BelowShift(t, n - 1);
      BelowAll(t[1..], n - 1);
    }
  }

  lemma {:induction false} BelowNone(n: nat)
    ensures Below([], n) == 0
  {
    if n > 0 {
      BelowNone(n - 1);
    }
  }

  lemma {:induction false} KindsAreAll(t: Table, n: nat)
    ensures |Kind(t, n, false)| + |Kind(t, n, true)| == Below(t, n)
  {
    if n > 0 {
      KindsAreAll(t, n - 1);
    }
  }

  /** There is no usable method with a sequence number of `n` or more. */
  ghost predicate NoneFrom(t: Table, n: nat) {
    forall i :: n <= i < |t| ==> !t[i].Some?
  }

  lemma NoneFromShift(t: Table, n: nat)
    requires t != []
    ensures NoneFrom(t, n + 1) <==> NoneFrom(t[1..], n)
    ensures NoneFrom(t, 0) <==> !t[0].Some? && NoneFrom(t[1..], 0)
  {
    forall i | 0 <= i < |t| - 1 ensures t[1..][i] == t[i + 1] {
    }
    assert forall i :: 1 <= i < |t| ==> t[i] == t[1..][i - 1];
  }

  lemma {:induction false} BelowReached(t: Table, n: nat)
    ensures Below(t, n) == CountMeths(t) <==> NoneFrom(t, n)
    decreases |t|
  {
    if t == [] {
      BelowNone(n);
    } else if n == 0 {
      NoneFromShift(t, 0);
      BelowReached(t[1..], 0);
      BelowAll(t[1..], 0);
    } else {
      NoneFromShift(t, n - 1);
      BelowShift(t, n - 1);
      BelowReached(t[1..], n - 1);
    }
  }

  lemma {:induction false} BelowRegistered(t: Table, n: nat)
    requires n <= |t|
    ensures Below(t, n) <= Registered(t[..n])
  {
    if n > 0 {
      BelowRegistered(t, n - 1);
      assert t[..n][..n - 1] == t[..n - 1];
    }
  }

  lemma UsableRegistered(t: Table)
    ensures CountMeths(t) <= Registered(t)
  {
    BelowReached(t, |t|);
    BelowRegistered(t, |t|);
    assert t[..|t|] == t;
  }

  /** No method is missed exactly when there is none beyond the sequence numbers that
      are tried. */
  lemma NoMethodMissed(t: Table)
    ensures |MethodOrder(t)| == CountMeths(t) <==> NoneFrom(t, 20 + 2 * |Taken(t)|)
  {
    RegisteredIsTaken(t);
    KindsAreAll(t, Reach(t));
    BelowReached(t, Reach(t));
  }

  /** A method of this kind has sequence number `i`. */
  predicate IsKind(t: Table, i: int, isGlobal: bool) {
    0 <= i < |t| && t[i].Some? && t[i].meth.isGlobal == isGlobal
  }

  /** The method with sequence number `i` is `id`. */
  predicate Entry(t: Table, i: int, id: nat) {
    0 <= i < |t| && t[i].Some? && t[i].meth.id == id
  }

  /** Different sequence numbers are different methods. */
  ghost predicate Distinct(t: Table) {
    forall i, j :: 0 <= i < j < |t| && t[i].Some? && t[j].Some? ==> t[i].meth.id != t[j].meth.id
  }

  lemma {:induction false} KindHas(t: Table, n: nat, isGlobal: bool, id: nat)
    ensures id in Kind(t, n, isGlobal) <==> exists i :: 0 <= i < n && IsKind(t, i, isGlobal) && t[i].meth.id == id
  {
    if n > 0 {
      KindHas(t, n - 1, isGlobal, id);
      assert IsKind(t, n - 1, isGlobal) ==> id in Kind(t, n, isGlobal) || t[n - 1].meth.id != id;
    }
  }

  /** Methods of one kind are listed by sequence number. */
  lemma {:induction false} KindSorted(t: Table, n: nat, isGlobal: bool, j: nat, k: nat, a: nat, b: nat)
    requires Distinct(t) && j < k < |Kind(t, n, isGlobal)|
    requires IsKind(t, a, isGlobal) && t[a].meth.id == Kind(t, n, isGlobal)[j]
    requires IsKind(t, b, isGlobal) && t[b].meth.id == Kind(t, n, isGlobal)[k]
    ensures a < b
  {
    var l := Kind(t, n - 1, isGlobal);
    if k < |l| {
      KindSorted(t, n - 1, isGlobal, j, k, a, b);
    } else {
      KindHas(t, n - 1, isGlobal, l[j]);
      assert l[j] in l;
    }
  }

  /** Normal methods come before global ones, and methods of one kind by sequence
      number. */
  predicate MethBefore(t: Table, a: nat, b: nat)
    requires a < |t| && t[a].Some? && b < |t| && t[b].Some?
  {
    (!t[a].meth.isGlobal && t[b].meth.isGlobal) || (t[a].meth.isGlobal == t[b].meth.isGlobal && a < b)
  }

  /** The order of all methods. */
  function MethodOrder(t: Table): seq<nat> {
    Kind(t, Reach(t), false) + Kind(t, Reach(t), true)
  }

  lemma MethodOrderSorted(t: Table, j: nat, k: nat, a: nat, b: nat)
    requires Distinct(t) && j < k < |MethodOrder(t)|
    requires Entry(t, a, MethodOrder(t)[j]) && Entry(t, b, MethodOrder(t)[k])
    ensures MethBefore(t, a, b)
  {
    var n, normal, global := Reach(t), Kind(t, Reach(t), false), Kind(t, Reach(t), true);
    KindHas(t, n, j >= |normal|, t[a].meth.id);
    KindHas(t, n, k >= |normal|, t[b].meth.id);
    if k < |normal| {
      assert normal[j] in normal && normal[k] in normal;
      KindSorted(t, n, false, j, k, a, b);
    } else if j >= |normal| {
      assert global[j - |normal|] in global && global[k - |normal|] in global;
      KindSorted(t, n, true, j - |normal|, k - |normal|, a, b);
    } else {
      assert normal[j] in normal && global[k - |normal|] in global;
    }
  }

  lemma MethodOrderHas(t: Table, id: nat)
    ensures id in MethodOrder(t) <==> exists i :: 0 <= i < Reach(t) && Entry(t, i, id)
  {
    KindHas(t, Reach(t), false, id);
    KindHas(t, Reach(t), true, id);
    if i :| 0 <= i < Reach(t) && Entry(t, i, id) {
      assert IsKind(t, i, t[i].meth.isGlobal);
    }
    if i :| 0 <= i < Reach(t) && (IsKind(t, i, false) || IsKind(t, i, true)) && t[i].meth.id == id {
      assert Entry(t, i, id);
    }
  }

  /** If no two methods are the same, the order holds exactly the methods with a
      sequence number that is tried, each once, the normal ones before the global
      ones and each kind by sequence number. */
  lemma MethodOrderIsSorted(t: Table)
    requires Distinct(t)
    ensures var l := MethodOrder(t);
            && (forall id :: id in l <==> exists i :: 0 <= i < 20 + 2 * |Taken(t)| && Entry(t, i, id))
            && (forall j, k :: 0 <= j < k < |l| ==> l[j] != l[k])
            && (forall j, k, a, b :: 0 <= j < k < |l| && Entry(t, a, l[j]) && Entry(t, b, l[k]) ==> MethBefore(t, a, b))
  {
    var l := MethodOrder(t);
    RegisteredIsTaken(t);
    forall id ensures id in l <==> exists i :: 0 <= i < Reach(t) && Entry(t, i, id) {
      MethodOrderHas(t, id);
    }
    forall j, k, a, b | 0 <= j < k < |l| && Entry(t, a, l[j]) && Entry(t, b, l[k]) ensures MethBefore(t, a, b) {
      MethodOrderSorted(t, j, k, a, b);
    }
    forall j, k | 0 <= j < k < |l| ensures l[j] != l[k] {
      assert l[j] in l;
      var a :| 0 <= a < Reach(t) && Entry(t, a, l[j]);
      assert l[j] == l[k] ==> MethBefore(t, a, a);
    }
  }

  /** The room in the order is never what stops a pass. */
  lemma RoomLeft(t: Table, i: nat, n: nat)
    requires i <= n
    ensures |Kind(t, i, false)| <= Registered(t)
    ensures |Kind(t, n, false)| + |Kind(t, i, true)| <= Registered(t)
    ensures |Kind(t, i, false)| == Registered(t) ==> Kind(t, n, false) == Kind(t, i, false)
    ensures |Kind(t, n, false)| + |Kind(t, i, true)| == Registered(t) ==> Kind(t, n, true) == Kind(t, i, true)
  {
    UsableRegistered(t);
    KindsAreAll(t, i);
    KindsAreAll(t, n);
    BelowAll(t, n);
    BelowAll(t, i);
    KindGrows(t, i, n, false);
    KindGrows(t, i, n, true);
  }

  lemma {:induction false} KindGrows(t: Table, i: nat, n: nat, isGlobal: bool)
    requires i <= n
    ensures |Kind(t, i, isGlobal)| <= |Kind(t, n, isGlobal)|
    ensures |Kind(t, i, isGlobal)| == |Kind(t, n, isGlobal)| ==> Kind(t, i, isGlobal) == Kind(t, n, isGlobal)
  {
    if i < n {
      KindGrows(t, i, n - 1, isGlobal);
    }
  }

  /** One pass over the sequence numbers. */
  method Pass(t: Table, order: seq<nat>, global: bool) returns (order': seq<nat>)
    requires order == if global then Kind(t, Reach(t), false) else []
    ensures order' == order + Kind(t, Reach(t), global)
  {
    var i, count, reach := 0, Registered(t), Reach(t);
    order' := order;
    while |order'| < count && i < reach
      invariant 0 <= i <= reach
      invariant order' == order + Kind(t, i, global)
    {
      KindNext(t, i, global, order);
      if i < |t| && t[i].Some? && t[i].meth.isGlobal == global {
        order' := order' + [t[i].meth.id];
      }
      i := i + 1;
    }
    PassDone(t, i, global);
  }

  lemma KindNext(t: Table, i: nat, isGlobal: bool, order: seq<nat>)
    ensures order + Kind(t, i + 1, isGlobal) ==
            if IsKind(t, i, isGlobal) then (order + Kind(t, i, isGlobal)) + [t[i].meth.id]
            else order + Kind(t, i, isGlobal)
  {
    if IsKind(t, i, isGlobal) {
      Regroup(order, Kind(t, i, isGlobal), [t[i].meth.id]);
    }
  }

  /** A pass that has filled the order has seen all methods of its kind. */
  lemma PassDone(t: Table, i: nat, isGlobal: bool)
    requires i <= Reach(t)
    requires i < Reach(t) ==>
               |Kind(t, i, isGlobal)| + (if isGlobal then |Kind(t, Reach(t), false)| else 0) >= Registered(t)
    ensures Kind(t, i, isGlobal) == Kind(t, Reach(t), isGlobal)
  {
    RoomLeft(t, i, Reach(t));
  }

  datatype Order = NoMethods | Order(meths: seq<nat>, firstGlob: int)

  /** bootmeth_setup_iter_order() without an order from the user: all normal
      methods in sequence order, then all global ones if they are wanted. */
  method SetupOrder(t: Table, includeGlobal: bool) returns (r: Order)
    ensures var normal := Kind(t, Reach(t), false);
            var meths := if includeGlobal then MethodOrder(t) else normal;
            r == if meths == [] then NoMethods else Order(meths, if includeGlobal then |normal| else -1)
  {
    if Registered(t) == 0 {
      UsableRegistered(t);
      KindsAreAll(t, Reach(t));
      BelowAll(t, Reach(t));
      return NoMethods;
    }
    var firstGlob := -1;
    var order := Pass(t, [], false);
    if includeGlobal {
      firstGlob := |order|;
      order := Pass(t, order, true);
    }
    if |order| == 0 {
      return NoMethods;
    }
    r := Order(order, firstGlob);
  }
}
