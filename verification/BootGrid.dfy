/** A scan in which every check on a device carries on and gives the same bound:
    all devices, partitions and methods, in this order. */
module BootGrid {
  import opened Sequences
  import opened BootOrder
  import opened BootScan

  /** No check on a device succeeds or gives up, and the highest partition is always
      number `last`. */
  ghost predicate CarriesOn(o: Oracle, last: nat) {
    forall h: seq<Call>, c: Call :: c.DevCall? ==>
      var a := o(h + [c]); (a.ret.NoSys? || a.ret.Other?) && a.maxPart == last
  }

  function MethodRow(meths: seq<nat>, dev: nat, part: nat, m: nat): (r: seq<Call>)
    requires m <= |meths|
    ensures |r| == |meths| - m && forall k :: 0 <= k < |r| ==> r[k] == DevCall(dev, part, meths[m + k])
    decreases |meths| - m
  {
    if m == |meths| then [] else [DevCall(dev, part, meths[m])] + MethodRow(meths, dev, part, m + 1)
  }

  /** The partitions from `part` up to but excluding `end`. */
  function PartRows(meths: seq<nat>, dev: nat, part: nat, end: nat): seq<Call>
    requires part <= end
    decreases end - part
  {
    if part == end then [] else MethodRow(meths, dev, part, 0) + PartRows(meths, dev, part + 1, end)
  }

  /** All devices, with `n` partitions each. */
  function Grid(meths: seq<nat>, devs: seq<nat>, n: nat): seq<Call>
    decreases |devs|
  {
    if devs == [] then [] else PartRows(meths, devs[0], 0, n) + Grid(meths, devs[1..], n)
  }

  lemma {:induction false} PartRowsLength(meths: seq<nat>, dev: nat, part: nat, end: nat)
    requires part <= end
    ensures |PartRows(meths, dev, part, end)| == (end - part) * |meths|
    decreases end - part
  {
    if part < end {
      PartRowsLength(meths, dev, part + 1, end);
      OneMore(end - part - 1, |meths|);
    }
  }

  lemma {:induction false} GridLength(meths: seq<nat>, devs: seq<nat>, n: nat)
    ensures |Grid(meths, devs, n)| == |devs| * (n * |meths|)
    decreases |devs|
  {
    if devs != [] {
      PartRowsLength(meths, devs[0], 0, n);
      GridLength(meths, devs[1..], n);
      OneMore(|devs| - 1, n * |meths|);
    }
  }

  /** Entry number `k` is this check. */
  predicate IsAt(r: seq<Call>, k: int, c: Call) {
    0 <= k < |r| && r[k] == c
  }

  lemma LaterAt(a: seq<Call>, b: seq<Call>, k: nat, c: Call)
    requires IsAt(b, k, c)
    ensures IsAt(a + b, |a| + k, c)
  {
    JoinedAt(a, b, k);
  }

  lemma EarlierAt(a: seq<Call>, b: seq<Call>, k: nat, c: Call)
    requires IsAt(a, k, c)
    ensures IsAt(a + b, k, c)
  {
  }

  lemma {:induction false} PartRowsAt(meths: seq<nat>, dev: nat, part: nat, end: nat, p: nat, m: nat)
    requires part <= p < end && m < |meths|
    ensures IsAt(PartRows(meths, dev, part, end), |PartRows(meths, dev, part, p)| + m, DevCall(dev, p, meths[m]))
    decreases p - part
  {
    var row, rows := MethodRow(meths, dev, part, 0), PartRows(meths, dev, part + 1, end);
    if part == p {
      EarlierAt(row, rows, m, DevCall(dev, p, meths[m]));
    } else {
      PartRowsAt(meths, dev, part + 1, end, p, m);
      LaterAt(row, rows, |PartRows(meths, dev, part + 1, p)| + m, DevCall(dev, p, meths[m]));
    }
  }

  lemma {:induction false} DeviceRowsAt(meths: seq<nat>, devs: seq<nat>, n: nat, i: nat, k: nat, c: Call)
    requires i < |devs| && IsAt(PartRows(meths, devs[i], 0, n), k, c)
    ensures IsAt(Grid(meths, devs, n), |Grid(meths, devs[..i], n)| + k, c)
    decreases i
  {
    var rows, more := PartRows(meths, devs[0], 0, n), Grid(meths, devs[1..], n);
    if i == 0 {
      EarlierAt(rows, more, k, c);
    } else {
      assert devs[..i][0] == devs[0] && devs[..i][1..] == devs[1..][..i - 1];
      DeviceRowsAt(meths, devs[1..], n, i - 1, k, c);
      LaterAt(rows, more, |Grid(meths, devs[1..][..i - 1], n)| + k, c);
    }
  }

  /** Method `m` on partition `p` of device `i` comes after all methods on all
      partitions of the devices before it, and on the partitions before it. */
  lemma GridAt(meths: seq<nat>, devs: seq<nat>, n: nat, i: nat, p: nat, m: nat)
    requires i < |devs| && p < n && m < |meths|
    ensures IsAt(Grid(meths, devs, n), i * (n * |meths|) + (p * |meths| + m), DevCall(devs[i], p, meths[m]))
  {
    PartRowsAt(meths, devs[i], 0, n, p, m);
    DeviceRowsAt(meths, devs, n, i, |PartRows(meths, devs[i], 0, p)| + m, DevCall(devs[i], p, meths[m]));
    PartRowsLength(meths, devs[i], 0, p);
    GridLength(meths, devs[..i], n);
  }

  lemma {:induction false} MethodsRow(o: Oracle, meths: seq<nat>, m: nat, dev: nat, part: nat, maxPart: PartBound,
                                      h: seq<Call>, last: nat)
    requires CarriesOn(o, last) && m <= |meths| && last <= MAX_PART_PER_BOOTDEV
    ensures Methods(o, meths, m, dev, part, maxPart, h) ==
            Next(h + MethodRow(meths, dev, part, m), if m < |meths| then last else maxPart)
    decreases |meths| - m
  {
    if m == |meths| {
      assert h + [] == h;
    } else {
      var c := DevCall(dev, part, meths[m]);
      assert o(h + [c]).maxPart == last;
      MethodsRow(o, meths, m + 1, dev, part, last, h + [c], last);
      Regroup(h, [c], MethodRow(meths, dev, part, m + 1));
    }
  }

  lemma {:induction false} PartsRows(o: Oracle, meths: seq<nat>, dev: nat, part: nat, maxPart: PartBound,
                                     h: seq<Call>, last: nat)
    requires CarriesOn(o, last) && meths != [] && last <= MAX_PART_PER_BOOTDEV
    requires part <= last + 1 && (maxPart == last || part == 0)
    ensures Parts(o, meths, dev, part, maxPart, h) == Leave(h + PartRows(meths, dev, part, last + 1))
    decreases last + 1 - part
  {
    if part == last + 1 {
      assert h + [] == h;
    } else {
      var row := MethodRow(meths, dev, part, 0);
      MethodsRow(o, meths, 0, dev, part, maxPart, h, last);
      PartsRows(o, meths, dev, part + 1, last, h + row, last);
      Regroup(h, row, PartRows(meths, dev, part + 1, last + 1));
    }
  }

  /** The checks are those of all methods on all partitions up to the last of all
      devices: the devices in order, then the partitions, then the methods. */
  lemma {:induction false} DevicesGrid(o: Oracle, meths: seq<nat>, devs: seq<nat>, h: seq<Call>, last: nat)
    requires CarriesOn(o, last) && meths != [] && last <= MAX_PART_PER_BOOTDEV
    ensures Devices(o, meths, devs, h) == h + Grid(meths, devs, last + 1)
    decreases |devs|
  {
    if devs == [] {
      assert h + [] == h;
    } else {
      var rows := PartRows(meths, devs[0], 0, last + 1);
      PartsRows(o, meths, devs[0], 0, 0, h, last);
      DevicesGrid(o, meths, devs[1..], h + rows, last);
      Regroup(h, rows, Grid(meths, devs[1..], last + 1));
    }
  }
}
