/** Enumerating storage devices with a cookie: the caller hands back the device
    it got last. */
module StorEnum {
  import opened Sequences

  /** An entry of a group: no device, or a device and whether it is active. */
  datatype Entry = Empty | Blk(id: nat, active: bool)

  /** A storage group; one that is not configured has no entries. */
  datatype Group = Group(configured: bool, devs: seq<Entry>)

  datatype Cookie = Null | Ptr(id: nat)

  // -------------------------------------------------------------------------
  // What should be enumerated
  // -------------------------------------------------------------------------

  /** The first entry from `i` on that holds a device. */
  function NextIn(devs: seq<Entry>, i: nat): (r: nat)
    requires i <= |devs|
    ensures i <= r <= |devs| && (r < |devs| ==> devs[r].Blk?)
    ensures forall k :: i <= k < r ==> devs[k].Empty?
    decreases |devs| - i
  {
    if i == |devs| || devs[i].Blk? then i else NextIn(devs, i + 1)
  }

  /** The devices of a group from entry `i` on, up to the first inactive one. */
  function ActiveFrom(devs: seq<Entry>, i: nat): seq<nat>
    requires i <= |devs|
    decreases |devs| - i
  {
    var k := NextIn(devs, i);
    if k == |devs| || !devs[k].active then [] else [devs[k].id] + ActiveFrom(devs, k + 1)
  }

  /** The same for all groups from `g` on. */
  function GroupsFrom(groups: seq<Group>, g: nat): seq<nat>
    requires g <= |groups|
    decreases |groups| - g
  {
    if g == |groups| then [] else ActiveFrom(groups[g].devs, 0) + GroupsFrom(groups, g + 1)
  }

  predicate IsAt(e: Entry, cookie: Cookie) {
    e.Blk? && cookie == Ptr(e.id)
  }

  /** Whether a group holds a device. */
  ghost predicate InGroup(group: Group, id: nat) {
    exists k :: 0 <= k < |group.devs| && group.devs[k].Blk? && group.devs[k].id == id
  }

  /** No device is registered twice. */
  ghost predicate Distinct(groups: seq<Group>) {
    && (forall g, j, k |
          0 <= g < |groups| && 0 <= j < k < |groups[g].devs| && groups[g].devs[j].Blk? && groups[g].devs[k].Blk? ::
          groups[g].devs[j].id != groups[g].devs[k].id)
    && (forall g, h, id :: 0 <= g < h < |groups| && InGroup(groups[g], id) ==> !InGroup(groups[h], id))
  }

  /** Where the enumeration stands: before the first group, or at a device. */
  datatype Pos = Before | At(g: nat, k: nat)

  ghost predicate PosIn(groups: seq<Group>, p: Pos) {
    p.At? ==> p.g < |groups| && p.k < |groups[p.g].devs| && groups[p.g].devs[p.k].Blk?
  }

  /** What is still to be enumerated. */
  ghost function Remaining(groups: seq<Group>, p: Pos): seq<nat>
    requires PosIn(groups, p)
  {
    match p
    case Before => GroupsFrom(groups, 0)
    case At(g, k) => ActiveFrom(groups[g].devs, k + 1) + GroupsFrom(groups, g + 1)
  }

  // -------------------------------------------------------------------------
  // One group's turn
  // -------------------------------------------------------------------------

  /** Which groups were started, and which are finished. */
  datatype Flags = Flags(started: seq<bool>, ended: seq<bool>)

  ghost predicate Fit(groups: seq<Group>, f: Flags) {
    && |f.started| == |f.ended| == |groups|
    && Distinct(groups)
    && (forall g :: 0 <= g < |groups| && !groups[g].configured ==> groups[g].devs == [])
  }

  ghost predicate OthersKept(g: nat, f: Flags, f': Flags) {
    && |f'.started| == |f.started| && |f'.ended| == |f.ended|
    && (forall h :: 0 <= h < |f.started| && h != g ==> f'.started[h] == f.started[h])
    && (forall h :: 0 <= h < |f.ended| && h != g ==> f'.ended[h] == f.ended[h])
  }

  ghost predicate Mine(group: Group, cookie: Cookie) {
    cookie.Ptr? && InGroup(group, cookie.id)
  }

  /** The outcome of looking at entry `k` of a group. */
  ghost predicate Looked(group: Group, k: nat, cookie: Cookie, found: bool, cookie': Cookie) {
    && k <= |group.devs|
    && found == (k < |group.devs| && group.devs[k].Blk? && group.devs[k].active)
    && cookie' == (if k < |group.devs| && group.devs[k].Blk? then Ptr(group.devs[k].id)
                   else if group.configured then Null else cookie)
  }

  /** A group has its turn when it is asked to start over, when the cookie is one
      of its devices, or when it was never started; it then goes to entry `k`.
      Otherwise the cookie is passed on. */
  ghost predicate TurnSpec(groups: seq<Group>, g: nat, cookie: Cookie, f: Flags, f': Flags,
                           found: bool, cookie': Cookie, k: nat)
    requires g < |groups| && Fit(groups, f)
  {
    var mine := Mine(groups[g], cookie);
    && OthersKept(g, f, f')
    && if cookie.Null? || (!f.ended[g] && (mine || !f.started[g])) then
         && Looked(groups[g], k, cookie, found, cookie')
         && f'.ended[g] == (k == |groups[g].devs|) && f'.started[g] == (!mine || f.started[g])
         && (!mine ==> k == NextIn(groups[g].devs, 0))
         && (forall j :: 0 <= j < |groups[g].devs| && IsAt(groups[g].devs[j], cookie) ==>
               k == NextIn(groups[g].devs, j + 1))
       else !found && cookie' == cookie && f'.started[g] == f.started[g] && f'.ended[g]
  }

  /** The groups from `g` on were not enumerated yet. */
  ghost predicate Untouched(f: Flags, g: nat) {
    && (forall h :: g <= h < |f.started| ==> !f.started[h])
    && (forall h :: g <= h < |f.ended| ==> !f.ended[h])
  }

  /** The cookie is no device of the groups from `g` on. */
  ghost predicate Foreign(groups: seq<Group>, g: nat, cookie: Cookie) {
    cookie.Ptr? ==> forall h :: g <= h < |groups| ==> !InGroup(groups[h], cookie.id)
  }

  ghost predicate StartedBelow(f: Flags, g: nat) {
    forall h :: 0 <= h < g && h < |f.started| ==> f.started[h]
  }

  /** The flags and the cookie agree with the position. */
  ghost predicate Standing(groups: seq<Group>, p: Pos, cookie: Cookie, f: Flags) {
    && Fit(groups, f) && PosIn(groups, p)
    && match p
       case Before => Untouched(f, 0) && Foreign(groups, 0, cookie)
       case At(g, k) =>
         cookie == Ptr(groups[g].devs[k].id) && StartedBelow(f, g + 1) && !f.ended[g] && Untouched(f, g + 1)
  }

  /** In the middle of a call, with the groups before `i` done: the current group
      still has its turn, or the rest is that of the groups from `i` on. */
  ghost predicate Midway(groups: seq<Group>, p: Pos, i: nat, cookie: Cookie, f: Flags) {
    && Fit(groups, f) && PosIn(groups, p) && i <= |groups|
    && if p.At? && i <= p.g then Standing(groups, p, cookie, f)
       else
         && StartedBelow(f, i) && Untouched(f, i) && Foreign(groups, i, cookie)
         && Remaining(groups, p) == GroupsFrom(groups, i)
  }

  /** What a turn leads to: the next group, or a device that was next in line. */
  ghost predicate TurnMoves(groups: seq<Group>, p: Pos, i: nat, f': Flags, found: bool, cookie': Cookie, k: nat)
    requires PosIn(groups, p)
  {
    if !found then Midway(groups, p, i + 1, cookie', f')
    else
      && PosIn(groups, At(i, k)) && Standing(groups, At(i, k), cookie', f')
      && Remaining(groups, p) == [groups[i].devs[k].id] + Remaining(groups, At(i, k))
  }

  lemma EntryInGroup(group: Group, k: nat)
    requires k < |group.devs| && group.devs[k].Blk?
    ensures InGroup(group, group.devs[k].id)
  {
  }

  /** An earlier group passes the cookie on. */
  lemma EarlierTurn(groups: seq<Group>, p: Pos, i: nat, cookie: Cookie, f: Flags, f': Flags, found: bool,
                    cookie': Cookie, k: nat)
    requires p.At? && i < p.g && Midway(groups, p, i, cookie, f)
    requires TurnSpec(groups, i, cookie, f, f', found, cookie', k)
    ensures TurnMoves(groups, p, i, f', found, cookie', k)
  {
    EntryInGroup(groups[p.g], p.k);
    assert !InGroup(groups[i], cookie.id);
  }

  /** After entry `k` was looked at: what is left of the group and after it. */
  lemma GroupSplits(groups: seq<Group>, i: nat, from: nat, k: nat, cookie: Cookie, found: bool, cookie': Cookie)
    requires i < |groups| && from <= |groups[i].devs| && k == NextIn(groups[i].devs, from)
    requires Looked(groups[i], k, cookie, found, cookie')
    ensures ActiveFrom(groups[i].devs, from) + GroupsFrom(groups, i + 1) ==
            if found then [groups[i].devs[k].id] + (ActiveFrom(groups[i].devs, k + 1) + GroupsFrom(groups, i + 1))
            else GroupsFrom(groups, i + 1)
  {
    if found {
      Regroup([groups[i].devs[k].id], ActiveFrom(groups[i].devs, k + 1), GroupsFrom(groups, i + 1));
    } else {
      assert [] + GroupsFrom(groups, i + 1) == GroupsFrom(groups, i + 1);
    }
  }

  lemma LookedForeign(groups: seq<Group>, i: nat, k: nat, cookie: Cookie, found: bool, cookie': Cookie)
    requires Distinct(groups) && i < |groups| && Looked(groups[i], k, cookie, found, cookie')
    requires k < |groups[i].devs| ==> groups[i].devs[k].Blk?
    requires Foreign(groups, i + 1, cookie)
    ensures Foreign(groups, i + 1, cookie')
  {
    if k < |groups[i].devs| {
      EntryInGroup(groups[i], k);
    }
  }

  lemma FlagsAfter(f: Flags, f': Flags, i: nat)
    requires |f.started| == |f.ended| && i < |f.started| && OthersKept(i, f, f') && f'.started[i]
    requires StartedBelow(f, i) && Untouched(f, i + 1)
    ensures StartedBelow(f', i + 1) && Untouched(f', i + 1)
  {
  }

  /** The outcome of a turn, from what is left of the group and after it. */
  lemma TurnEnds(groups: seq<Group>, p: Pos, i: nat, from: nat, cookie: Cookie, f': Flags, found: bool,
                 cookie': Cookie, k: nat)
    requires Fit(groups, f') && PosIn(groups, p) && i < |groups| && (p.At? ==> p.g <= i)
    requires from <= |groups[i].devs| && k == NextIn(groups[i].devs, from)
    requires Looked(groups[i], k, cookie, found, cookie')
    requires Remaining(groups, p) == ActiveFrom(groups[i].devs, from) + GroupsFrom(groups, i + 1)
    requires StartedBelow(f', i + 1) && Untouched(f', i + 1) && f'.ended[i] == (k == |groups[i].devs|)
    requires Foreign(groups, i + 1, cookie)
    ensures TurnMoves(groups, p, i, f', found, cookie', k)
  {
    GroupSplits(groups, i, from, k, cookie, found, cookie');
    LookedForeign(groups, i, k, cookie, found, cookie');
  }

  /** The current group goes to its next device. */
  lemma CurrentTurn(groups: seq<Group>, p: Pos, cookie: Cookie, f: Flags, f': Flags, found: bool,
                    cookie': Cookie, k: nat)
    requires p.At? && Midway(groups, p, p.g, cookie, f) && TurnSpec(groups, p.g, cookie, f, f', found, cookie', k)
    ensures TurnMoves(groups, p, p.g, f', found, cookie', k)
  {
    EntryInGroup(groups[p.g], p.k);
    assert IsAt(groups[p.g].devs[p.k], cookie);
    FlagsAfter(f, f', p.g);
    TurnEnds(groups, p, p.g, p.k + 1, cookie, f', found, cookie', k);
  }

  /** A later group starts with its first device. */
  lemma LaterTurn(groups: seq<Group>, p: Pos, i: nat, cookie: Cookie, f: Flags, f': Flags, found: bool,
                  cookie': Cookie, k: nat)
    requires i < |groups| && (p.At? ==> i > p.g)
    requires Midway(groups, p, i, cookie, f) && TurnSpec(groups, i, cookie, f, f', found, cookie', k)
    ensures TurnMoves(groups, p, i, f', found, cookie', k)
  {
    assert !Mine(groups[i], cookie);
    FlagsAfter(f, f', i);
    TurnEnds(groups, p, i, 0, cookie, f', found, cookie', k);
  }

  /** The turn of any group. */
  lemma AnyTurn(groups: seq<Group>, p: Pos, i: nat, cookie: Cookie, f: Flags, f': Flags,
                found: bool, cookie': Cookie, k: nat)
    requires i < |groups| && Midway(groups, p, i, cookie, f) && TurnSpec(groups, i, cookie, f, f', found, cookie', k)
    ensures TurnMoves(groups, p, i, f', found, cookie', k)
  {
    if p.At? && i < p.g {
      EarlierTurn(groups, p, i, cookie, f, f', found, cookie', k);
    } else if p.At? && i == p.g {
      CurrentTurn(groups, p, cookie, f, f', found, cookie', k);
    } else {
      LaterTurn(groups, p, i, cookie, f, f', found, cookie', k);
    }
  }

  // -------------------------------------------------------------------------
  // What is enumerated
  // -------------------------------------------------------------------------

  /** Entry `k` is a device that no inactive device from `i` on hides. */
  ghost predicate Visible(devs: seq<Entry>, i: nat, k: nat) {
    i <= k < |devs| && devs[k].Blk? && forall j :: i <= j <= k && devs[j].Blk? ==> devs[j].active
  }

  lemma VisibleSkip(devs: seq<Entry>, i: nat, n: nat, k: nat)
    requires i <= n <= |devs| && forall j :: i <= j < n ==> devs[j].Empty?
    ensures Visible(devs, i, k) <==> Visible(devs, n, k)
  {
  }

  lemma {:induction false} ActiveHas(devs: seq<Entry>, i: nat, id: nat)
    requires i <= |devs|
    ensures id in ActiveFrom(devs, i) <==> exists k: nat :: Visible(devs, i, k) && devs[k].id == id
    decreases |devs| - i
  {
    var n := NextIn(devs, i);
    forall k: nat ensures Visible(devs, i, k) <==> Visible(devs, n, k) {
      VisibleSkip(devs, i, n, k);
    }
    if n < |devs| && devs[n].active {
      ActiveHas(devs, n + 1, id);
      forall k: nat ensures Visible(devs, n, k) <==> k == n || Visible(devs, n + 1, k) {
      }
    }
  }

  ghost predicate VisibleIn(groups: seq<Group>, g: nat, id: nat)
    requires g < |groups|
  {
    exists k: nat :: Visible(groups[g].devs, 0, k) && groups[g].devs[k].id == id
  }

  /** A device is enumerated exactly when it is active and no inactive device
      comes before it in its group. */
  lemma {:induction false} EnumeratedExactly(groups: seq<Group>, g: nat, id: nat)
    requires g <= |groups|
    ensures id in GroupsFrom(groups, g) <==> exists h: nat :: g <= h < |groups| && VisibleIn(groups, h, id)
    decreases |groups| - g
  {
    if g < |groups| {
      EnumeratedExactly(groups, g + 1, id);
      ActiveHas(groups[g].devs, 0, id);
      assert id in ActiveFrom(groups[g].devs, 0) <==> VisibleIn(groups, g, id);
      if VisibleIn(groups, g, id) {
      } else if exists h: nat :: g <= h < |groups| && VisibleIn(groups, h, id) {
        var h: nat :| g <= h < |groups| && VisibleIn(groups, h, id);
        assert g + 1 <= h;
      }
    }
  }

  /** An active device that is never enumerated: an inactive one hides it. */
  lemma HiddenDevice()
    ensures var groups := [Group(true, [Blk(1, false), Blk(2, true)])];
            Distinct(groups) && groups[0].devs[1] == Blk(2, true) && 2 !in GroupsFrom(groups, 0)
  {
    var groups := [Group(true, [Blk(1, false), Blk(2, true)])];
    assert ActiveFrom(groups[0].devs, 0) == [];
  }

  ghost predicate NoRepeats(l: seq<nat>) {
    forall j, k :: 0 <= j < k < |l| ==> l[j] != l[k]
  }

  lemma {:induction false} ActiveNoRepeats(devs: seq<Entry>, i: nat)
    requires i <= |devs|
    requires forall j, k :: 0 <= j < k < |devs| && devs[j].Blk? && devs[k].Blk? ==> devs[j].id != devs[k].id
    ensures NoRepeats(ActiveFrom(devs, i))
    decreases |devs| - i
  {
    var n := NextIn(devs, i);
    if n < |devs| && devs[n].active {
      var rest := ActiveFrom(devs, n + 1);
      ActiveNoRepeats(devs, n + 1);
      if devs[n].id in rest {
        ActiveHas(devs, n + 1, devs[n].id);
        assert false;
      }
      NoRepeatsJoin([devs[n].id], rest);
    }
  }

  lemma NoRepeatsJoin(a: seq<nat>, b: seq<nat>)
    requires NoRepeats(a) && NoRepeats(b) && forall id :: id in a ==> id !in b
    ensures NoRepeats(a + b)
  {
    var l := a + b;
    forall j, k | 0 <= j < k < |l| ensures l[j] != l[k] {
      if j < |a| <= k {
        assert l[j] in a && l[k] in b;
      }
    }
  }

  /** No device is enumerated twice. */
  lemma {:induction false} EnumeratedOnce(groups: seq<Group>, g: nat)
    requires Distinct(groups) && g <= |groups|
    ensures NoRepeats(GroupsFrom(groups, g))
    decreases |groups| - g
  {
    if g < |groups| {
      EnumeratedOnce(groups, g + 1);
      ActiveNoRepeats(groups[g].devs, 0);
      forall id | id in ActiveFrom(groups[g].devs, 0) ensures id !in GroupsFrom(groups, g + 1) {
        ActiveHas(groups[g].devs, 0, id);
        assert InGroup(groups[g], id);
        EnumeratedExactly(groups, g + 1, id);
        forall h | g + 1 <= h < |groups| ensures !VisibleIn(groups, h, id) {
          assert !InGroup(groups[h], id);
        }
      }
      NoRepeatsJoin(ActiveFrom(groups[g].devs, 0), GroupsFrom(groups, g + 1));
    }
  }

  /** Device `id` is entry `x` of a group. */
  predicate EntryIs(devs: seq<Entry>, x: int, id: nat) {
    0 <= x < |devs| && devs[x].Blk? && devs[x].id == id
  }

  lemma {:induction false} ActiveInOrder(devs: seq<Entry>, i: nat, j: nat, k: nat, x: nat, y: nat)
    requires forall a, b :: 0 <= a < b < |devs| && devs[a].Blk? && devs[b].Blk? ==> devs[a].id != devs[b].id
    requires i <= |devs| && j < k < |ActiveFrom(devs, i)|
    requires EntryIs(devs, x, ActiveFrom(devs, i)[j]) && EntryIs(devs, y, ActiveFrom(devs, i)[k])
    ensures x < y
    decreases |devs| - i
  {
    var n := NextIn(devs, i);
    var rest := ActiveFrom(devs, n + 1);
    if j > 0 {
      ActiveInOrder(devs, n + 1, j - 1, k - 1, x, y);
    } else {
      assert rest[k - 1] in rest;
      ActiveHas(devs, n + 1, rest[k - 1]);
    }
  }

  lemma LaterGroup(groups: seq<Group>, g: nat, id: nat, b: nat, y: nat)
    requires Distinct(groups) && g <= |groups| && id in GroupsFrom(groups, g)
    requires b < |groups| && EntryIs(groups[b].devs, y, id)
    ensures g <= b
  {
    EnumeratedExactly(groups, g, id);
    var h: nat :| g <= h < |groups| && VisibleIn(groups, h, id);
    assert InGroup(groups[h], id) && InGroup(groups[b], id);
  }

  lemma InThisGroup(groups: seq<Group>, g: nat, id: nat, a: nat, x: nat)
    requires Distinct(groups) && g < |groups| && id in ActiveFrom(groups[g].devs, 0)
    requires a < |groups| && EntryIs(groups[a].devs, x, id)
    ensures a == g
  {
    ActiveHas(groups[g].devs, 0, id);
    assert InGroup(groups[g], id) && InGroup(groups[a], id);
  }

  /** Devices are enumerated by group, and within a group by entry. */
  lemma {:induction false} EnumeratedInOrder(
    groups: seq<Group>, g: nat, j: nat, k: nat, a: nat, x: nat, b: nat, y: nat)
    requires Distinct(groups) && g <= |groups| && j < k < |GroupsFrom(groups, g)|
    requires a < |groups| && EntryIs(groups[a].devs, x, GroupsFrom(groups, g)[j])
    requires b < |groups| && EntryIs(groups[b].devs, y, GroupsFrom(groups, g)[k])
    ensures a < b || (a == b && x < y)
    decreases |groups| - g
  {
    var first, rest := ActiveFrom(groups[g].devs, 0), GroupsFrom(groups, g + 1);
    if j >= |first| {
      EnumeratedInOrder(groups, g + 1, j - |first|, k - |first|, a, x, b, y);
    } else {
      assert first[j] in first;
      InThisGroup(groups, g, first[j], a, x);
      if k < |first| {
        assert first[k] in first;
        InThisGroup(groups, g, first[k], b, y);
        ActiveInOrder(groups[g].devs, 0, j, k, x, y);
      } else {
        assert rest[k - |first|] in rest;
        LaterGroup(groups, g + 1, rest[k - |first|], b, y);
      }
    }
  }

  // -------------------------------------------------------------------------
  // The enumeration
  // -------------------------------------------------------------------------

  /** The network device is none of the storage devices. */
  lemma NetOnce(groups: seq<Group>, net: Cookie)
    requires Foreign(groups, 0, net)
    ensures net.Ptr? ==> net.id !in GroupsFrom(groups, 0)
  {
    if net.Ptr? {
      EnumeratedExactly(groups, 0, net.id);
    }
  }

  class Storage {
    const groups: seq<Group>
    const net: Cookie
    var started: seq<bool>
    var ended: seq<bool>

    ghost function Now(): Flags
      reads this
    {
      Flags(started, ended)
    }

    ghost predicate Valid()
      reads this
    {
      Fit(groups, Now()) && Foreign(groups, 0, net)
    }

    constructor (groups: seq<Group>, net: Cookie)
      requires Distinct(groups)
      requires forall g :: 0 <= g < |groups| && !groups[g].configured ==> groups[g].devs == []
      requires Foreign(groups, 0, net)
      ensures Valid() && this.groups == groups && this.net == net
    {
      this.groups, this.net := groups, net;
      started, ended := seq(|groups|, _ => false), seq(|groups|, _ => false);
    }

    /** The entry of the group that holds the cookie's device, if any. */
    method FindLast(g: nat, cookie: Cookie) returns (found: bool, k: nat)
      requires g < |groups| && cookie.Ptr?
      ensures found <==> InGroup(groups[g], cookie.id)
      ensures found ==> k < |groups[g].devs| && groups[g].devs[k].Blk? && groups[g].devs[k].id == cookie.id
    {
      var devs := groups[g].devs;
      k := 0;
      while k < |devs|
        invariant 0 <= k <= |devs|
        invariant forall j :: 0 <= j < k ==> !(devs[j].Blk? && devs[j].id == cookie.id)
      {
        if devs[k].Blk? && devs[k].id == cookie.id {
          return true, k;
        }
        k := k + 1;
      }
      return false, 0;
    }

    /** dev_stor_get(): the next device of a group after the cookie's, or its first
        one if the cookie is for something else. */
    method StorGet(g: nat, cookie: Cookie) returns (found: bool, more: bool, cookie': Cookie, ghost k: nat)
      requires Valid() && g < |groups|
      ensures var devs := groups[g].devs;
              && k <= |devs| && more == (k < |devs|)
              && found == (k < |devs| && devs[k].Blk? && devs[k].active)
              && cookie' == (if k < |devs| && devs[k].Blk? then Ptr(devs[k].id)
                             else if groups[g].configured then Null else cookie)
      ensures cookie.Null? || !InGroup(groups[g], cookie.id) ==> k == NextIn(groups[g].devs, 0)
      ensures forall j :: 0 <= j < |groups[g].devs| && IsAt(groups[g].devs[j], cookie) ==>
                k == NextIn(groups[g].devs, j + 1)
    {
      found, more, cookie', k := false, false, cookie, 0;
      if !groups[g].configured {
        return;
      }
      var devs := groups[g].devs;
      var i := 0;
      if cookie.Ptr? {
        var last, at := FindLast(g, cookie);
        if last {
          i := at + 1;
        }
      }
      ghost var from := i;
      while i < |devs|
        invariant 0 <= i <= |devs| && NextIn(devs, from) == NextIn(devs, i)
      {
        if devs[i].Blk? {
          cookie' := Ptr(devs[i].id);
          found := true;
          break;
        }
        i := i + 1;
      }
      more, k := i < |devs|, i;
      if found {
        if !devs[i].active {
          found := false;
        }
      } else {
        cookie' := Null;
      }
    }

    /** dev_stor_type() and dev_is_stor(): whether the cookie is a device of this
        group; the groups are tried in order. */
    method IsStor(g: nat, cookie: Cookie) returns (yes: bool)
      requires Valid() && g < |groups| && cookie.Ptr?
      ensures yes <==> InGroup(groups[g], cookie.id)
    {
      for h := 0 to |groups|
        invariant forall j :: 0 <= j < h ==> !InGroup(groups[j], cookie.id)
      {
        var found, _ := FindLast(h, cookie);
        if found {
          return h == g;
        }
      }
      return false;
    }

    /** dev_enum_stor(): one group's turn. */
    method EnumStor(g: nat, cookie: Cookie) returns (found: bool, cookie': Cookie, ghost k: nat)
      requires Valid() && g < |groups|
      modifies this
      ensures Valid()
      ensures TurnSpec(groups, g, cookie, old(Now()), Now(), found, cookie', k)
    {
      var more := false;
      found, cookie', k := false, cookie, 0;
      if cookie.Null? {
        found, more, cookie', k := StorGet(g, cookie);
        started := started[g := true];
      } else {
        var mine := IsStor(g, cookie);
        if ended[g] {
          return;
        }
        if mine {
          found, more, cookie', k := StorGet(g, cookie);
        } else if !started[g] {
          started := started[g := true];
          found, more, cookie', k := StorGet(g, cookie);
        }
      }
      ended := ended[g := !more];
    }

    /** dev_enum_storage(): every group has a turn until one finds a device. It
        returns the next device in line, wherever the enumeration stands. */
    method EnumStorage(cookie: Cookie, ghost p: Pos) returns (found: bool, cookie': Cookie, ghost p': Pos)
      requires Valid() && Standing(groups, p, cookie, Now())
      modifies this
      ensures Valid()
      ensures found <==> Remaining(groups, p) != []
      ensures found ==>
                && cookie'.Ptr? && PosIn(groups, p') && Standing(groups, p', cookie', Now())
                && Remaining(groups, p) == [cookie'.id] + Remaining(groups, p')
    {
      cookie', p' := cookie, p;
      for i := 0 to |groups|
        invariant Valid() && Midway(groups, p, i, cookie', Now())
      {
        ghost var was, f, k := cookie', Now(), 0;
        found, cookie', k := EnumStor(i, cookie');
        AnyTurn(groups, p, i, was, f, Now(), found, cookie', k);
        if found {
          p' := At(i, k);
          return;
        }
      }
      return false, cookie', p;
    }

    /** dev_enum_reset() */
    method Reset()
      requires Valid()
      modifies this
      ensures Valid() && Untouched(Now(), 0)
    {
      started, ended := seq(|groups|, _ => false), seq(|groups|, _ => false);
    }

    /** What a caller has still to get, given the cookie it got last. */
    ghost predicate Caller(cookie: Cookie, rest: seq<nat>)
      reads this
    {
      match cookie
      case Null => rest == Everything()
      case Ptr(_) => exists p :: Standing(groups, p, cookie, Now()) && rest == Remaining(groups, p)
    }

    ghost function Everything(): seq<nat> {
      (if net.Ptr? then [net.id] else []) + GroupsFrom(groups, 0)
    }

    /** API_dev_enum(): the network device first, then the storage devices. */
    method DevEnum(cookie: Cookie, ghost rest: seq<nat>) returns (cookie': Cookie)
      requires Valid() && Caller(cookie, rest)
      modifies this
      ensures Valid()
      ensures cookie' == if rest == [] then Null else Ptr(rest[0])
      ensures rest != [] ==> Caller(cookie', rest[1..])
    {
      ghost var p := Before;
      if cookie.Null? {
        Reset();
        if net.Ptr? {
          assert Standing(groups, Before, net, Now());
          assert rest[1..] == Remaining(groups, Before);
          return net;
        }
        assert rest == Remaining(groups, Before);
      } else {
        p :| Standing(groups, p, cookie, Now()) && rest == Remaining(groups, p);
      }
      var found;
      ghost var p';
      found, cookie', p' := EnumStorage(cookie, p);
      if !found {
        cookie' := Null;
      } else {
        assert rest[1..] == Remaining(groups, p');
      }
    }

    /** Starting from NULL and handing back each result until NULL comes: for any
        registered devices, this gives the network device, if there is one, and then
        the devices of each group in order up to its first inactive one. */
    method EnumerateAll() returns (l: seq<nat>)
      requires Valid()
      modifies this
      ensures Valid() && l == Everything()
      ensures net.Ptr? ==> |l| > 0 && l[0] == net.id && net.id !in l[1..] && l[1..] == GroupsFrom(groups, 0)
      ensures net.Null? ==> l == GroupsFrom(groups, 0)
    {
      l := [];
      ghost var all := Everything();
      ghost var rest := all;
      var cookie := DevEnum(Null, rest);
      while cookie.Ptr?
        invariant Valid() && all == l + rest
        invariant cookie == if rest == [] then Null else Ptr(rest[0])
        invariant rest != [] ==> Caller(cookie, rest[1..])
        decreases |rest|
      {
        Regroup(l, [rest[0]], rest[1..]);
        assert rest == [rest[0]] + rest[1..];
        l := l + [cookie.id];
        rest := rest[1..];
        cookie := DevEnum(cookie, rest);
      }
      assert l + [] == l;
      NetOnce(groups, net);
    }
  }
}
