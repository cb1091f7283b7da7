/** What holds over any number of boots. */
module AbRuns {
  import opened AbSpec
  import opened AbCrash

  /** The block after `k` boots that use up tries. */
  function Boots(b: Body, k: nat): (r: Body)
    requires b.Shaped()
    ensures r.Shaped()
    decreases k
  {
    if k == 0 then b else Boots(Boot(b, true), k - 1)
  }

  /** The disk after `k` boots. */
  function DiskBoots(crc: Body -> nat, d: Disk, k: nat): Disk
    requires Shaped(d) && Supported(Load(crc, d, true))
    decreases k
  {
    if k == 0 then d
    else
      Converges(crc, d, true);
      DiskBoots(crc, PutAll(d, SelectSlot(crc, d, true, true).writes), k - 1)
  }

  /** On disk, boots from any supported state do to both copies what they do to
      the block in memory. */
  lemma {:induction false} DiskFollows(crc: Body -> nat, d: Disk, k: nat)
    requires Shaped(d) && Supported(Load(crc, d, true))
    ensures var d' := DiskBoots(crc, d, k);
            && Shaped(d') && Supported(Load(crc, d', true))
            && Load(crc, d', true) == Boots(Load(crc, d, true), k)
            && (k > 0 ==> d' == Both(Sealed(crc, Boots(Load(crc, d, true), k))))
    decreases k
  {
    if k > 0 {
      Converges(crc, d, true);
      DiskFollows(crc, PutAll(d, SelectSlot(crc, d, true, true).writes), k - 1);
    }
  }

  // -------------------------------------------------------------------------
  // The tries run out
  // -------------------------------------------------------------------------

  function Total(slots: seq<Slot>, n: nat): nat
    requires n <= |slots|
  {
    if n == 0 then 0 else Total(slots, n - 1) + slots[n - 1].tries
  }

  function Tries(b: Body): nat
    requires b.Shaped()
  {
    Total(b.slots, Limit(b.nbSlot))
  }

  lemma {:induction false} TotalUseTry(slots: seq<Slot>, i: nat, n: nat)
    requires n <= |slots| && i < |slots| && slots[i].tries > 0
    ensures Total(UseTry(slots, i), n) == Total(slots, n) - if i < n then 1 else 0
  {
    if n > 0 {
      TotalUseTry(slots, i, n - 1);
    }
  }

  /** The choice is a slot that is known to work, or there is none. */
  predicate Settled(b: Body)
    requires b.Shaped()
  {
    Chosen(b) < 0 || b.slots[Chosen(b)].successful
  }

  /** A boot uses up exactly one try, unless the choice is settled. */
  lemma BootUsesTry(b: Body)
    requires b.Shaped()
    ensures Tries(Boot(b, true)) == Tries(b) - if Settled(b) then 0 else 1
  {
    if !Settled(b) {
      ChosenBootable(b);
      TotalUseTry(b.slots, Chosen(b), Limit(b.nbSlot));
    }
  }

  /** A settled choice stays, and the block no longer changes. */
  lemma SettledStays(b: Body)
    requires b.Shaped() && Settled(b)
    ensures var b' := Boot(b, true);
            Settled(b') && Chosen(b') == Chosen(b) && b'.slots == b.slots && Boot(b', true) == b'
  {
  }

  lemma {:induction false} SettledForever(b: Body, k: nat)
    requires b.Shaped() && Settled(b)
    ensures var b' := Boots(b, k);
            && Settled(b') && Chosen(b') == Chosen(b) && b'.slots == b.slots
            && (k > 0 ==> b' == Boot(b, true))
    decreases k
  {
    if k > 0 {
      SettledStays(b);
      SettledForever(Boot(b, true), k - 1);
    }
  }

  /** Within as many boots as there are tries, every run reaches a slot that
      works, or has none left; tries never come back. */
  lemma {:induction false} RunsSettle(b: Body, k: nat)
    requires b.Shaped()
    ensures Tries(Boots(b, k)) <= Tries(b)
    ensures k >= Tries(b) ==> Settled(Boots(b, k))
    decreases k
  {
    if k > 0 {
      BootUsesTry(b);
      if Settled(b) {
        SettledStays(b);
        SettledForever(Boot(b, true), k - 1);
      }
      RunsSettle(Boot(b, true), k - 1);
    } else if Tries(b) == 0 && Chosen(b) >= 0 {
      ChosenBootable(b);
      TotalAtLeast(b.slots, Limit(b.nbSlot), Chosen(b));
    }
  }

  lemma {:induction false} TotalAtLeast(slots: seq<Slot>, n: nat, i: nat)
    requires i < n <= |slots|
    ensures Total(slots, n) >= slots[i].tries
  {
    if i < n - 1 {
      TotalAtLeast(slots, n - 1, i);
    }
  }

  // -------------------------------------------------------------------------
  // Rollback
  // -------------------------------------------------------------------------

  /** An unproven slot whose priority is above that of all other bootable ones. */
  ghost predicate Strictly(b: Body, s: nat)
    requires b.Shaped()
  {
    && s < Limit(b.nbSlot) && !b.slots[s].corrupted && !b.slots[s].successful
    && forall j :: 0 <= j < Limit(b.nbSlot) && j != s && Bootable(b.slots[j]) ==>
         b.slots[j].priority < b.slots[s].priority
  }

  function WithTries(slots: seq<Slot>, s: nat, tries: nat): seq<Slot>
    requires s < |slots|
  {
    slots[s := slots[s].(tries := tries)]
  }

  lemma StrictlyChosen(b: Body, s: nat)
    requires b.Shaped() && Strictly(b, s) && b.slots[s].tries > 0
    ensures Chosen(b) == s
    ensures Boot(b, true).slots == WithTries(b.slots, s, b.slots[s].tries - 1)
    ensures Strictly(Boot(b, true), s)
  {
    BestIsPick(b.slots, Limit(b.nbSlot), s);
  }

  /** A new slot of strictly highest priority is booted exactly as often as it
      has tries; then it is no longer bootable and the choice falls on the best
      of the others, whose data never changed. */
  lemma {:induction false} Rollback(b: Body, s: nat, k: nat)
    requires b.Shaped() && Strictly(b, s) && k <= b.slots[s].tries
    ensures var b', left := Boots(b, k), b.slots[s].tries - k;
            && Limit(b'.nbSlot) == Limit(b.nbSlot)
            && b'.slots == WithTries(b.slots, s, left)
            && Chosen(b') == (if left > 0 then s else Pick(WithTries(b.slots, s, 0), Limit(b.nbSlot)))
            && (left == 0 ==> !Bootable(b'.slots[s]) && Chosen(b') != s)
    decreases k
  {
    if k > 0 {
      StrictlyChosen(b, s);
      Rollback(Boot(b, true), s, k - 1);
      assert WithTries(WithTries(b.slots, s, b.slots[s].tries - 1), s, b.slots[s].tries - k)
          == WithTries(b.slots, s, b.slots[s].tries - k);
      assert WithTries(WithTries(b.slots, s, b.slots[s].tries - 1), s, 0) == WithTries(b.slots, s, 0);
    } else {
      assert WithTries(b.slots, s, b.slots[s].tries) == b.slots;
      if b.slots[s].tries > 0 {
        StrictlyChosen(b, s);
      } else {
        PickIsBest(b.slots, Limit(b.nbSlot));
      }
    }
  }

  // -------------------------------------------------------------------------
  // Fairness
  // -------------------------------------------------------------------------

  ghost predicate InGroup(s: Slot, priority: nat) {
    s.priority == priority && !s.successful && !s.corrupted
  }

  /** The unproven slots of this priority have the same number of tries left, or
      differ by one. */
  ghost predicate Balanced(b: Body, priority: nat)
    requires b.Shaped()
  {
    forall i, j |
      0 <= i < Limit(b.nbSlot) && 0 <= j < Limit(b.nbSlot) &&
      InGroup(b.slots[i], priority) && InGroup(b.slots[j], priority) :: b.slots[i].tries <= b.slots[j].tries + 1
  }

  lemma BootKeepsBalance(b: Body, priority: nat)
    requires b.Shaped() && Balanced(b, priority)
    ensures Balanced(Boot(b, true), priority)
  {
    var b', r := Boot(b, true), Chosen(b);
    PickIsBest(b.slots, Limit(b.nbSlot));
    forall i, j | 0 <= i < Limit(b'.nbSlot) && 0 <= j < Limit(b'.nbSlot)
      && InGroup(b'.slots[i], priority) && InGroup(b'.slots[j], priority)
      ensures b'.slots[i].tries <= b'.slots[j].tries + 1
    {
      assert InGroup(b.slots[i], priority) && InGroup(b.slots[j], priority);
      assert b.slots[i].tries <= b.slots[j].tries + 1;
      if j == r && i != r && b.slots[i].tries > 0 {
        assert Compare(b.slots[r], b.slots[i]) <= 0;
      }
    }
  }

  /** Round robin: whatever the other slots are, any number of boots keeps the
      unproven slots of one priority within one try of each other. */
  lemma {:induction false} BootsKeepBalance(b: Body, priority: nat, k: nat)
    requires b.Shaped() && Balanced(b, priority)
    ensures Balanced(Boots(b, k), priority)
    decreases k
  {
    if k > 0 {
      BootKeepsBalance(b, priority);
      BootsKeepBalance(Boot(b, true), priority, k - 1);
    }
  }

  /** Two slots that were never booted successfully, with `a` and `b` tries left. */
  ghost predicate Pair(d: Body, a: nat, b: nat) {
    && d.Shaped() && d.nbSlot == NUM_SLOTS
    && d.slots[0] == Slot(15, a, false, false) && d.slots[1] == Slot(15, b, false, false)
  }

  /** The slot with more tries left is booted, or the first. */
  lemma PairBoots(d: Body, a: nat, b: nat)
    requires Pair(d, a, b)
    ensures Chosen(d) == if a == b == 0 then -1 else if b > a then 1 else 0
    ensures var d' := Boot(d, true);
            if a == b == 0 then Pair(d', 0, 0) else if b > a then Pair(d', a, b - 1) else Pair(d', a - 1, b)
  {
    assert PickBy(Bootable, d.slots, 1) == if a == 0 then -1 else 0;
  }

  lemma {:induction false} PairRuns(d: Body, a: nat, b: nat, k: nat)
    requires Pair(d, a, b) && (a == b || a + 1 == b)
    ensures var d' := Boots(d, k);
            if k >= a + b then Pair(d', 0, 0)
            else if (a + b - k) % 2 == 0 then Pair(d', (a + b - k) / 2, (a + b - k) / 2)
            else Pair(d', (a + b - k) / 2, (a + b - k) / 2 + 1)
    decreases k
  {
    if k > 0 {
      PairBoots(d, a, b);
      if a == b == 0 {
        PairRuns(Boot(d, true), 0, 0, k - 1);
      } else if b > a {
        PairRuns(Boot(d, true), a, b - 1, k - 1);
      } else {
        PairRuns(Boot(d, true), a - 1, b, k - 1);
      }
    }
  }

  /** With both copies lost, the two slots are tried in turn from the first, seven
      times each, and then there is none left. */
  lemma DefaultRuns(b: Body, k: nat)
    requires b.Shaped()
    ensures Supported(Default(b)) && Chosen(Boots(Default(b), k)) == if k < 14 then k % 2 else -1
  {
    var d := Default(b);
    assert Pair(d, 7, 7);
    PairRuns(d, 7, 7, k);
    if k >= 14 {
      PairBoots(Boots(d, k), 0, 0);
    } else if k % 2 == 0 {
      PairBoots(Boots(d, k), (14 - k) / 2, (14 - k) / 2);
    } else {
      PairBoots(Boots(d, k), (14 - k) / 2, (14 - k) / 2 + 1);
    }
  }

  // -------------------------------------------------------------------------
  // Power cuts over a whole run
  // -------------------------------------------------------------------------

  /** A call that ends, or one that a power cut ends. */
  datatype Event = Whole(decTries: bool) | CutShort(decTries: bool, cut: Cut)

  ghost predicate Happens(crc: Body -> nat, d: Disk, e: Event)
    requires Shaped(d)
  {
    e.CutShort? ==> Possible(crc, SelectSlot(crc, d, true, e.decTries).writes, e.cut)
  }

  ghost function AfterEvent(crc: Body -> nat, d: Disk, e: Event): Disk
    requires Shaped(d) && Happens(crc, d, e)
  {
    var ws := SelectSlot(crc, d, true, e.decTries).writes;
    match e
    case Whole(_) => PutAll(d, ws)
    case CutShort(_, cut) => Crashed(d, ws, cut)
  }

  /** The last disk is one that these events can lead to. */
  ghost predicate Leads(crc: Body -> nat, d: Disk, events: seq<Event>, last: Disk)
    decreases |events|
  {
    if events == [] then last == d
    else Shaped(d) && Happens(crc, d, events[0]) && Leads(crc, AfterEvent(crc, d, events[0]), events[1..], last)
  }

  /** No two calls in a row are cut. */
  ghost predicate CutsApart(events: seq<Event>)
    decreases |events|
  {
    |events| < 2 || ((events[0].Whole? || events[1].Whole?) && CutsApart(events[1..]))
  }

  /** A call that ends is a boot; one that is cut is a boot or nothing. */
  ghost predicate Explains(b: Body, events: seq<Event>, last: Body)
    requires b.Shaped()
    decreases |events|
  {
    if events == [] then last == b
    else
      || Explains(Boot(b, events[0].decTries), events[1..], last)
      || (events[0].CutShort? && Explains(b, events[1..], last))
  }

  ghost predicate Sound(crc: Body -> nat, d: Disk) {
    Shaped(d) && (Good(crc, d.primary) || Good(crc, d.backup)) && Supported(Load(crc, d, true))
  }

  ghost predicate Clean(crc: Body -> nat, d: Disk) {
    Shaped(d) && d == Both(Sealed(crc, Load(crc, d, true)))
  }

  lemma EventKeepsBlock(crc: Body -> nat, d: Disk, e: Event)
    requires Sound(crc, d) && Happens(crc, d, e) && (e.CutShort? ==> Clean(crc, d))
    ensures var b, d' := Load(crc, d, true), AfterEvent(crc, d, e);
            && Sound(crc, d') && (e.Whole? ==> Clean(crc, d'))
            && (Load(crc, d', true) == Boot(b, e.decTries) || (e.CutShort? && Load(crc, d', true) == b))
  {
    var b := Load(crc, d, true);
    if e.Whole? {
      Converges(crc, d, e.decTries);
    } else {
      SingleCrash(crc, b, e.decTries, e.cut, false);
    }
  }

  /** In any run without two cuts in a row, a good copy is left at the end, with the
      block that the calls account for. */
  lemma {:induction false} CutsApartSafe(crc: Body -> nat, d: Disk, events: seq<Event>, last: Disk)
    requires Sound(crc, d) && Leads(crc, d, events, last) && CutsApart(events)
    requires Clean(crc, d) || events == [] || events[0].Whole?
    ensures Sound(crc, last) && Explains(Load(crc, d, true), events, Load(crc, last, true))
    decreases |events|
  {
    if events != [] {
      EventKeepsBlock(crc, d, events[0]);
      CutsApartSafe(crc, AfterEvent(crc, d, events[0]), events[1..], last);
    }
  }

  // -------------------------------------------------------------------------
  // Looking first, booting later
  // -------------------------------------------------------------------------

  lemma LookKeepsBlock(b: Body)
    requires b.Shaped()
    ensures var b' := Boot(b, false);
            && b'.slots == b.slots && Chosen(b') == Chosen(b)
            && Boot(b', false) == b' && Boot(b', true) == Boot(b, true)
  {
  }

  /** A selection that does not use up a try changes no try counter, writes
      nothing when repeated, and leaves a later boot exactly what it would have
      been: the slot that was verified is the slot that is loaded. */
  lemma LookThenBoot(crc: Body -> nat, d: Disk, hasBackup: bool)
    requires Shaped(d) && Supported(Load(crc, d, hasBackup))
    ensures var look, boot := SelectSlot(crc, d, hasBackup, false), SelectSlot(crc, d, hasBackup, true);
            var d' := PutAll(d, look.writes);
            && Shaped(d') && Load(crc, d', hasBackup).slots == Load(crc, d, hasBackup).slots
            && SelectSlot(crc, d', hasBackup, false) == Plan(look.ret, [])
            && look.ret == boot.ret == SelectSlot(crc, d', hasBackup, true).ret
            && PutAll(d', SelectSlot(crc, d', hasBackup, true).writes) == PutAll(d, boot.writes)
  {
    var b := Load(crc, d, hasBackup);
    LookKeepsBlock(b);
    var c := Sealed(crc, Boot(b, false));
    if hasBackup {
      Converges(crc, d, false);
      Converges(crc, d, true);
      Converges(crc, Both(c), true);
      Converges(crc, Both(c), false);
    } else {
      ConvergesAlone(crc, d, false);
      ConvergesAlone(crc, d, true);
      ConvergesAlone(crc, Disk(c, d.backup), true);
    }
  }
}
