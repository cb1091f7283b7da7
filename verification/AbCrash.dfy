/** Power cuts while the boot control block is being written. */
module AbCrash {
  import opened AbSpec

  ghost predicate Shaped(d: Disk) {
    d.primary.body.Shaped() && d.backup.body.Shaped()
  }

  /** Power fails after `k` complete writes, or inside the next one, which then
      leaves something whose checksum does not match. */
  datatype Cut = Between(k: nat) | Inside(k: nat, torn: Control)

  ghost predicate Possible(crc: Body -> nat, ws: seq<Write>, cut: Cut) {
    match cut
    case Between(k) => k <= |ws|
    case Inside(k, torn) => k < |ws| && torn.body.Shaped() && !Good(crc, torn)
  }

  ghost function Crashed(d: Disk, ws: seq<Write>, cut: Cut): Disk
    requires cut.k <= |ws| && (cut.Inside? ==> cut.k < |ws|)
  {
    var d' := PutAll(d, ws[..cut.k]);
    match cut
    case Between(_) => d'
    case Inside(k, torn) => Put(d', if ws[k].ToPrimary? then ToPrimary(torn) else ToBackup(torn))
  }

  function Both(c: Control): Disk {
    Disk(c, c)
  }

  /** From any disk whose block is supported, one uninterrupted call leaves both
      copies good and equal, holding the updated block; its result depends on the
      loaded block only. */
  lemma Converges(crc: Body -> nat, d: Disk, decTries: bool)
    requires Shaped(d) && Supported(Load(crc, d, true))
    ensures var b, plan := Load(crc, d, true), SelectSlot(crc, d, true, decTries);
            && plan.ret == (if Chosen(b) < 0 then -EINVAL else Chosen(b))
            && PutAll(d, plan.writes) == Both(Sealed(crc, Boot(b, decTries)))
  {
    var ws := SelectSlot(crc, d, true, decTries).writes;
    PutAllUpToTwo(d, ws, |ws|);
    assert ws[..|ws|] == ws;
  }

  /** Without a backup, the primary copy ends up good and the other place on disk is
      left alone. */
  lemma ConvergesAlone(crc: Body -> nat, d: Disk, decTries: bool)
    requires Shaped(d) && Supported(Load(crc, d, false))
    ensures var b, plan := Load(crc, d, false), SelectSlot(crc, d, false, decTries);
            && plan.ret == (if Chosen(b) < 0 then -EINVAL else Chosen(b))
            && PutAll(d, plan.writes) == Disk(Sealed(crc, Boot(b, decTries)), d.backup)
  {
    var ws := SelectSlot(crc, d, false, decTries).writes;
    PutAllUpToTwo(d, ws, |ws|);
    assert ws[..|ws|] == ws;
  }

  /** A copy with another magic number or a newer version is refused, and nothing is
      written, exactly when it is good and is the one that is used: the primary copy,
      or the backup in place of one that is not good. */
  lemma UnsupportedKept(crc: Body -> nat, d: Disk, hasBackup: bool, decTries: bool)
    requires Shaped(d)
    ensures var plan := SelectSlot(crc, d, hasBackup, decTries);
            && (plan == Plan(-ENODATA, []) <==> plan.ret == -ENODATA)
            && (plan.ret == -ENODATA <==>
                if d.primary.crc == crc(d.primary.body)
                then d.primary.body.magic != 0x42414342 || d.primary.body.version > 1
                else
                  && hasBackup && d.backup.crc == crc(d.backup.body)
                  && (d.backup.body.magic != 0x42414342 || d.backup.body.version > 1))
  {
  }

  /** When no copy is good, the boots start over with the first of two slots, each of
      which can be tried seven times; a good copy is left. */
  lemma StartsOver(crc: Body -> nat, d: Disk, hasBackup: bool, decTries: bool)
    requires Shaped(d) && !Good(crc, d.primary) && !(hasBackup && Good(crc, d.backup))
    ensures var plan, b := SelectSlot(crc, d, hasBackup, decTries), Load(crc, d, hasBackup);
            && plan.ret == 0 && PutAll(d, plan.writes).primary == Sealed(crc, Boot(b, decTries))
            && b == d.primary.body.(suffix := SuffixOf(0), magic := 0x42414342, version := 1, nbSlot := 2,
                                    reserved := 0, slots := b.slots)
            && |b.slots| == 4 && b.slots[0] == b.slots[1] == Slot(15, 7, false, false)
            && b.slots[2..] == d.primary.body.slots[2..]
  {
    var b := Load(crc, d, hasBackup);
    BestIsPick(b.slots, 2, 0);
    if hasBackup {
      Converges(crc, d, decTries);
    } else {
      ConvergesAlone(crc, d, decTries);
    }
  }

  /** Every cut of a call from two equal good copies leaves a good copy with the
      block before or after the call; the next call behaves as if started from
      that block and leaves both copies good and equal. */
  lemma SingleCrash(crc: Body -> nat, b: Body, decTries: bool, cut: Cut, decNext: bool)
    requires b.Shaped() && Supported(b)
    requires Possible(crc, SelectSlot(crc, Both(Sealed(crc, b)), true, decTries).writes, cut)
    ensures var d := Crashed(Both(Sealed(crc, b)), SelectSlot(crc, Both(Sealed(crc, b)), true, decTries).writes, cut);
            && Shaped(d) && (Good(crc, d.primary) || Good(crc, d.backup))
            && (Load(crc, d, true) == b || Load(crc, d, true) == Boot(b, decTries))
            && var start := Both(Sealed(crc, Load(crc, d, true)));
               var next, clean := SelectSlot(crc, d, true, decNext), SelectSlot(crc, start, true, decNext);
               && next.ret == clean.ret
               && PutAll(d, next.writes) == PutAll(start, clean.writes) ==
                  Both(Sealed(crc, Boot(Load(crc, d, true), decNext)))
  {
    var d0 := Both(Sealed(crc, b));
    var ws := SelectSlot(crc, d0, true, decTries).writes;
    PutAllUpToTwo(d0, ws, cut.k);
    var d := Crashed(d0, ws, cut);
    Converges(crc, d, decNext);
    Converges(crc, Both(Sealed(crc, Load(crc, d, true))), decNext);
  }

  /** For any disk with a good copy: a call survives every possible cut exactly
      when the backup is good or the call has nothing to store in the primary. */
  ghost predicate SurvivesCuts(crc: Body -> nat, d: Disk, decTries: bool)
    requires Shaped(d)
  {
    var ws := SelectSlot(crc, d, true, decTries).writes;
    forall cut :: Possible(crc, ws, cut) ==>
      var d' := Crashed(d, ws, cut); Good(crc, d'.primary) || Good(crc, d'.backup)
  }

  lemma SurvivesExactly(crc: Body -> nat, d: Disk, decTries: bool)
    requires Shaped(d) && Supported(Load(crc, d, true)) && (Good(crc, d.primary) || Good(crc, d.backup))
    ensures SurvivesCuts(crc, d, decTries) <==>
            Good(crc, d.backup) || Boot(Load(crc, d, true), decTries) == Load(crc, d, true)
  {
    if Good(crc, d.backup) || Boot(Load(crc, d, true), decTries) == Load(crc, d, true) {
      forall cut | Possible(crc, SelectSlot(crc, d, true, decTries).writes, cut)
        ensures var d' := Crashed(d, SelectSlot(crc, d, true, decTries).writes, cut);
                Good(crc, d'.primary) || Good(crc, d'.backup)
      {
        SurvivesCut(crc, d, decTries, cut);
      }
    } else {
      FatalCut(crc, d, decTries);
    }
  }

  lemma SurvivesCut(crc: Body -> nat, d: Disk, decTries: bool, cut: Cut)
    requires Shaped(d) && Supported(Load(crc, d, true)) && (Good(crc, d.primary) || Good(crc, d.backup))
    requires Good(crc, d.backup) || Boot(Load(crc, d, true), decTries) == Load(crc, d, true)
    requires Possible(crc, SelectSlot(crc, d, true, decTries).writes, cut)
    ensures var d' := Crashed(d, SelectSlot(crc, d, true, decTries).writes, cut);
            Good(crc, d'.primary) || Good(crc, d'.backup)
  {
    var ws := SelectSlot(crc, d, true, decTries).writes;
    PutAllUpToTwo(d, ws, cut.k);
    assert forall k :: 0 <= k < |ws| ==> Good(crc, ws[k].c);
    assert |ws| == 2 ==> ws[0].ToPrimary? && ws[1].ToBackup?;
  }

  lemma FatalCut(crc: Body -> nat, d: Disk, decTries: bool)
    requires Shaped(d) && Supported(Load(crc, d, true)) && Good(crc, d.primary) && !Good(crc, d.backup)
    requires Boot(Load(crc, d, true), decTries) != Load(crc, d, true)
    ensures !SurvivesCuts(crc, d, decTries)
  {
    var ws := SelectSlot(crc, d, true, decTries).writes;
    var cut := Inside(0, Control(d.primary.body, crc(d.primary.body) + 1));
    PutAllUpToTwo(d, ws, 0);
    assert Possible(crc, ws, cut);
    var d' := Crashed(d, ws, cut);
    assert !Good(crc, d'.primary) && !Good(crc, d'.backup);
  }

  /** So two cuts in a row can lose the block: the first inside the write of the
      backup, the second inside the write of the primary. */
  lemma DoubleCrashLoses(crc: Body -> nat, b: Body, torn: Control)
    requires b.Shaped() && Supported(b) && torn.body.Shaped() && !Good(crc, torn)
    requires Boot(b, true) != b && Boot(Boot(b, true), true) != Boot(b, true)
    ensures var d0 := Both(Sealed(crc, b));
            var ws := SelectSlot(crc, d0, true, true).writes;
            && Possible(crc, ws, Inside(1, torn))
            && var d1 := Crashed(d0, ws, Inside(1, torn));
               && Shaped(d1) && Supported(Load(crc, d1, true)) && !SurvivesCuts(crc, d1, true)
  {
    var d0 := Both(Sealed(crc, b));
    var ws := SelectSlot(crc, d0, true, true).writes;
    PutAllUpToTwo(d0, ws, 1);
    var d1 := Crashed(d0, ws, Inside(1, torn));
    assert d1 == Disk(Sealed(crc, Boot(b, true)), torn);
    SurvivesExactly(crc, d1, true);
  }
}
