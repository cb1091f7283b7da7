/** ab_select_slot() on the misc partition that holds the two copies. */
module AbSelect {
  import opened AbSpec

  class Misc {
    const crc: Body -> nat
    var primary: Control
    var backup: Control
    var log: seq<Write>

    ghost predicate Valid()
      reads this
    {
      primary.body.Shaped() && backup.body.Shaped()
    }

    ghost function Contents(): Disk
      reads this
    {
      Disk(primary, backup)
    }

    constructor (crc: Body -> nat, primary: Control, backup: Control)
      requires primary.body.Shaped() && backup.body.Shaped()
      ensures Valid() && this.crc == crc && Contents() == Disk(primary, backup) && log == []
    {
      this.crc, this.primary, this.backup, log := crc, primary, backup, [];
    }

    /** The search for the slot to boot. */
    method FindSlot(slots: seq<Slot>, nbSlot: nat) returns (slot: int)
      requires nbSlot <= |slots|
      ensures slot == Pick(slots, nbSlot)
      ensures slot < 0 <==> (forall j :: 0 <= j < nbSlot ==> !Bootable(slots[j]))
      ensures slot >= 0 ==> IsBest(slots, nbSlot, slot)
    {
      slot := -1;
      for i := 0 to nbSlot
        invariant slot == Pick(slots, i)
      {
        if slots[i].corrupted || slots[i].tries == 0 {
          continue;
        }
        if slot < 0 || Compare(slots[i], slots[slot]) < 0 {
          slot := i;
        }
      }
      PickIsBest(slots, nbSlot);
    }

    /** Chooses a slot and updates the block in memory. */
    method UpdateBlock(b: Body, decTries: bool) returns (b': Body, slot: int, changed: bool)
      requires b.Shaped()
      ensures b' == Boot(b, decTries) && slot == Chosen(b) && changed == (b' != b)
    {
      b', changed := b, false;
      if b'.nbSlot > MAX_SLOTS {
        b', changed := b'.(nbSlot := MAX_SLOTS), true;
      }
      slot := FindSlot(b'.slots, b'.nbSlot);
      if slot >= 0 && !b'.slots[slot].successful && decTries {
        ChosenBootable(b);
        b', changed := b'.(slots := UseTry(b'.slots, slot)), true;
        assert b'.slots[slot] != b.slots[slot];
      }
      if slot >= 0 && b'.suffix != SuffixOf(slot) {
        b', changed := b'.(suffix := SuffixOf(slot)), true;
      }
    }

    /** Reads the block, repairing it if its checksum is wrong. */
    method LoadBlock(hasBackup: bool) returns (abc: Control, storeNeeded: bool)
      requires Valid()
      ensures abc.body == Load(crc, Contents(), hasBackup) && Good(crc, abc) && abc.body.Shaped()
      ensures storeNeeded == !Good(crc, primary) && (!storeNeeded ==> abc == primary)
    {
      abc, storeNeeded := primary, false;
      if abc.crc != crc(abc.body) {
        if hasBackup && backup.crc == crc(backup.body) {
          abc := backup;
        } else {
          abc := Sealed(crc, Default(abc.body));
        }
        storeNeeded := true;
      }
    }

    /** Writes the block where it has to be written. */
    method Store(abc: Control, hasBackup: bool, storeNeeded: bool)
      modifies this
      ensures var ws := Writes(old(Contents()), hasBackup, storeNeeded, abc);
              log == old(log) + ws && Contents() == PutAll(old(Contents()), ws)
    {
      ghost var d, ws := Contents(), Writes(Contents(), hasBackup, storeNeeded, abc);
      if storeNeeded {
        primary, log := abc, log + [ToPrimary(abc)];
      }
      if hasBackup && backup != abc {
        backup, log := abc, log + [ToBackup(abc)];
      }
      PutAllUpToTwo(d, ws, |ws|);
      assert ws[..|ws|] == ws;
    }

    /** The number of the slot to boot, or a negative error. The log says in which
        order the writes are made, which is what a power cut depends on. */
    method Select(hasBackup: bool, decTries: bool) returns (ret: int)
      requires Valid()
      modifies this
      ensures Valid()
      ensures var plan := SelectSlot(crc, old(Contents()), hasBackup, decTries);
              && ret == plan.ret && log == old(log) + plan.writes
              && Contents() == PutAll(old(Contents()), plan.writes)
    {
      var abc, storeNeeded := LoadBlock(hasBackup);
      if abc.body.magic != BOOT_CTRL_MAGIC {
        return -ENODATA;
      }
      if abc.body.version > BOOT_CTRL_VERSION {
        return -ENODATA;
      }
      var b, slot, changed := UpdateBlock(abc.body, decTries);
      abc := abc.(body := b);
      storeNeeded := storeNeeded || changed;
      if storeNeeded {
        abc := abc.(crc := crc(b));
      }
      ghost var ws := Writes(Contents(), hasBackup, storeNeeded, abc);
      PutAllUpToTwo(Contents(), ws, |ws|);
      assert ws[..|ws|] == ws;
      Store(abc, hasBackup, storeNeeded);
      ret := if slot < 0 then -EINVAL else slot;
    }
  }
}
