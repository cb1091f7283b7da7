/** The Android boot method as a client of slot selection and of the command line. */
module Android {
  import opened CmdlineSpec
  import opened CmdlineMap
  import opened CmdlineBootflow
  import opened AbSelect
  import opened AndroidArgs
  import Ab = AbSpec
  import AbCrash
  import AbRuns

  const PREFIX: string := "androidboot."
  const SLOT_SUFFIX: string := PREFIX + "slot_suffix"
  const FORCE_NORMAL: string := PREFIX + "force_normal_boot"
  const BOOT_STATE: string := PREFIX + "verifiedbootstate"

  function SlotName(slot: nat): string
    requires slot < Ab.MAX_SLOTS
  {
    ['_', "abcd"[slot]]
  }

  /** The name of a slot is an underscore and its letter, counted from 'a'; different
      slots have different names. It is how the suffix in the block starts. */
  lemma SlotNameMeans(slot: nat, other: nat)
    requires slot < 4 && other < 4
    ensures |SlotName(slot)| == 2 && SlotName(slot)[0] == '_' && SlotName(slot)[1] as int == 'a' as int + slot
    ensures slot != other ==> SlotName(slot) != SlotName(other)
    ensures SlotName(slot) == Ab.SuffixOf(slot)[..2]
  {
    assert SlotName(slot)[1] as int == 'a' as int + slot && SlotName(other)[1] as int == 'a' as int + other;
  }

  lemma KeyNames()
    ensures SLOT_SUFFIX == "androidboot.slot_suffix" && FORCE_NORMAL == "androidboot.force_normal_boot"
    ensures BOOT_STATE == "androidboot.verifiedbootstate"
  {
  }

  function SlotEdit(slot: nat): Edit
    requires slot < Ab.MAX_SLOTS
  {
    KeyEdit("slot_suffix", SlotName(slot))
  }

  /** A name without special characters. */
  ghost predicate Plain(key: string) {
    ' ' !in key && '=' !in key && '"' !in key
  }

  lemma KeysArePlain()
    ensures Plain("slot_suffix") && Plain("force_normal_boot") && Plain("verifiedbootstate")
  {
  }

  lemma KeyIsGood(key: string)
    requires Plain(key)
    ensures GoodName(PREFIX + key)
  {
    assert Plain(PREFIX);
    PlainIsGood(PREFIX + key);
  }

  lemma KeysDiffer(key: string, other: string)
    requires key != other
    ensures PREFIX + key != PREFIX + other
  {
    assert (PREFIX + key)[|PREFIX|..] == key && (PREFIX + other)[|PREFIX|..] == other;
  }

  function KeyEdit(key: string, value: string): Edit {
    Edit(PREFIX + key, Value(value), CMDLINE_MAX)
  }

  /** After it was set, a name has its value, and other names have theirs. */
  lemma KeyEditMeans(s: string, key: string, value: string)
    requires Plain(key) && Done(s, KeyEdit(key, value))
    ensures var s' := Apply(s, KeyEdit(key, value));
            && WellQuoted(s') && Get(s', PREFIX + key) == Yes(value)
            && forall other :: other != key ==> Get(s', PREFIX + other) == Get(s, PREFIX + other)
  {
    KeyIsGood(key);
    EditMeans(s, KeyEdit(key, value));
    forall other | other != key ensures PREFIX + other != PREFIX + key {
      KeysDiffer(key, other);
    }
  }

  /** Three different names, set one after the other. */
  lemma ThreeKeysMean(s: string, a: string, va: string, b: string, vb: string, c: string, vc: string)
    requires Plain(a) && Plain(b) && Plain(c) && a != b && a != c && b != c
    requires Done(s, KeyEdit(a, va)) && Done(Apply(s, KeyEdit(a, va)), KeyEdit(b, vb))
    requires Done(Apply(Apply(s, KeyEdit(a, va)), KeyEdit(b, vb)), KeyEdit(c, vc))
    ensures var s' := Apply(Apply(Apply(s, KeyEdit(a, va)), KeyEdit(b, vb)), KeyEdit(c, vc));
            && WellQuoted(s') && Get(s', PREFIX + a) == Yes(va) && Get(s', PREFIX + b) == Yes(vb)
            && Get(s', PREFIX + c) == Yes(vc)
  {
    var s1 := Apply(s, KeyEdit(a, va));
    KeyEditMeans(s, a, va);
    KeyEditMeans(s1, b, vb);
    KeyEditMeans(Apply(s1, KeyEdit(b, vb)), c, vc);
  }

  /** android_read_slot_from_bcb(): selects a slot and puts it on the command line. */
  method ReadSlot(misc: Misc, bflow: Bootflow, hasBackup: bool, decrement: bool) returns (ok: bool, slot: int)
    requires misc.Valid()
    modifies misc, bflow
    ensures misc.Valid()
    ensures var plan := Ab.SelectSlot(misc.crc, old(misc.Contents()), hasBackup, decrement);
            && slot == plan.ret && misc.log == old(misc.log) + plan.writes
            && misc.Contents() == Ab.PutAll(old(misc.Contents()), plan.writes)
    ensures slot < Ab.MAX_SLOTS
    ensures slot < 0 ==> !ok && bflow.cmdline == old(bflow.cmdline)
    ensures slot >= 0 ==> bflow.cmdline == Apply(old(bflow.cmdline), SlotEdit(slot))
    ensures slot >= 0 ==> (ok <==> Done(old(bflow.cmdline), SlotEdit(slot)))
  {
    slot := misc.Select(hasBackup, decrement);
    if slot < 0 {
      return false, slot;
    }
    var status := bflow.CmdlineSetArg(SLOT_SUFFIX, Value(SlotName(slot)));
    ok := status == Ok;
  }

  /** After a boot, the suffix in the primary copy is that of the slot. */
  lemma SuffixOnDisk(crc: Ab.Body -> nat, d: Ab.Disk, hasBackup: bool)
    requires AbCrash.Shaped(d) && Ab.Supported(Ab.Load(crc, d, hasBackup))
    requires Ab.SelectSlot(crc, d, hasBackup, true).ret >= 0
    ensures var plan := Ab.SelectSlot(crc, d, hasBackup, true);
            plan.ret < 4 && Ab.PutAll(d, plan.writes).primary.body.suffix == Ab.SuffixOf(plan.ret)
  {
    if hasBackup {
      AbCrash.Converges(crc, d, true);
    } else {
      AbCrash.ConvergesAlone(crc, d, true);
    }
  }

  /** A normal boot: the bootflow is read, which looks at the slot, and later
      booted, which selects the slot again and uses up a try. The slot looked at
      is the one loaded, the disk is as after a single boot, and the command line
      names that slot whatever the extra arguments say about it. */
  method BootNormal(misc: Misc, bflow: Bootflow, hasBackup: bool, extra: string)
    returns (ok: bool, verified: int, loaded: int)
    requires misc.Valid()
    modifies misc, bflow
    ensures misc.Valid()
    ensures ok ==> 0 <= verified == loaded < Ab.MAX_SLOTS
    ensures ok ==>
              var b := Ab.Load(misc.crc, old(misc.Contents()), hasBackup); Ab.Supported(b) && loaded == Ab.Chosen(b)
    ensures var d := old(misc.Contents());
            var look, boot := Ab.SelectSlot(misc.crc, d, hasBackup, false), Ab.SelectSlot(misc.crc, d, hasBackup, true);
            && (ok ==> misc.Contents() == Ab.PutAll(d, boot.writes))
            && (misc.Contents() == Ab.PutAll(d, look.writes) || misc.Contents() == Ab.PutAll(d, boot.writes))
    ensures ok ==>
              && WellQuoted(bflow.cmdline) && Get(bflow.cmdline, SLOT_SUFFIX) == Yes(SlotName(loaded))
              && |misc.primary.body.suffix| == 4 && misc.primary.body.suffix[..2] == SlotName(loaded)
              && misc.primary.body.suffix[1] as int == 'a' as int + loaded
              && Get(bflow.cmdline, FORCE_NORMAL) == Yes("1") && Get(bflow.cmdline, BOOT_STATE) == Yes("orange")
  {
    loaded := -1;
    ok, verified := ReadSlot(misc, bflow, hasBackup, false);
    if !ok {
      return;
    }
    AbRuns.LookThenBoot(misc.crc, old(misc.Contents()), hasBackup);
    var ignored := ConfigureExtra(bflow, extra);
    ghost var s := bflow.cmdline;
    var status := bflow.CmdlineSetArg(FORCE_NORMAL, Value("1"));
    if status != Ok {
      return false, verified, loaded;
    }
    status := bflow.CmdlineSetArg(BOOT_STATE, Value("orange"));
    if status != Ok {
      return false, verified, loaded;
    }
    ok, loaded := ReadSlot(misc, bflow, hasBackup, true);
    if ok {
      SuffixOnDisk(misc.crc, old(misc.Contents()), hasBackup);
      SlotNameMeans(loaded, 0);
      KeysArePlain();
      ThreeKeysMean(s, "force_normal_boot", "1", "verifiedbootstate", "orange", "slot_suffix", SlotName(loaded));
    }
  }
}
