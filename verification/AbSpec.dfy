/** A/B boot slots: the boot control block, and what one boot does to it. */
module AbSpec {

  const BOOT_CTRL_MAGIC: nat := 0x42414342
  const BOOT_CTRL_VERSION: nat := 1
  const NUM_SLOTS: nat := 2
  const MAX_SLOTS: nat := 4

  const EINVAL: int := 22
  const ENODATA: int := 61

  datatype Slot = Slot(priority: nat, tries: nat, successful: bool, corrupted: bool)

  /** The boot control block up to its checksum. */
  datatype Body = Body(suffix: string, magic: nat, version: nat, nbSlot: nat, recoveryTries: nat,
                       reserved: nat, slots: seq<Slot>)
  {
    predicate Shaped() {
      |slots| == MAX_SLOTS
    }
  }

  datatype Control = Control(body: Body, crc: nat)

  // -------------------------------------------------------------------------
  // Which slot to boot
  // -------------------------------------------------------------------------

  predicate Bootable(s: Slot) {
    !s.corrupted && s.tries > 0
  }

  /** Higher priority is better, then being known to work, then more tries. */
  predicate Better(a: Slot, b: Slot) {
    || a.priority > b.priority
    || (a.priority == b.priority && a.successful && !b.successful)
    || (a.priority == b.priority && a.successful == b.successful && a.tries > b.tries)
  }

  /** ab_compare_slots(): negative if the first slot is better. */
  function Compare(a: Slot, b: Slot): (r: int)
    ensures r < 0 <==> Better(a, b)
    ensures r > 0 <==> Better(b, a)
  {
    var successA, successB := if a.successful then 1 else 0, if b.successful then 1 else 0;
    if a.priority != b.priority then b.priority as int - a.priority as int
    else if successA != successB then successB - successA
    else b.tries as int - a.tries as int
  }

  /** The slot that the search over the first `n` slots ends with when it looks
      at the slots that are `ok`, or -1. */
  function PickBy(ok: Slot -> bool, slots: seq<Slot>, n: nat): (r: int)
    requires n <= |slots|
    ensures -1 <= r < n
  {
    if n == 0 then -1
    else
      var p := PickBy(ok, slots, n - 1);
      if ok(slots[n - 1]) && (p < 0 || Compare(slots[n - 1], slots[p]) < 0) then n - 1 else p
  }

  function Pick(slots: seq<Slot>, n: nat): (r: int)
    requires n <= |slots|
    ensures -1 <= r < n
  {
    PickBy(Bootable, slots, n)
  }

  /** Slot `r` is `ok`, no slot that is `ok` is better, and those that are as good
      come after it. */
  ghost predicate IsBestBy(ok: Slot -> bool, slots: seq<Slot>, n: nat, r: nat)
    requires n <= |slots|
  {
    && r < n && ok(slots[r])
    && (forall j :: 0 <= j < n && ok(slots[j]) ==> Compare(slots[r], slots[j]) <= 0)
    && (forall j :: 0 <= j < r && ok(slots[j]) ==> Compare(slots[r], slots[j]) < 0)
  }

  ghost predicate IsBest(slots: seq<Slot>, n: nat, r: nat)
    requires n <= |slots|
  {
    IsBestBy(Bootable, slots, n, r)
  }

  /** The best slot is the one that a strict order puts first among those that have a
      try and are not corrupted: by priority, then by being known to work, then by
      tries, then by number. */
  lemma BestMeans(slots: seq<Slot>, n: nat, r: nat)
    requires n <= |slots|
    ensures IsBest(slots, n, r) <==>
            && r < n && slots[r].tries > 0 && !slots[r].corrupted
            && forall j :: 0 <= j < n && j != r && slots[j].tries > 0 && !slots[j].corrupted ==>
                 var s, t := slots[r], slots[j];
                 if s.priority != t.priority then s.priority > t.priority
                 else if s.successful != t.successful then s.successful
                 else s.tries > t.tries || (s.tries == t.tries && r < j)
  {
  }

  lemma {:induction false} PickByIsBest(ok: Slot -> bool, slots: seq<Slot>, n: nat)
    requires n <= |slots|
    ensures PickBy(ok, slots, n) < 0 <==> (forall j :: 0 <= j < n ==> !ok(slots[j]))
    ensures PickBy(ok, slots, n) >= 0 ==> IsBestBy(ok, slots, n, PickBy(ok, slots, n))
  {
    if n > 0 {
      PickByIsBest(ok, slots, n - 1);
    }
  }

  /** The search finds the best bootable slot with the lowest index, and fails
      only when no slot is bootable. */
  lemma PickIsBest(slots: seq<Slot>, n: nat)
    requires n <= |slots|
    ensures Pick(slots, n) < 0 <==> (forall j :: 0 <= j < n ==> !Bootable(slots[j]))
    ensures Pick(slots, n) >= 0 ==> IsBest(slots, n, Pick(slots, n))
  {
    PickByIsBest(Bootable, slots, n);
  }

  /** There is only one such slot. */
  lemma BestIsPick(slots: seq<Slot>, n: nat, r: nat)
    requires n <= |slots| && IsBest(slots, n, r)
    ensures Pick(slots, n) == r
  {
    PickIsBest(slots, n);
  }

  /** The comment above the search also calls a slot bootable that has no tries
      left but is known to work. */
  predicate DocumentedBootable(s: Slot) {
    !s.corrupted && (s.tries > 0 || s.successful)
  }

  /** The code chooses as the comment says exactly when the slot that the comment
      would choose still has a try, or there is none. */
  lemma AgreesWithComment(slots: seq<Slot>, n: nat)
    requires n <= |slots|
    ensures var r := PickBy(DocumentedBootable, slots, n);
            Pick(slots, n) == r <==> r < 0 || slots[r].tries > 0
  {
    PickByIsBest(DocumentedBootable, slots, n);
    PickIsBest(slots, n);
    var r := PickBy(DocumentedBootable, slots, n);
    if r >= 0 && slots[r].tries > 0 {
      assert forall j :: 0 <= j < n && Bootable(slots[j]) ==> DocumentedBootable(slots[j]);
      BestIsPick(slots, n, r);
    }
  }

  /** They differ: the first slot works but has no tries left, so the second is
      booted. */
  lemma DiffersFromComment()
    ensures var slots := [Slot(15, 0, true, false), Slot(14, 7, false, false)];
            PickBy(DocumentedBootable, slots, 2) == 0 && Pick(slots, 2) == 1
  {
    var slots := [Slot(15, 0, true, false), Slot(14, 7, false, false)];
    assert PickBy(DocumentedBootable, slots, 1) == 0 && PickBy(Bootable, slots, 1) == -1;
  }

  // -------------------------------------------------------------------------
  // One boot
  // -------------------------------------------------------------------------

  function Limit(nbSlot: nat): nat {
    if nbSlot > MAX_SLOTS then MAX_SLOTS else nbSlot
  }

  function SuffixOf(slot: nat): string
    requires slot < MAX_SLOTS
  {
    ['_', "abcd"[slot], '\0', '\0']
  }

  function Chosen(b: Body): (r: int)
    requires b.Shaped()
    ensures -1 <= r < Limit(b.nbSlot)
  {
    Pick(b.slots, Limit(b.nbSlot))
  }

  function UseTry(slots: seq<Slot>, i: nat): seq<Slot>
    requires i < |slots| && slots[i].tries > 0
  {
    slots[i := slots[i].(tries := slots[i].tries - 1)]
  }

  lemma ChosenBootable(b: Body)
    requires b.Shaped() && Chosen(b) >= 0
    ensures Bootable(b.slots[Chosen(b)])
  {
    PickIsBest(b.slots, Limit(b.nbSlot));
  }

  /** The block after a selection: the slot count is limited, an unproven slot
      has one try less if asked for, and the suffix names the slot. */
  function Boot(b: Body, decTries: bool): (r: Body)
    requires b.Shaped()
    ensures r.Shaped()
  {
    var slot := Chosen(b);
    var b' := b.(nbSlot := Limit(b.nbSlot));
    if slot < 0 then b'
    else
      ChosenBootable(b);
      var slots := if decTries && !b.slots[slot].successful then UseTry(b.slots, slot) else b.slots;
      b'.(slots := slots, suffix := SuffixOf(slot))
  }

  /** The suffix of a slot is an underscore and its letter, counted from 'a', filled
      up with NULs. */
  lemma SuffixMeans(slot: nat)
    requires slot < 4
    ensures var s := SuffixOf(slot);
            |s| == 4 && s[0] == '_' && s[1] as int == 'a' as int + slot && s[2] == s[3] == '\0'
  {
  }

  /** What a selection does to the block: the slot count is at most four, the best
      bootable slot loses a try if it is not proven and a try is to be used, the
      suffix names it, and everything else stays. */
  lemma BootMeans(b: Body, decTries: bool)
    requires b.Shaped()
    ensures var r, s, n := Boot(b, decTries), Chosen(b), if b.nbSlot < 4 then b.nbSlot else 4;
            && r == b.(nbSlot := n, suffix := r.suffix, slots := r.slots) && |r.slots| == |b.slots|
            && (if s < 0 then (forall j :: 0 <= j < n ==> !Bootable(b.slots[j])) else IsBest(b.slots, n, s))
            && (s < 0 ==> r.suffix == b.suffix && r.slots == b.slots)
            && (s >= 0 ==>
                  && |r.suffix| == 4 && r.suffix[0] == '_' && r.suffix[1] as int == 'a' as int + s
                  && r.slots[s] == b.slots[s].(tries := r.slots[s].tries)
                  && r.slots[s].tries == b.slots[s].tries - (if decTries && !b.slots[s].successful then 1 else 0)
                  && forall j :: 0 <= j < 4 && j != s ==> r.slots[j] == b.slots[j])
  {
    PickIsBest(b.slots, Limit(b.nbSlot));
  }

  // -------------------------------------------------------------------------
  // The two copies on disk
  // -------------------------------------------------------------------------

  datatype Disk = Disk(primary: Control, backup: Control)

  datatype Write = ToPrimary(c: Control) | ToBackup(c: Control)

  function Put(d: Disk, w: Write): Disk {
    match w
    case ToPrimary(c) => d.(primary := c)
    case ToBackup(c) => d.(backup := c)
  }

  function PutAll(d: Disk, ws: seq<Write>): Disk
    decreases |ws|
  {
    if ws == [] then d else PutAll(Put(d, ws[0]), ws[1..])
  }

  lemma PutAllUpToTwo(d: Disk, ws: seq<Write>, k: nat)
    requires |ws| <= 2 && k <= |ws|
    ensures PutAll(d, ws[..k]) == if k == 0 then d else if k == 1 then Put(d, ws[0]) else Put(Put(d, ws[0]), ws[1])
  {
    if k == 1 {
      assert ws[..1][1..] == [];
    } else if k == 2 {
      assert ws[..2][1..] == [ws[1]];
      assert [ws[1]][1..] == [];
      assert PutAll(Put(d, ws[0]), [ws[1]]) == Put(Put(d, ws[0]), ws[1]);
    }
  }

  predicate Good(crc: Body -> nat, c: Control) {
    c.crc == crc(c.body)
  }

  function Sealed(crc: Body -> nat, b: Body): Control {
    Control(b, crc(b))
  }

  /** ab_control_default(): two slots to try seven times each, from the first. */
  function Default(b: Body): (r: Body)
    requires b.Shaped()
    ensures r.Shaped()
  {
    var untried := Slot(15, 7, false, false);
    b.(suffix := "_a\0\0", magic := BOOT_CTRL_MAGIC, version := BOOT_CTRL_VERSION, nbSlot := NUM_SLOTS,
       reserved := 0, slots := [untried, untried] + b.slots[NUM_SLOTS..])
  }

  /** The block that a boot works with: the primary copy, else the backup, else
      the default. */
  function Load(crc: Body -> nat, d: Disk, hasBackup: bool): Body
    requires d.primary.body.Shaped()
  {
    if Good(crc, d.primary) then d.primary.body
    else if hasBackup && Good(crc, d.backup) then d.backup.body
    else Default(d.primary.body)
  }

  predicate Supported(b: Body) {
    b.magic == BOOT_CTRL_MAGIC && b.version <= BOOT_CTRL_VERSION
  }

  /** What ab_select_slot() returns and the writes it makes, in order. */
  datatype Plan = Plan(ret: int, writes: seq<Write>)

  /** The primary copy if it has to be stored, then the backup if it differs. */
  function Writes(d: Disk, hasBackup: bool, store: bool, c: Control): seq<Write> {
    (if store then [ToPrimary(c)] else []) + (if hasBackup && d.backup != c then [ToBackup(c)] else [])
  }

  function SelectSlot(crc: Body -> nat, d: Disk, hasBackup: bool, decTries: bool): Plan
    requires d.primary.body.Shaped() && d.backup.body.Shaped()
  {
    var b := Load(crc, d, hasBackup);
    if !Supported(b) then Plan(-ENODATA, [])
    else
      var b' := Boot(b, decTries);
      var store := !Good(crc, d.primary) || b' != b;
      var c := if store then Sealed(crc, b') else d.primary;
      Plan(if Chosen(b) < 0 then -EINVAL else Chosen(b),
           Writes(d, hasBackup, store, c))
  }
}
