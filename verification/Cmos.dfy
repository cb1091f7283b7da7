/** Settings of menus kept in CMOS RAM: each menu has a range of bits. */
module Cmos {
  import opened Sequences
  import opened CmosBits

  const CMOS_MAX_BITS: nat := 2048
  const CMOS_MAX_BYTES: nat := 256

  datatype Error = ENOENT | EINVAL | E2BIG
  datatype Status = Ok | Err(error: Error)

  /** A menu item: without a value of its own, it stands for its number. */
  datatype Item = Item(id: nat, value: OptValue)
  datatype OptValue = Number | Own(v: int)

  datatype Menu = Menu(items: seq<Item>, curItemId: nat, startBit: nat, bitLength: nat)

  /** The objects of an expo; only menus with an identifier of their own count. */
  datatype Obj = Ignored | Setting(menu: Menu)

  // -------------------------------------------------------------------------
  // Menu items
  // -------------------------------------------------------------------------

  function ItemValue(items: seq<Item>, k: nat): int
    requires k < |items|
  {
    match items[k].value
    case Number => k
    case Own(v) => v
  }

  datatype Found = Nowhere | Index(k: nat)

  /** The first item with this identifier. */
  function FindId(items: seq<Item>, id: nat, k: nat): (r: Found)
    requires k <= |items|
    ensures r.Index? ==> k <= r.k < |items| && items[r.k].id == id
    ensures r.Nowhere? ==> forall j :: k <= j < |items| ==> items[j].id != id
    decreases |items| - k
  {
    if k == |items| then Nowhere else if items[k].id == id then Index(k) else FindId(items, id, k + 1)
  }

  /** scene_menuitem_find_val(): the first item with this value. */
  function FindVal(items: seq<Item>, v: int, k: nat): (r: Found)
    requires k <= |items|
    ensures r.Index? ==> k <= r.k < |items| && ItemValue(items, r.k) == v
    ensures r.Nowhere? ==> forall j :: k <= j < |items| ==> ItemValue(items, j) != v
    ensures r.Index? ==> forall j :: k <= j < r.k ==> ItemValue(items, j) != v
    decreases |items| - k
  {
    if k == |items| then Nowhere else if ItemValue(items, k) == v then Index(k) else FindVal(items, v, k + 1)
  }

  /** get_cur_menuitem_val(): the value of the current item. */
  method GetCurVal(m: Menu) returns (status: Status, val: int)
    ensures match FindId(m.items, m.curItemId, 0)
            case Nowhere => status == Err(ENOENT)
            case Index(k) => status == Ok && val == ItemValue(m.items, k)
  {
    val := 0;
    for k := 0 to |m.items|
      invariant FindId(m.items, m.curItemId, 0) == FindId(m.items, m.curItemId, k)
    {
      if m.items[k].id == m.curItemId {
        return Ok, match m.items[k].value case Number => k case Own(v) => v;
      }
    }
    return Err(ENOENT), 0;
  }

  // -------------------------------------------------------------------------
  // What should be in the CMOS RAM
  // -------------------------------------------------------------------------

  /** Whether writing a menu succeeds, and why not. */
  function MenuStatus(m: Menu): Status {
    if FindId(m.items, m.curItemId, 0).Nowhere? then Err(ENOENT)
    else if m.bitLength == 0 then Err(EINVAL)
    else if m.startBit + m.bitLength > CMOS_MAX_BITS then Err(E2BIG)
    else Ok
  }

  function Value(m: Menu): int
    requires MenuStatus(m) == Ok
  {
    ItemValue(m.items, FindId(m.items, m.curItemId, 0).k)
  }

  predicate Covers(m: Menu, b: nat) {
    m.startBit <= b < m.startBit + m.bitLength
  }

  function ObjStatus(obj: Obj): Status {
    if obj.Ignored? then Ok else MenuStatus(obj.menu)
  }

  predicate ObjCovers(obj: Obj, b: nat) {
    obj.Setting? && Covers(obj.menu, b)
  }

  predicate ObjBit(obj: Obj, b: nat)
    requires ObjStatus(obj) == Ok
  {
    ObjCovers(obj, b) && ValBit(Value(obj.menu), b - obj.menu.startBit)
  }

  /** The error of the first object from number `k` on that has one. */
  function FirstError(objs: seq<Obj>, k: nat): Status
    requires k <= |objs|
    decreases |objs| - k
  {
    if k == |objs| then Ok
    else if ObjStatus(objs[k]) != Ok then ObjStatus(objs[k])
    else FirstError(objs, k + 1)
  }

  ghost predicate AllOk(objs: seq<Obj>, n: nat)
    requires n <= |objs|
  {
    forall k :: 0 <= k < n ==> ObjStatus(objs[k]) == Ok
  }

  /** Some menu among the first `n` objects uses this bit. */
  ghost predicate Used(objs: seq<Obj>, n: nat, b: nat)
    requires n <= |objs|
  {
    exists k :: 0 <= k < n && ObjCovers(objs[k], b)
  }

  /** Some menu among the first `n` objects has this bit set. */
  ghost predicate Wanted(objs: seq<Obj>, n: nat, b: nat)
    requires n <= |objs| && AllOk(objs, n)
  {
    exists k :: 0 <= k < n && ObjBit(objs[k], b)
  }

  ghost predicate ByteUsed(objs: seq<Obj>, i: nat) {
    exists b :: 8 * i <= b < 8 * i + 8 && Used(objs, |objs|, b)
  }

  // -------------------------------------------------------------------------
  // Writing
  // -------------------------------------------------------------------------

  /** The real-time clock's memory, and which bytes were written and read. */
  class Rtc {
    var mem: seq<bv8>
    var written: seq<nat>
    var fetched: seq<nat>

    constructor (mem: seq<bv8>)
      ensures this.mem == mem && written == [] && fetched == []
    {
      this.mem, written, fetched := mem, [], [];
    }

    method Write8(i: nat, v: bv8)
      requires i < |mem|
      modifies this`mem, this`written
      ensures mem == old(mem)[i := v] && written == old(written) + [i]
    {
      mem, written := mem[i := v], written + [i];
    }

    method Read8(i: nat) returns (v: bv8)
      requires i < |mem|
      modifies this`fetched
      ensures v == mem[i] && fetched == old(fetched) + [i]
    {
      fetched := fetched + [i];
      return mem[i];
    }
  }

  method OrInto(a: array<bv8>, b: nat)
    requires a.Length == CMOS_MAX_BYTES && b < CMOS_MAX_BITS
    modifies a
    ensures forall c :: 0 <= c < CMOS_MAX_BITS ==> (BitAt(a[..], c) <==> c == b || BitAt(old(a[..]), c))
  {
    ghost var was := a[..];
    a[b / 8] := a[b / 8] | Bit(b % 8);
    assert a[..] == was[b / 8 := was[b / 8] | Bit(b % 8)];
    forall c | 0 <= c < CMOS_MAX_BITS ensures BitAt(a[..], c) <==> c == b || BitAt(was, c) {
      SetBit(was, b, c);
    }
  }

  /** h_write_settings_cmos(): adds a menu's bits to the mask and the value. */
  method WriteObj(obj: Obj, mask: array<bv8>, value: array<bv8>) returns (status: Status)
    requires mask != value && mask.Length == value.Length == CMOS_MAX_BYTES
    modifies mask, value
    ensures status == ObjStatus(obj)
    ensures status == Ok ==> forall b :: 0 <= b < CMOS_MAX_BITS ==>
              (BitAt(mask[..], b) <==> BitAt(old(mask[..]), b) || ObjCovers(obj, b))
    ensures status == Ok ==> forall b :: 0 <= b < CMOS_MAX_BITS ==>
              (BitAt(value[..], b) <==> BitAt(old(value[..]), b) || ObjBit(obj, b))
  {
    if obj.Ignored? {
      return Ok;
    }
    var m := obj.menu;
    var val: int;
    status, val := GetCurVal(m);
    if status != Ok {
      return;
    }
    if m.bitLength == 0 {
      return Err(EINVAL);
    }
    if m.startBit + m.bitLength > CMOS_MAX_BITS {
      return Err(E2BIG);
    }
    ghost var v := val;
    for i := 0 to m.bitLength
      invariant val == Shift(v, i)
      invariant forall b :: 0 <= b < CMOS_MAX_BITS ==>
        (BitAt(mask[..], b) <==> BitAt(old(mask[..]), b) || m.startBit <= b < m.startBit + i)
      invariant forall b :: 0 <= b < CMOS_MAX_BITS ==>
        (BitAt(value[..], b) <==>
         BitAt(old(value[..]), b) || (m.startBit <= b < m.startBit + i && ValBit(v, b - m.startBit)))
    {
      var bitnum := m.startBit + i;
      ShiftBit(v, i, 0);
      OrInto(mask, bitnum);
      if val % 2 == 1 {
        OrInto(value, bitnum);
      }
      val := val / 2;
    }
  }

  lemma UsedNext(objs: seq<Obj>, n: nat, b: nat)
    requires n < |objs|
    ensures Used(objs, n + 1, b) <==> Used(objs, n, b) || ObjCovers(objs[n], b)
  {
  }

  lemma WantedNext(objs: seq<Obj>, n: nat, b: nat)
    requires n < |objs| && AllOk(objs, n + 1)
    ensures Wanted(objs, n + 1, b) <==> Wanted(objs, n, b) || ObjBit(objs[n], b)
  {
  }

  /** Adds the bits of all menus, up to the first error. */
  method CollectBits(objs: seq<Obj>, mask: array<bv8>, value: array<bv8>) returns (status: Status)
    requires mask != value && mask.Length == value.Length == CMOS_MAX_BYTES
    requires forall i :: 0 <= i < CMOS_MAX_BYTES ==> mask[i] == 0 && value[i] == 0
    modifies mask, value
    ensures status == FirstError(objs, 0)
    ensures status == Ok ==> AllOk(objs, |objs|)
    ensures status == Ok ==> forall b :: 0 <= b < CMOS_MAX_BITS ==> (BitAt(mask[..], b) <==> Used(objs, |objs|, b))
    ensures status == Ok ==> forall b :: 0 <= b < CMOS_MAX_BITS ==> (BitAt(value[..], b) <==> Wanted(objs, |objs|, b))
  {
    assert forall b :: 0 <= b < CMOS_MAX_BITS ==> !BitAt(mask[..], b) && !BitAt(value[..], b);
    for k := 0 to |objs|
      invariant FirstError(objs, 0) == FirstError(objs, k) && AllOk(objs, k)
      invariant forall b :: 0 <= b < CMOS_MAX_BITS ==> (BitAt(mask[..], b) <==> Used(objs, k, b))
      invariant forall b :: 0 <= b < CMOS_MAX_BITS ==> (BitAt(value[..], b) <==> Wanted(objs, k, b))
    {
      status := WriteObj(objs[k], mask, value);
      if status != Ok {
        return;
      }
      forall b | 0 <= b < CMOS_MAX_BITS
        ensures BitAt(mask[..], b) <==> Used(objs, k + 1, b)
        ensures BitAt(value[..], b) <==> Wanted(objs, k + 1, b)
      {
        UsedNext(objs, k, b);
        WantedNext(objs, k, b);
      }
    }
    return Ok;
  }

  lemma MaskByte(mask: seq<bv8>, objs: seq<Obj>, i: nat)
    requires i < |mask| == CMOS_MAX_BYTES
    requires forall b :: 0 <= b < CMOS_MAX_BITS ==> (BitAt(mask, b) <==> Used(objs, |objs|, b))
    ensures mask[i] != 0 <==> ByteUsed(objs, i)
  {
    NoBits(mask[i]);
    if mask[i] != 0 {
      var k :| 0 <= k < 8 && mask[i] & Bit(k) != 0;
      assert (8 * i + k) / 8 == i && (8 * i + k) % 8 == k;
      assert BitAt(mask, 8 * i + k);
    }
    if ByteUsed(objs, i) {
      var b :| 8 * i <= b < 8 * i + 8 && Used(objs, |objs|, b);
      assert b / 8 == i && BitAt(mask, b);
    }
  }

  /** What the memory should hold after writing: in the bytes that hold a bit of a
      menu, exactly the bits of the menus; every other byte as it was. */
  ghost predicate Written(objs: seq<Obj>, mem: seq<bv8>, mem': seq<bv8>)
    requires AllOk(objs, |objs|) && |mem| == |mem'| == CMOS_MAX_BYTES
  {
    && (forall i :: 0 <= i < CMOS_MAX_BYTES && !ByteUsed(objs, i) ==> mem'[i] == mem[i])
    && (forall b :: 0 <= b < CMOS_MAX_BITS && ByteUsed(objs, b / 8) ==> (BitAt(mem', b) <==> Wanted(objs, |objs|, b)))
  }

  /** cedit_write_settings_cmos(): nothing is written if a menu has an error;
      otherwise only bytes with a menu's bit are written, each once. */
  method WriteSettings(objs: seq<Obj>, rtc: Rtc) returns (status: Status)
    requires |rtc.mem| == CMOS_MAX_BYTES
    modifies rtc`mem, rtc`written
    ensures status == FirstError(objs, 0)
    ensures status != Ok ==> rtc.mem == old(rtc.mem) && rtc.written == old(rtc.written)
    ensures status == Ok ==> AllOk(objs, |objs|) && |rtc.mem| == CMOS_MAX_BYTES && Written(objs, old(rtc.mem), rtc.mem)
    ensures status == Ok ==> old(rtc.written) <= rtc.written
    ensures status == Ok ==>
              forall i :: 0 <= i < CMOS_MAX_BYTES ==> (i in rtc.written[|old(rtc.written)|..] <==> ByteUsed(objs, i))
    ensures status == Ok ==> Ascending(rtc.written[|old(rtc.written)|..])
  {
    var mask := new bv8[CMOS_MAX_BYTES](_ => 0);
    var value := new bv8[CMOS_MAX_BYTES](_ => 0);
    status := CollectBits(objs, mask, value);
    if status != Ok {
      return;
    }
    ghost var mem, before, bits, vals := rtc.mem, rtc.written, mask[..], value[..];
    for i := 0 to CMOS_MAX_BYTES
      invariant mask[..] == bits && value[..] == vals
      invariant |rtc.mem| == CMOS_MAX_BYTES && before <= rtc.written
      invariant forall k :: 0 <= k < CMOS_MAX_BYTES ==>
        rtc.mem[k] == if k < i && ByteUsed(objs, k) then vals[k] else mem[k]
      invariant forall k :: 0 <= k < CMOS_MAX_BYTES ==>
        (k in rtc.written[|before|..] <==> k < i && ByteUsed(objs, k))
      invariant Ascending(rtc.written[|before|..])
      invariant forall k :: 0 <= k < |rtc.written| - |before| ==> rtc.written[|before|..][k] < i
    {
      MaskByte(bits, objs, i);
      if mask[i] != 0 {
        ghost var was := rtc.written;
        rtc.Write8(i, value[i]);
        assert rtc.written[|before|..] == was[|before|..] + [i];
      }
    }
    forall b | 0 <= b < CMOS_MAX_BITS && ByteUsed(objs, b / 8)
      ensures BitAt(rtc.mem, b) <==> Wanted(objs, |objs|, b)
    {
      assert rtc.mem[b / 8] == vals[b / 8];
    }
  }

  // -------------------------------------------------------------------------
  // Reading
  // -------------------------------------------------------------------------

  datatype ReadResult = Failed(error: Error) | Read(obj: Obj)

  /** What reading an object's setting from the memory gives. */
  function ReadOne(obj: Obj, mem: seq<bv8>): ReadResult
    requires |mem| == CMOS_MAX_BYTES
  {
    if obj.Ignored? then Read(obj)
    else if obj.menu.bitLength == 0 then Failed(EINVAL)
    else if obj.menu.startBit + obj.menu.bitLength > CMOS_MAX_BITS then Failed(E2BIG)
    else
      var m := obj.menu;
      match FindVal(m.items, Assemble(mem, m.startBit, m.bitLength), 0)
      case Nowhere => Failed(ENOENT)
      case Index(k) => Read(Setting(m.(curItemId := m.items[k].id)))
  }

  /** The bytes that are marked in the mask are those fetched so far, each once,
      and they are kept in `value`. */
  ghost predicate Cached(mask: seq<bv8>, value: seq<bv8>, mem: seq<bv8>, fetched: seq<nat>) {
    && |mask| == |value| == |mem| == CMOS_MAX_BYTES
    && (forall i :: 0 <= i < CMOS_MAX_BYTES ==> (mask[i] != 0 <==> i in fetched))
    && (forall i :: 0 <= i < CMOS_MAX_BYTES && mask[i] != 0 ==> value[i] == mem[i])
    && (forall j, k :: 0 <= j < k < |fetched| ==> fetched[j] != fetched[k])
  }

  /** Reads a byte unless it was already read. */
  method Fetch(rtc: Rtc, mask: array<bv8>, value: array<bv8>, offset: nat, ghost before: nat)
    requires mask != value && before <= |rtc.fetched| && offset < CMOS_MAX_BYTES
    requires Cached(mask[..], value[..], rtc.mem, rtc.fetched[before..])
    modifies rtc`fetched, mask, value
    ensures before <= |rtc.fetched| && rtc.fetched[..before] == old(rtc.fetched[..before])
    ensures Cached(mask[..], value[..], rtc.mem, rtc.fetched[before..])
    ensures value[offset] == rtc.mem[offset]
  {
    if mask[offset] == 0 {
      ghost var was := rtc.fetched;
      assert offset !in was[before..];
      var v := rtc.Read8(offset);
      value[offset] := v;
      mask[offset] := 0xff;
      assert rtc.fetched[before..] == was[before..] + [offset];
    }
  }

  method ReadBit(bitnum: nat, rtc: Rtc, mask: array<bv8>, value: array<bv8>, ghost before: nat) returns (bit: bool)
    requires bitnum < CMOS_MAX_BITS && mask != value && before <= |rtc.fetched|
    requires Cached(mask[..], value[..], rtc.mem, rtc.fetched[before..])
    modifies rtc`fetched, mask, value
    ensures |rtc.mem| == CMOS_MAX_BYTES && bit == BitAt(rtc.mem, bitnum)
    ensures before <= |rtc.fetched| && rtc.fetched[..before] == old(rtc.fetched[..before])
    ensures Cached(mask[..], value[..], rtc.mem, rtc.fetched[before..])
  {
    var offset := bitnum / 8;
    Fetch(rtc, mask, value, offset, before);
    bit := value[offset] & Bit(bitnum % 8) != 0;
  }

  /** Puts a number together from its bits, the lowest first. */
  method ReadBits(start: nat, len: nat, rtc: Rtc, mask: array<bv8>, value: array<bv8>, ghost before: nat)
      returns (val: int)
    requires start + len <= CMOS_MAX_BITS && mask != value && before <= |rtc.fetched|
    requires Cached(mask[..], value[..], rtc.mem, rtc.fetched[before..])
    modifies rtc`fetched, mask, value
    ensures val == Assemble(rtc.mem, start, len)
    ensures before <= |rtc.fetched| && rtc.fetched[..before] == old(rtc.fetched[..before])
    ensures Cached(mask[..], value[..], rtc.mem, rtc.fetched[before..])
  {
    val := 0;
    for i := 0 to len
      invariant before <= |rtc.fetched| && rtc.fetched[..before] == old(rtc.fetched[..before])
      invariant Cached(mask[..], value[..], rtc.mem, rtc.fetched[before..])
      invariant val == Assemble(rtc.mem, start, i)
    {
      var bit := ReadBit(start + i, rtc, mask, value, before);
      AssembleNext(rtc.mem, start, i, bit);
      if bit {
        val := val + Weight(i);
      }
    }
  }

  /** h_read_settings_cmos(): takes the setting of one object from the memory. */
  method ReadObj(obj: Obj, rtc: Rtc, mask: array<bv8>, value: array<bv8>, ghost before: nat) returns (r: ReadResult)
    requires mask != value && before <= |rtc.fetched|
    requires Cached(mask[..], value[..], rtc.mem, rtc.fetched[before..])
    modifies rtc`fetched, mask, value
    ensures r == ReadOne(obj, rtc.mem)
    ensures before <= |rtc.fetched| && rtc.fetched[..before] == old(rtc.fetched[..before])
    ensures Cached(mask[..], value[..], rtc.mem, rtc.fetched[before..])
  {
    if obj.Ignored? {
      return Read(obj);
    }
    var m := obj.menu;
    if m.bitLength == 0 {
      return Failed(EINVAL);
    }
    if m.startBit + m.bitLength > CMOS_MAX_BITS {
      return Failed(E2BIG);
    }
    var val := ReadBits(m.startBit, m.bitLength, rtc, mask, value, before);
    match FindVal(m.items, val, 0)
    case Nowhere => r := Failed(ENOENT);
    case Index(k) => r := Read(Setting(m.(curItemId := m.items[k].id)));
  }

  /** The objects of an expo. */
  class Expo {
    var objs: seq<Obj>

    constructor (objs: seq<Obj>)
      ensures this.objs == objs
    {
      this.objs := objs;
    }

    /** cedit_read_settings_cmos(): every object before the first that cannot be
        read gets its setting; each byte is fetched at most once. */
    method ReadSettings(rtc: Rtc) returns (status: Status, n: nat)
      requires |rtc.mem| == CMOS_MAX_BYTES
      modifies this, rtc`fetched
      ensures n <= |objs| == |old(objs)|
      ensures forall k :: 0 <= k < n ==> Read(objs[k]) == ReadOne(old(objs)[k], rtc.mem)
      ensures forall k :: n <= k < |objs| ==> objs[k] == old(objs)[k]
      ensures if status == Ok then n == |objs|
              else n < |objs| && ReadOne(objs[n], rtc.mem) == Failed(status.error)
      ensures old(rtc.fetched) <= rtc.fetched
      ensures forall j, k :: |old(rtc.fetched)| <= j < k < |rtc.fetched| ==> rtc.fetched[j] != rtc.fetched[k]
    {
      var mask := new bv8[CMOS_MAX_BYTES](_ => 0);
      var value := new bv8[CMOS_MAX_BYTES](_ => 0);
      ghost var before := |rtc.fetched|;
      ghost var was := rtc.fetched;
      assert rtc.fetched[before..] == [];
      n := 0;
      while n < |objs|
        invariant n <= |objs| == |old(objs)|
        invariant forall k :: 0 <= k < n ==> Read(objs[k]) == ReadOne(old(objs)[k], rtc.mem)
        invariant forall k :: n <= k < |objs| ==> objs[k] == old(objs)[k]
        invariant before <= |rtc.fetched| && rtc.fetched[..before] == was
        invariant Cached(mask[..], value[..], rtc.mem, rtc.fetched[before..])
        decreases |objs| - n
      {
        var r := ReadObj(objs[n], rtc, mask, value, before);
        if r.Failed? {
          Suffix(rtc.fetched, before);
          return Err(r.error), n;
        }
        objs := objs[n := r.obj];
        n := n + 1;
      }
      Suffix(rtc.fetched, before);
      return Ok, n;
    }
  }

  lemma Suffix(l: seq<nat>, n: nat)
    requires n <= |l| && forall j, k :: 0 <= j < k < |l| - n ==> l[n..][j] != l[n..][k]
    ensures forall j, k :: n <= j < k < |l| ==> l[j] != l[k]
  {
    forall j, k | n <= j < k < |l| ensures l[j] != l[k] {
      assert l[n..][j - n] == l[j] && l[n..][k - n] == l[k];
    }
  }

  // -------------------------------------------------------------------------
  // The round trip
  // -------------------------------------------------------------------------

  ghost predicate Disjoint(objs: seq<Obj>) {
    forall j, k, b :: 0 <= j < k < |objs| && ObjCovers(objs[j], b) ==> !ObjCovers(objs[k], b)
  }

  ghost predicate UniqueIds(items: seq<Item>) {
    forall j, k :: 0 <= j < k < |items| ==> items[j].id != items[k].id
  }

  ghost predicate UniqueValues(items: seq<Item>) {
    forall j, k :: 0 <= j < k < |items| ==> ItemValue(items, j) != ItemValue(items, k)
  }

  /** Menus that share no bits were all written. */
  ghost predicate Saved(objs: seq<Obj>, mem: seq<bv8>, mem': seq<bv8>) {
    AllOk(objs, |objs|) && |mem| == |mem'| == CMOS_MAX_BYTES && Written(objs, mem, mem') && Disjoint(objs)
  }

  /** After writing, digit `j` of a byte that holds a menu's bit is 1 exactly when some
      menu has bit number 8 * i + j set. */
  lemma WrittenDigits(objs: seq<Obj>, mem: seq<bv8>, mem': seq<bv8>, i: nat, j: nat)
    requires AllOk(objs, |objs|) && |mem| == |mem'| == CMOS_MAX_BYTES && Written(objs, mem, mem')
    requires i < 256 && j < 8 && ByteUsed(objs, i)
    ensures mem'[i] as int / Pow2(j) % 2 == 1 <==> Wanted(objs, |objs|, 8 * i + j)
  {
    ByteOf(mem', i, j);
    WrittenBit(objs, mem, mem', 8 * i + j);
    BitIsDigit(mem'[i], j);
  }

  /** A byte that holds no menu's bit keeps its value. */
  lemma WrittenKept(objs: seq<Obj>, mem: seq<bv8>, mem': seq<bv8>, i: nat)
    requires AllOk(objs, |objs|) && |mem| == |mem'| == CMOS_MAX_BYTES && Written(objs, mem, mem')
    requires i < 256
    requires forall k :: 0 <= k < |objs| && objs[k].Setting? ==>
               var m := objs[k].menu; m.startBit + m.bitLength <= 8 * i || m.startBit >= 8 * i + 8
    ensures mem'[i] == mem[i]
  {
  }

  lemma WrittenBit(objs: seq<Obj>, mem: seq<bv8>, mem': seq<bv8>, b: nat)
    requires AllOk(objs, |objs|) && |mem| == |mem'| == CMOS_MAX_BYTES && Written(objs, mem, mem')
    requires b < CMOS_MAX_BITS && ByteUsed(objs, b / 8)
    ensures BitAt(mem', b) <==> Wanted(objs, |objs|, b)
  {
  }

  /** The value of a menu is that of its current item: its own, or its number from 0. */
  lemma ValueMeans(m: Menu, k: nat)
    requires MenuStatus(m) == Ok && UniqueIds(m.items) && k < |m.items| && m.items[k].id == m.curItemId
    ensures Value(m) == if m.items[k].value.Number? then k else m.items[k].value.v
  {
    FindIdAt(m.items, k, 0);
  }

  /** What is wrong with a menu: no current item, no bits, or bits past the end, in
      this order. */
  lemma StatusMeans(m: Menu)
    ensures MenuStatus(m) ==
            if forall k :: 0 <= k < |m.items| ==> m.items[k].id != m.curItemId then Err(ENOENT)
            else if m.bitLength == 0 then Err(EINVAL)
            else if m.startBit + m.bitLength > 2048 then Err(E2BIG)
            else Ok
  {
  }

  lemma {:induction false} FindIdAt(items: seq<Item>, k: nat, i: nat)
    requires i <= k < |items| && UniqueIds(items)
    ensures FindId(items, items[k].id, i) == Index(k)
    decreases k - i
  {
    if i < k {
      FindIdAt(items, k, i + 1);
    }
  }

  /** After all menus were written, the bits of a menu that shares none with the
      others are the bits of its value. */
  lemma MenuBits(objs: seq<Obj>, mem: seq<bv8>, mem': seq<bv8>, k: nat, i: nat)
    requires Saved(objs, mem, mem') && k < |objs| && objs[k].Setting? && i < objs[k].menu.bitLength
    ensures BitAt(mem', objs[k].menu.startBit + i) == ValBit(Value(objs[k].menu), i)
  {
    var b := objs[k].menu.startBit + i;
    assert ObjStatus(objs[k]) == Ok;
    assert ObjCovers(objs[k], b);
    assert Used(objs, |objs|, b);
    assert ByteUsed(objs, b / 8) by {
      assert 8 * (b / 8) <= b < 8 * (b / 8) + 8;
    }
    assert ObjBit(objs[k], b) == ValBit(Value(objs[k].menu), i);
    if Wanted(objs, |objs|, b) {
      var j :| 0 <= j < |objs| && ObjBit(objs[j], b);
      assert j == k;
    }
  }

  lemma {:induction false} MenuHolds(objs: seq<Obj>, mem: seq<bv8>, mem': seq<bv8>, k: nat, n: nat)
    requires Saved(objs, mem, mem') && k < |objs| && objs[k].Setting? && ObjStatus(objs[k]) == Ok
    requires n <= objs[k].menu.bitLength
    ensures Holds(mem', objs[k].menu.startBit, n, Value(objs[k].menu))
    decreases n
  {
    if n > 0 {
      MenuHolds(objs, mem, mem', k, n - 1);
      MenuBits(objs, mem, mem', k, n - 1);
      HoldsNext(mem', objs[k].menu.startBit, n - 1, Value(objs[k].menu));
    }
  }

  /** Menus with disjoint ranges of bits: writing all and reading one back gives
      its value exactly when its bits can keep the value. */
  lemma ReadsBackExactly(objs: seq<Obj>, mem: seq<bv8>, mem': seq<bv8>, k: nat)
    requires Saved(objs, mem, mem') && k < |objs| && objs[k].Setting?
    requires ObjStatus(objs[k]) == Ok && IsInt(Value(objs[k].menu))
    requires InLong(objs[k].menu.bitLength, Value(objs[k].menu))
    ensures var m := objs[k].menu;
            Assemble(mem', m.startBit, m.bitLength) == Value(m) <==> Keeps(m.bitLength, Value(m))
  {
    var m := objs[k].menu;
    MenuHolds(objs, mem, mem', k, m.bitLength);
    AssembleExactly(mem', m.startBit, m.bitLength, Value(m));
  }

  /** A value that is lost: two bits cannot keep a five. */
  lemma ValueLost(mem: seq<bv8>, mem': seq<bv8>)
    requires |mem| == |mem'| == CMOS_MAX_BYTES
    ensures var objs := [Setting(Menu([Item(7, Own(5))], 7, 0, 2))];
            && FirstError(objs, 0) == Ok && AllOk(objs, |objs|) && Disjoint(objs)
            && (Written(objs, mem, mem') ==> Assemble(mem', 0, 2) != 5)
  {
    var objs := [Setting(Menu([Item(7, Own(5))], 7, 0, 2))];
    assert FirstError(objs, 1) == Ok;
    if Written(objs, mem, mem') {
      assert Pow2(2) == 4 && Pow2(3) == 8 && Pow2(3) <= Pow2(31);
      ReadsBackExactly(objs, mem, mem', 0);
    }
  }

  /** Writing all menus and reading them back, into menus that may have been
      changed in between, restores every value; and the very item, if the items
      have different values. */
  lemma RoundTrip(objs: seq<Obj>, mem: seq<bv8>, mem': seq<bv8>, k: nat, cur: nat)
    requires Saved(objs, mem, mem') && k < |objs| && objs[k].Setting? && ObjStatus(objs[k]) == Ok && Kept(objs[k].menu)
    ensures var m := objs[k].menu;
            var r := ReadOne(Setting(m.(curItemId := cur)), mem');
            r.Read? && r.obj.Setting? && Restored(m, r.obj.menu)
  {
    var m := objs[k].menu;
    ReadsBackExactly(objs, mem, mem', k);
    var at := FindId(m.items, m.curItemId, 0).k;
    var found := FindVal(m.items, Value(m), 0);
    assert ItemValue(m.items, at) == Value(m);
    FindIdAt(m.items, found.k, 0);
  }

  /** A menu whose value its bits can keep. */
  ghost predicate Kept(m: Menu)
    requires MenuStatus(m) == Ok
  {
    UniqueIds(m.items) && IsInt(Value(m)) && Keeps(m.bitLength, Value(m))
  }

  /** A menu has its value again, and the very item if items have different values. */
  ghost predicate Restored(m: Menu, m': Menu)
    requires MenuStatus(m) == Ok
  {
    MenuStatus(m') == Ok && Value(m') == Value(m) && (UniqueValues(m.items) ==> m' == m)
  }

  /** The same objects, except for the current items of menus. */
  ghost predicate SameMenus(objs: seq<Obj>, objs': seq<Obj>) {
    |objs| == |objs'| && forall k :: 0 <= k < |objs| ==> SameMenu(objs[k], objs'[k])
  }

  ghost predicate SameMenu(obj: Obj, obj': Obj) {
    match obj
    case Ignored => obj'.Ignored?
    case Setting(m) => obj'.Setting? && obj'.menu == m.(curItemId := obj'.menu.curItemId)
  }

  /** Menus that share no bits and whose values their bits can keep. */
  ghost predicate AllKept(objs: seq<Obj>) {
    && AllOk(objs, |objs|) && Disjoint(objs)
    && forall k :: 0 <= k < |objs| && objs[k].Setting? && ObjStatus(objs[k]) == Ok ==> Kept(objs[k].menu)
  }

  /** Writing the settings and reading them into the same menus, whatever has become
      current there since, succeeds and restores all of them. */
  method SaveThenLoad(objs: seq<Obj>, expo: Expo, rtc: Rtc) returns (status: Status)
    requires |rtc.mem| == CMOS_MAX_BYTES && AllKept(objs) && SameMenus(objs, expo.objs)
    modifies expo, rtc
    ensures status == Ok && |expo.objs| == |objs|
    ensures forall k :: 0 <= k < |objs| && objs[k].Setting? && ObjStatus(objs[k]) == Ok ==>
              expo.objs[k].Setting? && Restored(objs[k].menu, expo.objs[k].menu)
    ensures forall k :: 0 <= k < |objs| && objs[k].Ignored? ==> expo.objs[k].Ignored?
  {
    NoFirstError(objs, 0);
    ghost var mem, other := rtc.mem, expo.objs;
    status := WriteSettings(objs, rtc);
    forall k | 0 <= k < |objs| ensures ObjRestored(objs[k], ReadOne(other[k], rtc.mem)) {
      assert SameMenu(objs[k], other[k]) && ObjStatus(objs[k]) == Ok;
      if objs[k].Setting? {
        RoundTrip(objs, mem, rtc.mem, k, other[k].menu.curItemId);
      }
    }
    var n;
    status, n := expo.ReadSettings(rtc);
  }

  ghost predicate ObjRestored(obj: Obj, r: ReadResult) {
    && r.Read? && (obj.Ignored? <==> r.obj.Ignored?)
    && (obj.Setting? && ObjStatus(obj) == Ok ==> Restored(obj.menu, r.obj.menu))
  }

  /** It is the error of the object with the lowest number. */
  lemma {:induction false} FirstErrorIs(objs: seq<Obj>, i: nat, k: nat)
    requires i <= k < |objs| && ObjStatus(objs[k]) != Ok
    requires forall j :: i <= j < k ==> ObjStatus(objs[j]) == Ok
    ensures FirstError(objs, i) == ObjStatus(objs[k])
    decreases k - i
  {
    if i < k {
      FirstErrorIs(objs, i + 1, k);
    }
  }

  lemma {:induction false} NoFirstError(objs: seq<Obj>, k: nat)
    requires k <= |objs| && AllOk(objs, |objs|)
    ensures FirstError(objs, k) == Ok
    decreases |objs| - k
  {
    if k < |objs| {
      NoFirstError(objs, k + 1);
    }
  }
}
