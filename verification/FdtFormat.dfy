/** The structure block of a flattened devicetree (Devicetree Specification
    v0.4, section 5.4): tags and their encoding as bytes. A byte is an `int`; a
    C string is a `string` without its terminating NUL. */
module FdtFormat {
  import opened Sequences
  import opened Chunks

  datatype Tag =
    | BeginNode(name: string)
    | EndNode
    | Prop(nameOff: nat, value: seq<int>)
    | Nop
    | End

  /** Zero bytes up to the next multiple of four. */
  function Padding(n: nat): (r: seq<int>)
    ensures |r| < 4
  {
    if n % 4 == 0 then [] else if n % 4 == 1 then [0, 0, 0] else if n % 4 == 2 then [0, 0] else [0]
  }

  /** A 32-bit big-endian cell; the top byte is left unreduced, so that the
      encoding is defined for every `n`. */
  function Cell(n: nat): (r: seq<int>)
    ensures |r| == 4
  {
    [n / 0x100_0000, n / 0x1_0000 % 0x100, n / 0x100 % 0x100, n % 0x100]
  }

  function NameBytes(s: string): (r: seq<int>)
    ensures |r| == |s|
    ensures forall i :: 0 <= i < |s| ==> r[i] == s[i] as int
  {
    seq(|s|, i requires 0 <= i < |s| => s[i] as int)
  }

  /** The 32-bit token that starts each tag. */
  function Token(t: Tag): (r: seq<int>)
    ensures |r| == 4
  {
    match t
    case BeginNode(_) => [0, 0, 0, 1]
    case EndNode => [0, 0, 0, 2]
    case Prop(_, _) => [0, 0, 0, 3]
    case Nop => [0, 0, 0, 4]
    case End => [0, 0, 0, 9]
  }

  /** What follows the token. */
  function Payload(t: Tag): seq<int> {
    match t
    case BeginNode(name) => NameBytes(name) + ([0] + Padding(|name| + 1))
    case Prop(nameOff, value) => Cell(|value|) + (Cell(nameOff) + (value + Padding(|value|)))
    case _ => []
  }

  function TagBytes(t: Tag): (r: seq<int>)
    ensures |r| >= 4
  {
    Token(t) + Payload(t)
  }

  function Size(t: Tag): (r: nat)
    ensures r >= 4
  {
    |TagBytes(t)|
  }

  /** Where each tag of a stream starts, and where the stream ends. */
  function TagOffsets(tags: seq<Tag>): (r: seq<nat>)
    ensures |r| == |tags| + 1 && r[0] == 0
    ensures forall i :: 0 <= i < |tags| ==> r[i + 1] == r[i] + Size(tags[i])
  {
    Offsets(Map(Size, tags))
  }

  lemma TagOffsetsAscend(tags: seq<Tag>)
    ensures Ascending(TagOffsets(tags))
  {
    OffsetsAscend(Map(Size, tags));
  }

  /** The bytes of a whole stream of tags. */
  function Bytes(tags: seq<Tag>): seq<int> {
    FlatMap(TagBytes, tags)
  }

  // -------------------------------------------------------------------------
  // What the bytes are
  // -------------------------------------------------------------------------

  /** The number that four bytes are, the most significant first. */
  lemma CellNumber(n: nat)
    ensures var r := Cell(n);
            && ((r[0] * 256 + r[1]) * 256 + r[2]) * 256 + r[3] == n
            && 0 <= r[1] < 256 && 0 <= r[2] < 256 && 0 <= r[3] < 256 && (0 <= r[0] < 256 <==> n < 0x1_0000_0000)
  {
    var b, c := n / 0x100, n / 0x1_0000;
    assert b / 0x100 == c && c / 0x100 == n / 0x100_0000;
  }

  /** Every byte from `i` on is zero. */
  ghost predicate ZeroFrom(bytes: seq<int>, i: nat) {
    forall k :: i <= k < |bytes| ==> bytes[k] == 0
  }

  lemma Second(a: seq<int>, b: seq<int>, rest: seq<int>)
    ensures var s, n := a + (b + rest), |a| + |b|; s[..|a|] == a && s[|a|..n] == b && s[n..] == rest
  {
  }

  lemma ZeroTail(bytes: seq<int>, i: nat, tail: seq<int>)
    requires i <= |bytes| && bytes[i..] == tail && ZeroFrom(tail, 0)
    ensures ZeroFrom(bytes, i)
  {
    forall k | i <= k < |bytes| ensures bytes[k] == 0 {
      assert bytes[k] == tail[k - i];
    }
  }

  lemma PaddingZero(n: nat)
    ensures ZeroFrom(Padding(n), 0) && ZeroFrom([0] + Padding(n), 0)
  {
  }

  lemma PaddingLength(n: nat)
    ensures (n + |Padding(n)|) % 4 == 0
  {
  }

  /** A node starts with the token 1 and its name, ended by one to four zero bytes. */
  lemma BeginLayout(name: string)
    ensures var r, n := TagBytes(BeginNode(name)), |name|;
            && n + 5 <= |r| < n + 9
            && r[..4] == [0, 0, 0, 1] && r[4..n + 4] == NameBytes(name) && ZeroFrom(r, n + 4)
  {
    var r, n := TagBytes(BeginNode(name)), |name|;
    Second(Token(BeginNode(name)), NameBytes(name), [0] + Padding(n + 1));
    PaddingZero(n + 1);
    ZeroTail(r, n + 4, [0] + Padding(n + 1));
  }

  /** A property starts with the token 3, the length of its value and the offset of
      its name, before the value and up to three zero bytes. */
  lemma PropLayout(nameOff: nat, value: seq<int>)
    ensures var r, n := TagBytes(Prop(nameOff, value)), |value|;
            && n + 12 <= |r| < n + 16
            && r[..4] == [0, 0, 0, 3] && r[4..8] == Cell(n) && r[8..12] == Cell(nameOff)
            && r[12..n + 12] == value && ZeroFrom(r, n + 12)
  {
    var r, n := TagBytes(Prop(nameOff, value)), |value|;
    var rest := Cell(nameOff) + (value + Padding(n));
    Second(Token(Prop(nameOff, value)), Cell(n), rest);
    Second(Cell(nameOff), value, Padding(n));
    SliceOfSlice(r, 8, |r|, 0, 4);
    SliceOfSlice(r, 8, |r|, 4, n + 4);
    SliceOfSlice(r, 8, |r|, n + 4, |rest|);
    PaddingZero(n);
    ZeroTail(r, n + 12, Padding(n));
  }

  /** The other tags are one token. */
  lemma BareLayout()
    ensures TagBytes(EndNode) == [0, 0, 0, 2] && TagBytes(Nop) == [0, 0, 0, 4] && TagBytes(End) == [0, 0, 0, 9]
  {
  }

  lemma SumAligned(m: nat, n: nat, sum: nat)
    requires m % 4 == 0 && n % 4 == 0 && sum == m + n
    ensures sum % 4 == 0
  {
  }

  lemma SizeAligned(t: Tag)
    ensures Size(t) % 4 == 0
  {
    match t
    case BeginNode(name) =>
      PaddingLength(|name| + 1);
      SumAligned(4, |name| + 1 + |Padding(|name| + 1)|, Size(t));
    case Prop(nameOff, value) =>
      PaddingLength(|value|);
      SumAligned(12, |value| + |Padding(|value|)|, Size(t));
    case _ =>
  }

  /** Every tag starts at a multiple of four. */
  lemma {:induction false} TagOffsetsAligned(tags: seq<Tag>, i: nat)
    requires i <= |tags|
    ensures TagOffsets(tags)[i] % 4 == 0
  {
    if i > 0 {
      var offs, j := TagOffsets(tags), i - 1;
      TagOffsetsAligned(tags, j);
      SizeAligned(tags[j]);
      assert offs[j + 1] == offs[j] + Size(tags[j]);
      SumAligned(offs[j], Size(tags[j]), offs[i]);
    }
  }

  // -------------------------------------------------------------------------
  // Unique decoding
  // -------------------------------------------------------------------------

  /** A C string holds no NUL. */
  predicate NulFree(t: Tag) {
    t.BeginNode? ==> forall i :: 0 <= i < |t.name| ==> t.name[i] as int != 0
  }

  lemma SplitEqual(a: seq<int>, b: seq<int>, x: seq<int>, y: seq<int>)
    requires |a| == |b| && a + x == b + y
    ensures a == b && x == y
  {
    assert a == (a + x)[..|a|] && b == (b + y)[..|b|];
    assert x == (a + x)[|a|..] && y == (b + y)[|b|..];
  }

  lemma DigitStep(m: nat, n: nat)
    requires m / 0x100 == n / 0x100 && m % 0x100 == n % 0x100
    ensures m == n
  {
  }

  lemma DigitsInjective(m: nat, n: nat)
    requires m / 0x100_0000 == n / 0x100_0000
    requires m / 0x1_0000 % 0x100 == n / 0x1_0000 % 0x100
    requires m / 0x100 % 0x100 == n / 0x100 % 0x100
    requires m % 0x100 == n % 0x100
    ensures m == n
  {
    DigitStep(m / 0x1_0000, n / 0x1_0000);
    DigitStep(m / 0x100, n / 0x100);
    DigitStep(m, n);
  }

  lemma CellInjective(m: nat, n: nat)
    requires Cell(m) == Cell(n)
    ensures m == n
  {
    var a, b := Cell(m), Cell(n);
    assert a[0] == b[0] && a[1] == b[1] && a[2] == b[2] && a[3] == b[3];
    DigitsInjective(m, n);
  }

  /** A name followed by its NUL is found again in the byte stream. */
  lemma NameNotShorter(a: string, b: string, x: seq<int>, y: seq<int>)
    requires NulFree(BeginNode(a)) && NulFree(BeginNode(b))
    requires NameBytes(a) + ([0] + x) == NameBytes(b) + ([0] + y)
    ensures |a| >= |b|
  {
    var p, q := NameBytes(a) + ([0] + x), NameBytes(b) + ([0] + y);
    assert p[|a|] == 0;
    assert forall i :: 0 <= i < |b| ==> q[i] == BeginNode(b).name[i] as int;
  }

  lemma NamePrefix(a: string, b: string, x: seq<int>, y: seq<int>)
    requires NulFree(BeginNode(a)) && NulFree(BeginNode(b))
    requires NameBytes(a) + ([0] + x) == NameBytes(b) + ([0] + y)
    ensures a == b
  {
    NameNotShorter(a, b, x, y);
    NameNotShorter(b, a, y, x);
    SplitEqual(NameBytes(a), NameBytes(b), [0] + x, [0] + y);
    forall i | 0 <= i < |a| ensures a[i] == b[i] {
      assert NameBytes(a)[i] == NameBytes(b)[i];
    }
  }

  lemma PropPrefix(m: nat, v: seq<int>, n: nat, w: seq<int>, x: seq<int>, y: seq<int>)
    requires Cell(|v|) + (Cell(m) + (v + x)) == Cell(|w|) + (Cell(n) + (w + y))
    ensures m == n && v == w
  {
    SplitEqual(Cell(|v|), Cell(|w|), Cell(m) + (v + x), Cell(n) + (w + y));
    CellInjective(|v|, |w|);
    SplitEqual(Cell(m), Cell(n), v + x, w + y);
    CellInjective(m, n);
    SplitEqual(v, w, x, y);
  }

  lemma BeginPrefix(a: string, b: string, x: seq<int>, y: seq<int>)
    requires NulFree(BeginNode(a)) && NulFree(BeginNode(b))
    requires Payload(BeginNode(a)) + x == Payload(BeginNode(b)) + y
    ensures a == b
  {
    var px, py := Padding(|a| + 1) + x, Padding(|b| + 1) + y;
    RegroupInner(NameBytes(a), [0], Padding(|a| + 1), x);
    RegroupInner(NameBytes(b), [0], Padding(|b| + 1), y);
    NamePrefix(a, b, px, py);
  }

  lemma ValuePrefix(m: nat, v: seq<int>, n: nat, w: seq<int>, x: seq<int>, y: seq<int>)
    requires Payload(Prop(m, v)) + x == Payload(Prop(n, w)) + y
    ensures m == n && v == w
  {
    var px, py := Padding(|v|) + x, Padding(|w|) + y;
    RegroupInner(Cell(|v|), Cell(m), v + Padding(|v|), x);
    RegroupInner(v, Padding(|v|), [], x);
    RegroupInner(Cell(|w|), Cell(n), w + Padding(|w|), y);
    RegroupInner(w, Padding(|w|), [], y);
    PropPrefix(m, v, n, w, px, py);
  }

  lemma TokenInjective(s: Tag, t: Tag)
    requires Token(s) == Token(t)
    ensures s.BeginNode? == t.BeginNode? && s.Prop? == t.Prop?
    ensures !s.BeginNode? && !s.Prop? ==> s == t
  {
    assert Token(s)[3] == Token(t)[3];
  }

  /** No tag's encoding is a prefix of another's: the first tag of a byte
      stream is determined by the stream. */
  lemma TagPrefixFree(s: Tag, t: Tag, x: seq<int>, y: seq<int>)
    requires NulFree(s) && NulFree(t)
    requires TagBytes(s) + x == TagBytes(t) + y
    ensures s == t && x == y
  {
    var ps, pt := Payload(s), Payload(t);
    RegroupInner(Token(s), ps, [], x);
    RegroupInner(Token(t), pt, [], y);
    SplitEqual(Token(s), Token(t), ps + x, pt + y);
    TokenInjective(s, t);
    if s.BeginNode? {
      BeginPrefix(s.name, t.name, x, y);
    } else if s.Prop? {
      ValuePrefix(s.nameOff, s.value, t.nameOff, t.value, x, y);
    }
    assert s == t;
    SplitEqual(ps, pt, x, y);
  }

  /** The byte stream determines the tags: equal bytes, equal tags. */
  lemma BytesInjective(a: seq<Tag>, b: seq<Tag>)
    requires forall i :: 0 <= i < |a| ==> NulFree(a[i])
    requires forall i :: 0 <= i < |b| ==> NulFree(b[i])
    requires Bytes(a) == Bytes(b)
    ensures a == b
  {
    forall s, t, x, y | NulFree(s) && NulFree(t) && TagBytes(s) + x == TagBytes(t) + y
      ensures s == t && x == y
    {
      TagPrefixFree(s, t, x, y);
    }
    UniquelyDecodable(TagBytes, NulFree, a, b);
  }
}
