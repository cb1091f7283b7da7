/** When excluded properties of a tree can be added, changed or removed without any
    effect on what is hashed. */
module FdtStrip {
  import opened Sequences
  import opened FdtFormat
  import opened FdtScan
  import opened FdtTree
  import opened FdtHash

  /** The tree without its excluded properties. */
  ghost function Strip(strings: map<nat, string>, q: Query, b: Body): Body {
    match b
    case Nothing => Nothing
    case Property(nameOff, value, rest) =>
      if Excluded(strings, q, nameOff) then Strip(strings, q, rest)
      else Property(nameOff, value, Strip(strings, q, rest))
    case Gap(rest) => Gap(Strip(strings, q, rest))
    case Subnode(name, body, rest) => Subnode(name, Strip(strings, q, body), Strip(strings, q, rest))
  }

  /** As the standard demands, the properties of a node precede its subnodes. */
  ghost predicate PropsFirst(b: Body, allowed: bool) {
    match b
    case Nothing => true
    case Property(_, _, rest) => allowed && PropsFirst(rest, allowed)
    case Gap(rest) => PropsFirst(rest, allowed)
    case Subnode(_, body, rest) => PropsFirst(body, true) && PropsFirst(rest, false)
  }

  lemma {:induction false} TreeFlagsLength(strings: map<nat, string>, q: Query, path: string, want: int, b: Body)
    ensures |TreeFlags(strings, q, path, want, b)| == |Flatten(b)|
    decreases b
  {
    match b
    case Nothing =>
    case Property(_, _, rest) => TreeFlagsLength(strings, q, path, want, rest);
    case Gap(rest) => TreeFlagsLength(strings, q, path, want, rest);
    case Subnode(name, body, rest) =>
      var path' := ChildPath(path, name);
      TreeFlagsLength(strings, q, path', NodeWant(q, path', want), body);
      TreeFlagsLength(strings, q, path, want, rest);
  }

  /** The covered tags of a node's inside. */
  ghost function BodyKept(strings: map<nat, string>, q: Query, path: string, want: int, b: Body, prev: bool): seq<Tag> {
    TreeFlagsLength(strings, q, path, want, b);
    Kept(Flatten(b), TreeFlags(strings, q, path, want, b), prev)
  }

  /** Whether the last tag of a node's inside is included. */
  ghost function BodyLast(strings: map<nat, string>, q: Query, path: string, want: int, b: Body, prev: bool): bool {
    Last(TreeFlags(strings, q, path, want, b), prev)
  }

  lemma LastCons(keep: bool, fs: seq<bool>, prev: bool)
    ensures Last([keep] + fs, prev) == Last(fs, keep)
  {
  }

  lemma KeptNode(name: string, keep: bool, bt: seq<Tag>, bf: seq<bool>, rt: seq<Tag>, rf: seq<bool>, prev: bool)
    requires |bt| == |bf| && |rt| == |rf|
    ensures Kept([BeginNode(name)] + bt + [EndNode] + rt, [keep] + bf + [keep] + rf, prev) ==
            OneKept(BeginNode(name), keep, prev) +
            (Kept(bt, bf, keep) + (OneKept(EndNode, keep, Last(bf, keep)) + Kept(rt, rf, keep)))
    ensures Last([keep] + bf + [keep] + rf, prev) == Last(rf, keep)
  {
    RegroupFour([BeginNode(name)], bt, [EndNode], rt);
    RegroupFour([keep], bf, [keep], rf);
    KeptCons(EndNode, keep, rt, rf, Last(bf, keep));
    KeptConcat(bt, bf, [EndNode] + rt, [keep] + rf, keep);
    KeptCons(BeginNode(name), keep, bt + ([EndNode] + rt), bf + ([keep] + rf), prev);
  }

  lemma SubnodeKept(strings: map<nat, string>, q: Query, path: string, want: int, name: string, body: Body,
                    rest: Body, prev: bool)
    ensures var b, path' := Subnode(name, body, rest), ChildPath(path, name);
            var want' := NodeWant(q, path', want);
            && BodyKept(strings, q, path, want, b, prev) ==
                 OneKept(BeginNode(name), want' > 0, prev) +
                 (BodyKept(strings, q, path', want', body, want' > 0) +
                  (OneKept(EndNode, want' > 0, BodyLast(strings, q, path', want', body, want' > 0)) +
                   BodyKept(strings, q, path, want, rest, want' > 0)))
            && BodyLast(strings, q, path, want, b, prev) == BodyLast(strings, q, path, want, rest, want' > 0)
  {
    var path' := ChildPath(path, name);
    var want' := NodeWant(q, path', want);
    TreeFlagsLength(strings, q, path', want', body);
    TreeFlagsLength(strings, q, path, want, rest);
    KeptNode(name, want' > 0, Flatten(body), TreeFlags(strings, q, path', want', body),
             Flatten(rest), TreeFlags(strings, q, path, want, rest), prev);
  }

  lemma PropertyKept(strings: map<nat, string>, q: Query, path: string, want: int, nameOff: nat,
                     value: seq<int>, rest: Body, prev: bool)
    ensures var b := Property(nameOff, value, rest);
            var keep := want == 2 && nameOff in strings && strings[nameOff] !in q.excProp;
            && BodyKept(strings, q, path, want, b, prev) ==
                 OneKept(Prop(nameOff, value), keep, prev) + BodyKept(strings, q, path, want, rest, keep)
            && BodyLast(strings, q, path, want, b, prev) == BodyLast(strings, q, path, want, rest, keep)
  {
    var keep := want == 2 && nameOff in strings && strings[nameOff] !in q.excProp;
    TreeFlagsLength(strings, q, path, want, rest);
    KeptCons(Prop(nameOff, value), keep, Flatten(rest), TreeFlags(strings, q, path, want, rest), prev);
    LastCons(keep, TreeFlags(strings, q, path, want, rest), prev);
  }

  lemma GapKept(strings: map<nat, string>, q: Query, path: string, want: int, rest: Body, prev: bool)
    ensures && BodyKept(strings, q, path, want, Gap(rest), prev) ==
                 OneKept(Nop, want == 2, prev) + BodyKept(strings, q, path, want, rest, want == 2)
            && BodyLast(strings, q, path, want, Gap(rest), prev) == BodyLast(strings, q, path, want, rest, want == 2)
  {
    TreeFlagsLength(strings, q, path, want, rest);
    KeptCons(Nop, want == 2, Flatten(rest), TreeFlags(strings, q, path, want, rest), prev);
    LastCons(want == 2, TreeFlags(strings, q, path, want, rest), prev);
  }

  // -------------------------------------------------------------------------
  // The end of a node that is not included
  // -------------------------------------------------------------------------

  /** What was last seen in a node that is not included: an included subnode, such a
      subnode and then only excluded properties, or something else. */
  datatype Tail = Other | AfterSubnode | Hidden

  ghost function TailOf(strings: map<nat, string>, q: Query, path: string, b: Body, t: Tail): Tail {
    match b
    case Nothing => t
    case Property(nameOff, _, rest) =>
      TailOf(strings, q, path, rest, if Excluded(strings, q, nameOff) && t != Other then Hidden else Other)
    case Gap(rest) => TailOf(strings, q, path, rest, Other)
    case Subnode(name, _, rest) =>
      TailOf(strings, q, path, rest, if NodeWant(q, ChildPath(path, name), 0) > 0 then AfterSubnode else Other)
  }

  /** Excluded properties stand between the last included subnode and the end of a
      node that is not included itself. */
  ghost predicate HidesEnd(strings: map<nat, string>, q: Query, path: string, want: int, b: Body) {
    want == 0 && TailOf(strings, q, path, b, Other) == Hidden
  }

  /** No node inside has its end hidden in this way. */
  ghost predicate NoneHidden(strings: map<nat, string>, q: Query, path: string, want: int, b: Body)
    decreases b
  {
    match b
    case Nothing => true
    case Property(_, _, rest) => NoneHidden(strings, q, path, want, rest)
    case Gap(rest) => NoneHidden(strings, q, path, want, rest)
    case Subnode(name, body, rest) =>
      var path' := ChildPath(path, name);
      var want' := NodeWant(q, path', want);
      && !HidesEnd(strings, q, path', want', body)
      && NoneHidden(strings, q, path', want', body) && NoneHidden(strings, q, path, want, rest)
  }

  /** The end of a node that is not included follows an included tag after an
      included subnode; without the excluded properties, also behind them. */
  lemma {:induction false} StripLast(strings: map<nat, string>, q: Query, path: string, b: Body, t: Tail)
    ensures BodyLast(strings, q, path, 0, b, t == AfterSubnode) <==> TailOf(strings, q, path, b, t) == AfterSubnode
    ensures BodyLast(strings, q, path, 0, Strip(strings, q, b), t != Other) <==> TailOf(strings, q, path, b, t) != Other
    decreases b
  {
    match b
    case Nothing =>
    case Property(nameOff, value, rest) =>
      StripLast(strings, q, path, rest, if Excluded(strings, q, nameOff) && t != Other then Hidden else Other);
      PropertyKept(strings, q, path, 0, nameOff, value, rest, t == AfterSubnode);
      PropertyKept(strings, q, path, 0, nameOff, value, Strip(strings, q, rest), t != Other);
    case Gap(rest) =>
      StripLast(strings, q, path, rest, Other);
      GapKept(strings, q, path, 0, rest, t == AfterSubnode);
      GapKept(strings, q, path, 0, Strip(strings, q, rest), t != Other);
    case Subnode(name, body, rest) =>
      var keep := NodeWant(q, ChildPath(path, name), 0) > 0;
      StripLast(strings, q, path, rest, if keep then AfterSubnode else Other);
      SubnodeKept(strings, q, path, 0, name, body, rest, t == AfterSubnode);
      SubnodeKept(strings, q, path, 0, name, Strip(strings, q, body), Strip(strings, q, rest), t != Other);
  }

  /** The tag that ends a node. */
  lemma StripEnd(strings: map<nat, string>, q: Query, path: string, want: int, b: Body)
    requires want >= 0
    ensures var e := OneKept(EndNode, want > 0, BodyLast(strings, q, path, want, b, want > 0));
            var e' := OneKept(EndNode, want > 0, BodyLast(strings, q, path, want, Strip(strings, q, b), want > 0));
            if HidesEnd(strings, q, path, want, b) then e == [] && e' == [EndNode] else e == e'
  {
    if want == 0 {
      StripLast(strings, q, path, b, Other);
    }
  }

  /** Unless an end is hidden, stripping changes no covered tag. */
  lemma {:induction false} StripKept(strings: map<nat, string>, q: Query, path: string, want: int, b: Body,
                                     prev: bool, prev': bool)
    requires want >= 0 && NoneHidden(strings, q, path, want, b)
    ensures BodyKept(strings, q, path, want, b, prev) == BodyKept(strings, q, path, want, Strip(strings, q, b), prev')
    decreases b
  {
    match b
    case Nothing =>
    case Property(nameOff, value, rest) =>
      PropertyKept(strings, q, path, want, nameOff, value, rest, prev);
      if Excluded(strings, q, nameOff) {
        StripKept(strings, q, path, want, rest, false, prev');
      } else {
        var keep := want == 2 && nameOff in strings && strings[nameOff] !in q.excProp;
        StripKept(strings, q, path, want, rest, keep, keep);
        PropertyKept(strings, q, path, want, nameOff, value, Strip(strings, q, rest), prev');
      }
    case Gap(rest) =>
      StripKept(strings, q, path, want, rest, want == 2, want == 2);
      GapKept(strings, q, path, want, rest, prev);
      GapKept(strings, q, path, want, Strip(strings, q, rest), prev');
    case Subnode(name, body, rest) =>
      var path' := ChildPath(path, name);
      var want' := NodeWant(q, path', want);
      StripKept(strings, q, path', want', body, want' > 0, want' > 0);
      StripEnd(strings, q, path', want', body);
      StripKept(strings, q, path, want, rest, want' > 0, want' > 0);
      SubnodeKept(strings, q, path, want, name, body, rest, prev);
      SubnodeKept(strings, q, path, want, name, Strip(strings, q, body), Strip(strings, q, rest), prev');
  }

  /** The number of bytes that are hashed for a node's own two tags. */
  ghost function NodeSize(name: string, keep: bool, last: bool): nat {
    (if keep then Size(BeginNode(name)) else 0) + if keep || last then Size(EndNode) else 0
  }

  /** The number of bytes that are hashed for a node's inside. */
  ghost function SizeOf(strings: map<nat, string>, q: Query, path: string, want: int, b: Body): nat
    decreases b
  {
    match b
    case Nothing => 0
    case Property(nameOff, value, rest) =>
      (if want == 2 && nameOff in strings && strings[nameOff] !in q.excProp then Size(Prop(nameOff, value)) else 0) +
      SizeOf(strings, q, path, want, rest)
    case Gap(rest) => (if want == 2 then Size(Nop) else 0) + SizeOf(strings, q, path, want, rest)
    case Subnode(name, body, rest) =>
      var path' := ChildPath(path, name);
      var want' := NodeWant(q, path', want);
      NodeSize(name, want' > 0, BodyLast(strings, q, path', want', body, want' > 0)) +
      SizeOf(strings, q, path', want', body) + SizeOf(strings, q, path, want, rest)
  }

  lemma BytesOfTwo(x: seq<Tag>, y: seq<Tag>)
    ensures |Bytes(x + y)| == |Bytes(x)| + |Bytes(y)|
  {
    BytesParts(x, y, []);
  }

  lemma BytesOfFour(x: seq<Tag>, y: seq<Tag>, e: seq<Tag>, z: seq<Tag>)
    ensures |Bytes(x + (y + (e + z)))| == |Bytes(x)| + |Bytes(y)| + |Bytes(e)| + |Bytes(z)|
  {
    BytesOfTwo(e, z);
    BytesOfTwo(y, e + z);
    BytesOfTwo(x, y + (e + z));
  }

  lemma BytesOfOne(t: Tag, keep: bool, prev: bool)
    ensures |Bytes(OneKept(t, keep, prev))| == if OneKept(t, keep, prev) == [] then 0 else Size(t)
  {
    BytesOfAll(OneKept(t, keep, prev));
  }

  lemma {:induction false} SizeIs(strings: map<nat, string>, q: Query, path: string, want: int, b: Body, prev: bool)
    ensures |Bytes(BodyKept(strings, q, path, want, b, prev))| == SizeOf(strings, q, path, want, b)
    decreases b
  {
    match b
    case Nothing =>
      BytesOfAll([]);
    case Property(nameOff, value, rest) =>
      var keep := want == 2 && nameOff in strings && strings[nameOff] !in q.excProp;
      PropertyKept(strings, q, path, want, nameOff, value, rest, prev);
      BytesOfTwo(OneKept(Prop(nameOff, value), keep, prev), BodyKept(strings, q, path, want, rest, keep));
      BytesOfOne(Prop(nameOff, value), keep, prev);
      SizeIs(strings, q, path, want, rest, keep);
    case Gap(rest) =>
      GapKept(strings, q, path, want, rest, prev);
      BytesOfTwo(OneKept(Nop, want == 2, prev), BodyKept(strings, q, path, want, rest, want == 2));
      BytesOfOne(Nop, want == 2, prev);
      SizeIs(strings, q, path, want, rest, want == 2);
    case Subnode(name, body, rest) =>
      var path' := ChildPath(path, name);
      var want' := NodeWant(q, path', want);
      SizeIs(strings, q, path', want', body, want' > 0);
      SizeIs(strings, q, path, want, rest, want' > 0);
      SubnodeSize(strings, q, path, want, name, body, rest, prev);
  }

  lemma SubnodeSize(strings: map<nat, string>, q: Query, path: string, want: int,
                    name: string, body: Body, rest: Body, prev: bool)
    ensures var path' := ChildPath(path, name);
            var want' := NodeWant(q, path', want);
            |Bytes(BodyKept(strings, q, path, want, Subnode(name, body, rest), prev))| ==
            NodeSize(name, want' > 0, BodyLast(strings, q, path', want', body, want' > 0)) +
            |Bytes(BodyKept(strings, q, path', want', body, want' > 0))| +
            |Bytes(BodyKept(strings, q, path, want, rest, want' > 0))|
  {
    var path' := ChildPath(path, name);
    var want' := NodeWant(q, path', want);
    var keep, last := want' > 0, BodyLast(strings, q, path', want', body, want' > 0);
    SubnodeKept(strings, q, path, want, name, body, rest, prev);
    NodeSizeIs(name, keep, last, prev, BodyKept(strings, q, path', want', body, keep),
               BodyKept(strings, q, path, want, rest, keep));
  }

  lemma NodeSizeIs(name: string, keep: bool, last: bool, prev: bool, x: seq<Tag>, y: seq<Tag>)
    ensures |Bytes(OneKept(BeginNode(name), keep, prev) + (x + (OneKept(EndNode, keep, last) + y)))| ==
            NodeSize(name, keep, last) + |Bytes(x)| + |Bytes(y)|
  {
    BytesOfOne(BeginNode(name), keep, prev);
    BytesOfOne(EndNode, keep, last);
    BytesOfFour(OneKept(BeginNode(name), keep, prev), x, OneKept(EndNode, keep, last), y);
  }

  /** What a hidden end adds. */
  lemma EndLonger(strings: map<nat, string>, q: Query, path: string, want: int, name: string, b: Body)
    requires want >= 0
    ensures var n := NodeSize(name, want > 0, BodyLast(strings, q, path, want, b, want > 0));
            var n' := NodeSize(name, want > 0, BodyLast(strings, q, path, want, Strip(strings, q, b), want > 0));
            if HidesEnd(strings, q, path, want, b) then n < n' else n == n'
  {
    StripEnd(strings, q, path, want, b);
  }

  /** Stripping never makes what is hashed shorter, and longer if an end is hidden. */
  lemma {:induction false} StripLonger(strings: map<nat, string>, q: Query, path: string, want: int, b: Body)
    requires want >= 0
    ensures var n, n' := SizeOf(strings, q, path, want, b), SizeOf(strings, q, path, want, Strip(strings, q, b));
            if NoneHidden(strings, q, path, want, b) then n <= n' else n < n'
    decreases b
  {
    match b
    case Nothing =>
    case Property(_, _, rest) => StripLonger(strings, q, path, want, rest);
    case Gap(rest) => StripLonger(strings, q, path, want, rest);
    case Subnode(name, body, rest) =>
      var path' := ChildPath(path, name);
      var want' := NodeWant(q, path', want);
      StripLonger(strings, q, path', want', body);
      EndLonger(strings, q, path', want', name, body);
      StripLonger(strings, q, path, want, rest);
  }

  /** The devicetree blob that holds a tree. */
  function TreeBlob(b: Body, base: nat, strings: map<nat, string>, stringsSize: nat): Blob {
    var offs := TagOffsets(FlattenRoot(b));
    Blob(FlattenRoot(b), offs, base, offs[|offs| - 1], stringsSize, strings)
  }

  /** The covered tags of a whole tree. */
  ghost function RootKept(strings: map<nat, string>, q: Query, b: Body): seq<Tag> {
    var want := NodeWant(q, "/", 0);
    OneKept(BeginNode(""), want > 0, false) +
    (BodyKept(strings, q, "/", want, b, want > 0) +
     (OneKept(EndNode, want > 0, BodyLast(strings, q, "/", want, b, want > 0)) + [End]))
  }

  lemma RootKeptIs(strings: map<nat, string>, q: Query, b: Body)
    ensures |RootFlags(strings, q, b)| == |FlattenRoot(b)|
    ensures Kept(FlattenRoot(b), RootFlags(strings, q, b), false) == RootKept(strings, q, b)
  {
    var want := NodeWant(q, "/", 0);
    TreeFlagsLength(strings, q, "/", want, b);
    KeptNode("", want > 0, Flatten(b), TreeFlags(strings, q, "/", want, b), [End], [true], false);
    KeptOne(End, true, want > 0);
  }

  lemma RootCovered(b: Body, base: nat, strings: map<nat, string>, stringsSize: nat, q: Query)
    requires GoodNames(b) && RootFits(strings, q, b)
    ensures var blob := TreeBlob(b, base, strings, stringsSize);
            Find(blob, q, false).Found? && CoveredTags(blob, q) == RootKept(strings, q, b)
  {
    var tags, flags := FlattenRoot(b), RootFlags(strings, q, b);
    ScanOfTree(strings, q, b);
    RootKeptIs(strings, q, b);
    assert Decide(strings, q, START, tags) == Accepted(flags) && |flags| == |tags|;
    assert tags[..|flags|] == tags;
  }

  /** What is hashed for a whole tree. */
  lemma TreeHashed(b: Body, base: nat, strings: map<nat, string>, table: seq<int>, q: Query)
    requires GoodNames(b) && RootFits(strings, q, b)
    ensures var blob := TreeBlob(b, base, strings, |table|);
            Find(blob, q, false).Found? && HashedOf(blob, table, q) == Bytes(RootKept(strings, q, b))
  {
    RootCovered(b, base, strings, |table|, q);
    HashedOfIs(TreeBlob(b, base, strings, |table|), table, q);
  }

  lemma {:induction false} StripFits(strings: map<nat, string>, q: Query, depth: nat, len: nat, b: Body)
    requires Fits(strings, q, depth, len, b)
    ensures Fits(strings, q, depth, len, Strip(strings, q, b))
    decreases b
  {
    match b
    case Nothing =>
    case Property(_, _, rest) => StripFits(strings, q, depth, len, rest);
    case Gap(rest) => StripFits(strings, q, depth, len, rest);
    case Subnode(name, body, rest) =>
      StripFits(strings, q, depth + 1, (if len != 1 then len + 1 else len) + |name|, body);
      StripFits(strings, q, depth, if depth == 1 then 0 else len, rest);
  }

  lemma {:induction false} StripGoodNames(strings: map<nat, string>, q: Query, b: Body)
    requires GoodNames(b)
    ensures GoodNames(Strip(strings, q, b))
  {
    match b
    case Nothing =>
    case Property(_, _, rest) => StripGoodNames(strings, q, rest);
    case Gap(rest) => StripGoodNames(strings, q, rest);
    case Subnode(name, body, rest) =>
      StripGoodNames(strings, q, body);
      StripGoodNames(strings, q, rest);
  }

  /** No end is hidden in the whole tree. */
  ghost predicate EndsVisible(strings: map<nat, string>, q: Query, b: Body) {
    var want := NodeWant(q, "/", 0);
    !HidesEnd(strings, q, "/", want, b) && NoneHidden(strings, q, "/", want, b)
  }

  lemma RootSize(strings: map<nat, string>, q: Query, b: Body)
    ensures var want := NodeWant(q, "/", 0);
            |Bytes(RootKept(strings, q, b))| ==
            NodeSize("", want > 0, BodyLast(strings, q, "/", want, b, want > 0)) + SizeOf(strings, q, "/", want, b) +
            |Bytes([End])|
  {
    var want := NodeWant(q, "/", 0);
    var body, last := BodyKept(strings, q, "/", want, b, want > 0), BodyLast(strings, q, "/", want, b, want > 0);
    NodeSizeIs("", want > 0, last, false, body, [End]);
    SizeIs(strings, q, "/", want, b, want > 0);
  }

  lemma StripRootLonger(strings: map<nat, string>, q: Query, b: Body)
    requires !EndsVisible(strings, q, b)
    ensures |Bytes(RootKept(strings, q, b))| < |Bytes(RootKept(strings, q, Strip(strings, q, b)))|
  {
    var want := NodeWant(q, "/", 0);
    StripLonger(strings, q, "/", want, b);
    EndLonger(strings, q, "/", want, "", b);
    RootSize(strings, q, b);
    RootSize(strings, q, Strip(strings, q, b));
  }

  lemma StripRootKept(strings: map<nat, string>, q: Query, b: Body)
    requires EndsVisible(strings, q, b)
    ensures RootKept(strings, q, b) == RootKept(strings, q, Strip(strings, q, b))
  {
    var want := NodeWant(q, "/", 0);
    StripEnd(strings, q, "/", want, b);
    StripKept(strings, q, "/", want, b, want > 0, want > 0);
  }

  /** For every tree: what is hashed is what would be hashed if the excluded
      properties were not there at all, exactly when no excluded properties stand
      between an included subnode and the end of a node that is not included. */
  lemma ExcludedPropertiesInvisible(b: Body, base: nat, strings: map<nat, string>, table: seq<int>, q: Query,
                                    base': nat, table': seq<int>)
    requires GoodNames(b) && RootFits(strings, q, b)
    ensures var blob := TreeBlob(b, base, strings, |table|);
            var bare := TreeBlob(Strip(strings, q, b), base', strings, |table'|);
            && Find(blob, q, false).Found? && Find(bare, q, false).Found?
            && (HashedOf(blob, table, q) == HashedOf(bare, table', q) <==> EndsVisible(strings, q, b))
  {
    var b' := Strip(strings, q, b);
    StripFits(strings, q, 1, 1, b);
    StripGoodNames(strings, q, b);
    TreeHashed(b, base, strings, table, q);
    TreeHashed(b', base', strings, table', q);
    if EndsVisible(strings, q, b) {
      StripRootKept(strings, q, b);
    } else {
      StripRootLonger(strings, q, b);
    }
  }

  lemma {:induction false} FirstNotHidden(strings: map<nat, string>, q: Query, path: string, b: Body,
                                          allowed: bool, t: Tail)
    requires PropsFirst(b, allowed) && t != Hidden && (allowed ==> t == Other)
    ensures TailOf(strings, q, path, b, t) != Hidden
    decreases b
  {
    match b
    case Nothing =>
    case Property(_, _, rest) => FirstNotHidden(strings, q, path, rest, allowed, Other);
    case Gap(rest) => FirstNotHidden(strings, q, path, rest, allowed, Other);
    case Subnode(name, _, rest) =>
      FirstNotHidden(strings, q, path, rest, false,
                     if NodeWant(q, ChildPath(path, name), 0) > 0 then AfterSubnode else Other);
  }

  lemma {:induction false} FirstNoneHidden(strings: map<nat, string>, q: Query, path: string, want: int,
                                           b: Body, allowed: bool)
    requires PropsFirst(b, allowed)
    ensures NoneHidden(strings, q, path, want, b)
    decreases b
  {
    match b
    case Nothing =>
    case Property(_, _, rest) => FirstNoneHidden(strings, q, path, want, rest, allowed);
    case Gap(rest) => FirstNoneHidden(strings, q, path, want, rest, allowed);
    case Subnode(name, body, rest) =>
      var path' := ChildPath(path, name);
      FirstNotHidden(strings, q, path', body, true, Other);
      FirstNoneHidden(strings, q, path', NodeWant(q, path', want), body, true);
      FirstNoneHidden(strings, q, path, want, rest, false);
  }

  /** Trees in which properties precede subnodes, as the standard demands, have all
      their ends visible. */
  lemma PropsFirstVisible(strings: map<nat, string>, q: Query, b: Body)
    requires PropsFirst(b, true)
    ensures EndsVisible(strings, q, b)
  {
    FirstNotHidden(strings, q, "/", b, true, Other);
    FirstNoneHidden(strings, q, "/", NodeWant(q, "/", 0), b, true);
  }

  /** A tree that the scan accepts and whose end is hidden by the excluded "x". */
  lemma HiddenEnd(strings: map<nat, string>, q: Query)
    requires strings == map[0 := "x"] && q == Query(["/a"], ["x"], 10)
    ensures var b := Subnode("a", Nothing, Property(0, [], Nothing));
            GoodNames(b) && RootFits(strings, q, b) && !EndsVisible(strings, q, b)
  {
    var b := Subnode("a", Nothing, Property(0, [], Nothing));
    assert ChildPath("/", "a") == "/a";
    assert "x" in q.excProp && q.inc[0] == "/a";
    assert NodeWant(q, "/a", 0) == 2;
    assert NodeWant(q, "/", 0) == 0;
    assert TailOf(strings, q, "/", Property(0, [], Nothing), AfterSubnode) == Hidden;
  }
}
