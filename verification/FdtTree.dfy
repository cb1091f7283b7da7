/** The scan against the tree it reads. For any stream of tags the one-pass
    decisions depend only on the paths of the open nodes; for the stream of a
    tree they are what a recursion over the tree gives. */
module FdtTree {
  import opened Sequences
  import opened FdtFormat
  import opened FdtScan

  // -------------------------------------------------------------------------
  // Paths of open nodes
  // -------------------------------------------------------------------------

  ghost predicate GoodName(s: string) {
    s != "" && '/' !in s
  }

  /** Names of the open nodes, the root's empty one first. */
  ghost predicate GoodOpen(o: seq<string>) {
    && (o != [] ==> o[0] == "")
    && forall k :: 1 <= k < |o| ==> GoodName(o[k])
  }

  /** The full path of the innermost open node. */
  ghost function PathOf(o: seq<string>): string {
    var n := |o| - 1;
    if o == [] then ""
    else if n == 0 then "/"
    else (if n == 1 then "" else PathOf(o[..n])) + "/" + o[n]
  }

  lemma PathOfLong(o: seq<string>)
    requires GoodOpen(o) && |o| >= 2
    ensures |PathOf(o)| >= 2
  {
  }

  /** Cutting undoes appending a name. */
  lemma {:induction false} CutName(p: string, name: string)
    requires '/' !in name
    ensures Cut(p + "/" + name) == p
    decreases |name|
  {
    var s := p + "/" + name;
    if name == "" {
      assert s[..|s| - 1] == p;
    } else {
      var m := name[..|name| - 1];
      assert s[..|s| - 1] == p + "/" + m;
      assert s[|s| - 1] == name[|name| - 1];
      CutName(p, m);
    }
  }

  // -------------------------------------------------------------------------
  // What should be included
  // -------------------------------------------------------------------------

  ghost predicate Listed(q: Query, o: seq<string>) {
    o != [] && PathOf(o) in q.inc
  }

  /** The open nodes after a tag. */
  ghost function After(o: seq<string>, t: Tag): seq<string> {
    match t
    case BeginNode(name) => o + [name]
    case EndNode => if o == [] then o else o[..|o| - 1]
    case _ => o
  }

  /** A node's own tags are included when the node or its parent is listed;
      what is directly inside a node when the node is listed, except properties
      whose name is excluded. */
  ghost predicate Wanted(strings: map<nat, string>, q: Query, o: seq<string>, t: Tag) {
    match t
    case BeginNode(name) => Listed(q, o + [name]) || Listed(q, o)
    case EndNode => Listed(q, o) || (o != [] && Listed(q, o[..|o| - 1]))
    case Prop(nameOff, _) => Listed(q, o) && nameOff in strings && strings[nameOff] !in q.excProp
    case Nop => Listed(q, o)
    case End => true
  }

  /** The wanted flags up to and including the first FDT_END. */
  ghost function WantedFlags(strings: map<nat, string>, q: Query, o: seq<string>, tags: seq<Tag>): seq<bool>
    decreases |tags|
  {
    if tags == [] then []
    else if tags[0].End? then [true]
    else [Wanted(strings, q, o, tags[0])] + WantedFlags(strings, q, After(o, tags[0]), tags[1..])
  }

  // -------------------------------------------------------------------------
  // The scanner's position against the open nodes
  // -------------------------------------------------------------------------

  /** What the scanner's `want` counter should be inside the open nodes. */
  ghost function WantOf(q: Query, o: seq<string>): int {
    if Listed(q, o) then 2
    else if o != [] && Listed(q, o[..|o| - 1]) then 1
    else 0
  }

  /** The path buffer is exact, except that it is empty instead of "/" in the
      root after a subnode was closed. */
  ghost predicate PathHolds(path: string, o: seq<string>) {
    path == PathOf(o) || (|o| == 1 && path == "")
  }

  ghost predicate StackHolds(q: Query, stack: seq<int>, o: seq<string>) {
    |stack| == |o| && forall k :: 0 <= k < |o| ==> stack[k] == WantOf(q, o[..k])
  }

  ghost predicate Corresponds(q: Query, c: Ctl, o: seq<string>) {
    && GoodOpen(o)
    && PathHolds(c.path, o)
    && StackHolds(q, c.stack, o)
    && c.want == WantOf(q, o)
    && (c.expectEnd ==> o == [])
  }

  /** Node names are as the standard demands: the root's is empty, no other is,
      and none holds a '/'. */
  ghost predicate WellNamed(o: seq<string>, tags: seq<Tag>)
    decreases |tags|
  {
    tags == [] ||
    (&& (tags[0].BeginNode? && o != [] ==> GoodName(tags[0].name))
     && WellNamed(After(o, tags[0]), tags[1..]))
  }

  /** At every FDT_BEGIN_NODE the path buffer ends up exact. */
  lemma AppendHolds(path: string, o: seq<string>, name: string)
    requires GoodOpen(o) && PathHolds(path, o) && GoodOpen(o + [name])
    ensures Append(path, name) == PathOf(o + [name])
  {
    var o' := o + [name];
    assert o'[..|o|] == o;
    if |o| >= 2 {
      PathOfLong(o);
    }
  }

  /** Every FDT_END_NODE leaves it where the next sibling's path is exact. */
  lemma CutHolds(path: string, o: seq<string>)
    requires GoodOpen(o) && o != [] && PathHolds(path, o)
    ensures PathHolds(Cut(path), o[..|o| - 1])
  {
    var n := |o| - 1;
    if n == 0 {
      CutName("", "");
      assert "" + "/" + "" == "/";
    } else {
      CutName(if n == 1 then "" else PathOf(o[..n]), o[n]);
    }
  }

  lemma PushHolds(q: Query, stack: seq<int>, o: seq<string>, name: string)
    requires StackHolds(q, stack, o)
    ensures StackHolds(q, stack + [WantOf(q, o)], o + [name])
  {
    var o' := o + [name];
    forall k | 0 <= k < |o'| ensures (stack + [WantOf(q, o)])[k] == WantOf(q, o'[..k]) {
      if k < |o| {
        assert o'[..k] == o[..k];
      } else {
        assert o'[..k] == o;
      }
    }
  }

  lemma PopHolds(q: Query, stack: seq<int>, o: seq<string>)
    requires StackHolds(q, stack, o) && o != []
    ensures StackHolds(q, stack[..|o| - 1], o[..|o| - 1]) && stack[|o| - 1] == WantOf(q, o[..|o| - 1])
  {
    var n := |o| - 1;
    forall k | 0 <= k < n ensures stack[..n][k] == WantOf(q, o[..n][..k]) {
      assert o[..n][..k] == o[..k];
    }
  }

  lemma BeginHolds(q: Query, c: Ctl, o: seq<string>, name: string)
    requires Corresponds(q, c, o) && (o != [] ==> GoodName(name)) && BeginStep(q, c, name).Next?
    requires !c.expectEnd
    ensures Corresponds(q, BeginStep(q, c, name).ctl, o + [name])
    ensures BeginStep(q, c, name).keep == (Listed(q, o + [name]) || Listed(q, o))
  {
    var o' := o + [name];
    assert GoodOpen(o');
    AppendHolds(c.path, o, name);
    PushHolds(q, c.stack, o, name);
    assert o'[..|o|] == o;
  }

  lemma EndHolds(q: Query, c: Ctl, o: seq<string>)
    requires Corresponds(q, c, o) && EndStep(c).Next?
    ensures Corresponds(q, EndStep(c).ctl, o[..|o| - 1])
    ensures EndStep(c).keep == (Listed(q, o) || Listed(q, o[..|o| - 1]))
  {
    var o', c' := o[..|o| - 1], EndStep(c).ctl;
    CutHolds(c.path, o);
    PopHolds(q, c.stack, o);
    assert GoodOpen(o') && PathHolds(c'.path, o') && StackHolds(q, c'.stack, o') && c'.want == WantOf(q, o');
  }

  /** One turn of the scan keeps the correspondence and decides as wanted. */
  lemma StepHolds(strings: map<nat, string>, q: Query, c: Ctl, o: seq<string>, t: Tag)
    requires Corresponds(q, c, o) && (t.BeginNode? && o != [] ==> GoodName(t.name))
    requires StepTag(strings, q, c, t).Next?
    ensures Corresponds(q, StepTag(strings, q, c, t).ctl, After(o, t))
    ensures StepTag(strings, q, c, t).keep == Wanted(strings, q, o, t)
  {
    match t
    case BeginNode(name) => BeginHolds(q, c, o, name);
    case EndNode => EndHolds(q, c, o);
    case _ =>
  }

  /** For every stream that the scan accepts, it includes exactly the wanted
      tags: the counter, the stack and the path buffer amount to asking whether
      the paths of the open nodes are listed. */
  lemma {:induction false} DecidesWanted(strings: map<nat, string>, q: Query, c: Ctl, o: seq<string>, tags: seq<Tag>)
    requires Corresponds(q, c, o) && WellNamed(o, tags)
    requires Decide(strings, q, c, tags).Accepted?
    ensures Decide(strings, q, c, tags).flags == WantedFlags(strings, q, o, tags)
    decreases |tags|
  {
    StepHolds(strings, q, c, o, tags[0]);
    if !tags[0].End? {
      DecidesWanted(strings, q, StepTag(strings, q, c, tags[0]).ctl, After(o, tags[0]), tags[1..]);
    }
  }

  // -------------------------------------------------------------------------
  // Trees
  // -------------------------------------------------------------------------

  /** The inside of a node. */
  datatype Body =
    | Nothing
    | Property(nameOff: nat, value: seq<int>, rest: Body)
    | Gap(rest: Body)
    | Subnode(name: string, body: Body, rest: Body)

  function Flatten(b: Body): seq<Tag> {
    match b
    case Nothing => []
    case Property(nameOff, value, rest) => [Prop(nameOff, value)] + Flatten(rest)
    case Gap(rest) => [Nop] + Flatten(rest)
    case Subnode(name, body, rest) => [BeginNode(name)] + Flatten(body) + [EndNode] + Flatten(rest)
  }

  /** The structure block of a tree whose root has the given inside. */
  function FlattenRoot(b: Body): seq<Tag> {
    [BeginNode("")] + Flatten(b) + [EndNode] + [End]
  }

  function ChildPath(path: string, name: string): string {
    if path == "/" then path + name else path + "/" + name
  }

  /** 2 for a listed node, otherwise one less than its parent's, down to 0. */
  function NodeWant(q: Query, path: string, parentWant: int): int {
    if path in q.inc then 2 else if parentWant > 0 then parentWant - 1 else 0
  }

  /** The recursive definition of what is included: a node's two tags when its
      want is not 0, its properties and gaps when its want is 2. */
  function TreeFlags(strings: map<nat, string>, q: Query, path: string, want: int, b: Body): seq<bool>
    decreases b
  {
    match b
    case Nothing => []
    case Property(nameOff, _, rest) =>
      [want == 2 && nameOff in strings && strings[nameOff] !in q.excProp] + TreeFlags(strings, q, path, want, rest)
    case Gap(rest) => [want == 2] + TreeFlags(strings, q, path, want, rest)
    case Subnode(name, body, rest) =>
      var path' := ChildPath(path, name);
      var want' := NodeWant(q, path', want);
      [want' > 0] + TreeFlags(strings, q, path', want', body) + [want' > 0] + TreeFlags(strings, q, path, want, rest)
  }

  function RootFlags(strings: map<nat, string>, q: Query, b: Body): seq<bool> {
    var want := NodeWant(q, "/", 0);
    [want > 0] + TreeFlags(strings, q, "/", want, b) + [want > 0] + [true]
  }

  ghost predicate GoodNames(b: Body) {
    match b
    case Nothing => true
    case Property(_, _, rest) => GoodNames(rest)
    case Gap(rest) => GoodNames(rest)
    case Subnode(name, body, rest) => GoodName(name) && GoodNames(body) && GoodNames(rest)
  }

  lemma WantChild(q: Query, o: seq<string>, name: string)
    requires GoodOpen(o) && o != [] && GoodName(name)
    ensures PathOf(o + [name]) == ChildPath(PathOf(o), name)
    ensures WantOf(q, o + [name]) == NodeWant(q, PathOf(o + [name]), WantOf(q, o))
  {
    var o' := o + [name];
    assert o'[..|o|] == o;
    if |o| >= 2 {
      PathOfLong(o);
    }
  }

  lemma WantedFlagsCons(strings: map<nat, string>, q: Query, o: seq<string>, t: Tag, rest: seq<Tag>)
    requires !t.End?
    ensures WantedFlags(strings, q, o, [t] + rest) ==
            [Wanted(strings, q, o, t)] + WantedFlags(strings, q, After(o, t), rest)
  {
    assert ([t] + rest)[1..] == rest;
  }

  /** The wanted flags of a subnode and what follows it. */
  lemma SubnodeWanted(strings: map<nat, string>, q: Query, o: seq<string>, name: string,
                      body: seq<Tag>, bodyFlags: seq<bool>, after: seq<Tag>)
    requires GoodOpen(o) && o != [] && GoodName(name)
    requires WantedFlags(strings, q, o + [name], body + ([EndNode] + after)) ==
             bodyFlags + WantedFlags(strings, q, o + [name], [EndNode] + after)
    ensures var keep := NodeWant(q, ChildPath(PathOf(o), name), WantOf(q, o)) > 0;
            WantedFlags(strings, q, o, [BeginNode(name)] + (body + ([EndNode] + after))) ==
            [keep] + (bodyFlags + ([keep] + WantedFlags(strings, q, o, after)))
  {
    WantChild(q, o, name);
    assert (o + [name])[..|o|] == o;
    WantedFlagsCons(strings, q, o + [name], EndNode, after);
    WantedFlagsCons(strings, q, o, BeginNode(name), body + ([EndNode] + after));
  }

  /** Over the tags of a node's inside, the wanted flags are the recursion's. */
  lemma {:induction false} TreeWanted(strings: map<nat, string>, q: Query, o: seq<string>, b: Body, tail: seq<Tag>)
    requires GoodOpen(o) && o != [] && GoodNames(b)
    ensures WantedFlags(strings, q, o, Flatten(b) + tail) ==
            TreeFlags(strings, q, PathOf(o), WantOf(q, o), b) + WantedFlags(strings, q, o, tail)
    decreases b
  {
    var path, want, flags := PathOf(o), WantOf(q, o), WantedFlags(strings, q, o, tail);
    match b
    case Nothing =>
      assert Flatten(b) + tail == tail;
    case Property(nameOff, value, rest) =>
      TreeWanted(strings, q, o, rest, tail);
      WantedFlagsCons(strings, q, o, Prop(nameOff, value), Flatten(rest) + tail);
      Regroup([Prop(nameOff, value)], Flatten(rest), tail);
      Regroup([Wanted(strings, q, o, Prop(nameOff, value))], TreeFlags(strings, q, path, want, rest), flags);
    case Gap(rest) =>
      TreeWanted(strings, q, o, rest, tail);
      WantedFlagsCons(strings, q, o, Nop, Flatten(rest) + tail);
      Regroup([Nop], Flatten(rest), tail);
      Regroup([Wanted(strings, q, o, Nop)], TreeFlags(strings, q, path, want, rest), flags);
    case Subnode(name, body, rest) =>
      TreeWanted(strings, q, o, rest, tail);
      TreeWanted(strings, q, o + [name], body, [EndNode] + (Flatten(rest) + tail));
      WantChild(q, o, name);
      var path', keep := ChildPath(path, name), NodeWant(q, ChildPath(path, name), want) > 0;
      var bodyFlags := TreeFlags(strings, q, path', NodeWant(q, path', want), body);
      SubnodeWanted(strings, q, o, name, Flatten(body), bodyFlags, Flatten(rest) + tail);
      RegroupFive([BeginNode(name)], Flatten(body), [EndNode], Flatten(rest), tail);
      RegroupFive([keep], bodyFlags, [keep], TreeFlags(strings, q, path, want, rest), flags);
  }

  // -------------------------------------------------------------------------
  // Which trees the scan accepts
  // -------------------------------------------------------------------------

  ghost predicate HasSubnode(b: Body) {
    match b
    case Nothing => false
    case Property(_, _, rest) => HasSubnode(rest)
    case Gap(rest) => HasSubnode(rest)
    case Subnode(_, _, _) => true
  }

  /** What a tree must satisfy, `depth` open nodes deep with `len` characters in
      the path buffer: at most 32 nodes deep, property names in the string table,
      and paths that fit. The buffer is one shorter for the later subnodes of the
      root than for the first one. */
  ghost predicate Fits(strings: map<nat, string>, q: Query, depth: nat, len: nat, b: Body)
    decreases b
  {
    match b
    case Nothing => true
    case Property(nameOff, _, rest) => nameOff in strings && Fits(strings, q, depth, len, rest)
    case Gap(rest) => Fits(strings, q, depth, len, rest)
    case Subnode(name, body, rest) =>
      && depth < MAX_DEPTH
      && len + 2 + |name| < q.pathLen
      && Fits(strings, q, depth + 1, (if len != 1 then len + 1 else len) + |name|, body)
      && Fits(strings, q, depth, if depth == 1 then 0 else len, rest)
  }

  ghost predicate RootFits(strings: map<nat, string>, q: Query, b: Body) {
    2 < q.pathLen && Fits(strings, q, 1, 1, b)
  }

  /** The scanner inside a node: the root's path is "/" or, after a subnode,
      empty; any other is longer. */
  ghost predicate Inside(c: Ctl) {
    && !c.expectEnd
    && 0 < |c.stack| <= MAX_DEPTH
    && (if |c.stack| == 1 then c.path == "/" || c.path == "" else |c.path| >= 2)
  }

  /** The position after a node's inside. */
  ghost function Leave(c: Ctl, b: Body): Ctl {
    if |c.stack| == 1 && HasSubnode(b) then c.(path := "") else c
  }

  lemma ConsAccepted(strings: map<nat, string>, q: Query, c: Ctl, t: Tag, rest: seq<Tag>)
    requires !t.End?
    ensures var s := StepTag(strings, q, c, t);
            Decide(strings, q, c, [t] + rest).Accepted? <==> s.Next? && Decide(strings, q, s.ctl, rest).Accepted?
  {
    assert ([t] + rest)[1..] == rest;
  }

  /** Entering and leaving a subnode brings the scanner back. */
  lemma BackAgain(q: Query, c: Ctl, name: string)
    requires Inside(c) && GoodName(name) && BeginStep(q, c, name).Next?
    ensures var c' := BeginStep(q, c, name).ctl;
            && Inside(c') && |c'.path| == (if |c.path| != 1 then |c.path| + 1 else |c.path|) + |name|
            && EndStep(c').Next?
            && EndStep(c').ctl == PastSubnode(c)
  {
    var p := if |c.path| == 1 then "" else c.path;
    CutName(p, name);
    assert Append(c.path, name) == p + "/" + name;
    assert (c.stack + [c.want])[..|c.stack|] == c.stack;
  }

  /** The position after a subnode. */
  ghost function PastSubnode(c: Ctl): Ctl {
    if |c.stack| == 1 then c.(path := "") else c
  }

  lemma SubnodeFits(strings: map<nat, string>, q: Query, c: Ctl, name: string, body: Body, rest: Body)
    requires Inside(c) && GoodName(name)
    ensures var s, c'' := BeginStep(q, c, name), PastSubnode(c);
            Fits(strings, q, |c.stack|, |c.path|, Subnode(name, body, rest)) <==>
            && s.Next?
            && Fits(strings, q, |s.ctl.stack|, |s.ctl.path|, body)
            && Fits(strings, q, |c''.stack|, |c''.path|, rest)
    ensures Inside(PastSubnode(c)) && Leave(PastSubnode(c), rest) == Leave(c, Subnode(name, body, rest))
  {
    if BeginStep(q, c, name).Next? {
      BackAgain(q, c, name);
    }
  }

  lemma {:induction false} BodyAccepted(strings: map<nat, string>, q: Query, c: Ctl, b: Body, tail: seq<Tag>)
    requires Inside(c) && GoodNames(b)
    ensures Decide(strings, q, c, Flatten(b) + tail).Accepted? <==>
            Fits(strings, q, |c.stack|, |c.path|, b) && Decide(strings, q, Leave(c, b), tail).Accepted?
    decreases b
  {
    match b
    case Nothing =>
      assert Flatten(b) + tail == tail;
    case Property(nameOff, value, rest) =>
      Regroup([Prop(nameOff, value)], Flatten(rest), tail);
      ConsAccepted(strings, q, c, Prop(nameOff, value), Flatten(rest) + tail);
      BodyAccepted(strings, q, c, rest, tail);
    case Gap(rest) =>
      Regroup([Nop], Flatten(rest), tail);
      ConsAccepted(strings, q, c, Nop, Flatten(rest) + tail);
      BodyAccepted(strings, q, c, rest, tail);
    case Subnode(name, body, rest) =>
      SubnodeBodyAccepted(strings, q, c, name, body, rest, tail);
  }

  lemma {:induction false} SubnodeBodyAccepted(strings: map<nat, string>, q: Query, c: Ctl, name: string,
                                               body: Body, rest: Body, tail: seq<Tag>)
    requires Inside(c) && GoodNames(Subnode(name, body, rest))
    ensures var b := Subnode(name, body, rest);
            Decide(strings, q, c, Flatten(b) + tail).Accepted? <==>
            Fits(strings, q, |c.stack|, |c.path|, b) && Decide(strings, q, Leave(c, b), tail).Accepted?
    decreases Subnode(name, body, rest), 0
  {
    RegroupFive([BeginNode(name)], Flatten(body), [EndNode], Flatten(rest), tail);
    var after, s := Flatten(rest) + tail, BeginStep(q, c, name);
    SubnodeFits(strings, q, c, name, body, rest);
    if s.Next? {
      BackAgain(q, c, name);
      BodyAccepted(strings, q, s.ctl, body, [EndNode] + after);
      SubnodeAccepted(strings, q, c, name, Flatten(body), after, Fits(strings, q, |s.ctl.stack|, |s.ctl.path|, body));
      BodyAccepted(strings, q, PastSubnode(c), rest, tail);
    } else {
      SubnodeAccepted(strings, q, c, name, Flatten(body), after, false);
    }
  }

  /** Acceptance of a subnode, given that of its inside and of what follows. */
  lemma SubnodeAccepted(strings: map<nat, string>, q: Query, c: Ctl, name: string, body: seq<Tag>, after: seq<Tag>,
                        bodyFits: bool)
    requires Inside(c) && GoodName(name)
    requires var s := BeginStep(q, c, name);
             s.Next? ==> (Decide(strings, q, s.ctl, body + ([EndNode] + after)).Accepted? <==>
                          bodyFits && Decide(strings, q, s.ctl, [EndNode] + after).Accepted?)
    ensures Decide(strings, q, c, [BeginNode(name)] + (body + ([EndNode] + after))).Accepted? <==>
            BeginStep(q, c, name).Next? && bodyFits && Decide(strings, q, PastSubnode(c), after).Accepted?
  {
    var s := BeginStep(q, c, name);
    ConsAccepted(strings, q, c, BeginNode(name), body + ([EndNode] + after));
    if s.Next? {
      BackAgain(q, c, name);
      ConsAccepted(strings, q, s.ctl, EndNode, after);
    }
  }

  // -------------------------------------------------------------------------
  // The scan of a tree
  // -------------------------------------------------------------------------

  lemma {:induction false} FlattenWellNamed(o: seq<string>, b: Body, tail: seq<Tag>)
    requires o != [] && GoodNames(b) && WellNamed(o, tail)
    ensures WellNamed(o, Flatten(b) + tail)
    decreases b
  {
    match b
    case Nothing =>
      assert Flatten(b) + tail == tail;
    case Property(nameOff, value, rest) =>
      FlattenWellNamed(o, rest, tail);
      Regroup([Prop(nameOff, value)], Flatten(rest), tail);
      WellNamedCons(o, Prop(nameOff, value), Flatten(rest) + tail);
    case Gap(rest) =>
      FlattenWellNamed(o, rest, tail);
      Regroup([Nop], Flatten(rest), tail);
      WellNamedCons(o, Nop, Flatten(rest) + tail);
    case Subnode(name, body, rest) =>
      var o', after := o + [name], Flatten(rest) + tail;
      FlattenWellNamed(o, rest, tail);
      assert o'[..|o|] == o;
      WellNamedCons(o', EndNode, after);
      FlattenWellNamed(o', body, [EndNode] + after);
      WellNamedCons(o, BeginNode(name), Flatten(body) + ([EndNode] + after));
      RegroupFive([BeginNode(name)], Flatten(body), [EndNode], Flatten(rest), tail);
  }

  lemma WellNamedCons(o: seq<string>, t: Tag, rest: seq<Tag>)
    requires t.BeginNode? && o != [] ==> GoodName(t.name)
    requires WellNamed(After(o, t), rest)
    ensures WellNamed(o, [t] + rest)
  {
    assert ([t] + rest)[1..] == rest;
  }

  lemma RootShape(b: Body)
    ensures FlattenRoot(b) == [BeginNode("")] + (Flatten(b) + ([EndNode] + [End]))
  {
  }

  lemma EndsAccepted(strings: map<nat, string>, q: Query, c: Ctl)
    requires Inside(c) && |c.stack| == 1
    ensures Decide(strings, q, c, [EndNode] + [End]).Accepted?
  {
    ConsAccepted(strings, q, c, EndNode, [End]);
    assert EndStep(c).Next?;
  }

  lemma RootAccepted(strings: map<nat, string>, q: Query, b: Body)
    requires GoodNames(b)
    ensures Decide(strings, q, START, FlattenRoot(b)).Accepted? <==> RootFits(strings, q, b)
  {
    var s := BeginStep(q, START, "");
    RootShape(b);
    ConsAccepted(strings, q, START, BeginNode(""), Flatten(b) + ([EndNode] + [End]));
    if s.Next? {
      InRootAccepted(strings, q, s.ctl, b);
    }
  }

  lemma InRootAccepted(strings: map<nat, string>, q: Query, c: Ctl, b: Body)
    requires Inside(c) && |c.stack| == 1 && |c.path| == 1 && GoodNames(b)
    ensures Decide(strings, q, c, Flatten(b) + ([EndNode] + [End])).Accepted? <==> Fits(strings, q, 1, 1, b)
  {
    BodyAccepted(strings, q, c, b, [EndNode] + [End]);
    EndsAccepted(strings, q, Leave(c, b));
  }

  /** The open nodes when only the root is open. */
  ghost predicate OnlyRoot(o: seq<string>) {
    |o| == 1 && o[0] == ""
  }

  lemma RootOpens(o: seq<string>)
    requires OnlyRoot(o)
    ensures After([], BeginNode("")) == o && After(o, EndNode) == []
    ensures GoodOpen(o) && PathOf(o) == "/"
  {
  }

  lemma RootWellNamed(b: Body, o: seq<string>)
    requires GoodNames(b) && OnlyRoot(o)
    ensures WellNamed([], FlattenRoot(b))
  {
    var ends := [EndNode] + [End];
    RootOpens(o);
    assert WellNamed([], [End]);
    WellNamedCons(o, EndNode, [End]);
    FlattenWellNamed(o, b, ends);
    WellNamedCons([], BeginNode(""), Flatten(b) + ends);
    RootShape(b);
  }

  lemma RootRegroup(keep: bool, flags: seq<bool>)
    ensures [keep] + (flags + ([keep] + [true])) == [keep] + flags + [keep] + [true]
  {
  }

  lemma RootWanted(strings: map<nat, string>, q: Query, b: Body, o: seq<string>)
    requires GoodNames(b) && OnlyRoot(o)
    ensures WantedFlags(strings, q, [], FlattenRoot(b)) == RootFlags(strings, q, b)
  {
    var ends, want := [EndNode] + [End], NodeWant(q, "/", 0);
    RootOpens(o);
    assert WantOf(q, o) == want;
    WantedFlagsCons(strings, q, o, EndNode, [End]);
    TreeWanted(strings, q, o, b, ends);
    WantedFlagsCons(strings, q, [], BeginNode(""), Flatten(b) + ends);
    RootShape(b);
    RootRegroup(want > 0, TreeFlags(strings, q, "/", want, b));
  }

  /** For every tree with proper names: the one-pass scan of its flattened form
      succeeds exactly when the tree is at most 32 deep, its property names
      exist and its paths fit, and it then includes exactly the tags that the
      recursive definition includes. */
  lemma ScanOfTree(strings: map<nat, string>, q: Query, b: Body)
    requires GoodNames(b)
    ensures Decide(strings, q, START, FlattenRoot(b)).Accepted? <==> RootFits(strings, q, b)
    ensures RootFits(strings, q, b) ==>
              Decide(strings, q, START, FlattenRoot(b)) == Accepted(RootFlags(strings, q, b))
  {
    RootAccepted(strings, q, b);
    RootWellNamed(b, [""]);
    RootWanted(strings, q, b, [""]);
    if RootFits(strings, q, b) {
      assert Corresponds(q, START, []);
      DecidesWanted(strings, q, START, [], FlattenRoot(b));
    }
  }

  /** The same two subnodes are accepted in one order and refused in the other: for
      the first one the buffer holds one character more. */
  lemma OrderMatters(strings: map<nat, string>, q: Query)
    requires q.pathLen == 6
    ensures RootFits(strings, q, Subnode("a", Nothing, Subnode("abc", Nothing, Nothing)))
    ensures !RootFits(strings, q, Subnode("abc", Nothing, Subnode("a", Nothing, Nothing)))
  {
    assert Fits(strings, q, 1, 0, Subnode("abc", Nothing, Nothing));
  }
}
