/** A command line as a list of arguments: printing the arguments and reading
    them back gives the same arguments, and rewriting the line edits the list. */
module CmdlineArgs {
  import opened Sequences
  import opened CmdlineSpec

  /** The arguments from `p` on, and whether the last one has an open quote. */
  datatype Args = Args(list: seq<string>, open: bool)

  function ArgsFrom(s: string, p: nat): Args
    requires p <= |s|
    decreases |s| - p
  {
    var from := SkipSpaces(s, p);
    if from == |s| then Args([], false)
    else
      match ArgEnd(s, from, false)
      case Unterminated => Args([], true)
      case At(end) =>
        var rest := ArgsFrom(s, end);
        Args([s[from..end]] + rest.list, rest.open)
  }

  /** One whole argument: it starts without a space and ends where it ends. */
  predicate IsArg(t: string) {
    t != "" && t[0] != ' ' && ArgEnd(t, 0, false) == At(|t|)
  }

  function Name(t: string): string {
    t[..NameEnd(t, 0, false)]
  }

  ghost predicate AllArgs(list: seq<string>) {
    forall k :: 0 <= k < |list| ==> IsArg(list[k])
  }

  // -------------------------------------------------------------------------
  // An argument inside a line
  // -------------------------------------------------------------------------

  /** Reading `t` inside a line where a space or nothing follows it. */
  lemma {:induction false} ReadInside(a: string, t: string, b: string, i: nat, q: bool)
    requires i <= |t| && ArgEnd(t, i, q) == At(|t|) && (b == "" || b[0] == ' ')
    ensures var s := a + t + b;
            ArgEnd(s, |a| + i, q) == At(|a| + |t|) && NameEnd(s, |a| + i, q) == |a| + NameEnd(t, i, q)
    decreases |t| - i
  {
    var s := a + t + b;
    if i < |t| {
      assert s[|a| + i] == t[i];
      ReadInside(a, t, b, i + 1, (t[i] == '"') != q);
    } else {
      assert b != "" ==> s[|a| + i] == b[0];
    }
  }

  /** Cutting out the argument that was read leaves a whole argument. */
  lemma {:induction false} ReadCut(s: string, p: nat, j: nat, e: nat, q: bool)
    requires p <= j <= e <= |s| && ArgEnd(s, j, q) == At(e)
    ensures ArgEnd(s[p..e], j - p, q) == At(e - p)
    ensures NameEnd(s, j, q) == p + NameEnd(s[p..e], j - p, q)
    decreases e - j
  {
    var t := s[p..e];
    if j < e {
      assert t[j - p] == s[j];
      ReadCut(s, p, j + 1, e, (s[j] == '"') != q);
    }
  }

  lemma NameInside(s: string, from: nat, end: nat)
    requires from <= end <= |s| && ArgEnd(s, from, false) == At(end)
    ensures NameEnd(s, from, false) == from + NameEnd(s[from..end], 0, false)
    ensures Name(s[from..end]) == s[from..NameEnd(s, from, false)]
  {
    ReadCut(s, from, from, end, false);
    SliceOfSlice(s, from, end, 0, NameEnd(s[from..end], 0, false));
  }

  lemma {:induction false} LastNotSpace(t: string, i: nat, q: bool)
    requires i < |t| && ArgEnd(t, i, q) == At(|t|)
    ensures t[|t| - 1] != ' '
    decreases |t| - i
  {
    if i + 1 < |t| {
      LastNotSpace(t, i + 1, (t[i] == '"') != q);
    }
  }

  /** Everything that is read is a whole argument. */
  lemma {:induction false} ArgsAreArgs(s: string, p: nat)
    requires p <= |s|
    ensures AllArgs(ArgsFrom(s, p).list)
    decreases |s| - p
  {
    var from := SkipSpaces(s, p);
    if from < |s| && ArgEnd(s, from, false).At? {
      var end := ArgEnd(s, from, false).pos;
      ArgsAreArgs(s, end);
      ReadCut(s, from, from, end, false);
    }
  }

  // -------------------------------------------------------------------------
  // Printing and reading back
  // -------------------------------------------------------------------------

  function Line(list: seq<string>): string {
    if list == [] then ""
    else if |list| == 1 then list[0]
    else list[0] + (" " + Line(list[1..]))
  }

  lemma ArgsSkip(s: string, p: nat)
    requires p < |s| && s[p] == ' '
    ensures ArgsFrom(s, p) == ArgsFrom(s, p + 1)
  {
  }

  lemma ArgsHead(a: string, t: string, b: string)
    requires IsArg(t) && (b == "" || b[0] == ' ')
    ensures var s := a + t + b;
            ArgsFrom(s, |a|) == Args([t] + ArgsFrom(s, |a| + |t|).list, ArgsFrom(s, |a| + |t|).open)
  {
    var s := a + t + b;
    assert s[|a|] == t[0];
    assert SkipSpaces(s, |a|) == |a|;
    ReadInside(a, t, b, 0, false);
    assert s[|a|..|a| + |t|] == t;
  }

  lemma RegroupSpace(a: string, t: string, l: string)
    ensures a + t + (" " + l) == (a + t + " ") + l
    ensures a + t + (" " + l) == a + (t + (" " + l))
  {
  }

  lemma ArgsHeadSpace(a: string, t: string, l: string, rest: seq<string>)
    requires IsArg(t) && ArgsFrom((a + t + " ") + l, |a + t + " "|) == Args(rest, false)
    ensures ArgsFrom(a + (t + (" " + l)), |a|) == Args([t] + rest, false)
  {
    var b := " " + l;
    RegroupSpace(a, t, l);
    ArgsHead(a, t, b);
    var s := a + t + b;
    assert s[|a| + |t|] == b[0];
    ArgsSkip(s, |a| + |t|);
  }

  /** Printing a list of arguments and reading the line gives back the list. */
  lemma {:induction false} ReadBack(a: string, list: seq<string>)
    requires AllArgs(list)
    ensures ArgsFrom(a + Line(list), |a|) == Args(list, false)
    decreases |list|
  {
    if list == [] {
    } else if |list| == 1 {
      ArgsHead(a, list[0], "");
      assert a + list[0] + "" == a + list[0];
    } else {
      var t, rest := list[0], list[1..];
      ReadBack(a + t + " ", rest);
      ArgsHeadSpace(a, t, Line(rest), rest);
      assert list == [t] + rest;
    }
  }

  // -------------------------------------------------------------------------
  // Editing the list
  // -------------------------------------------------------------------------

  function EditOne(t: string, arg: string, val: NewVal): seq<string> {
    if Name(t) != arg then [t]
    else if val.Delete? then []
    else [Render(arg, val)]
  }

  /** Every argument of that name is deleted or gets the new value; the others
      stay as they are, in their places. */
  function EditAll(list: seq<string>, arg: string, val: NewVal): seq<string> {
    if list == [] then [] else EditOne(list[0], arg, val) + EditAll(list[1..], arg, val)
  }

  predicate Has(list: seq<string>, arg: string) {
    exists k :: 0 <= k < |list| && Name(list[k]) == arg
  }

  /** Adds arguments to the text written so far. */
  function Extend(out: string, list: seq<string>): string
    decreases |list|
  {
    if list == [] then out else Extend(Add(out, list[0]), list[1..])
  }

  lemma ExtendEdited(out: string, t: string, arg: string, val: NewVal, rest: seq<string>)
    ensures Extend(out, EditOne(t, arg, val) + rest) == Extend(AddEdited(out, Name(t), t, arg, val), rest)
  {
    var one := EditOne(t, arg, val);
    if one == [] {
      assert one + rest == rest;
    } else {
      assert (one + rest)[1..] == rest;
    }
  }

  lemma HasCons(t: string, rest: seq<string>, arg: string)
    ensures Has([t] + rest, arg) <==> Name(t) == arg || Has(rest, arg)
  {
    var l := [t] + rest;
    if Has(rest, arg) {
      var k :| 0 <= k < |rest| && Name(rest[k]) == arg;
      assert l[k + 1] == rest[k];
    }
    if Has(l, arg) {
      var k :| 0 <= k < |l| && Name(l[k]) == arg;
      assert k > 0 ==> rest[k - 1] == l[k];
    }
    assert l[0] == t;
  }

  lemma EditAllCons(t: string, rest: seq<string>, arg: string, val: NewVal)
    ensures EditAll([t] + rest, arg, val) == EditOne(t, arg, val) + EditAll(rest, arg, val)
  {
    assert ([t] + rest)[1..] == rest;
  }

  /** Rewriting the line prints the edited list. */
  lemma {:induction false} RewriteEdits(s: string, p: nat, arg: string, val: NewVal, out: string, found: bool)
    requires p <= |s|
    ensures var args := ArgsFrom(s, p);
            Rewrite(s, p, arg, val, out, found) ==
            Pass(Extend(out, EditAll(args.list, arg, val)), found || Has(args.list, arg), args.open)
    decreases |s| - p
  {
    var from := SkipSpaces(s, p);
    if from < |s| && ArgEnd(s, from, false).At? {
      var end := ArgEnd(s, from, false).pos;
      var t, rest := s[from..end], ArgsFrom(s, end).list;
      NameInside(s, from, end);
      HasCons(t, rest, arg);
      EditAllCons(t, rest, arg, val);
      ExtendEdited(out, t, arg, val, EditAll(rest, arg, val));
      RewriteEdits(s, end, arg, val, AddEdited(out, Name(t), t, arg, val), found || Name(t) == arg);
    }
  }

  lemma RegroupAdd(out: string, t: string, l: string)
    ensures out + " " + t + l == out + (" " + (t + l))
    ensures out + " " + t == out + (" " + t)
  {
  }

  lemma {:induction false} ExtendIsLine(out: string, list: seq<string>)
    requires AllArgs(list) && list != []
    ensures Extend(out, list) == if out == "" then Line(list) else out + (" " + Line(list))
    decreases |list|
  {
    var t, rest := list[0], list[1..];
    if rest == [] {
      RegroupAdd(out, t, "");
    } else {
      ExtendIsLine(Add(out, t), rest);
      RegroupAdd(out, t, " " + Line(rest));
    }
  }
}
