/** What editing a command line means: it behaves as a map from names to values
    in which the last write wins, and leaves every other argument alone. */
module CmdlineMap {
  import opened Sequences
  import opened CmdlineSpec
  import opened CmdlineArgs

  /** Whether a quote is open after `k` characters. */
  function OpenAt(s: string, k: nat): bool
    requires k <= |s|
  {
    k > 0 && (s[k - 1] == '"') != OpenAt(s, k - 1)
  }

  /** The names that an argument can have: quotes are closed, and outside quotes
      there is no space or equals sign. */
  ghost predicate GoodName(arg: string) {
    !OpenAt(arg, |arg|) && forall k :: 0 <= k < |arg| && !OpenAt(arg, k) ==> arg[k] != ' ' && arg[k] != '='
  }

  /** An argument that can be written with this value, or deleted. */
  ghost predicate Writable(arg: string, val: NewVal) {
    GoodName(arg) && !BadValue(val) && (arg != "" || !val.Empty?)
  }

  /** A command line in which every quote is closed. */
  ghost predicate WellQuoted(s: string) {
    !ArgsFrom(s, 0).open
  }

  function ArgList(s: string): seq<string> {
    ArgsFrom(s, 0).list
  }

  // -------------------------------------------------------------------------
  // A written argument is read as written
  // -------------------------------------------------------------------------

  /** Over characters that are not special, reading just moves on. */
  lemma {:induction false} ReadPlain(s: string, i: nat, j: nat, q: bool)
    requires i <= j <= |s|
    requires forall k :: i <= k < j ==> s[k] != '"' && (!q ==> s[k] != ' ')
    ensures ArgEnd(s, i, q) == ArgEnd(s, j, q)
    ensures (forall k :: i <= k < j ==> q || s[k] != '=') ==> NameEnd(s, i, q) == NameEnd(s, j, q)
    decreases j - i
  {
    if i < j {
      ReadPlain(s, i + 1, j, q);
    }
  }

  /** Reading moves through a name, in and out of its quotes. */
  lemma {:induction false} ReadInName(s: string, arg: string, j: nat)
    requires GoodName(arg) && j <= |arg| <= |s| && s[..|arg|] == arg
    ensures ArgEnd(s, 0, false) == ArgEnd(s, j, OpenAt(arg, j)) && NameEnd(s, 0, false) == NameEnd(s, j, OpenAt(arg, j))
  {
    if j > 0 {
      ReadInName(s, arg, j - 1);
      assert s[j - 1] == s[..|arg|][j - 1];
    }
  }

  lemma ReadName(s: string, arg: string)
    requires GoodName(arg) && |arg| <= |s| && s[..|arg|] == arg
    ensures ArgEnd(s, 0, false) == ArgEnd(s, |arg|, false) && NameEnd(s, 0, false) == NameEnd(s, |arg|, false)
    ensures arg != "" ==> s[0] != ' '
  {
    ReadInName(s, arg, |arg|);
    assert arg != "" ==> s[0] == s[..|arg|][0] && !OpenAt(arg, 0);
  }

  lemma RenderedPlain(arg: string, v: string)
    requires GoodName(arg) && '"' !in v && ' ' !in v
    ensures var t := arg + "=" + v; IsArg(t) && NameEnd(t, 0, false) == |arg|
  {
    var t, n := arg + "=" + v, |arg|;
    assert t[..n] == arg && t[n] == '=';
    ReadName(t, arg);
    forall k | n < k < |t| ensures t[k] != '"' && t[k] != ' ' {
      assert t[k] == v[k - n - 1] && v[k - n - 1] in v;
    }
    ReadPlain(t, n + 1, |t|, false);
  }

  lemma RenderedQuoted(arg: string, v: string)
    requires GoodName(arg) && '"' !in v
    ensures var t := arg + "=\"" + v + "\""; IsArg(t) && NameEnd(t, 0, false) == |arg|
  {
    var t, n := arg + "=\"" + v + "\"", |arg|;
    assert t[..n] == arg && t[n] == '=' && t[n + 1] == '"' && t[|t| - 1] == '"';
    ReadName(t, arg);
    forall k | n + 2 <= k < |t| - 1 ensures t[k] != '"' {
      assert t[k] == v[k - n - 2] && v[k - n - 2] in v;
    }
    ReadPlain(t, n + 2, |t| - 1, true);
    assert ArgEnd(t, n, false) == ArgEnd(t, n + 1, false) == ArgEnd(t, n + 2, true);
    assert ArgEnd(t, |t| - 1, true) == ArgEnd(t, |t|, false) == At(|t|);
  }

  /** A written argument is one argument, and has the name it was given. */
  lemma RenderedIsArg(arg: string, val: NewVal)
    requires Writable(arg, val) && !val.Delete?
    ensures IsArg(Render(arg, val)) && NameEnd(Render(arg, val), 0, false) == |arg|
    ensures Name(Render(arg, val)) == arg
  {
    var t := Render(arg, val);
    if val.Value? && ' ' in val.text {
      RenderedQuoted(arg, val.text);
    } else if val.Value? {
      RenderedPlain(arg, val.text);
    } else {
      assert arg[..|arg|] == arg;
      ReadName(arg, arg);
    }
    assert t[..|arg|] == arg;
  }

  datatype Got = No(error: Error) | Yes(text: string)

  /** What a caller gets for a hit; the one negative length, -2, is -ENOENT. */
  function Piece(s: string, hit: Lookup): Got
    requires hit.Hit? && (hit.len >= 0 ==> 0 <= hit.pos && hit.pos + hit.len <= |s|)
  {
    if hit.len >= 0 then Yes(s[hit.pos..hit.pos + hit.len]) else No(ENOENT)
  }

  /** The value that a lookup finds in an argument. */
  function ArgValue(t: string): Got
    requires t != ""
  {
    Piece(t, HitAt(t, NameEnd(t, 0, false), |t|))
  }

  function ValueText(val: NewVal): string {
    if val.Value? then val.text else ""
  }

  /** What a lookup gives for a written argument: the value without its quotes, but
      nothing for a name that ends in a quote and has no value. */
  function Shown(arg: string, val: NewVal): Got {
    if !val.Value? && arg != "" && arg[|arg| - 1] == '"' then No(ENOENT) else Yes(ValueText(val))
  }

  lemma RenderedValue(arg: string, val: NewVal)
    requires Writable(arg, val) && !val.Delete?
    ensures Render(arg, val) != "" && ArgValue(Render(arg, val)) == Shown(arg, val)
  {
    RenderedIsArg(arg, val);
    if val.Value? && ' ' in val.text {
      QuotedValue(arg, val.text);
    } else if val.Value? {
      PlainValue(arg, val.text);
    }
  }

  lemma QuotedValue(arg: string, v: string)
    ensures var t := arg + "=\"" + v + "\""; Piece(t, HitAt(t, |arg|, |t|)) == Yes(v)
  {
    var t := arg + "=\"" + v + "\"";
    assert t[|t| - 1] == '"';
    assert t[|arg| + 2..|t| - 1] == v;
  }

  lemma PlainValue(arg: string, v: string)
    requires '"' !in v
    ensures var t := arg + "=" + v; Piece(t, HitAt(t, |arg|, |t|)) == Yes(v)
  {
    var t := arg + "=" + v;
    assert t[|arg| + 1..] == v;
    assert t[|t| - 1] == if v == "" then '=' else v[|v| - 1];
    assert v != "" ==> v[|v| - 1] in v;
  }

  /** A value without the pair of quotes around it. */
  function Unquoted(v: string): string {
    if |v| >= 2 && v[0] == '"' && v[|v| - 1] == '"' then v[1..|v| - 1] else v
  }

  /** A single quote is never all of a value. */
  lemma {:induction false} ClosedValue(t: string, i: nat, q: bool)
    requires i <= |t| && ArgEnd(t, i, q) == At(|t|) && NameEnd(t, i, q) < |t|
    ensures var n := NameEnd(t, i, q); t[n] == '=' && !(n + 2 == |t| && t[n + 1] == '"')
    decreases |t| - i
  {
    var n := NameEnd(t, i, q);
    if i < n {
      ClosedValue(t, i + 1, (t[i] == '"') != q);
    } else {
      assert ArgEnd(t, n + 1, false) == At(|t|);
    }
  }

  /** A value that ends in a quote loses its first and its last character. */
  lemma ValueInArg(t: string)
    requires IsArg(t) && NameEnd(t, 0, false) < |t|
    ensures var v := t[NameEnd(t, 0, false) + 1..];
            ArgValue(t) == Yes(if |v| >= 2 && v[|v| - 1] == '"' then v[1..|v| - 1] else v)
  {
    var n := NameEnd(t, 0, false);
    var v := t[n + 1..];
    ClosedValue(t, 0, false);
    assert v != "" ==> t[|t| - 1] == v[|v| - 1];
    if |v| >= 2 && v[|v| - 1] == '"' {
      SliceOfSlice(t, n + 1, |t|, 1, |v| - 1);
    }
  }

  /** A lookup gives the value of an argument without the quotes around it exactly
      when the value does not end in a quote without also starting with one. A name
      without a value gives the empty text, unless it ends in a quote. */
  lemma LookupExactly(t: string)
    requires IsArg(t)
    ensures var n := NameEnd(t, 0, false);
            if n == |t| then ArgValue(t) == Shown(t, Empty)
            else
              var v := t[n + 1..];
              ArgValue(t) == Yes(Unquoted(v)) <==> v == "" || v[|v| - 1] != '"' || v[0] == '"'
  {
    if NameEnd(t, 0, false) < |t| {
      ClosedValue(t, 0, false);
      ValueInArg(t);
    }
  }

  /** A value that loses a character which is no quote. */
  lemma CharacterLost()
    ensures var t := "a=b\"c\""; IsArg(t) && Name(t) == "a" && ArgValue(t) == Yes("\"c")
  {
    var t := "a=b\"c\"";
    assert ArgEnd(t, 4, true) == ArgEnd(t, 5, true) == ArgEnd(t, 6, false) == At(6);
    assert ArgEnd(t, 2, false) == ArgEnd(t, 3, false) == ArgEnd(t, 4, true);
    assert ArgEnd(t, 0, false) == ArgEnd(t, 1, false) == ArgEnd(t, 2, false);
    assert NameEnd(t, 0, false) == NameEnd(t, 1, false) == 1;
    assert t[3..5] == "\"c";
  }

  // -------------------------------------------------------------------------
  // The new command line
  // -------------------------------------------------------------------------

  lemma {:induction false} EditedAreArgs(list: seq<string>, arg: string, val: NewVal)
    requires AllArgs(list) && Writable(arg, val)
    ensures AllArgs(EditAll(list, arg, val))
    decreases |list|
  {
    if list != [] {
      EditedAreArgs(list[1..], arg, val);
      if !val.Delete? {
        RenderedIsArg(arg, val);
      }
    }
  }

  /** The list with the argument set everywhere or, if it is new, at the end; or
      deleted. */
  function NewList(list: seq<string>, arg: string, val: NewVal): seq<string> {
    if Has(list, arg) || val.Delete? then EditAll(list, arg, val) else EditAll(list, arg, val) + [Render(arg, val)]
  }

  /** The arguments that the new command line should have. */
  function NewArgs(s: string, arg: string, val: NewVal): seq<string> {
    NewList(ArgList(s), arg, val)
  }

  lemma NewArgsAreArgs(s: string, arg: string, val: NewVal)
    requires Writable(arg, val)
    ensures AllArgs(EditAll(ArgList(s), arg, val)) && AllArgs(NewArgs(s, arg, val))
  {
    ArgsAreArgs(s, 0);
    EditedAreArgs(ArgList(s), arg, val);
    if !val.Delete? {
      RenderedIsArg(arg, val);
    }
  }

  lemma {:induction false} LineNotSpaced(list: seq<string>)
    requires AllArgs(list)
    ensures list == [] <==> Line(list) == ""
    ensures list != [] ==> Line(list)[|Line(list)| - 1] != ' '
    decreases |list|
  {
    if list != [] {
      LastNotSpace(list[0], 0, false);
      if |list| > 1 {
        LineNotSpaced(list[1..]);
      }
    }
  }

  lemma {:induction false} LineSnoc(list: seq<string>, t: string)
    requires list != []
    ensures Line(list + [t]) == Line(list) + " " + t
    decreases |list|
  {
    var l := list + [t];
    assert l[1..] == list[1..] + [t];
    if |list| > 1 {
      LineSnoc(list[1..], t);
      RegroupLine(list[0], Line(list[1..]), t);
    } else {
      assert l[1..] == [t];
      RegroupAdd(list[0], t, "");
    }
  }

  lemma RegroupLine(a: string, l: string, t: string)
    ensures a + (" " + (l + " " + t)) == (a + (" " + l)) + " " + t
  {
  }

  lemma OutIsLine(s: string, arg: string, val: NewVal)
    requires Writable(arg, val)
    ensures Rewrite(s, 0, arg, val, "", false) ==
            Pass(Line(EditAll(ArgList(s), arg, val)), Has(ArgList(s), arg), ArgsFrom(s, 0).open)
  {
    RewriteEdits(s, 0, arg, val, "", false);
    NewArgsAreArgs(s, arg, val);
    var list := EditAll(ArgList(s), arg, val);
    if list != [] {
      ExtendIsLine("", list);
    }
  }

  lemma NewLine(s: string, arg: string, val: NewVal)
    requires Writable(arg, val)
    ensures var out := Line(EditAll(ArgList(s), arg, val));
            && DropSpace(out) == out
            && (!Has(ArgList(s), arg) && !val.Delete? ==>
                  && Separate(out) + Render(arg, val) == Line(NewArgs(s, arg, val))
                  && DropSpace(Line(NewArgs(s, arg, val))) == Line(NewArgs(s, arg, val)))
  {
    var list := EditAll(ArgList(s), arg, val);
    NewArgsAreArgs(s, arg, val);
    LineNotSpaced(list);
    LineNotSpaced(NewArgs(s, arg, val));
    if list != [] {
      LineSnoc(list, Render(arg, val));
    } else {
      assert list + [Render(arg, val)] == [Render(arg, val)];
    }
  }

  /** Setting fails with -EBADF exactly when there is a quote in the value. */
  lemma QuotedValueFails(s: string, arg: string, val: NewVal, maxlen: nat)
    ensures SetArgResult(s, arg, val, maxlen) == Fail(EBADF) <==> val.Value? && '"' in val.text
  {
  }

  /** One space at the end of what is written is dropped; room is needed for it. */
  lemma TrailingSpaceDropped(text: string, maxlen: nat)
    ensures SetArgResult("", text + " ", Empty, maxlen) ==
            if |text| + 1 < maxlen then Text(text) else Fail(E2BIG)
  {
    assert "" + (text + " ") == text + " ";
  }

  /** Setting an argument, or deleting one that is there, succeeds exactly when
      the new text and its NUL fit, and gives that text. */
  lemma SetsWhenItFits(s: string, arg: string, val: NewVal, maxlen: nat)
    requires WellQuoted(s) && Writable(arg, val)
    requires val.Delete? ==> Has(ArgList(s), arg)
    ensures var text := Line(NewArgs(s, arg, val));
            SetArgResult(s, arg, val, maxlen) == if |text| < maxlen then Text(text) else Fail(E2BIG)
  {
    OutIsLine(s, arg, val);
    NewLine(s, arg, val);
  }

  lemma {:induction false} EditMissing(list: seq<string>, arg: string, val: NewVal)
    requires !Has(list, arg)
    ensures EditAll(list, arg, val) == list
    decreases |list|
  {
    if list != [] {
      assert list == [list[0]] + list[1..];
      HasCons(list[0], list[1..], arg);
      EditMissing(list[1..], arg, val);
    }
  }

  /** Deleting an argument that is not there fails. */
  lemma DeleteMissing(s: string, arg: string, maxlen: nat)
    requires WellQuoted(s) && GoodName(arg) && !Has(ArgList(s), arg)
    ensures SetArgResult(s, arg, Delete, maxlen) ==
            Fail(if s != "" && |Line(ArgList(s))| >= maxlen then E2BIG else ENOENT)
  {
    OutIsLine(s, arg, Delete);
    EditMissing(ArgList(s), arg, Delete);
  }

  /** An open quote is an error whatever is set: which one depends on whether the
      arguments before it still fit. */
  lemma OpenQuoteFails(s: string, arg: string, val: NewVal, maxlen: nat)
    requires !WellQuoted(s)
    ensures SetArgResult(s, arg, val, maxlen) ==
            Fail(if BadValue(val) then EBADF
                 else if |Extend("", EditAll(ArgList(s), arg, val))| >= maxlen then E2BIG
                 else EINVAL)
  {
    RewriteEdits(s, 0, arg, val, "", false);
  }

  /** The new command line reads back as the edited arguments. */
  lemma NewLineReads(s: string, arg: string, val: NewVal)
    requires Writable(arg, val)
    ensures ArgsFrom(Line(NewArgs(s, arg, val)), 0) == Args(NewArgs(s, arg, val), false)
  {
    NewArgsAreArgs(s, arg, val);
    ReadBack("", NewArgs(s, arg, val));
    assert "" + Line(NewArgs(s, arg, val)) == Line(NewArgs(s, arg, val));
  }

  // -------------------------------------------------------------------------
  // Quotes
  // -------------------------------------------------------------------------

  lemma {:induction false} ArgEndQuotes(s: string, p: nat)
    requires p <= |s|
    ensures match ArgEnd(s, p, OpenAt(s, p))
            case Unterminated => OpenAt(s, |s|)
            case At(e) => !OpenAt(s, e)
    decreases |s| - p
  {
    if p < |s| {
      ArgEndQuotes(s, p + 1);
    }
  }

  lemma {:induction false} SpacesQuotes(s: string, p: nat)
    requires p <= |s|
    ensures OpenAt(s, SkipSpaces(s, p)) == OpenAt(s, p)
    decreases |s| - p
  {
    if p < |s| && s[p] == ' ' {
      SpacesQuotes(s, p + 1);
    }
  }

  lemma {:induction false} OpenIsOdd(s: string, p: nat)
    requires p <= |s| && !OpenAt(s, p)
    ensures ArgsFrom(s, p).open == OpenAt(s, |s|)
    decreases |s| - p
  {
    SpacesQuotes(s, p);
    var from := SkipSpaces(s, p);
    ArgEndQuotes(s, from);
    if from < |s| && ArgEnd(s, from, false).At? {
      OpenIsOdd(s, ArgEnd(s, from, false).pos);
    }
  }

  /** Every quote of a line is closed exactly when none is open at its end. */
  lemma WellQuotedIsEven(s: string)
    ensures WellQuoted(s) <==> !OpenAt(s, |s|)
  {
    OpenIsOdd(s, 0);
  }

  lemma {:induction false} OpenPrefix(a: string, b: string, k: nat)
    requires k <= |a|
    ensures OpenAt(a + b, k) == OpenAt(a, k)
  {
    if k > 0 {
      OpenPrefix(a, b, k - 1);
    }
  }

  lemma {:induction false} OpenJoined(a: string, b: string, k: nat)
    requires k <= |b|
    ensures OpenAt(a + b, |a| + k) == (OpenAt(a, |a|) != OpenAt(b, k))
  {
    if k == 0 {
      OpenPrefix(a, b, |a|);
    } else {
      OpenJoined(a, b, k - 1);
    }
  }

  lemma {:induction false} NoQuotes(s: string, k: nat)
    requires k <= |s| && '"' !in s
    ensures !OpenAt(s, k)
  {
    if k > 0 {
      NoQuotes(s, k - 1);
      assert s[k - 1] in s;
    }
  }

  lemma PlainIsGood(arg: string)
    requires ' ' !in arg && '=' !in arg && '"' !in arg
    ensures GoodName(arg)
  {
    NoQuotes(arg, |arg|);
    forall k | 0 <= k < |arg| ensures arg[k] != ' ' && arg[k] != '=' {
      assert arg[k] in arg;
    }
  }

  /** The name of an argument that is read is a proper one. */
  lemma {:induction false} NameQuotes(t: string, i: nat)
    requires i <= |t| && ArgEnd(t, i, OpenAt(t, i)).At?
    ensures var n := NameEnd(t, i, OpenAt(t, i));
            !OpenAt(t, n) && forall k :: i <= k < n && !OpenAt(t, k) ==> t[k] != ' ' && t[k] != '='
    decreases |t| - i
  {
    if i < |t| && NameEnd(t, i, OpenAt(t, i)) > i {
      NameQuotes(t, i + 1);
    }
  }

  /** The names of arguments are proper ones. */
  lemma NameIsGood(t: string)
    requires IsArg(t)
    ensures GoodName(Name(t))
  {
    var n := NameEnd(t, 0, false);
    NameQuotes(t, 0);
    assert t[..n] + t[n..] == t;
    forall k | 0 <= k <= n ensures OpenAt(t[..n], k) == OpenAt(t, k) {
      OpenPrefix(t[..n], t[n..], k);
    }
  }

  // -------------------------------------------------------------------------
  // Lookups
  // -------------------------------------------------------------------------

  /** What a lookup returns. */
  function LookText(s: string, p: nat, arg: string): Got
    requires p <= |s|
  {
    match Look(s, p, arg)
    case Missing(e) => No(e)
    case Hit(_, _) => LookHits(s, p, arg); Piece(s, Look(s, p, arg))
  }

  lemma {:induction false} LookHits(s: string, p: nat, arg: string)
    requires p <= |s| && Look(s, p, arg).Hit?
    ensures var hit := Look(s, p, arg); hit.len >= 0 ==> 0 <= hit.pos && hit.pos + hit.len <= |s|
    decreases |s| - p
  {
    var from := SkipSpaces(s, p);
    var end := ArgEnd(s, from, false).pos;
    if s[from..NameEnd(s, from, false)] != arg {
      LookHits(s, end, arg);
    }
  }

  function Get(s: string, arg: string): Got {
    LookText(s, 0, arg)
  }

  /** The same, on the list of arguments. */
  function GetIn(args: Args, arg: string): Got
    decreases |args.list|
  {
    if args.list == [] then No(if args.open then EINVAL else ENOENT)
    else if Name(args.list[0]) == arg && args.list[0] != "" then ArgValue(args.list[0])
    else GetIn(Args(args.list[1..], args.open), arg)
  }

  lemma GetInCons(t: string, rest: seq<string>, open: bool, arg: string)
    ensures GetIn(Args([t] + rest, open), arg) ==
            if Name(t) == arg && t != "" then ArgValue(t) else GetIn(Args(rest, open), arg)
  {
    assert ([t] + rest)[1..] == rest;
  }

  lemma PieceCut(s: string, from: nat, nameEnd: nat, end: nat)
    requires from <= nameEnd <= end <= |s| && from < end
    ensures Piece(s[from..end], HitAt(s[from..end], nameEnd - from, end - from)) == Piece(s, HitAt(s, nameEnd, end))
  {
    var t := s[from..end];
    assert t[|t| - 1] == s[end - 1];
    var hit, hit' := HitAt(s, nameEnd, end), HitAt(t, nameEnd - from, end - from);
    assert hit == Hit(from + hit'.pos, hit'.len);
    if hit.len >= 0 {
      SliceOfSlice(s, from, end, hit'.pos, hit'.pos + hit'.len);
    }
  }

  /** The argument read at `from`: its name and the value a lookup gives. */
  lemma ReadHit(s: string, from: nat, end: nat)
    requires from < end <= |s| && ArgEnd(s, from, false) == At(end)
    ensures Name(s[from..end]) == s[from..NameEnd(s, from, false)]
    ensures ArgValue(s[from..end]) == Piece(s, HitAt(s, NameEnd(s, from, false), end))
  {
    NameInside(s, from, end);
    PieceCut(s, from, NameEnd(s, from, false), end);
  }

  lemma {:induction false} LookIsGetIn(s: string, p: nat, arg: string)
    requires p <= |s|
    ensures LookText(s, p, arg) == GetIn(ArgsFrom(s, p), arg)
    decreases |s| - p
  {
    var from := SkipSpaces(s, p);
    if from < |s| && ArgEnd(s, from, false).At? {
      var end := ArgEnd(s, from, false).pos;
      var t, rest := s[from..end], ArgsFrom(s, end);
      ReadHit(s, from, end);
      GetInCons(t, rest.list, rest.open, arg);
      if Name(t) != arg {
        LookIsGetIn(s, end, arg);
      }
    }
  }

  lemma {:induction false} GetInMissing(args: Args, arg: string)
    requires !Has(args.list, arg)
    ensures GetIn(args, arg) == No(if args.open then EINVAL else ENOENT)
    decreases |args.list|
  {
    if args.list != [] {
      var rest := args.list[1..];
      HasCons(args.list[0], rest, arg);
      assert args.list == [args.list[0]] + rest;
      GetInMissing(Args(rest, args.open), arg);
    }
  }

  /** The edited list, one argument at a time. */
  lemma EditTail(list: seq<string>, arg: string, val: NewVal, tail: seq<string>)
    requires list != []
    ensures var after := EditAll(list[1..], arg, val) + tail;
            EditAll(list, arg, val) + tail ==
            if Name(list[0]) != arg then [list[0]] + after
            else if val.Delete? then after
            else [Render(arg, val)] + after
  {
    var one, rest := EditOne(list[0], arg, val), EditAll(list[1..], arg, val);
    assert (one + rest) + tail == one + (rest + tail);
    assert [] + (rest + tail) == rest + tail;
  }

  /** After setting: the new value is found, first of all. */
  lemma {:induction false} GetInSet(list: seq<string>, arg: string, val: NewVal, tail: seq<string>)
    requires Writable(arg, val) && !val.Delete?
    requires Has(list, arg) || tail == [Render(arg, val)]
    ensures GetIn(Args(EditAll(list, arg, val) + tail, false), arg) == Shown(arg, val)
    decreases |list|
  {
    RenderedIsArg(arg, val);
    RenderedValue(arg, val);
    if list == [] {
      assert EditAll(list, arg, val) + tail == [Render(arg, val)] + [];
      GetInCons(Render(arg, val), [], false, arg);
    } else {
      var t, rest := list[0], list[1..];
      EditTail(list, arg, val, tail);
      GetInCons(if Name(t) == arg then Render(arg, val) else t, EditAll(rest, arg, val) + tail, false, arg);
      if Name(t) != arg {
        assert list == [t] + rest;
        HasCons(t, rest, arg);
        GetInSet(rest, arg, val, tail);
      }
    }
  }

  lemma {:induction false} DeletedIsGone(list: seq<string>, arg: string)
    ensures !Has(EditAll(list, arg, Delete), arg)
    decreases |list|
  {
    if list != [] {
      var t, rest := list[0], list[1..];
      DeletedIsGone(rest, arg);
      if Name(t) != arg {
        HasCons(t, EditAll(rest, arg, Delete), arg);
      } else {
        assert [] + EditAll(rest, arg, Delete) == EditAll(rest, arg, Delete);
      }
    }
  }

  /** What is found under another name does not change. */
  lemma {:induction false} GetInOther(list: seq<string>, arg: string, val: NewVal, tail: seq<string>, other: string)
    requires Writable(arg, val) && other != arg
    requires tail == [] || (!val.Delete? && tail == [Render(arg, val)])
    ensures GetIn(Args(EditAll(list, arg, val) + tail, false), other) == GetIn(Args(list, false), other)
    decreases |list|
  {
    if !val.Delete? {
      RenderedIsArg(arg, val);
    }
    if list == [] {
      if tail != [] {
        GetInCons(Render(arg, val), [], false, other);
        assert EditAll(list, arg, val) + tail == [Render(arg, val)] + [];
      } else {
        assert EditAll(list, arg, val) + tail == [];
      }
    } else {
      var t, rest := list[0], list[1..];
      var after := EditAll(rest, arg, val) + tail;
      GetInOther(rest, arg, val, tail, other);
      assert list == [t] + rest;
      GetInCons(t, rest, false, other);
      EditTail(list, arg, val, tail);
      GetInCons(if Name(t) == arg then Render(arg, val) else t, after, false, other);
    }
  }

  /** The arguments that do not have one of these names. */
  function Without(list: seq<string>, names: set<string>): seq<string> {
    if list == [] then []
    else (if Name(list[0]) in names then [] else [list[0]]) + Without(list[1..], names)
  }

  lemma WithoutCons(t: string, rest: seq<string>, names: set<string>)
    ensures Without([t] + rest, names) == (if Name(t) in names then [] else [t]) + Without(rest, names)
  {
    assert ([t] + rest)[1..] == rest;
  }

  /** The others keep their raw text and their order. */
  lemma {:induction false} OthersKept(list: seq<string>, arg: string, val: NewVal, tail: seq<string>,
                                      names: set<string>)
    requires Writable(arg, val) && arg in names
    requires tail == [] || (!val.Delete? && tail == [Render(arg, val)])
    ensures Without(EditAll(list, arg, val) + tail, names) == Without(list, names)
    decreases |list|
  {
    if !val.Delete? {
      RenderedIsArg(arg, val);
    }
    if list == [] {
      if tail != [] {
        WithoutCons(Render(arg, val), [], names);
        assert EditAll(list, arg, val) + tail == [Render(arg, val)] + [];
      } else {
        assert EditAll(list, arg, val) + tail == [];
      }
    } else {
      var t, rest := list[0], list[1..];
      var after := EditAll(rest, arg, val) + tail;
      OthersKept(rest, arg, val, tail, names);
      EditTail(list, arg, val, tail);
      WithoutCons(if Name(t) == arg then Render(arg, val) else t, after, names);
    }
  }

  // -------------------------------------------------------------------------
  // One edit, and any number of edits
  // -------------------------------------------------------------------------

  datatype Edit = Edit(arg: string, val: NewVal, maxlen: nat)

  /** An edit with a proper name; its value may be one that is refused. */
  ghost predicate GoodEdit(e: Edit) {
    GoodName(e.arg) && (e.arg != "" || !e.val.Empty?)
  }

  predicate Done(s: string, e: Edit) {
    SetArgResult(s, e.arg, e.val, e.maxlen).Text?
  }

  /** The command line after an edit; a failed edit leaves it as it was. */
  function Apply(s: string, e: Edit): string {
    match SetArgResult(s, e.arg, e.val, e.maxlen)
    case Text(text) => text
    case Fail(_) => s
  }

  /** Only a line in which every quote is closed can be edited. */
  lemma DoneQuoted(s: string, e: Edit)
    requires Done(s, e)
    ensures WellQuoted(s) && !BadValue(e.val)
  {
    if !WellQuoted(s) {
      OpenQuoteFails(s, e.arg, e.val, e.maxlen);
    }
  }

  /** The arguments after a successful edit. */
  lemma DoneReads(s: string, e: Edit)
    requires GoodEdit(e) && Done(s, e)
    ensures e.val.Delete? ==> Has(ArgList(s), e.arg)
    ensures ArgsFrom(Apply(s, e), 0) == Args(NewArgs(s, e.arg, e.val), false)
  {
    DoneQuoted(s, e);
    if e.val.Delete? && !Has(ArgList(s), e.arg) {
      DeleteMissing(s, e.arg, e.maxlen);
    }
    SetsWhenItFits(s, e.arg, e.val, e.maxlen);
    NewLineReads(s, e.arg, e.val);
  }

  /** What one successful edit does: the name has the new value or is gone, every
      other name gives what it gave, and the other arguments are the same raw
      texts in the same order. */
  lemma EditMeans(s: string, e: Edit)
    requires GoodEdit(e) && Done(s, e)
    ensures WellQuoted(Apply(s, e))
    ensures Get(Apply(s, e), e.arg) == if e.val.Delete? then No(ENOENT) else Shown(e.arg, e.val)
    ensures forall other :: other != e.arg ==> Get(Apply(s, e), other) == Get(s, other)
    ensures forall names: set<string> :: e.arg in names ==>
              Without(ArgList(Apply(s, e)), names) == Without(ArgList(s), names)
  {
    var list, edited := ArgList(s), EditAll(ArgList(s), e.arg, e.val);
    var tail := if Has(list, e.arg) then [] else [Render(e.arg, e.val)];
    var s' := Apply(s, e);
    DoneQuoted(s, e);
    DoneReads(s, e);
    assert edited + [] == edited;
    assert ArgsFrom(s', 0) == Args(edited + tail, false);
    LookIsGetIn(s', 0, e.arg);
    if e.val.Delete? {
      DeletedIsGone(list, e.arg);
      GetInMissing(ArgsFrom(s', 0), e.arg);
    } else {
      GetInSet(list, e.arg, e.val, tail);
    }
    forall other | other != e.arg ensures Get(s', other) == Get(s, other) {
      LookIsGetIn(s, 0, other);
      LookIsGetIn(s', 0, other);
      GetInOther(list, e.arg, e.val, tail, other);
    }
    forall names: set<string> | e.arg in names ensures Without(ArgList(s'), names) == Without(list, names) {
      OthersKept(list, e.arg, e.val, tail, names);
    }
  }

  function ApplyAll(s: string, edits: seq<Edit>): string
    decreases |edits|
  {
    if edits == [] then s else ApplyAll(Apply(s, edits[0]), edits[1..])
  }

  /** What a map would hold under `name` after the successful edits. */
  function LastWrite(s: string, edits: seq<Edit>, name: string, got: Got): Got
    decreases |edits|
  {
    if edits == [] then got
    else
      var e := edits[0];
      LastWrite(Apply(s, e), edits[1..], name,
                if e.arg != name || !Done(s, e) then got
                else if e.val.Delete? then No(ENOENT)
                else Shown(e.arg, e.val))
  }

  /** For every line and every sequence of sets and deletes, whether or not each one fits: a
      lookup gives what the last successful write under that name wrote, and the
      arguments with names that were never edited are still all there, with their
      raw text and in their order. */
  lemma {:induction false} LastWriteWins(s: string, edits: seq<Edit>, name: string, names: set<string>)
    requires forall k :: 0 <= k < |edits| ==> GoodEdit(edits[k]) && edits[k].arg in names
    ensures WellQuoted(ApplyAll(s, edits)) <==> WellQuoted(s)
    ensures Get(ApplyAll(s, edits), name) == LastWrite(s, edits, name, Get(s, name))
    ensures Without(ArgList(ApplyAll(s, edits)), names) == Without(ArgList(s), names)
    decreases |edits|
  {
    if edits != [] {
      var e, rest := edits[0], edits[1..];
      if Done(s, e) {
        DoneQuoted(s, e);
        EditMeans(s, e);
      }
      LastWriteWins(Apply(s, e), rest, name, names);
    }
  }

  /** Repeating a successful set changes nothing. */
  lemma SetTwice(s: string, e: Edit)
    requires GoodEdit(e) && !e.val.Delete? && Done(s, e)
    ensures SetArgResult(Apply(s, e), e.arg, e.val, e.maxlen) == Text(Apply(s, e))
  {
    DoneQuoted(s, e);
    SetsWhenItFits(s, e.arg, e.val, e.maxlen);
    NewLineReads(s, e.arg, e.val);
    var s', list := Apply(s, e), NewArgs(s, e.arg, e.val);
    RenderedIsArg(e.arg, e.val);
    EditTwice(ArgList(s), e.arg, e.val, if Has(ArgList(s), e.arg) then [] else [Render(e.arg, e.val)]);
    assert EditAll(ArgList(s), e.arg, e.val) + [] == EditAll(ArgList(s), e.arg, e.val);
    SetsWhenItFits(s', e.arg, e.val, e.maxlen);
  }

  lemma {:induction false} EditTwice(list: seq<string>, arg: string, val: NewVal, tail: seq<string>)
    requires Writable(arg, val) && !val.Delete?
    requires tail == [] || tail == [Render(arg, val)]
    ensures var once := EditAll(list, arg, val) + tail;
            EditAll(once, arg, val) == once && (Has(list, arg) || tail != [] ==> Has(once, arg))
    decreases |list|
  {
    RenderedIsArg(arg, val);
    var once := EditAll(list, arg, val) + tail;
    if list == [] {
      assert once == tail;
      if tail != [] {
        EditAllCons(Render(arg, val), [], arg, val);
        assert tail == [Render(arg, val)] + [];
        HasCons(Render(arg, val), [], arg);
      }
    } else {
      var t, rest := list[0], list[1..];
      var u, after := if Name(t) == arg then Render(arg, val) else t, EditAll(rest, arg, val) + tail;
      EditTail(list, arg, val, tail);
      EditTwice(rest, arg, val, tail);
      EditAllCons(u, after, arg, val);
      HasCons(u, after, arg);
      assert list == [t] + rest;
      HasCons(t, rest, arg);
    }
  }
}
