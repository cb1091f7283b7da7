/** The extra arguments that the Android boot method takes from the environment. */
module AndroidArgs {
  import opened Sequences
  import opened CmdlineSpec
  import opened CmdlineArgs
  import opened CmdlineMap
  import opened CmdlineBootflow

  /** The first place of a character at or after `from`, or the end. */
  function Find(s: string, from: nat, c: char): (e: nat)
    requires from <= |s|
    ensures from <= e <= |s| && (e < |s| ==> s[e] == c)
    ensures forall k :: from <= k < e ==> s[k] != c
    decreases |s| - from
  {
    if from == |s| || s[from] == c then from else Find(s, from + 1, c)
  }

  /** What one word asks for: the name before its first equals sign and the value
      after it, or a name alone. */
  function WordEdit(w: string): Edit {
    var k := Find(w, 0, '=');
    if k < |w| then Edit(w[..k], Value(w[k + 1..]), CMDLINE_MAX) else Edit(w, Empty, CMDLINE_MAX)
  }

  /** The edits for the words between spaces; there is none for an empty word. */
  function Edits(args: string): seq<Edit>
    decreases |args|
  {
    var e := Find(args, 0, ' ');
    var rest := if e < |args| then Edits(args[e + 1..]) else [];
    if e == 0 then rest else [WordEdit(args[..e])] + rest
  }

  datatype Run = Run(text: string, ok: bool)

  /** The edits one after the other, up to the first that fails. */
  function Until(s: string, edits: seq<Edit>): Run
    decreases |edits|
  {
    if edits == [] then Run(s, true)
    else if !Done(s, edits[0]) then Run(s, false)
    else Until(Apply(s, edits[0]), edits[1..])
  }

  lemma UntilNext(s: string, e: Edit, rest: seq<Edit>)
    ensures Until(s, [e] + rest) == if Done(s, e) then Until(Apply(s, e), rest) else Run(s, false)
  {
    assert ([e] + rest)[1..] == rest;
  }

  /** configure_extra_bootargs() for the text in android_bootargs_extra. */
  method ConfigureExtra(bflow: Bootflow, extra: string) returns (ok: bool)
    modifies bflow
    ensures Run(bflow.cmdline, ok) == Until(old(bflow.cmdline), Edits(extra))
  {
    var args, more := extra, true;
    while more
      invariant Until(old(bflow.cmdline), Edits(extra)) == Until(bflow.cmdline, if more then Edits(args) else [])
      decreases if more then |args| + 1 else 0
    {
      var e := Find(args, 0, ' ');
      var arg := args[..e];
      ghost var rest := if e < |args| then Edits(args[e + 1..]) else [];
      if e < |args| {
        args := args[e + 1..];
      } else {
        more := false;
      }
      if arg != "" {
        var edit := WordEdit(arg);
        UntilNext(bflow.cmdline, edit, rest);
        var status := bflow.CmdlineSetArg(edit.arg, edit.val);
        if status != Ok {
          return false;
        }
      }
    }
    return true;
  }

  // -------------------------------------------------------------------------
  // What a word asks for
  // -------------------------------------------------------------------------

  /** An edit that a word can ask for. */
  ghost predicate WordLike(e: Edit) {
    && !e.val.Delete? && e.maxlen == CMDLINE_MAX && ' ' !in e.arg && '=' !in e.arg
    && if e.val.Value? then ' ' !in e.val.text else e.arg != ""
  }

  /** The quotes in its name are closed. */
  predicate Closed(e: Edit) {
    !OpenAt(e.arg, |e.arg|)
  }

  lemma WordIsWordLike(w: string)
    requires w != "" && ' ' !in w
    ensures WordLike(WordEdit(w)) && Render(WordEdit(w).arg, WordEdit(w).val) == w
  {
    var k := Find(w, 0, '=');
    if k < |w| {
      assert w == w[..k] + "=" + w[k + 1..];
    }
  }

  /** Every text asks for such edits only. */
  lemma {:induction false} EditsAreWords(args: string)
    ensures forall k :: 0 <= k < |Edits(args)| ==> WordLike(Edits(args)[k])
    decreases |args|
  {
    var e := Find(args, 0, ' ');
    if e > 0 {
      WordIsWordLike(args[..e]);
    }
    if e < |args| {
      EditsAreWords(args[e + 1..]);
    }
  }

  function Spelled(edits: seq<Edit>): string
    decreases |edits|
  {
    if edits == [] then ""
    else if |edits| == 1 then Render(edits[0].arg, edits[0].val)
    else Render(edits[0].arg, edits[0].val) + (" " + Spelled(edits[1..]))
  }

  lemma FindIs(s: string, c: char, e: nat)
    requires e <= |s| && (e < |s| ==> s[e] == c) && c !in s[..e]
    ensures Find(s, 0, c) == e
  {
  }

  lemma WordOfEdit(e: Edit)
    requires WordLike(e)
    ensures var w := Render(e.arg, e.val); w != "" && ' ' !in w && WordEdit(w) == e
  {
    var w, n := Render(e.arg, e.val), |e.arg|;
    assert w[..n] == e.arg;
    FindIs(w, '=', n);
    if e.val.Value? {
      assert w[n + 1..] == e.val.text;
    }
  }

  lemma EditsHead(w: string, text: string)
    requires w != "" && ' ' !in w
    ensures Edits(w) == [WordEdit(w)]
    ensures Edits(w + (" " + text)) == [WordEdit(w)] + Edits(text)
  {
    var both := w + (" " + text);
    assert w[..|w|] == w == both[..|w|] && both[|w| + 1..] == text;
    FindIs(w, ' ', |w|);
    FindIs(both, ' ', |w|);
  }

  /** A space before a word asks for nothing. */
  lemma SpacesSkipped(text: string)
    ensures Edits(" " + text) == Edits(text)
  {
    assert (" " + text)[1..] == text;
  }

  /** A text that lists arguments asks for exactly these, in this order. */
  lemma {:induction false} EditsOfSpelled(edits: seq<Edit>)
    requires forall k :: 0 <= k < |edits| ==> WordLike(edits[k])
    ensures Edits(Spelled(edits)) == edits
    decreases |edits|
  {
    if edits != [] {
      WordOfEdit(edits[0]);
      EditsHead(Render(edits[0].arg, edits[0].val), Spelled(edits[1..]));
      EditsOfSpelled(edits[1..]);
    }
  }

  // -------------------------------------------------------------------------
  // One word
  // -------------------------------------------------------------------------

  lemma {:induction false} NamesClosed(list: seq<string>, e: Edit)
    requires AllArgs(list) && !Closed(e)
    ensures !Has(list, e.arg)
    decreases |list|
  {
    if list != [] {
      NameIsGood(list[0]);
      NamesClosed(list[1..], e);
      assert list == [list[0]] + list[1..];
      HasCons(list[0], list[1..], e.arg);
    }
  }

  lemma WordIsOdd(e: Edit)
    requires WordLike(e) && !Closed(e) && !BadValue(e.val)
    ensures var w := Render(e.arg, e.val); OpenAt(w, |w|)
  {
    if e.val.Value? {
      var v := e.val.text;
      OpenJoined(e.arg, "=", 1);
      OpenJoined(e.arg + "=", v, |v|);
      NoQuotes(v, |v|);
      NoQuotes("=", 1);
    }
  }

  /** The pass over the arguments does not find it. */
  lemma OddPass(s: string, e: Edit)
    requires WellQuoted(s) && WordLike(e) && !Closed(e)
    ensures Rewrite(s, 0, e.arg, e.val, "", false) == Pass(Line(ArgList(s)), false, false)
    ensures NewArgs(s, e.arg, e.val) == ArgList(s) + [Render(e.arg, e.val)]
  {
    var list := ArgList(s);
    ArgsAreArgs(s, 0);
    NamesClosed(list, e);
    EditMissing(list, e.arg, e.val);
    RewriteEdits(s, 0, e.arg, e.val, "", false);
    if list != [] {
      ExtendIsLine("", list);
    }
  }

  lemma AddedAtEnd(list: seq<string>, w: string)
    requires AllArgs(list) && w != "" && ' ' !in w
    ensures Separate(Line(list)) + w == Line(list + [w]) && DropSpace(Line(list + [w])) == Line(list + [w])
  {
    LineNotSpaced(list);
    assert w[|w| - 1] in w;
    if list == [] {
      assert list + [w] == [w];
    } else {
      LineSnoc(list, w);
    }
  }

  /** A word with an open quote in its name is added at the end. */
  lemma OddSets(s: string, e: Edit)
    requires WellQuoted(s) && WordLike(e) && !Closed(e) && !BadValue(e.val)
    ensures var text := Line(NewArgs(s, e.arg, e.val));
            SetArgResult(s, e.arg, e.val, e.maxlen) == if |text| < e.maxlen then Text(text) else Fail(E2BIG)
    ensures NewArgs(s, e.arg, e.val) == ArgList(s) + [Render(e.arg, e.val)]
  {
    var list, w := ArgList(s), Render(e.arg, e.val);
    ArgsAreArgs(s, 0);
    OddPass(s, e);
    WordOfEdit(e);
    AddedAtEnd(list, w);
  }

  lemma LineIsEven(list: seq<string>)
    requires AllArgs(list)
    ensures !OpenAt(Line(list), |Line(list)|)
  {
    ReadBack("", list);
    assert "" + Line(list) == Line(list);
    WellQuotedIsEven(Line(list));
  }

  lemma OddEnd(line: string, w: string)
    requires !OpenAt(line, |line|) && OpenAt(w, |w|)
    ensures var s := line + " " + w; OpenAt(s, |s|)
  {
    NoQuotes(" ", 1);
    OpenJoined(line, " ", 1);
    OpenJoined(line + " ", w, |w|);
  }

  /** It leaves the quote open. */
  lemma OddOpens(s: string, e: Edit)
    requires WellQuoted(s) && WordLike(e) && !Closed(e) && Done(s, e)
    ensures !WellQuoted(Apply(s, e))
  {
    var list, w := ArgList(s), Render(e.arg, e.val);
    DoneQuoted(s, e);
    OddSets(s, e);
    WordIsOdd(e);
    WellQuotedIsEven(Apply(s, e));
    if list == [] {
      assert list + [w] == [w];
    } else {
      ArgsAreArgs(s, 0);
      LineIsEven(list);
      LineSnoc(list, w);
      OddEnd(Line(list), w);
    }
  }

  /** A word is set exactly when no quote is open before it, there is no quote in its
      value and the new text fits. */
  lemma WordSets(s: string, e: Edit)
    requires WordLike(e)
    ensures Done(s, e) <==> WellQuoted(s) && !BadValue(e.val) && |Line(NewArgs(s, e.arg, e.val))| < 2048
    ensures Done(s, e) ==> (WellQuoted(Apply(s, e)) <==> Closed(e))
    ensures Done(s, e) && Closed(e) ==> ArgList(Apply(s, e)) == NewArgs(s, e.arg, e.val)
  {
    if Done(s, e) {
      DoneQuoted(s, e);
    }
    if WellQuoted(s) && !BadValue(e.val) {
      if Closed(e) {
        WordIsGood(e);
        SetsWhenItFits(s, e.arg, e.val, e.maxlen);
        NewLineReads(s, e.arg, e.val);
      } else {
        OddSets(s, e);
        if Done(s, e) {
          OddOpens(s, e);
        }
      }
    }
  }

  lemma WordIsGood(e: Edit)
    requires WordLike(e) && Closed(e)
    ensures GoodEdit(e)
  {
    forall k | 0 <= k < |e.arg| ensures e.arg[k] != ' ' && e.arg[k] != '=' {
      assert e.arg[k] in e.arg;
    }
  }

  // -------------------------------------------------------------------------
  // All words
  // -------------------------------------------------------------------------

  /** The quotes in the words are such that nothing goes wrong: none in a value, and
      in every name they are closed. */
  ghost predicate QuotesFine(edits: seq<Edit>) {
    forall k :: 0 <= k < |edits| ==> Closed(edits[k]) && !BadValue(edits[k].val)
  }

  /** There is room for the line after each of the edits. */
  predicate AllFit(list: seq<string>, edits: seq<Edit>)
    decreases |edits|
  {
    edits == [] ||
    var list' := NewList(list, edits[0].arg, edits[0].val);
    |Line(list')| < CMDLINE_MAX && AllFit(list', edits[1..])
  }

  lemma QuotesFineHead(edits: seq<Edit>)
    requires edits != []
    ensures QuotesFine(edits) <==> Closed(edits[0]) && !BadValue(edits[0].val) && QuotesFine(edits[1..])
  {
    var rest := edits[1..];
    if QuotesFine(rest) {
      forall k | 1 <= k < |edits| ensures Closed(edits[k]) && !BadValue(edits[k].val) {
        assert edits[k] == rest[k - 1];
      }
    }
  }

  lemma {:induction false} UntilExactly(s: string, edits: seq<Edit>)
    requires forall k :: 0 <= k < |edits| ==> WordLike(edits[k])
    ensures var r := Until(s, edits);
            r.ok && WellQuoted(r.text) <==> WellQuoted(s) && QuotesFine(edits) && AllFit(ArgList(s), edits)
    decreases |edits|
  {
    if edits != [] {
      var e, s' := edits[0], Apply(s, edits[0]);
      WordSets(s, e);
      QuotesFineHead(edits);
      UntilExactly(s', edits[1..]);
    }
  }

  /** For any text: all its arguments are set, and the line can still be edited
      afterwards, exactly when it can be edited before, no word has a quote in its
      value or an open quote in its name, and there is room for each. */
  lemma ExtraArgsExactly(s: string, extra: string)
    ensures var r := Until(s, Edits(extra));
            r.ok && WellQuoted(r.text) <==>
            WellQuoted(s) && QuotesFine(Edits(extra)) && AllFit(ArgList(s), Edits(extra))
  {
    EditsAreWords(extra);
    UntilExactly(s, Edits(extra));
  }

  /** A name with an open quote is accepted, and then nothing can be set any more. */
  lemma OpenQuoteAccepted(e: Edit)
    ensures Until("", Edits("\"q")) == Run("\"q", true) && !WellQuoted("\"q") && !Done("\"q", e)
  {
    var w := "\"q";
    assert Find(w, 1, ' ') == 2 && Find(w, 1, '=') == 2;
    assert w[..2] == w;
    assert Edits(w) == [Edit(w, Empty, CMDLINE_MAX)];
    assert SetArgResult("", w, Empty, CMDLINE_MAX) == Text(w);
    assert [Edit(w, Empty, CMDLINE_MAX)][1..] == [];
    assert OpenAt(w, 1) && OpenAt(w, 2);
    WellQuotedIsEven(w);
    if Done(w, e) {
      DoneQuoted(w, e);
    }
  }

  // -------------------------------------------------------------------------
  // What the edits do
  // -------------------------------------------------------------------------

  /** How many of the edits are made. */
  function Made(s: string, edits: seq<Edit>): (n: nat)
    ensures n <= |edits|
    decreases |edits|
  {
    if edits == [] || !Done(s, edits[0]) then 0 else 1 + Made(Apply(s, edits[0]), edits[1..])
  }

  /** What a map holds under a name after it was set by each edit in turn. */
  function Latest(edits: seq<Edit>, name: string, got: Got): Got
    decreases |edits|
  {
    if edits == [] then got
    else Latest(edits[1..], name, if edits[0].arg == name then Shown(name, edits[0].val) else got)
  }

  ghost predicate Words(edits: seq<Edit>, names: set<string>) {
    forall k :: 0 <= k < |edits| ==> WordLike(edits[k]) && edits[k].arg in names
  }

  /** All edits were made, or the next one has a quote in its value, finds a quote open
      or finds no room; a quote can be open only before the first or after the last. */
  ghost predicate StopsRight(s: string, edits: seq<Edit>) {
    var r, n := Until(s, edits), Made(s, edits);
    && (r.ok <==> n == |edits|)
    && (WellQuoted(r.text) <==> WellQuoted(s) && (n == 0 || Closed(edits[n - 1])))
    && (n < |edits| ==> Blocked(r.text, edits[n]))
  }

  ghost predicate Blocked(s: string, e: Edit) {
    BadValue(e.val) || !WellQuoted(s) || |Line(NewArgs(s, e.arg, e.val))| >= 2048
  }

  lemma OneDone(s: string, edits: seq<Edit>)
    requires edits != [] && Done(s, edits[0])
    ensures Until(s, edits) == Until(Apply(s, edits[0]), edits[1..])
    ensures Made(s, edits) == 1 + Made(Apply(s, edits[0]), edits[1..])
  {
  }

  lemma StopsRightBefore(s: string, edits: seq<Edit>)
    requires edits != [] && Done(s, edits[0]) && WellQuoted(s) && StopsRight(Apply(s, edits[0]), edits[1..])
    requires WellQuoted(Apply(s, edits[0])) <==> Closed(edits[0])
    requires Made(Apply(s, edits[0]), edits[1..]) > 0 ==> WellQuoted(Apply(s, edits[0]))
    ensures StopsRight(s, edits)
  {
    var rest, n := edits[1..], Made(Apply(s, edits[0]), edits[1..]);
    OneDone(s, edits);
    assert n < |rest| ==> rest[n] == edits[n + 1];
    assert n > 0 ==> rest[n - 1] == edits[n];
  }

  /** Where it stops: at the end, or at a quote in a value, a line that is too long,
      or a quote that is open. Only the last edit can have left a quote open. */
  lemma {:induction false} UntilStops(s: string, edits: seq<Edit>, names: set<string>)
    requires Words(edits, names)
    ensures StopsRight(s, edits)
    decreases |edits|
  {
    if edits != [] {
      var e, s' := edits[0], Apply(s, edits[0]);
      WordSets(s, e);
      if Done(s, e) {
        UntilStops(s', edits[1..], names);
        if |edits| > 1 {
          WordSets(s', edits[1]);
        }
        StopsRightBefore(s, edits);
      }
    }
  }

  /** While no quote is open, a lookup gives what the edits that were made give as a
      map, and the arguments that are not named keep text and order. */
  lemma {:induction false} UntilGets(s: string, edits: seq<Edit>, name: string, names: set<string>)
    requires Words(edits, names) && WellQuoted(Until(s, edits).text)
    ensures var r, n := Until(s, edits), Made(s, edits);
            && Get(r.text, name) == Latest(edits[..n], name, Get(s, name))
            && Without(ArgList(r.text), names) == Without(ArgList(s), names)
    decreases |edits|
  {
    if edits != [] && Done(s, edits[0]) {
      var e, s', n := edits[0], Apply(s, edits[0]), Made(s, edits);
      WordSets(s, e);
      UntilStops(s', edits[1..], names);
      assert WellQuoted(s');
      WordIsGood(e);
      EditMeans(s, e);
      UntilGets(s', edits[1..], name, names);
      OneDone(s, edits);
      TakeOfTail(edits, n);
    }
  }

  /** For any text and any line. It stops at the first word that has a quote in its
      value, finds no room or finds a quote open, and only the last word that is set
      can have left a quote open. Otherwise each name reads as the last value that
      was set for it, and all other arguments keep text and order. */
  lemma ExtraArgsSet(s: string, extra: string, name: string)
    ensures var edits := Edits(extra);
            var r, n := Until(s, edits), Made(s, edits);
            && StopsRight(s, edits)
            && (WellQuoted(r.text) ==> Get(r.text, name) == Latest(edits[..n], name, Get(s, name)))
            && (WellQuoted(r.text) ==> Without(ArgList(r.text), NamesOf(edits)) == Without(ArgList(s), NamesOf(edits)))
  {
    EditsAreWords(extra);
    UntilStops(s, Edits(extra), NamesOf(Edits(extra)));
    if WellQuoted(Until(s, Edits(extra)).text) {
      UntilGets(s, Edits(extra), name, NamesOf(Edits(extra)));
    }
  }

  ghost function NamesOf(edits: seq<Edit>): set<string> {
    set k | 0 <= k < |edits| :: edits[k].arg
  }

  /** A quote in a value is refused, and so is everything after it. */
  lemma {:induction false} QuotedRefused(s: string, edits: seq<Edit>, k: nat)
    requires k < |edits| && BadValue(edits[k].val)
    ensures !Until(s, edits).ok && Until(s, edits).text == Until(s, edits[..k]).text
    decreases |edits|
  {
    if k > 0 && Done(s, edits[0]) {
      QuotedRefused(Apply(s, edits[0]), edits[1..], k - 1);
      assert edits[1..][..k - 1] == edits[..k][1..];
    }
  }
}
