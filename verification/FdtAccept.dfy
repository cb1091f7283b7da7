/** Which streams of tags the scan accepts, and with which error it refuses the
    others, said of the stream itself. */
module FdtAccept {
  import opened FdtFormat
  import opened FdtScan
  import opened FdtTree

  /** The names of the nodes that are open before tag number `i`. */
  ghost function Opened(tags: seq<Tag>, i: nat): seq<string>
    requires i <= |tags|
  {
    if i == 0 then [] else After(Opened(tags, i - 1), tags[i - 1])
  }

  /** What the path buffer holds there. */
  ghost function Buffer(tags: seq<Tag>, i: nat): string
    requires i <= |tags|
  {
    if i == 0 then ""
    else
      match tags[i - 1]
      case BeginNode(name) => Append(Buffer(tags, i - 1), name)
      case EndNode => Cut(Buffer(tags, i - 1))
      case _ => Buffer(tags, i - 1)
  }

  /** The tag before it closed the last open node. */
  ghost predicate JustClosed(tags: seq<Tag>, i: nat)
    requires i <= |tags|
  {
    i > 0 && tags[i - 1] == EndNode && Opened(tags, i) == []
  }

  datatype Trouble = Fine | Bad(error: Error)

  /** What is wrong with tag number `i`: anything but FDT_END after the root was
      closed, nodes that are too deep, a root with a name, a path without room, an
      end without a beginning, a property name that does not exist. */
  ghost function TroubleAt(strings: map<nat, string>, q: Query, tags: seq<Tag>, i: nat): Trouble
    requires i < |tags|
  {
    if JustClosed(tags, i) && tags[i] != End then Bad(BadLayout)
    else
      match tags[i]
      case BeginNode(name) =>
        if |Opened(tags, i)| >= 32 then Bad(BadStructure)
        else if Opened(tags, i) == [] && name != "" then Bad(BadLayout)
        else if |Buffer(tags, i)| + 2 + |name| >= q.pathLen then Bad(NoSpace)
        else Fine
      case EndNode => if Opened(tags, i) == [] then Bad(BadStructure) else Fine
      case Prop(nameOff, _) => if nameOff in strings then Fine else Bad(BadStructure)
      case _ => Fine
  }

  /** The tags before number `n` are all fine, and none of them is FDT_END. */
  ghost predicate FineBefore(strings: map<nat, string>, q: Query, tags: seq<Tag>, n: nat)
    requires n <= |tags|
  {
    forall i :: 0 <= i < n ==> tags[i] != End && TroubleAt(strings, q, tags, i) == Fine
  }

  /** The scanner's position before tag number `i`. */
  ghost predicate StandsAt(tags: seq<Tag>, i: nat, c: Ctl)
    requires i <= |tags|
  {
    |c.stack| == |Opened(tags, i)| && c.path == Buffer(tags, i) && (c.expectEnd <==> JustClosed(tags, i))
  }

  lemma TurnAt(strings: map<nat, string>, q: Query, tags: seq<Tag>, i: nat, c: Ctl)
    requires i < |tags| && StandsAt(tags, i, c) && |c.stack| <= 32
    ensures match TroubleAt(strings, q, tags, i)
            case Bad(e) => StepTag(strings, q, c, tags[i]) == Fail(e)
            case Fine => StepTag(strings, q, c, tags[i]).Next?
    ensures TroubleAt(strings, q, tags, i) == Fine && tags[i] != End ==>
              var c' := StepTag(strings, q, c, tags[i]).ctl; StandsAt(tags, i + 1, c') && |c'.stack| <= 32
  {
  }

  /** Tag number `n` is where the scan stops: at the end of the data, at a tag that is
      not fine, or at FDT_END. */
  ghost predicate StopsAt(strings: map<nat, string>, q: Query, tags: seq<Tag>, n: nat) {
    && n <= |tags| && FineBefore(strings, q, tags, n)
    && (n < |tags| ==> tags[n] == End || TroubleAt(strings, q, tags, n).Bad?)
  }

  /** What it then decides. */
  ghost predicate Settles(strings: map<nat, string>, q: Query, tags: seq<Tag>, i: nat, n: nat, d: Decisions)
    requires n <= |tags|
  {
    if n == |tags| then d == Rejected(BadLayout)
    else
      match TroubleAt(strings, q, tags, n)
      case Bad(e) => d == Rejected(e)
      case Fine => d.Accepted? && i + |d.flags| == n + 1
  }

  lemma DecideAt(strings: map<nat, string>, q: Query, tags: seq<Tag>, i: nat, c: Ctl)
    requires i < |tags|
    ensures var s := StepTag(strings, q, c, tags[i]);
            Decide(strings, q, c, tags[i..]) ==
            if s.Fail? then Rejected(s.error)
            else if tags[i] == End then Accepted([s.keep])
            else Prepend([s.keep], Decide(strings, q, s.ctl, tags[i + 1..]))
  {
    assert tags[i..][1..] == tags[i + 1..];
  }

  lemma SettlesBefore(strings: map<nat, string>, q: Query, tags: seq<Tag>, i: nat, n: nat, keep: bool, d: Decisions)
    requires n <= |tags| && Settles(strings, q, tags, i + 1, n, d)
    ensures Settles(strings, q, tags, i, n, Prepend([keep], d))
  {
  }

  lemma {:induction false} DecideSettles(strings: map<nat, string>, q: Query, tags: seq<Tag>, i: nat, c: Ctl, n: nat)
    requires i <= n && StopsAt(strings, q, tags, n) && StandsAt(tags, i, c) && |c.stack| <= 32
    ensures Settles(strings, q, tags, i, n, Decide(strings, q, c, tags[i..]))
    decreases n - i
  {
    if i < |tags| {
      TurnAt(strings, q, tags, i, c);
      DecideAt(strings, q, tags, i, c);
      if i < n {
        var s := StepTag(strings, q, c, tags[i]);
        DecideSettles(strings, q, tags, i + 1, s.ctl, n);
        SettlesBefore(strings, q, tags, i, n, s.keep, Decide(strings, q, s.ctl, tags[i + 1..]));
      }
    }
  }

  /** There is such a tag. */
  lemma {:induction false} SomeStop(strings: map<nat, string>, q: Query, tags: seq<Tag>, i: nat) returns (n: nat)
    requires i <= |tags| && FineBefore(strings, q, tags, i)
    ensures StopsAt(strings, q, tags, n)
    decreases |tags| - i
  {
    if i == |tags| || tags[i] == End || TroubleAt(strings, q, tags, i).Bad? {
      n := i;
    } else {
      n := SomeStop(strings, q, tags, i + 1);
    }
  }

  lemma StartDecides(strings: map<nat, string>, q: Query, tags: seq<Tag>) returns (n: nat)
    ensures StopsAt(strings, q, tags, n) && Settles(strings, q, tags, 0, n, Decide(strings, q, START, tags))
  {
    n := SomeStop(strings, q, tags, 0);
    DecideSettles(strings, q, tags, 0, START, n);
    assert tags[0..] == tags;
  }

  lemma StopIsUnique(strings: map<nat, string>, q: Query, tags: seq<Tag>, m: nat, n: nat)
    requires StopsAt(strings, q, tags, m) && StopsAt(strings, q, tags, n)
    ensures m == n
  {
  }

  /** A stream is accepted up to tag number `n` exactly when that is FDT_END, may
      stand there, and all tags before it are fine and none is FDT_END. */
  lemma AcceptedExactly(strings: map<nat, string>, q: Query, tags: seq<Tag>, n: nat)
    ensures var d := Decide(strings, q, START, tags);
            d.Accepted? && |d.flags| == n + 1 <==> n < |tags| && tags[n] == End && FineBefore(strings, q, tags, n)
  {
    var m := StartDecides(strings, q, tags);
    if n < |tags| && tags[n] == End && FineBefore(strings, q, tags, n) {
      StopIsUnique(strings, q, tags, m, n);
    }
  }

  /** It is refused with error `e` exactly when the first tag that is not fine has
      that error, or when there is no FDT_END and `e` is BADLAYOUT. */
  lemma RejectedExactly(strings: map<nat, string>, q: Query, tags: seq<Tag>, e: Error)
    ensures Decide(strings, q, START, tags) == Rejected(e) <==>
            exists n :: FirstTrouble(strings, q, tags, n, e)
  {
    var m := StartDecides(strings, q, tags);
    if n :| FirstTrouble(strings, q, tags, n, e) {
      StopIsUnique(strings, q, tags, m, n);
    } else if Decide(strings, q, START, tags) == Rejected(e) {
      assert FirstTrouble(strings, q, tags, m, e);
    }
  }

  ghost predicate FirstTrouble(strings: map<nat, string>, q: Query, tags: seq<Tag>, n: nat, e: Error) {
    && n <= |tags| && FineBefore(strings, q, tags, n)
    && if n < |tags| then TroubleAt(strings, q, tags, n) == Bad(e) else e == BadLayout
  }

  /** After the root was closed nothing but FDT_END is accepted; in particular no
      second root. */
  lemma OneRoot(strings: map<nat, string>, q: Query, tags: seq<Tag>, i: nat)
    requires Decide(strings, q, START, tags).Accepted?
    requires i < |Decide(strings, q, START, tags).flags| && JustClosed(tags, i)
    ensures tags[i] == End && |Decide(strings, q, START, tags).flags| == i + 1
  {
    AcceptedExactly(strings, q, tags, |Decide(strings, q, START, tags).flags| - 1);
  }

  /** Regions are found exactly when the stream is accepted up to an FDT_END that ends
      the structure block. */
  lemma FoundExactly(blob: Blob, q: Query, addStringTab: bool)
    requires |blob.offs| == |blob.tags| + 1
    ensures Find(blob, q, addStringTab).Found? <==> exists n :: EndsBlock(blob, q, n)
  {
    var d := Decide(blob.strings, q, START, blob.tags);
    if n :| EndsBlock(blob, q, n) {
      AcceptedExactly(blob.strings, q, blob.tags, n);
    }
    if d.Accepted? {
      AcceptedExactly(blob.strings, q, blob.tags, |d.flags| - 1);
      assert Find(blob, q, addStringTab).Found? ==> EndsBlock(blob, q, |d.flags| - 1);
    }
  }

  ghost predicate EndsBlock(blob: Blob, q: Query, n: nat)
    requires |blob.offs| == |blob.tags| + 1
  {
    && n < |blob.tags| && blob.tags[n] == End && FineBefore(blob.strings, q, blob.tags, n)
    && blob.offs[n + 1] == blob.structSize
  }
}
