/** What cmdline_set_arg() computes, on strings: reading the arguments of a
    kernel command line one after the other and rewriting them. */
module CmdlineSpec {

  /** The new value: NULL deletes the argument, BOOTFLOWCL_EMPTY leaves the name
      without an equals sign. */
  datatype NewVal = Delete | Empty | Value(text: string)

  datatype Error = E2BIG | EINVAL | ENOENT | EBADF

  // -------------------------------------------------------------------------
  // Reading one argument
  // -------------------------------------------------------------------------

  function SkipSpaces(s: string, p: nat): (r: nat)
    requires p <= |s|
    ensures p <= r <= |s|
    ensures r < |s| ==> s[r] != ' '
    decreases |s| - p
  {
    if p < |s| && s[p] == ' ' then SkipSpaces(s, p + 1) else p
  }

  datatype End = Unterminated | At(pos: nat)

  /** Where the argument that is being read at `p` ends: at a space or the end of
      the line, outside quotes. */
  function ArgEnd(s: string, p: nat, inQuote: bool): (r: End)
    requires p <= |s|
    ensures r.At? ==> p <= r.pos <= |s|
    ensures r.At? && p < |s| && (inQuote || s[p] != ' ') ==> p < r.pos
    decreases |s| - p
  {
    if p == |s| then if inQuote then Unterminated else At(p)
    else if !inQuote && s[p] == ' ' then At(p)
    else ArgEnd(s, p + 1, (s[p] == '"') != inQuote)
  }

  /** Where its name ends: at the first equals sign outside quotes, or with the
      argument. */
  function NameEnd(s: string, p: nat, inQuote: bool): (r: nat)
    requires p <= |s|
    ensures p <= r <= |s|
    ensures ArgEnd(s, p, inQuote).At? ==> r <= ArgEnd(s, p, inQuote).pos
    decreases |s| - p
  {
    if p == |s| then p
    else if !inQuote && (s[p] == ' ' || s[p] == '=') then p
    else NameEnd(s, p + 1, (s[p] == '"') != inQuote)
  }

  // -------------------------------------------------------------------------
  // Rewriting the line
  // -------------------------------------------------------------------------

  /** An argument with its new value, quoted if the value has a space. */
  function Render(name: string, val: NewVal): string {
    match val
    case Value(v) => if ' ' in v then name + "=\"" + v + "\"" else name + "=" + v
    case _ => name
  }

  /** Adds an argument to the text written so far. */
  function Add(out: string, arg: string): string {
    if out == "" then arg else out + " " + arg
  }

  /** The text after an argument was read that is `raw` and has this name. */
  function AddEdited(out: string, name: string, raw: string, arg: string, val: NewVal): (r: string)
    ensures |r| >= |out|
  {
    if name != arg then Add(out, raw)
    else if val.Delete? then out
    else Add(out, Render(name, val))
  }

  /** What was written, whether the argument was there, and whether reading
      stopped at an argument with an open quote. */
  datatype Pass = Pass(out: string, found: bool, open: bool)

  /** Reads and rewrites the line from `p` on. */
  function Rewrite(s: string, p: nat, arg: string, val: NewVal, out: string, found: bool): (r: Pass)
    requires p <= |s|
    ensures |r.out| >= |out|
    decreases |s| - p
  {
    var from := SkipSpaces(s, p);
    if from == |s| then Pass(out, found, false)
    else
      match ArgEnd(s, from, false)
      case Unterminated => Pass(out, found, true)
      case At(end) =>
        var name := s[from..NameEnd(s, from, false)];
        Rewrite(s, end, arg, val, AddEdited(out, name, s[from..end], arg, val), found || name == arg)
  }

  /** One argument of it. */
  lemma RewriteOne(s: string, p: nat, arg: string, val: NewVal, out: string, found: bool, from: nat, end: nat)
    requires p <= |s| && from == SkipSpaces(s, p) < |s| && ArgEnd(s, from, false) == At(end)
    ensures var name := s[from..NameEnd(s, from, false)];
            Rewrite(s, p, arg, val, out, found) ==
            Rewrite(s, end, arg, val, AddEdited(out, name, s[from..end], arg, val), found || name == arg)
  {
  }

  lemma RewriteSkip(s: string, p: nat, arg: string, val: NewVal, out: string, found: bool)
    requires p < |s| && s[p] == ' '
    ensures Rewrite(s, p, arg, val, out, found) == Rewrite(s, p + 1, arg, val, out, found)
  {
  }

  /** Before an argument is added at the end. */
  function Separate(out: string): (r: string)
    ensures |r| >= |out|
  {
    if out != "" && out[|out| - 1] != ' ' then out + " " else out
  }

  function DropSpace(out: string): (r: string)
    ensures |r| <= |out|
  {
    if out != "" && out[|out| - 1] == ' ' then out[..|out| - 1] else out
  }

  datatype Result = Fail(error: Error) | Text(text: string)

  predicate BadValue(val: NewVal) {
    val.Value? && '"' in val.text
  }

  /** The new command line, for a buffer of `maxlen` characters. */
  function SetArgResult(s: string, arg: string, val: NewVal, maxlen: nat): Result {
    var pass := Rewrite(s, 0, arg, val, "", false);
    if BadValue(val) then Fail(EBADF)
    else if s != "" && |pass.out| >= maxlen then Fail(E2BIG)
    else if pass.open then Fail(EINVAL)
    else if pass.found then Text(DropSpace(pass.out))
    else if val.Delete? then Fail(ENOENT)
    else
      var text := Separate(pass.out) + Render(arg, val);
      if |text| >= maxlen then Fail(E2BIG) else Text(DropSpace(text))
  }

  // -------------------------------------------------------------------------
  // Looking an argument up
  // -------------------------------------------------------------------------

  /** Position and length of the value; the length is negative for a name that
      ends in a quote and has no value. */
  datatype Lookup = Missing(error: Error) | Hit(pos: int, len: int)

  function Look(s: string, p: nat, arg: string): Lookup
    requires p <= |s|
    decreases |s| - p
  {
    var from := SkipSpaces(s, p);
    if from == |s| then Missing(ENOENT)
    else
      match ArgEnd(s, from, false)
      case Unterminated => Missing(EINVAL)
      case At(end) =>
        var nameEnd := NameEnd(s, from, false);
        if s[from..nameEnd] == arg then HitAt(s, nameEnd, end) else Look(s, end, arg)
  }

  /** The value of the argument that ends at `end` and whose name ends at
      `nameEnd`, without the quotes around it. */
  function HitAt(s: string, nameEnd: nat, end: nat): (r: Lookup)
    requires nameEnd <= end <= |s| && 0 < end
    ensures r.Hit? && nameEnd <= r.pos && (r.len >= 0 ==> r.pos + r.len <= end)
  {
    var val := if nameEnd == end then end else nameEnd + 1;
    var quote := if s[end - 1] == '"' then 1 else 0;
    Hit(val + quote, end - val - 2 * quote)
  }
}
