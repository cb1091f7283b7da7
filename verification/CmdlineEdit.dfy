/** cmdline_set_arg() and copy_in(), writing into the caller's buffer, and
    cmdline_get_arg(), the same loop with no buffer. A command line that is NULL
    is the empty one. */
module CmdlineEdit {
  import opened CmdlineSpec

  /** memcpy() into the buffer. */
  method Put(buf: array<char>, to: nat, text: string) returns (to': nat)
    requires to + |text| <= buf.Length
    modifies buf
    ensures to' == to + |text|
    ensures buf[..to'] == old(buf[..to]) + text
    ensures forall k :: to' <= k < buf.Length ==> buf[k] == old(buf[k])
  {
    forall k | 0 <= k < |text| {
      buf[to + k] := text[k];
    }
    to' := to + |text|;
  }

  /** strchr() */
  method HasChar(text: string, c: char) returns (found: bool)
    ensures found <==> c in text
  {
    for i := 0 to |text|
      invariant c !in text[..i]
    {
      if text[i] == c {
        return true;
      }
    }
    return false;
  }

  /** copy_in(): writes a name and its value before `end`, if they fit. */
  method CopyIn(buf: array<char>, to: nat, end: nat, name: string, val: NewVal) returns (ok: bool, to': nat)
    requires to <= end <= buf.Length && !val.Delete?
    modifies buf
    ensures ok <==> to + |Render(name, val)| < end
    ensures ok ==> to' == to + |Render(name, val)| && buf[..to'] == old(buf[..to]) + Render(name, val)
    ensures forall k :: end <= k < buf.Length ==> buf[k] == old(buf[k])
  {
    to' := to;
    if to + |name| >= end {
      return false, to;
    }
    if val == Empty {
      to' := Put(buf, to, name);
      return true, to';
    }
    var needQuote := HasChar(val.text, ' ');
    if to + |name| + 1 + (if needQuote then 2 else 0) + |val.text| >= end {
      return false, to;
    }
    to' := PutValue(buf, to, name, val.text, needQuote);
    return true, to';
  }

  method PutValue(buf: array<char>, to: nat, name: string, text: string, needQuote: bool) returns (to': nat)
    requires to + |name| + 1 + (if needQuote then 2 else 0) + |text| <= buf.Length
    requires needQuote <==> ' ' in text
    modifies buf
    ensures to' == to + |Render(name, Value(text))|
    ensures buf[..to'] == old(buf[..to]) + Render(name, Value(text))
    ensures forall k :: to' <= k < buf.Length ==> buf[k] == old(buf[k])
  {
    ghost var start := buf[..to];
    to' := Put(buf, to, name);
    to' := Put(buf, to', "=");
    if needQuote {
      to' := Put(buf, to', "\"");
    }
    to' := Put(buf, to', text);
    if needQuote {
      to' := Put(buf, to', "\"");
      assert buf[..to'] == (((start + name) + "=") + "\"") + text + "\"";
      JoinQuoted(start, name, text);
    } else {
      assert buf[..to'] == ((start + name) + "=") + text;
      JoinPlain(start, name, text);
    }
  }

  lemma JoinPlain(start: string, name: string, text: string)
    ensures ((start + name) + "=") + text == start + (name + "=" + text)
  {
  }

  lemma JoinQuoted(start: string, name: string, text: string)
    ensures (((start + name) + "=") + "\"") + text + "\"" == start + (name + "=\"" + text + "\"")
  {
  }

  /** The scan of one argument: where its name and where it ends. */
  method ScanArg(s: string, from: nat) returns (closed: bool, nameEnd: nat, valEnd: nat)
    requires from <= |s|
    ensures closed <==> ArgEnd(s, from, false).At?
    ensures closed ==> nameEnd == NameEnd(s, from, false) && At(valEnd) == ArgEnd(s, from, false)
  {
    var p, inQuote, named := from, false, false;
    nameEnd, valEnd := from, from;
    while true
      invariant from <= p <= |s|
      invariant ArgEnd(s, from, false) == ArgEnd(s, p, inQuote)
      invariant NameEnd(s, from, false) == if named then nameEnd else NameEnd(s, p, inQuote)
      decreases |s| - p
    {
      if inQuote {
        if p == |s| {
          return false, nameEnd, valEnd;
        }
        if s[p] == '"' {
          inQuote := false;
        }
      } else if p < |s| && s[p] == '=' && !named {
        named, nameEnd := true, p;
      } else if p < |s| && s[p] == '"' {
        inQuote := true;
      } else if p == |s| || s[p] == ' ' {
        valEnd := p;
        if !named {
          nameEnd := p;
        }
        return true, nameEnd, valEnd;
      }
      p := p + 1;
    }
  }

  datatype Return = Err(error: Error) | Len(len: nat)

  /** One argument: after the separating space, delete it, rewrite it or copy it.
      Deleting takes the space back. */
  method EditArg(buf: array<char>, to: nat, end: nat, name: string, raw: string, arg: string, val: NewVal)
      returns (ok: bool, to': nat)
    requires to < end <= buf.Length
    modifies buf
    ensures var out := AddEdited(old(buf[..to]), name, raw, arg, val);
            && (ok <==> |out| < end)
            && (ok ==> to' == |out| && buf[..to'] == out)
    ensures forall k :: end <= k < buf.Length ==> buf[k] == old(buf[k])
  {
    ghost var out := buf[..to];
    to' := to;
    if to' != 0 {
      to' := Put(buf, to', " ");
    }
    assert buf[..to'] == if out == "" then "" else out + " ";
    if name == arg {
      if val.Delete? {
        if to' != 0 {
          to' := to' - 1;
        }
        assert buf[..to'] == out;
        return true, to';
      }
      ok, to' := CopyIn(buf, to', end, name, val);
    } else {
      ok := to' + |raw| < end;
      if ok {
        to' := Put(buf, to', raw);
      }
    }
  }

  method Skip(s: string, p: nat) returns (r: nat)
    requires p <= |s|
    ensures r == SkipSpaces(s, p)
  {
    r := p;
    while r < |s| && s[r] == ' '
      invariant p <= r <= |s|
      invariant SkipSpaces(s, p) == SkipSpaces(s, r)
    {
      r := r + 1;
    }
  }

  /** Drops a trailing space and terminates the text. */
  method Terminate(buf: array<char>, to: nat, end: nat) returns (to': nat)
    requires to < end <= buf.Length
    modifies buf
    ensures var text := DropSpace(old(buf[..to]));
            to' == |text| + 1 && to' <= end && buf[..to'] == text + "\0"
    ensures forall k :: end <= k < buf.Length ==> buf[k] == old(buf[k])
  {
    to' := to;
    if to' > 0 && buf[to' - 1] == ' ' {
      to' := to' - 1;
    }
    assert buf[..to'] == DropSpace(buf[..to]);
    to' := Put(buf, to', "\0");
  }

  /** Adds an argument that was not there. */
  method Append(buf: array<char>, to: nat, end: nat, arg: string, val: NewVal) returns (ok: bool, to': nat)
    requires to <= end <= buf.Length && !val.Delete?
    modifies buf
    ensures var text := Separate(old(buf[..to])) + Render(arg, val);
            && (ok <==> |text| < end)
            && (ok ==> to' == |text| && buf[..to'] == text)
    ensures forall k :: end <= k < buf.Length ==> buf[k] == old(buf[k])
  {
    if to >= end {
      return false, to;
    }
    to' := to;
    if to' != 0 && buf[to' - 1] != ' ' {
      to' := Put(buf, to', " ");
    }
    assert buf[..to'] == Separate(old(buf[..to]));
    ok, to' := CopyIn(buf, to', end, arg, val);
  }

  datatype Progress = Stop(error: Error) | More(from: nat, to: nat, found: bool)

  /** What is left to do after one turn is what was left before it. */
  ghost predicate Advances(p: Progress, s: string, arg: string, val: NewVal, maxlen: nat, pass: Pass,
                           out: string, out': string) {
    match p
    case Stop(e) => if e == E2BIG then |pass.out| >= maxlen else e == EINVAL && pass.open && pass.out == out
    case More(from, to, found) =>
      && from <= |s| && to == |out'| && to < maxlen
      && pass == Rewrite(s, from, arg, val, out', found)
  }

  /** One turn of the loop. */
  method Turn(buf: array<char>, to: nat, maxlen: nat, s: string, from: nat, arg: string, val: NewVal, found: bool)
      returns (p: Progress)
    requires to < maxlen <= buf.Length && from < |s|
    modifies buf
    ensures Advances(p, s, arg, val, maxlen, Rewrite(s, from, arg, val, old(buf[..to]), found), old(buf[..to]),
                     if p.More? && p.to <= buf.Length then buf[..p.to] else "")
    ensures p.More? ==> p.from > from
    ensures forall k :: maxlen <= k < buf.Length ==> buf[k] == old(buf[k])
  {
    var start := Skip(s, from);
    if start == |s| {
      return More(start, to, found);
    }
    var closed, nameEnd, valEnd := ScanArg(s, start);
    if !closed {
      return Stop(EINVAL);
    }
    var name := s[start..nameEnd];
    ghost var out := buf[..to];
    ghost var out' := AddEdited(out, name, s[start..valEnd], arg, val);
    RewriteOne(s, from, arg, val, out, found, start, valEnd);
    var ok, to' := EditArg(buf, to, maxlen, name, s[start..valEnd], arg, val);
    if !ok {
      return Stop(E2BIG);
    }
    var next := if name == arg && val.Delete? && valEnd < |s| && s[valEnd] == ' ' then valEnd + 1 else valEnd;
    if next != valEnd {
      RewriteSkip(s, valEnd, arg, val, out', found || name == arg);
    }
    assert buf[..to'] == out';
    p := More(next, to', found || name == arg);
  }

  /** Copies and rewrites all arguments. */
  method CopyArgs(buf: array<char>, maxlen: nat, s: string, arg: string, val: NewVal) returns (p: Progress)
    requires maxlen <= buf.Length
    modifies buf
    ensures var pass := Rewrite(s, 0, arg, val, "", false);
            if s != "" && |pass.out| >= maxlen then p == Stop(E2BIG)
            else if pass.open then p == Stop(EINVAL)
            else p == More(|s|, |pass.out|, pass.found) && |pass.out| <= maxlen && buf[..|pass.out|] == pass.out
    ensures forall k :: maxlen <= k < buf.Length ==> buf[k] == old(buf[k])
  {
    ghost var pass := Rewrite(s, 0, arg, val, "", false);
    var from: nat, to: nat, found := 0, 0, false;
    while from < |s|
      invariant from <= |s| && to <= maxlen && (from > 0 ==> to < maxlen)
      invariant pass == Rewrite(s, from, arg, val, buf[..to], found)
      invariant forall k :: maxlen <= k < buf.Length ==> buf[k] == old(buf[k])
    {
      if to >= maxlen {
        return Stop(E2BIG);
      }
      p := Turn(buf, to, maxlen, s, from, arg, val, found);
      if p.Stop? {
        return;
      }
      from, to, found := p.from, p.to, p.found;
    }
    p := More(from, to, found);
  }

  /** cmdline_set_arg() with a buffer of `maxlen` characters: the result for every
      command line, name and value; nothing is written past the buffer. */
  method SetArg(buf: array<char>, maxlen: nat, cmdline: string, arg: string, val: NewVal) returns (r: Return)
    requires maxlen <= buf.Length
    modifies buf
    ensures match SetArgResult(cmdline, arg, val, maxlen)
            case Fail(e) => r == Err(e)
            case Text(text) => r == Len(|text| + 1) && |text| + 1 <= maxlen && buf[..|text| + 1] == text + "\0"
    ensures forall k :: maxlen <= k < buf.Length ==> buf[k] == old(buf[k])
  {
    if val.Value? {
      var quote := HasChar(val.text, '"');
      if quote {
        return Err(EBADF);
      }
    }
    var p := CopyArgs(buf, maxlen, cmdline, arg, val);
    if p.Stop? {
      return Err(p.error);
    }
    var to := p.to;
    if !p.found {
      if val.Delete? {
        return Err(ENOENT);
      }
      var ok;
      ok, to := Append(buf, to, maxlen, arg, val);
      if !ok {
        return Err(E2BIG);
      }
    }
    to := Terminate(buf, to, maxlen);
    r := Len(to);
  }

  /** cmdline_get_arg(): the first argument of that name. */
  method GetArg(cmdline: string, arg: string) returns (r: Lookup)
    ensures r == Look(cmdline, 0, arg)
  {
    var from: nat := 0;
    while from < |cmdline|
      invariant from <= |cmdline|
      invariant Look(cmdline, 0, arg) == Look(cmdline, from, arg)
    {
      from := Skip(cmdline, from);
      if from == |cmdline| {
        break;
      }
      var closed, nameEnd, valEnd := ScanArg(cmdline, from);
      if !closed {
        return Missing(EINVAL);
      }
      if nameEnd - from == |arg| && cmdline[from..nameEnd] == arg {
        var hasQuote := if cmdline[valEnd - 1] == '"' then 1 else 0;
        var val := if nameEnd == valEnd then valEnd else nameEnd + 1;
        return Hit(val + hasQuote, valEnd - val - 2 * hasQuote);
      }
      from := valEnd;
    }
    return Missing(ENOENT);
  }
}
