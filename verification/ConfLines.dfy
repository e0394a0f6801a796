/** The lines of a configuration file: how values are written, and how they are read back. */
module ConfLines {
  import opened Tristate

  const PREFIX := "CONFIG_"

  // ----- strings between quotes

  predicate Special(c: char) { c == '"' || c == '\\' }

  function EscapeBody(v: string): (s: string)
    ensures |v| <= |s|
  {
    if v == "" then "" else (if Special(v[0]) then "\\" else "") + [v[0]] + EscapeBody(v[1..])
  }

  function Escaped(v: string): string { "\"" + EscapeBody(v) + "\"" }

  /** The number of characters in `v` that need a backslash. */
  function Specials(v: string): nat {
    if v == "" then 0 else (if Special(v[0]) then 1 else 0) + Specials(v[1..])
  }

  /** `strcspn(p, "\"\\")`. */
  method Span(v: string, p: nat) returns (n: nat)
    requires p <= |v|
    ensures p <= n <= |v| && (n < |v| ==> Special(v[n]))
    ensures forall i :: p <= i < n ==> !Special(v[i])
  {
    n := p;
    while n < |v| && !Special(v[n])
      invariant p <= n <= |v| && forall i :: p <= i < n ==> !Special(v[i])
    {
      n := n + 1;
    }
  }

  lemma {:induction false} EscapePlain(v: string, p: nat, n: nat)
    requires p <= n <= |v| && forall i :: p <= i < n ==> !Special(v[i])
    ensures EscapeBody(v[p..]) == v[p..n] + EscapeBody(v[n..]) && Specials(v[p..]) == Specials(v[n..])
    decreases n - p
  {
    if p < n {
      assert v[p..][1..] == v[p + 1..];
      EscapePlain(v, p + 1, n);
      assert v[p..n] == [v[p]] + v[p + 1..n];
      assert [v[p]] + (v[p + 1..n] + EscapeBody(v[n..])) == v[p..n] + EscapeBody(v[n..]);
    } else {
      assert v[p..n] == "";
    }
  }

  lemma EscapeSpecial(v: string, p: nat)
    requires p < |v| && Special(v[p])
    ensures EscapeBody(v[p..]) == "\\" + [v[p]] + EscapeBody(v[p + 1..]) && Specials(v[p..]) == 1 + Specials(v[p + 1..])
  {
    assert v[p..][1..] == v[p + 1..];
  }

  lemma EscapeEnd(v: string)
    ensures EscapeBody(v[|v|..]) == "" && Specials(v[|v|..]) == 0 && v[0..] == v
  {
  }

  /** `sym_escape_string_value`: first the length of the result is counted, then the result is put together. It fills
      the allocated buffer exactly, including the terminator. */
  method Escape(v: string) returns (res: string, reslen: nat)
    ensures res == Escaped(v) && reslen == |res| + 1
  {
    reslen := EscapedSize(v);
    EscapeLength(v);
    res := EscapeText(v);
    res := "\"" + res + "\"";
  }

  method EscapedSize(v: string) returns (reslen: nat)
    ensures reslen == |v| + Specials(v) + 3
  {
    hide EscapeBody, Specials;
    reslen := |v| + 2 + 1;
    var p := 0;
    EscapeEnd(v);
    while true
      invariant p <= |v| && reslen + Specials(v[p..]) == |v| + 3 + Specials(v)
      decreases |v| - p
    {
      var n := Span(v, p);
      EscapePlain(v, p, n);
      p := n;
      if p == |v| { break; }
      EscapeSpecial(v, p);
      reslen := reslen + 1;
      p := p + 1;
    }
  }

  method EscapeText(v: string) returns (res: string)
    ensures res == EscapeBody(v)
  {
    hide EscapeBody, Specials;
    res := "";
    var p := 0;
    EscapeEnd(v);
    assert "" + EscapeBody(v) == EscapeBody(v);
    while true
      invariant p <= |v| && res + EscapeBody(v[p..]) == EscapeBody(v)
      decreases |v| - p
    {
      var n := Span(v, p);
      EscapePlain(v, p, n);
      Joined(res, v[p..n], EscapeBody(v[n..]));
      res := res + v[p..n];
      p := n;
      if p == |v| { break; }
      EscapeSpecial(v, p);
      Joined(res, "\\" + [v[p]], EscapeBody(v[p + 1..]));
      res := res + ("\\" + [v[p]]);
      p := p + 1;
    }
    assert res + "" == res;
  }

  lemma Joined(a: string, b: string, c: string)
    ensures a + (b + c) == (a + b) + c
  {
  }

  lemma {:induction false} EscapeLength(v: string)
    ensures |EscapeBody(v)| == |v| + Specials(v)
  {
    if v != "" { EscapeLength(v[1..]); }
  }

  // ----- and back

  function Prepend(c: char, s: Option<string>): Option<string> {
    if s.Some? then Some([c] + s.value) else None
  }

  /** What stands between the opening quote, which has been read, and the closing one. */
  function Unescaped(s: string): Option<string> {
    if s == "" then None
    else if s[0] == '"' then Some("")
    else if s[0] != '\\' then Prepend(s[0], Unescaped(s[1..]))
    else if |s| == 1 then None
    else Prepend(s[1], Unescaped(s[2..]))
  }

  /** Reading a quoted string gives the string that was written, whatever follows the closing quote. */
  lemma {:induction false} UnescapeEscape(v: string, rest: string)
    ensures Unescaped(EscapeBody(v) + "\"" + rest) == Some(v)
  {
    var s := EscapeBody(v) + "\"" + rest;
    if v == "" {
      assert s[0] == '"';
    } else {
      UnescapeEscape(v[1..], rest);
      var tail := EscapeBody(v[1..]) + "\"" + rest;
      assert [v[0]] + v[1..] == v;
      if Special(v[0]) {
        assert s == "\\" + [v[0]] + tail;
        assert s[0] == '\\' && s[1] == v[0] && s[2..] == tail;
      } else {
        assert s == [v[0]] + tail;
        assert s[0] == v[0] && s[1..] == tail;
      }
    }
  }

  /** The string that starts at position p of a buffer. */
  predicate StringAt(buf: seq<char>, p: nat, s: string) {
    && p + |s| < |buf| && buf[p..p + |s|] == s && buf[p + |s|] == '\0' && forall i :: 0 <= i < |s| ==> s[i] != '\0'
  }

  /** The same buffer as far as position p. */
  predicate SameUpTo(before: seq<char>, after: seq<char>, p: nat) {
    |before| == |after| && p <= |after| && after[..p] == before[..p]
  }

  /** `text` stands between two positions. */
  predicate Between(buf: seq<char>, p: nat, q: nat, text: string) { p <= q <= |buf| && buf[p..q] == text }

  /** `memmove(p, p + 1, strlen(p))`: the first character of the string at p is lost, the terminator moves along. */
  method MoveLeft(buf: array<char>, p: nat, ghost s: string)
    requires StringAt(buf[..], p, s) && s != ""
    modifies buf
    ensures StringAt(buf[..], p, s[1..]) && SameUpTo(old(buf[..]), buf[..], p)
  {
    var i := p;
    while buf[i] != '\0'
      invariant p <= i <= p + |s|
      invariant forall k :: p <= k < i ==> buf[k] == old(buf[k + 1])
      invariant forall k :: 0 <= k < buf.Length && !(p <= k < i) ==> buf[k] == old(buf[k])
      invariant old(StringAt(buf[..], p, s))
      decreases p + |s| - i
    {
      assert old(buf[..][p..p + |s|][i - p]) == s[i - p];
      buf[i] := buf[i + 1];
      i := i + 1;
      if i < p + |s| { assert old(buf[..][p..p + |s|][i - p]) == s[i - p]; }
    }
    MovedLeft(old(buf[..]), buf[..], p, s, i);
  }

  lemma MovedLeft(before: seq<char>, after: seq<char>, p: nat, s: string, i: nat)
    requires StringAt(before, p, s) && s != "" && |after| == |before| && p <= i <= p + |s| && after[i] == '\0'
    requires forall k :: p <= k < i ==> after[k] == before[k + 1]
    requires forall k :: 0 <= k < |before| && !(p <= k < i) ==> after[k] == before[k]
    ensures StringAt(after, p, s[1..])
  {
    assert forall k :: 0 <= k < |s| ==> before[p..p + |s|][k] == s[k];
    assert i == p + |s|;
    assert after[p..p + |s| - 1] == s[1..];
  }

  function PrependAll(d: string, s: Option<string>): Option<string> {
    if s.Some? then Some(d + s.value) else None
  }

  /** The next quote or backslash of the string at p, or its terminator: `strpbrk`. */
  method FindSpecial(buf: array<char>, p: nat, ghost s: string)
    returns (q: nat, ghost front: string, ghost tail: string)
    requires StringAt(buf[..], p, s)
    ensures q == p + |front| && StringAt(buf[..], q, tail) && Between(buf[..], p, q, front) && NoTerminator(front)
    ensures |tail| <= |s| && (tail != "" ==> Special(tail[0]))
    ensures Unescaped(s) == PrependAll(front, Unescaped(tail))
  {
    hide Unescaped, PrependAll, Between, NoTerminator;
    q := p;
    CharsAt(buf[..], p, s);
    while buf[q] != '\0' && !Special(buf[q])
      invariant p <= q <= p + |s| && forall k :: 0 <= k < q - p ==> !Special(s[k])
      decreases p + |s| - q
    {
      q := q + 1;
    }
    front, tail := s[..q - p], s[q - p..];
    CutAt(buf[..], p, q, s);
    UnescapePlain(s, q - p);
  }

  lemma CharsAt(buf: seq<char>, p: nat, s: string)
    requires StringAt(buf, p, s)
    ensures forall k :: 0 <= k < |s| ==> buf[p + k] == s[k] && buf[p + k] != '\0'
  {
    forall k | 0 <= k < |s| ensures buf[p + k] == s[k] { assert buf[p..p + |s|][k] == s[k]; }
  }

  /** A string that is cut in two stands there in two parts. */
  lemma CutAt(buf: seq<char>, p: nat, q: nat, s: string)
    requires StringAt(buf, p, s) && p <= q <= p + |s|
    ensures StringAt(buf, q, s[q - p..]) && Between(buf, p, q, s[..q - p]) && NoTerminator(s[..q - p])
  {
    assert buf[q..p + |s|] == buf[p..p + |s|][q - p..] && buf[p..q] == buf[p..p + |s|][..q - p];
  }

  predicate NoTerminator(s: string) { forall k :: 0 <= k < |s| ==> s[k] != '\0' }

  lemma {:induction false} UnescapePlain(s: string, n: nat)
    requires n <= |s| && forall k :: 0 <= k < n ==> !Special(s[k])
    ensures Unescaped(s) == PrependAll(s[..n], Unescaped(s[n..]))
    decreases n
  {
    if n > 0 {
      UnescapePlain(s[1..], n - 1);
      assert s[1..][n - 1..] == s[n..] && [s[0]] + s[1..][..n - 1] == s[..n];
      var after := Unescaped(s[n..]);
      if after.Some? { assert [s[0]] + (s[1..][..n - 1] + after.value) == s[..n] + after.value; }
    } else {
      assert s[n..] == s && s[..n] == "";
      if Unescaped(s).Some? { assert "" + Unescaped(s).value == Unescaped(s).value; }
    }
  }

  /** What the loop has done: `done` is final, `rest` is still to be read. */
  ghost predicate Unescaping(buf: seq<char>, p: nat, q: nat, s: string, done: string, rest: string) {
    && p <= q <= |buf| && buf[p..q] == done && StringAt(buf, q, rest)
    && NoTerminator(done)
    && Unescaped(s) == PrependAll(done, Unescaped(rest))
  }

  /** The string case of `conf_set_sym_val`: the quoted string at p is unescaped where it stands. */
  method UnescapeInPlace(buf: array<char>, p: nat, ghost s: string) returns (ok: bool)
    requires StringAt(buf[..], p, s)
    modifies buf
    ensures ok <==> Unescaped(s).Some?
    ensures ok ==> StringAt(buf[..], p, Unescaped(s).value)
  {
    hide Unescaped, Unescaping, StringAt, NoTerminator, PrependAll, SameUpTo, Between;
    var q: nat := p;
    ghost var done, rest := "", s;
    Opened(buf[..], p, s);
    while true
      invariant Unescaping(buf[..], p, q, s, done, rest)
      decreases |rest|
    {
      ghost var n := q;
      ghost var front, tail;
      StillThere(buf[..], p, q, s, done, rest);
      q, front, tail := FindSpecial(buf, q, rest);
      Skipped(buf[..], p, n, q, s, done, rest, front, tail);
      done, rest := done + front, tail;
      StillThere(buf[..], p, q, s, done, rest);
      if buf[q] == '\0' { return false; }
      if buf[q] == '"' {
        CloseString(buf, p, q, s, done, rest);
        return true;
      }
      ghost var done', rest';
      ok, done', rest' := TakeEscaped(buf, p, q, s, done, rest);
      if !ok { return false; }
      done, rest := done', rest';
      q := q + 1;
    }
  }

  /** The closing quote becomes the terminator. */
  method CloseString(buf: array<char>, p: nat, q: nat, ghost s: string, ghost done: string, ghost rest: string)
    requires Unescaping(buf[..], p, q, s, done, rest) && rest != "" && rest[0] == '"'
    modifies buf
    ensures Unescaped(s) == Some(done) && StringAt(buf[..], p, done)
  {
    buf[q] := '\0';
    Closed(old(buf[..]), buf[..], p, q, s, done, rest);
  }

  /** A backslash is removed, and the character behind it is taken as it is, if there is one. */
  method TakeEscaped(buf: array<char>, p: nat, q: nat, ghost s: string, ghost done: string, ghost rest: string)
    returns (ok: bool, ghost done': string, ghost rest': string)
    requires Unescaping(buf[..], p, q, s, done, rest) && rest != "" && rest[0] == '\\'
    modifies buf
    ensures ok ==> Unescaping(buf[..], p, q + 1, s, done', rest') && |rest'| < |rest|
    ensures !ok ==> Unescaped(s) == None
  {
    hide Unescaping, StringAt, SameUpTo;
    StillThere(buf[..], p, q, s, done, rest);
    MoveLeft(buf, q, rest);
    Dangling(old(buf[..]), buf[..], p, q, s, done, rest);
    ok, done', rest' := buf[q] != '\0', done, rest;
    if ok { done', rest' := Kept(old(buf[..]), buf[..], p, q, s, done, rest); }
  }

  lemma Opened(buf: seq<char>, p: nat, s: string)
    requires StringAt(buf, p, s)
    ensures Unescaping(buf, p, p, s, "", s)
  {
    hide Unescaped;
    if Unescaped(s).Some? { assert "" + Unescaped(s).value == Unescaped(s).value; }
  }

  /** The character at q is the first one that is still to be read; without a quote there is nothing to read. */
  lemma StillThere(buf: seq<char>, p: nat, q: nat, s: string, done: string, rest: string)
    requires Unescaping(buf, p, q, s, done, rest)
    ensures q < |buf| && StringAt(buf, q, rest)
    ensures if rest == "" then buf[q] == '\0' && Unescaped(s) == None else buf[q] == rest[0] != '\0'
  {
    if rest != "" { assert buf[q] == buf[q..q + |rest|][0]; }
  }

  /** A backslash at the end of the string. */
  lemma Dangling(before: seq<char>, after: seq<char>, p: nat, q: nat, s: string, done: string, rest: string)
    requires Unescaping(before, p, q, s, done, rest) && rest != "" && rest[0] == '\\'
    requires StringAt(after, q, rest[1..])
    ensures q < |after| && (after[q] == '\0' ==> Unescaped(s) == None)
  {
    if |rest| > 1 { assert after[q] == after[q..q + |rest| - 1][0]; }
  }

  lemma Skipped(buf: seq<char>, p: nat, n: nat, q: nat, s: string, done: string, rest: string, front: string,
                tail: string)
    requires Unescaping(buf, p, n, s, done, rest)
    requires StringAt(buf, q, tail) && Between(buf, n, q, front) && NoTerminator(front)
    requires Unescaped(rest) == PrependAll(front, Unescaped(tail))
    ensures Unescaping(buf, p, q, s, done + front, tail)
  {
    hide Unescaped, StringAt;
    assert buf[p..q] == buf[p..n] + buf[n..q];
    var after := Unescaped(tail);
    if after.Some? { Joined(done, front, after.value); }
  }

  lemma Closed(before: seq<char>, after: seq<char>, p: nat, q: nat, s: string, done: string, rest: string)
    requires Unescaping(before, p, q, s, done, rest) && rest != "" && rest[0] == '"' && q < |before|
    requires after == before[q := '\0']
    ensures Unescaped(s) == Some(done) && StringAt(after, p, done)
  {
    assert done + "" == done;
    assert after[p..q] == before[p..q];
  }

  lemma Kept(before: seq<char>, after: seq<char>, p: nat, q: nat, s: string, done: string, rest: string)
    returns (done': string, rest': string)
    requires Unescaping(before, p, q, s, done, rest) && rest != "" && rest[0] == '\\'
    requires StringAt(after, q, rest[1..]) && SameUpTo(before, after, q) && q < |after| && after[q] != '\0'
    ensures Unescaping(after, p, q + 1, s, done', rest') && |rest'| < |rest|
  {
    var t := rest[1..];
    assert after[q + |t|] == '\0';
    assert after[q..q + |t|] == t && after[q] == after[q..q + |t|][0];
    assert after[q + 1..q + 1 + |t[1..]|] == after[q..q + |t|][1..] == t[1..];
    assert t[1..] == rest[2..];
    assert after[p..q + 1] == after[..q][p..] + [after[q]] && after[..q][p..] == before[..q][p..] == before[p..q];
    var u := Unescaped(rest[2..]);
    if u.Some? { assert done + ([rest[1]] + u.value) == (done + [rest[1]]) + u.value; }
    done', rest' := done + [rest[1]], rest[2..];
  }

  // ----- lines

  datatype Kind = KBoolean | KTristate | KString

  /** A symbol with its value, as it is saved. */
  datatype Entry = TriEntry(name: string, kind: Kind, tri: Tri) | StringEntry(name: string, text: string)

  function KindOf(e: Entry): Kind { if e.TriEntry? then e.kind else KString }

  /** `kconfig_print_symbol`. */
  function WriteEntry(e: Entry): string {
    match e
    case TriEntry(name, _, t) =>
      if t == NO then "# " + PREFIX + name + " is not set\n"
      else PREFIX + name + "=" + (if t == MOD then "m" else "y") + "\n"
    case StringEntry(name, text) => PREFIX + name + "=" + Escaped(text) + "\n"
  }

  /** What a line says: that a symbol is not set, or that it has a value. */
  datatype Setting = NotSet(name: string) | Set(name: string, value: string) | Nothing

  /** `strchr`. */
  function Find(s: string, c: char): (r: Option<nat>)
    ensures r.Some? ==> r.value < |s| && s[r.value] == c && c !in s[..r.value]
    ensures r.None? <==> c !in s
  {
    if s == "" then None
    else if s[0] == c then Some(0)
    else
      var r := Find(s[1..], c);
      if r.Some? then
        assert s[..r.value + 1] == [s[0]] + s[1..][..r.value];
        Some(r.value + 1)
      else None
  }

  /** The end of a line is cut off, and a carriage return in front of it. */
  function Chomp(s: string): string {
    var end := Find(s, '\n');
    if end.None? then s
    else if end.value > 0 && s[end.value - 1] == '\r' then s[..end.value - 1]
    else s[..end.value]
  }

  /** The line parser of `conf_read_simple`. */
  function ReadLine(line: string): Setting {
    if line != "" && line[0] == '#' then
      if |line| < 2 || !(PREFIX <= line[2..]) then Nothing
      else
        var rest := line[2 + |PREFIX|..];
        var space := Find(rest, ' ');
        if space.Some? && "is not set" <= rest[space.value + 1..] then NotSet(rest[..space.value]) else Nothing
    else if PREFIX <= line then
      var rest := line[|PREFIX|..];
      var equals := Find(rest, '=');
      if equals.None? then Nothing else Set(rest[..equals.value], Chomp(rest[equals.value + 1..]))
    else Nothing
  }

  /** `conf_set_sym_val` for a symbol of the given kind, and the handling of "is not set". */
  function Assign(kind: Kind, s: Setting): Option<Entry> {
    match s
    case Nothing => None
    case NotSet(name) => if kind.KString? then None else Some(TriEntry(name, kind, NO))
    case Set(name, value) =>
      if kind.KString? then
        if value == "" || value[0] != '"' then None
        else
          var text := Unescaped(value[1..]);
          if text.Some? then Some(StringEntry(name, text.value)) else None
      else if value == "" then None
      else if value[0] == 'm' && kind.KTristate? then Some(TriEntry(name, kind, MOD))
      else if value[0] == 'y' then Some(TriEntry(name, kind, YES))
      else if value[0] == 'n' then Some(TriEntry(name, kind, NO))
      else None
  }

  /** Entries that can be told apart again: the name has no separator, and a string stays on its line. */
  predicate Writable(e: Entry) {
    && '\n' !in e.name
    && (e.TriEntry? ==> !e.kind.KString? && (e.tri == MOD ==> e.kind.KTristate?))
    && (e.TriEntry? && e.tri == NO ==> ' ' !in e.name)
    && (!(e.TriEntry? && e.tri == NO) ==> '=' !in e.name)
    && (e.StringEntry? ==> '\n' !in e.text)
  }

  lemma {:induction false} FindFirst(a: string, c: char, b: string)
    requires c !in a
    ensures Find(a + [c] + b, c) == Some(|a|)
  {
    if a != "" {
      FindFirst(a[1..], c, b);
      assert (a + [c] + b)[1..] == a[1..] + [c] + b;
    }
  }

  lemma {:induction false} EscapeKeeps(v: string, c: char)
    requires c !in v && c != '\\'
    ensures c !in EscapeBody(v)
  {
    if v != "" { EscapeKeeps(v[1..], c); }
  }

  lemma ChompLine(value: string)
    requires '\n' !in value && (value != "" ==> value[|value| - 1] != '\r')
    ensures Chomp(value + "\n") == value
  {
    hide Find;
    FindFirst(value, '\n', "");
    assert value + "\n" + "" == value + "\n" && (value + "\n")[..|value|] == value;
  }

  lemma Regroup(a: string, b: string, c: string)
    ensures a + b + c == a + (b + c)
  {
  }

  lemma Halves(a: string, b: string)
    ensures (a + b)[..|a|] == a && (a + b)[|a|..] == b
  {
  }

  lemma AssignLine(name: string, value: string)
    requires '=' !in name && '\n' !in value && (value != "" ==> value[|value| - 1] != '\r')
    ensures ReadLine(PREFIX + name + "=" + value + "\n") == Set(name, value)
  {
    hide Find, Chomp;
    var line := PREFIX + name + "=" + value + "\n";
    var rest := name + "=" + (value + "\n");
    Regroup(PREFIX, name, "=");
    Regroup(PREFIX, name + "=", value);
    Regroup(PREFIX, name + "=" + value, "\n");
    Regroup(name + "=", value, "\n");
    Halves(PREFIX, rest);
    FindFirst(name, '=', value + "\n");
    assert rest[..|name|] == name && rest[|name| + 1..] == value + "\n";
    ChompLine(value);
  }

  lemma NotSetLine(name: string)
    requires ' ' !in name
    ensures ReadLine("# " + PREFIX + name + " is not set\n") == NotSet(name)
  {
    hide ReadLine;
    NotSetTail();
    NotSetText("# ", PREFIX, name, " is not set\n", "is not set\n");
    ReadNotSet("# ", name, "is not set\n");
  }

  lemma NotSetTail()
    ensures " is not set\n" == [' '] + "is not set\n" && "is not set" <= "is not set\n"
  {
  }

  lemma NotSetText(hash: string, prefix: string, name: string, end: string, tail: string)
    requires end == [' '] + tail
    ensures hash + prefix + name + end == hash + (prefix + (name + ([' '] + tail)))
  {
    Regroup(hash, prefix, name);
    Regroup(hash, prefix + name, end);
    Regroup(prefix, name, end);
  }

  lemma ReadNotSet(hash: string, name: string, tail: string)
    requires |hash| == 2 && hash[0] == '#' && ' ' !in name && "is not set" <= tail
    ensures ReadLine(hash + (PREFIX + (name + ([' '] + tail)))) == NotSet(name)
  {
    hide Find;
    var rest := name + ([' '] + tail);
    Halves(hash, PREFIX + rest);
    Halves(PREFIX, rest);
    assert (hash + (PREFIX + rest))[2 + |PREFIX|..] == (PREFIX + rest)[|PREFIX|..];
    Regroup(name, [' '], tail);
    FindFirst(name, ' ', tail);
    Halves(name, [' '] + tail);
    Halves([' '], tail);
    assert rest[|name| + 1..] == tail;
  }

  /** Every saved line gives back the value that was saved. */
  lemma LineRoundTrip(e: Entry)
    requires Writable(e)
    ensures Assign(KindOf(e), ReadLine(WriteEntry(e))) == Some(e)
  {
    hide ReadLine, Unescaped, EscapeBody;
    match e
    case TriEntry(name, kind, t) =>
      if t == NO { NotSetLine(name); } else { AssignLine(name, if t == MOD then "m" else "y"); }
    case StringEntry(name, text) =>
      var value := Escaped(text);
      EscapeKeeps(text, '\n');
      assert value[|value| - 1] == '"' && '\n' !in value;
      AssignLine(name, value);
      UnescapeEscape(text, "");
      assert value[1..] == EscapeBody(text) + "\"" + "";
  }

  lemma EscapeExample()
    ensures EscapeBody("a\"b\\c") == "a\\\"b\\\\c"
  {
    var v := "a\"b\\c";
    assert v[1..][1..] == v[2..] && v[2..][1..] == v[3..] && v[3..][1..] == v[4..] && v[4..][1..] == "";
    assert EscapeBody(v[4..]) == "c" && EscapeBody(v[3..]) == "\\\\c" && EscapeBody(v[2..]) == "b\\\\c";
    assert EscapeBody(v[1..]) == "\\\"b\\\\c";
  }

  lemma ValueFormat(name: string, value: string)
    ensures PREFIX + name + "=" + value + "\n" == "CONFIG_" + name + "=" + (value + "\n")
  {
    Regroup("CONFIG_" + name + "=", value, "\n");
  }

  /** How lines look. */
  lemma LineFormats(name: string, kind: Kind)
    ensures WriteEntry(TriEntry(name, kind, MOD)) == "CONFIG_" + name + "=" + "m\n"
    ensures WriteEntry(TriEntry(name, kind, YES)) == "CONFIG_" + name + "=" + "y\n"
    ensures WriteEntry(TriEntry(name, kind, NO)) == "# CONFIG_" + name + " is not set\n"
    ensures WriteEntry(StringEntry(name, "a\"b\\c")) == "CONFIG_" + name + "=" + "\"a\\\"b\\\\c\"\n"
  {
    hide EscapeBody;
    ValueFormat(name, "m");
    ValueFormat(name, "y");
    EscapeExample();
    ValueFormat(name, "\"a\\\"b\\\\c\"");
    assert "m" + "\n" == "m\n" && "y" + "\n" == "y\n" && "# " + PREFIX == "# CONFIG_";
    QuotedExample();
  }

  lemma QuotedExample()
    ensures Escaped("a\"b\\c") == "\"a\\\"b\\\\c\"" && "\"a\\\"b\\\\c\"" + "\n" == "\"a\\\"b\\\\c\"\n"
  {
    hide EscapeBody;
    EscapeExample();
  }

  /** Lines that the writer does not write: one that ends in a carriage return as well, or holds n, is read all the
      same; what neither starts like a value nor like a comment is passed over. */
  lemma ForeignLines(name: string, value: string, line: string)
    requires '=' !in name && '\n' !in value
    ensures ReadLine(PREFIX + name + "=" + value + "\r\n") == Set(name, value)
    ensures line != "" && line[0] != '#' && !(PREFIX <= line) ==> ReadLine(line) == Nothing
    ensures |line| > 1 && line[0] == '#' && !(PREFIX <= line[2..]) ==> ReadLine(line) == Nothing
  {
    hide Find, Chomp;
    var all := PREFIX + name + "=" + value + "\r\n";
    var rest := name + "=" + (value + "\r\n");
    Regroup(PREFIX, name, "=");
    Regroup(PREFIX, name + "=", value);
    Regroup(PREFIX, name + "=" + value, "\r\n");
    Regroup(name + "=", value, "\r\n");
    Halves(PREFIX, rest);
    FindFirst(name, '=', value + "\r\n");
    assert rest[..|name|] == name && rest[|name| + 1..] == value + "\r\n";
    ChompReturn(value);
  }

  lemma ChompReturn(value: string)
    requires '\n' !in value
    ensures Chomp(value + "\r\n") == value
  {
    hide Find;
    var v := value + "\r";
    FindFirst(v, '\n', "");
    assert v + "\n" + "" == value + "\r\n" && (value + "\r\n")[..|value|] == value;
  }

  /** Only the first character of a value counts for a bool or tristate, m is none for a bool, and "is not set" none
      for a string; in a quoted string a backslash stands for the character behind it, whichever that is. */
  lemma ForeignValues(name: string, kind: Kind, value: string)
    ensures !kind.KString? && value != "" && value[0] == 'y' ==>
              Assign(kind, Set(name, value)) == Some(TriEntry(name, kind, YES))
    ensures !kind.KString? && value != "" && value[0] == 'n' ==>
              Assign(kind, Set(name, value)) == Some(TriEntry(name, kind, NO))
    ensures value != "" && value[0] == 'm' ==>
              (Assign(KTristate, Set(name, value)) == Some(TriEntry(name, KTristate, MOD)) &&
               Assign(KBoolean, Set(name, value)) == None)
    ensures !kind.KString? && (value == "" || value[0] !in "nmy") ==> Assign(kind, Set(name, value)) == None
    ensures !kind.KString? ==> Assign(kind, NotSet(name)) == Some(TriEntry(name, kind, NO))
    ensures Assign(KString, NotSet(name)) == None
    ensures value == "" || value[0] != '"' ==> Assign(KString, Set(name, value)) == None
    ensures Assign(KString, Set(name, "\"\\n\"" + value)) == Some(StringEntry(name, "n"))
    ensures '"' !in value && '\\' !in value ==> Assign(KString, Set(name, "\"" + value)) == None
  {
    var quoted := "\"\\n\"" + value;
    var q := quoted[1..];
    assert q[0] == '\\' && q[1] == 'n' && q[2..] == "\"" + value;
    assert Unescaped(q[2..]) == Some("") && Unescaped(q) == Prepend(q[1], Unescaped(q[2..]));
    assert [q[1]] + "" == "n";
    if '"' !in value && '\\' !in value {
      assert ("\"" + value)[1..] == value;
      Unclosed(value);
    }
  }

  lemma {:induction false} Unclosed(s: string)
    requires '"' !in s && '\\' !in s
    ensures Unescaped(s) == None
  {
    if s != "" { Unclosed(s[1..]); }
  }

  // ----- whole files

  function WriteAll(entries: seq<Entry>): string {
    if entries == [] then "" else WriteEntry(entries[0]) + WriteAll(entries[1..])
  }

  /** `compat_getline`: the lines of a file, each with its newline. */
  function Lines(file: string): seq<string>
    decreases |file|
  {
    if file == "" then []
    else
      var end := Find(file, '\n');
      if end.None? then [file] else [file[..end.value + 1]] + Lines(file[end.value + 1..])
  }

  lemma LinesStep(body: string, rest: string)
    requires '\n' !in body
    ensures Lines(body + "\n" + rest) == [body + "\n"] + Lines(rest)
  {
    var file := body + "\n" + rest;
    FindFirst(body, '\n', rest);
    assert file[..|body| + 1] == body + "\n" && file[|body| + 1..] == rest;
  }

  /** A line ends where the next one begins. */
  lemma EntryBody(e: Entry) returns (body: string)
    requires Writable(e)
    ensures WriteEntry(e) == body + "\n" && '\n' !in body
  {
    match e
    case TriEntry(name, _, t) =>
      body := if t == NO then "# " + PREFIX + name + " is not set"
              else PREFIX + name + "=" + (if t == MOD then "m" else "y");
    case StringEntry(name, text) =>
      EscapeKeeps(text, '\n');
      body := PREFIX + name + "=" + Escaped(text);
  }

  /** The loop of `conf_read_simple`: every line is given to the symbol of that name, if there is one, and a later line
      overrides an earlier one. `kinds` are the symbols that are known. */
  function Load(kinds: map<string, Kind>, lines: seq<string>): map<string, Entry> {
    if lines == [] then map[]
    else
      var n := |lines| - 1;
      var before, s := Load(kinds, lines[..n]), ReadLine(lines[n]);
      if s.Nothing? || s.name !in kinds then before
      else
        var e := Assign(kinds[s.name], s);
        if e.Some? then before[s.name := e.value] else before
  }

  /** Every entry is of a known symbol and of its kind. */
  predicate Known(kinds: map<string, Kind>, entries: seq<Entry>) {
    forall i :: 0 <= i < |entries| ==>
      Writable(entries[i]) && entries[i].name in kinds && kinds[entries[i].name] == KindOf(entries[i])
  }

  /** The last entry of each name. */
  function Latest(entries: seq<Entry>): map<string, Entry> {
    if entries == [] then map[]
    else Latest(entries[..|entries| - 1])[entries[|entries| - 1].name := entries[|entries| - 1]]
  }

  /** The lines of a saved file are the entries'. */
  lemma NoLines()
    ensures Lines("") == []
  {
  }

  lemma {:induction false} SavedLines(entries: seq<Entry>)
    requires forall i :: 0 <= i < |entries| ==> Writable(entries[i])
    ensures Lines(WriteAll(entries)) == seq(|entries|, i requires 0 <= i < |entries| => WriteEntry(entries[i]))
  {
    hide Lines, WriteEntry;
    if entries == [] {
      assert Lines("") == [] by { NoLines(); }
    } else {
      SavedLines(entries[1..]);
      var body := EntryBody(entries[0]);
      LinesStep(body, WriteAll(entries[1..]));
      assert WriteAll(entries) == body + "\n" + WriteAll(entries[1..]);
    }
  }

  /** Reading a saved file, looking every symbol up by the name that was read, gives each name the value it was last
      saved with. */
  lemma FileRoundTrip(kinds: map<string, Kind>, entries: seq<Entry>)
    requires Known(kinds, entries)
    ensures Load(kinds, Lines(WriteAll(entries))) == Latest(entries)
  {
    SavedLines(entries);
    LoadWritten(kinds, entries);
  }

  lemma {:induction false} LoadWritten(kinds: map<string, Kind>, entries: seq<Entry>)
    requires Known(kinds, entries)
    ensures Load(kinds, seq(|entries|, i requires 0 <= i < |entries| => WriteEntry(entries[i]))) == Latest(entries)
  {
    hide WriteEntry, ReadLine, Assign;
    if entries != [] {
      var n := |entries| - 1;
      var e, before := entries[n], entries[..n];
      var lines := seq(|entries|, i requires 0 <= i < |entries| => WriteEntry(entries[i]));
      LoadWritten(kinds, before);
      assert lines[..n] == seq(|before|, i requires 0 <= i < |before| => WriteEntry(before[i]));
      LineRoundTrip(e);
      SameName(KindOf(e), ReadLine(WriteEntry(e)), e);
    }
  }

  /** The entry that is assigned has the name that was read. */
  lemma SameName(kind: Kind, s: Setting, e: Entry)
    requires Assign(kind, s) == Some(e)
    ensures !s.Nothing? && s.name == e.name
  {
  }

  /** With one entry for each name nothing is overridden. */
  lemma {:induction false} LatestAll(entries: seq<Entry>, i: nat)
    requires i < |entries| && forall j, k :: 0 <= j < k < |entries| ==> entries[j].name != entries[k].name
    ensures entries[i].name in Latest(entries) && Latest(entries)[entries[i].name] == entries[i]
  {
    if i < |entries| - 1 { LatestAll(entries[..|entries| - 1], i); }
  }
}
