/** The macro language of Kconfig: `$(name)`, `$(name,arg,...)`, recursive and simple variables, and the counters that
    make every expansion terminate. */
module Preprocess {
  import opened Tristate
  import Expressions

  datatype Error =
    | Unterminated
    | TooManyArguments
    | RecursiveVariable(name: string)
    | TooDeep
    | TooFew(function_: string)
    | TooMany(function_: string)
    | Raised(message: string)

  datatype Result = Ok(text: string) | Err(error: Error)

  /** The expansion of the start of a string, and what is left of the string. */
  datatype Outcome = Done(text: string, rest: string) | Failed(error: Error)

  datatype Variable = Variable(name: string, value: string, recursive: bool)

  /** What an expansion looks at but does not change. */
  datatype World = World(
    variables: seq<Variable>,
    environment: map<string, string>,
    shell: string -> string,
    file: string,
    line: string)

  // ----- parentheses and commas

  function Nesting(c: char): int { if c == '(' then 1 else if c == ')' then -1 else 0 }

  /** Where the parenthesis closes that was opened before `s`, with `nest` more open ones. */
  function Close(s: string, nest: nat): (r: Option<nat>)
    ensures r.Some? ==> r.value < |s| && s[r.value] == ')'
  {
    if s == "" then None
    else if s[0] == ')' && nest == 0 then Some(0)
    else
      var rest := Close(s[1..], nest + Nesting(s[0]));
      if rest.Some? then Some(rest.value + 1) else None
  }

  /** Open parentheses minus closing ones among the first k characters. */
  function Depth(s: string, k: nat): int {
    if s == "" || k == 0 then 0 else Nesting(s[0]) + Depth(s[1..], k - 1)
  }

  /** The closing parenthesis is the first one at which the depth drops below that of the opening one. */
  lemma {:induction false} CloseMeaning(s: string, nest: nat, j: nat)
    requires j < |s|
    ensures Close(s, nest) == Some(j) <==>
            nest + Depth(s, j + 1) < 0 && forall k :: 0 <= k <= j ==> nest + Depth(s, k) >= 0
  {
    var rest := nest + Nesting(s[0]);
    forall k | 0 < k <= j + 1 ensures nest + Depth(s, k) == rest + Depth(s[1..], k - 1) {
    }
    if rest < 0 {
      assert nest + Depth(s, 1) < 0;
    } else if j == 0 {
      assert nest + Depth(s, 1) >= 0;
    } else {
      CloseMeaning(s[1..], rest, j - 1);
      assert nest + Depth(s, j + 1) == rest + Depth(s[1..], j - 1 + 1);
      if Close(s, nest) == Some(j) {
        forall k | 0 <= k <= j ensures nest + Depth(s, k) >= 0 {
          assert k > 0 ==> rest + Depth(s[1..], k - 1) >= 0;
        }
      } else {
        var k :| rest + Depth(s[1..], j) >= 0 || (0 <= k <= j - 1 && rest + Depth(s[1..], k) < 0);
        assert 0 <= k <= j - 1 ==> nest + Depth(s, k + 1) == rest + Depth(s[1..], k);
      }
    }
  }

  /** More text after the closing parenthesis does not matter. */
  lemma {:induction false} CloseAppend(s: string, t: string, nest: nat)
    requires Close(s, nest).Some?
    ensures Close(s + t, nest) == Close(s, nest)
  {
    assert (s + t)[0] == s[0] && (s + t)[1..] == s[1..] + t;
    if !(s[0] == ')' && nest == 0) {
      CloseAppend(s[1..], t, nest + Nesting(s[0]));
    }
  }

  /** The parts of a clause between the commas that are not inside parentheses. */
  function Split(s: string, nest: int, part: string): (parts: seq<string>)
    ensures |parts| > 0 && forall i :: 0 <= i < |parts| ==> |parts[i]| <= |part| + |s|
  {
    if s == "" then [part]
    else if s[0] == ',' && nest == 0 then [part] + Split(s[1..], nest, "")
    else Split(s[1..], nest + Nesting(s[0]), part + [s[0]])
  }

  function Join(parts: seq<string>): string
    requires |parts| > 0
  {
    if |parts| == 1 then parts[0] else parts[0] + [','] + Join(parts[1..])
  }

  /** No character of a clause gets lost. */
  lemma {:induction false} JoinSplit(s: string, nest: int, part: string)
    ensures Join(Split(s, nest, part)) == part + s
    decreases |s|
  {
    if s == "" {
      assert part + s == part;
    } else if s[0] == ',' && nest == 0 {
      JoinSplit(s[1..], nest, "");
      assert part + [','] + ("" + s[1..]) == part + s;
    } else {
      JoinSplit(s[1..], nest + Nesting(s[0]), part + [s[0]]);
      assert (part + [s[0]]) + s[1..] == part + s;
    }
  }

  /** The commas of a clause that are not inside parentheses. */
  function TopCommas(s: string, nest: int): nat {
    if s == "" then 0
    else if s[0] == ',' && nest == 0 then 1 + TopCommas(s[1..], nest)
    else TopCommas(s[1..], nest + Nesting(s[0]))
  }

  /** A clause has one part more than it has such commas. So the array of sixteen arguments is full at fifteen commas;
      sixteen still pass the check inside the loop, and seventeen are an error. */
  lemma {:induction false} SplitCount(s: string, nest: int, part: string)
    ensures |Split(s, nest, part)| == 1 + TopCommas(s, nest)
    decreases |s|
  {
    if s != "" {
      if s[0] == ',' && nest == 0 {
        SplitCount(s[1..], nest, "");
      } else {
        SplitCount(s[1..], nest + Nesting(s[0]), part + [s[0]]);
      }
    }
  }

  // ----- numbers

  const ULONG_MAX := 0xFFFF_FFFF_FFFF_FFFF

  predicate IsDigit(c: char) { '0' <= c <= '9' }

  function Digits(s: string): nat
    requires forall i :: 0 <= i < |s| ==> IsDigit(s[i])
  {
    if s == "" then 0
    else
      assert IsDigit(s[|s| - 1]);
      10 * Digits(s[..|s| - 1]) + (s[|s| - 1] as int - '0' as int)
  }

  predicate AllDigits(s: string) { forall i :: 0 <= i < |s| ==> IsDigit(s[i]) }

  /** `strtoul` on a whole string: the number, if nothing is left over. */
  function WholeNumber(s: string): Option<nat> {
    var t := Expressions.SkipSpace(s);
    var negative := t != "" && t[0] == '-';
    var u := if t != "" && (t[0] == '-' || t[0] == '+') then t[1..] else t;
    if s == "" then Some(0)
    else if u == "" || !AllDigits(u) then None
    else if Digits(u) > ULONG_MAX then Some(ULONG_MAX)
    else if negative && Digits(u) > 0 then Some(ULONG_MAX + 1 - Digits(u))
    else Some(Digits(u))
  }

  // ----- built-in functions

  /** `function_expand`: None means that there is no value, and the search goes on. */
  function Builtin(w: World, name: string, args: seq<string>): Option<Result> {
    if name == "error-if" then
      Arity(name, 2, args, if |args| == 2 && args[0] == "y" then Some(Err(Raised(args[1]))) else None)
    else if name == "filename" then Arity(name, 0, args, Some(Ok(w.file)))
    else if name == "info" then Arity(name, 1, args, Some(Ok("")))
    else if name == "lineno" then Arity(name, 0, args, Some(Ok(w.line)))
    else if name == "shell" then Arity(name, 1, args, if |args| == 1 then Some(Ok(w.shell(args[0]))) else None)
    else if name == "warning-if" then Arity(name, 2, args, Some(Ok("")))
    else None
  }

  function Arity(name: string, count: nat, args: seq<string>, value: Option<Result>): Option<Result> {
    if |args| < count then Some(Err(TooFew(name)))
    else if |args| > count then Some(Err(TooMany(name)))
    else value
  }

  // ----- variables and the counters of their active expansions

  /** The first variable of that name, from the k-th on. */
  function Lookup(variables: seq<Variable>, name: string, k: nat): (r: Option<nat>)
    requires k <= |variables|
    ensures r.Some? ==> r.value < |variables| && variables[r.value].name == name
    decreases |variables| - k
  {
    if k == |variables| then None
    else if variables[k].name == name then Some(k)
    else Lookup(variables, name, k + 1)
  }

  /** What the counters leave for further expansions. */
  function Budget(counts: seq<nat>): nat {
    if counts == [] then 0
    else (if counts[0] <= 1000 then 1001 - counts[0] else 0) + Budget(counts[1..])
  }

  lemma {:induction false} BudgetFalls(counts: seq<nat>, i: nat)
    requires i < |counts| && counts[i] <= 1000
    ensures Budget(counts[i := counts[i] + 1]) < Budget(counts)
  {
    if i == 0 {
      assert counts[0 := counts[0] + 1][1..] == counts[1..];
    } else {
      BudgetFalls(counts[1..], i - 1);
      assert counts[i := counts[i] + 1][1..] == counts[1..][i - 1 := counts[i] + 1];
    }
  }

  // ----- what an expansion is

  predicate IsTokenChar(c: char) {
    'a' <= c <= 'z' || 'A' <= c <= 'Z' || IsDigit(c) || c == '_' || c == '-' || c == '.' || c == '/'
  }

  /** A token ends at the first character that cannot be part of one, a string only at its end. */
  predicate IsEnd(token: bool, c: char) { token && !IsTokenChar(c) }

  function Before(text: string, o: Outcome): Outcome {
    match o
    case Done(t, rest) => Done(text + t, rest)
    case Failed(_) => o
  }

  /** The text in front of `s` and, after a reference, the expansion of the rest. */
  function Expand(w: World, counts: seq<nat>, token: bool, s: string, args: seq<string>): Outcome
    requires |counts| == |w.variables|
    decreases Budget(counts), |s|, 0, 0
  {
    if s == "" then Done("", "")
    else if s[0] == '$' then
      if |s| == 1 || s[1] != '(' then Before("$", Expand(w, counts, token, s[1..], args))
      else
        var close := Close(s[2..], 0);
        if close.None? then Failed(Unterminated)
        else
          match Eval(w, counts, s[2..2 + close.value], args)
          case Err(e) => Failed(e)
          case Ok(text) => Before(text, Expand(w, counts, token, s[3 + close.value..], args))
    else if IsEnd(token, s[0]) then Done("", s)
    else Before([s[0]], Expand(w, counts, token, s[1..], args))
  }

  function ExpandString(w: World, counts: seq<nat>, s: string, args: seq<string>): Result
    requires |counts| == |w.variables|
    decreases Budget(counts), |s|, 0, 1
  {
    match Expand(w, counts, false, s, args)
    case Done(text, _) => Ok(text)
    case Failed(e) => Err(e)
  }

  datatype Texts = Texts(texts: seq<string>) | NoTexts(error: Error)

  /** The parts of a clause, expanded one after the other. */
  function ExpandAll(w: World, counts: seq<nat>, parts: seq<string>, args: seq<string>, limit: nat): (r: Texts)
    requires |counts| == |w.variables| && forall i :: 0 <= i < |parts| ==> |parts[i]| <= limit
    ensures r.Texts? ==> |r.texts| == |parts|
    decreases Budget(counts), limit, 1, |parts|
  {
    if parts == [] then Texts([])
    else
      var n := |parts| - 1;
      match ExpandAll(w, counts, parts[..n], args, limit)
      case NoTexts(e) => NoTexts(e)
      case Texts(before) =>
        match ExpandString(w, counts, parts[n], args)
        case Err(e) => NoTexts(e)
        case Ok(text) => Texts(before + [text])
  }

  /** `eval_clause`: the text between the parentheses of a reference. */
  function Eval(w: World, counts: seq<nat>, clause: string, args: seq<string>): Result
    requires |counts| == |w.variables|
    decreases Budget(counts), |clause|, 2, 0
  {
    var n := WholeNumber(clause);
    if n.Some? && 0 < n.value <= |args| then Ok(args[n.value - 1])
    else
      var parts := Split(clause, 0, "");
      if |parts| > 17 then Err(TooManyArguments)
      else
        match ExpandAll(w, counts, parts, args, |clause|)
        case NoTexts(e) => Err(e)
        case Texts(texts) => Call(w, counts, texts[0], texts[1..], |clause|)
  }

  /** A variable, or else a built-in function, or else an environment variable. */
  function Call(w: World, counts: seq<nat>, name: string, args: seq<string>, limit: nat): Result
    requires |counts| == |w.variables|
    decreases Budget(counts), limit, 1, 0
  {
    var v := Lookup(w.variables, name, 0);
    if v.Some? then ExpandVariable(w, counts, v.value, args, limit)
    else
      var b := Builtin(w, name, args);
      if b.Some? then b.value
      else if args == [] && name != "" && name in w.environment then Ok(w.environment[name])
      else Ok("")
  }

  /** `variable_expand`. */
  function ExpandVariable(w: World, counts: seq<nat>, i: nat, args: seq<string>, limit: nat): Result
    requires |counts| == |w.variables| && i < |counts|
    decreases Budget(counts), limit, 0, 2
  {
    if args == [] && counts[i] > 0 then Err(RecursiveVariable(w.variables[i].name))
    else if counts[i] > 1000 then Err(TooDeep)
    else if w.variables[i].recursive then
      BudgetFalls(counts, i);
      ExpandString(w, counts[i := counts[i] + 1], w.variables[i].value, args)
    else Ok(w.variables[i].value)
  }

  // ----- laws of expansion

  lemma BeforeBefore(a: string, b: string, o: Outcome)
    ensures Before(a, Before(b, o)) == Before(a + b, o) && Before("", o) == o
  {
    if o.Done? {
      assert a + (b + o.text) == (a + b) + o.text;
      assert "" + o.text == o.text;
    }
  }

  /** Text without a dollar sign stands for itself. */
  lemma {:induction false} PlainText(w: World, counts: seq<nat>, s: string, args: seq<string>)
    requires |counts| == |w.variables| && '$' !in s
    ensures Expand(w, counts, false, s, args) == Done(s, "")
    decreases |s|
  {
    if s != "" {
      PlainText(w, counts, s[1..], args);
      assert [s[0]] + s[1..] == s;
    }
  }

  /** No reference of `s` is cut off at its end. */
  predicate Complete(s: string)
    decreases |s|
  {
    if s == "" then true
    else if s[0] != '$' then Complete(s[1..])
    else if |s| == 1 then false
    else if s[1] != '(' then Complete(s[1..])
    else var close := Close(s[2..], 0); close.Some? && Complete(s[3 + close.value..])
  }

  /** A reference, and what follows it. */
  function Follow(r: Result, after: Outcome): Outcome {
    match r
    case Err(e) => Failed(e)
    case Ok(text) => Before(text, after)
  }

  predicate StartsReference(s: string) { |s| > 1 && s[0] == '$' && s[1] == '(' }

  lemma ExpandReference(w: World, counts: seq<nat>, s: string, j: nat, args: seq<string>)
    requires |counts| == |w.variables| && StartsReference(s) && Close(s[2..], 0) == Some(j)
    ensures Expand(w, counts, false, s, args) ==
            Follow(Eval(w, counts, s[2..2 + j], args), Expand(w, counts, false, s[3 + j..], args))
  {
    hide Eval, Close;
  }

  lemma ExpandText(w: World, counts: seq<nat>, s: string, args: seq<string>)
    requires |counts| == |w.variables| && s != "" && !StartsReference(s)
    ensures Expand(w, counts, false, s, args) == Before([s[0]], Expand(w, counts, false, s[1..], args))
  {
  }

  /** The expansion of what comes next. */
  function Then(o: Outcome, after: Outcome): Outcome { if o.Done? then Before(o.text, after) else o }

  lemma ThenBefore(text: string, o: Outcome, after: Outcome)
    ensures Then(Before(text, o), after) == Before(text, Then(o, after))
  {
    if o.Done? { BeforeBefore(text, o.text, after); }
  }

  /** More text behind a reference leaves it what it is. */
  lemma ReferenceAppend(s: string, t: string, j: nat)
    requires StartsReference(s) && Close(s[2..], 0) == Some(j)
    ensures StartsReference(s + t) && Close((s + t)[2..], 0) == Some(j)
    ensures (s + t)[2..2 + j] == s[2..2 + j] && (s + t)[3 + j..] == s[3 + j..] + t
  {
    hide Close;
    CloseAppend(s[2..], t, 0);
    assert (s + t)[2..] == s[2..] + t;
  }

  /** Expansion works piece by piece. */
  lemma {:induction false} ExpandAppend(w: World, counts: seq<nat>, s: string, t: string, args: seq<string>)
    requires |counts| == |w.variables| && Complete(s)
    ensures Expand(w, counts, false, s + t, args) ==
            Then(Expand(w, counts, false, s, args), Expand(w, counts, false, t, args))
    decreases |s|
  {
    hide Expand, Eval, Close;
    var after := Expand(w, counts, false, t, args);
    if s == "" {
      assert s + t == t;
      ExpandEmpty(w, counts, args);
      BeforeBefore("", "", after);
    } else if StartsReference(s) {
      var j := Close(s[2..], 0).value;
      ReferenceAppend(s, t, j);
      ExpandReference(w, counts, s, j, args);
      ExpandReference(w, counts, s + t, j, args);
      ExpandAppend(w, counts, s[3 + j..], t, args);
      var r := Eval(w, counts, s[2..2 + j], args);
      if r.Ok? { ThenBefore(r.text, Expand(w, counts, false, s[3 + j..], args), after); }
    } else {
      assert (s + t)[1..] == s[1..] + t && (s + t)[0] == s[0];
      ExpandText(w, counts, s, args);
      ExpandText(w, counts, s + t, args);
      ExpandAppend(w, counts, s[1..], t, args);
      ThenBefore([s[0]], Expand(w, counts, false, s[1..], args), after);
    }
  }

  lemma ExpandEmpty(w: World, counts: seq<nat>, args: seq<string>)
    requires |counts| == |w.variables|
    ensures Expand(w, counts, false, "", args) == Done("", "")
  {
  }

  /** At most as many active expansions of every variable. */
  predicate AtMost(c: seq<nat>, d: seq<nat>) { |c| == |d| && forall i :: 0 <= i < |c| ==> c[i] <= d[i] }

  /** The counters only guard: an expansion that succeeds while others are active has the value it has on its own. */
  lemma {:induction false} CountersOnlyGuard(w: World, c: seq<nat>, d: seq<nat>, token: bool, s: string,
                                             args: seq<string>)
    requires |d| == |w.variables| && AtMost(c, d) && Expand(w, d, token, s, args).Done?
    ensures Expand(w, c, token, s, args) == Expand(w, d, token, s, args)
    decreases Budget(d), |s|, 0, 0
  {
    if s != "" {
      if s[0] == '$' && |s| > 1 && s[1] == '(' {
        var close := Close(s[2..], 0);
        EvalOnlyGuard(w, c, d, s[2..2 + close.value], args);
        CountersOnlyGuard(w, c, d, token, s[3 + close.value..], args);
      } else if s[0] == '$' || !IsEnd(token, s[0]) {
        CountersOnlyGuard(w, c, d, token, s[1..], args);
      }
    }
  }

  lemma {:induction false} AllOnlyGuard(w: World, c: seq<nat>, d: seq<nat>, parts: seq<string>, args: seq<string>,
                                        limit: nat)
    requires |d| == |w.variables| && AtMost(c, d) && forall i :: 0 <= i < |parts| ==> |parts[i]| <= limit
    requires ExpandAll(w, d, parts, args, limit).Texts?
    ensures ExpandAll(w, c, parts, args, limit) == ExpandAll(w, d, parts, args, limit)
    decreases Budget(d), limit, 1, |parts|
  {
    if parts != [] {
      var n := |parts| - 1;
      AllOnlyGuard(w, c, d, parts[..n], args, limit);
      CountersOnlyGuard(w, c, d, false, parts[n], args);
    }
  }

  lemma {:induction false} EvalOnlyGuard(w: World, c: seq<nat>, d: seq<nat>, clause: string, args: seq<string>)
    requires |d| == |w.variables| && AtMost(c, d) && Eval(w, d, clause, args).Ok?
    ensures Eval(w, c, clause, args) == Eval(w, d, clause, args)
    decreases Budget(d), |clause|, 2, 0
  {
    var n := WholeNumber(clause);
    if !(n.Some? && 0 < n.value <= |args|) {
      var parts := Split(clause, 0, "");
      AllOnlyGuard(w, c, d, parts, args, |clause|);
      var texts := ExpandAll(w, d, parts, args, |clause|).texts;
      var v := Lookup(w.variables, texts[0], 0);
      if v.Some? { VariableOnlyGuard(w, c, d, v.value, texts[1..], |clause|); }
    }
  }

  lemma {:induction false} VariableOnlyGuard(w: World, c: seq<nat>, d: seq<nat>, i: nat, args: seq<string>, limit: nat)
    requires |d| == |w.variables| && AtMost(c, d) && i < |d| && ExpandVariable(w, d, i, args, limit).Ok?
    ensures ExpandVariable(w, c, i, args, limit) == ExpandVariable(w, d, i, args, limit)
    decreases Budget(d), limit, 0, 2
  {
    if w.variables[i].recursive {
      BudgetFalls(d, i);
      CountersOnlyGuard(w, c[i := c[i] + 1], d[i := d[i] + 1], false, w.variables[i].value, args);
    }
  }

  // ----- a variable that refers to itself

  /** A name that stands for itself between parentheses. */
  predicate PlainName(name: string) {
    && (forall i :: 0 <= i < |name| ==> name[i] !in "$,()")
    && (WholeNumber(name).None? || WholeNumber(name).value == 0)
  }

  lemma {:induction false} PlainClose(name: string, t: string, nest: nat)
    requires forall i :: 0 <= i < |name| ==> name[i] !in "()"
    ensures Close(name + ")" + t, 0) == Some(|name|)
  {
    var s := name + ")" + t;
    if name != "" {
      PlainClose(name[1..], t, nest);
      assert s[1..] == name[1..] + ")" + t;
    }
  }

  lemma {:induction false} PlainSplit(name: string, part: string)
    requires forall i :: 0 <= i < |name| ==> name[i] !in "$,()"
    ensures Split(name, 0, part) == [part + name]
    decreases |name|
  {
    if name == "" {
      assert part + name == part;
    } else {
      PlainSplit(name[1..], part + [name[0]]);
      assert part + [name[0]] + name[1..] == part + name;
    }
  }

  /** A reference to a plain name calls it without arguments. */
  lemma PlainReference(w: World, counts: seq<nat>, name: string, args: seq<string>)
    requires |counts| == |w.variables| && PlainName(name)
    ensures Eval(w, counts, name, args) == Call(w, counts, name, [], |name|)
  {
    PlainSplit(name, "");
    assert "" + name == name;
    PlainText(w, counts, name, args);
    assert [name][..0] == [] && [name][1..] == [];
    assert ExpandAll(w, counts, [], args, |name|) == Texts([]);
    assert ExpandAll(w, counts, [name], args, |name|) == Texts([] + [name]);
    assert [] + [name] == [name];
  }

  /** A recursive variable that reaches a reference to itself cannot be expanded: the error names it. */
  lemma SelfReference(w: World, counts: seq<nat>, i: nat, s: string, t: string, limit: nat)
    requires |counts| == |w.variables| && i < |counts| && counts[i] == 0 && w.variables[i].recursive
    requires var name := w.variables[i].name;
             && PlainName(name) && Lookup(w.variables, name, 0) == Some(i)
             && Complete(s) && w.variables[i].value == s + ("$(" + name + ")" + t)
             && Expand(w, counts[i := 1], false, s, []).Done?
    ensures ExpandVariable(w, counts, i, [], limit) == Err(RecursiveVariable(w.variables[i].name))
  {
    hide Expand, Eval, Close, Complete, PlainName, Lookup, Budget;
    var name := w.variables[i].name;
    var active := counts[i := 1];
    var rest := "$(" + name + ")" + t;
    ReferenceFails(w, active, i, t);
    ExpandAppend(w, active, s, rest, []);
    BudgetFalls(counts, i);
    assert ExpandString(w, active, s + rest, []) == Err(RecursiveVariable(name));
  }

  lemma ReferenceFails(w: World, active: seq<nat>, i: nat, t: string)
    requires |active| == |w.variables| && i < |active| && active[i] > 0
    requires var name := w.variables[i].name; PlainName(name) && Lookup(w.variables, name, 0) == Some(i)
    ensures var name := w.variables[i].name;
            Expand(w, active, false, "$(" + name + ")" + t, []) == Failed(RecursiveVariable(name))
  {
    hide Expand, Eval, Close;
    var name := w.variables[i].name;
    var rest := "$(" + name + ")" + t;
    PlainClose(name, t, 0);
    assert rest[2..] == name + ")" + t && rest[2..2 + |name|] == name;
    PlainReference(w, active, name, []);
    ExpandReference(w, active, rest, |name|, []);
  }

  // ----- what a reference stands for

  /** A word that stands for itself as a name or an argument. */
  predicate PlainWord(s: string) { forall i :: 0 <= i < |s| ==> s[i] !in "$,()" }

  predicate PlainWords(words: seq<string>) { forall i :: 0 <= i < |words| ==> PlainWord(words[i]) }

  lemma {:induction false} WordAndRest(x: string, r: string, part: string)
    requires PlainWord(x)
    ensures Split(x + ([','] + r), 0, part) == [part + x] + Split(r, 0, "")
    decreases |x|
  {
    var s := x + ([','] + r);
    if x == "" {
      assert s[1..] == r && part + x == part;
    } else {
      WordAndRest(x[1..], r, part + [x[0]]);
      assert s[1..] == x[1..] + ([','] + r) && part + [x[0]] + x[1..] == part + x;
    }
  }

  /** Joining words with commas and splitting gives the words back. */
  lemma {:induction false} SplitJoin(words: seq<string>)
    requires PlainWords(words) && |words| > 0
    ensures Split(Join(words), 0, "") == words
    ensures forall i :: 0 <= i < |Join(words)| ==> Join(words)[i] !in "$()"
    ensures forall i :: 0 <= i < |words| ==> |words[i]| <= |Join(words)|
  {
    if |words| == 1 {
      PlainSplit(words[0], "");
      assert "" + words[0] == words[0];
    } else {
      SplitJoin(words[1..]);
      WordAndRest(words[0], Join(words[1..]), "");
      assert words[0] + [','] + Join(words[1..]) == words[0] + ([','] + Join(words[1..]));
      assert "" + words[0] == words[0] && words == [words[0]] + words[1..];
    }
  }

  /** A number followed by a comma is not a number. */
  lemma {:induction false} SkipSpaceKeeps(s: string, c: char)
    requires c in s && !Expressions.IsSpace(c)
    ensures c in Expressions.SkipSpace(s)
  {
    if Expressions.IsSpace(s[0]) { SkipSpaceKeeps(s[1..], c); }
  }

  lemma CommaIsNoNumber(s: string)
    requires ',' in s
    ensures WholeNumber(s) == None
  {
    SkipSpaceKeeps(s, ',');
    var t := Expressions.SkipSpace(s);
    var u := if t != "" && (t[0] == '-' || t[0] == '+') then t[1..] else t;
    assert ',' in u by {
      var i :| 0 <= i < |t| && t[i] == ',';
      if |u| < |t| { assert u[i - 1] == ','; }
    }
    var i :| 0 <= i < |u| && u[i] == ',';
    assert !IsDigit(u[i]);
  }

  /** The reference names an argument of the enclosing call. */
  predicate IsArgument(name: string, args: seq<string>) {
    WholeNumber(name).Some? && 0 < WholeNumber(name).value <= |args|
  }

  lemma BetweenParentheses(k: string, t: string)
    ensures var s := "$(" + k + ")" + t;
            StartsReference(s) && s[2..] == k + ")" + t && s[2..2 + |k|] == k && s[3 + |k|..] == t
  {
    var s := "$(" + k + ")" + t;
    assert s == ['$', '('] + (k + ")" + t);
  }

  /** The n-th argument is what `$(n)` stands for. */
  lemma ArgumentLaw(w: World, counts: seq<nat>, k: string, n: nat, t: string, args: seq<string>)
    requires |counts| == |w.variables| && forall i :: 0 <= i < |k| ==> k[i] !in "()"
    requires WholeNumber(k) == Some(n) && 0 < n <= |args|
    ensures Expand(w, counts, false, "$(" + k + ")" + t, args) ==
            Before(args[n - 1], Expand(w, counts, false, t, args))
  {
    hide Close, Expand, StartsReference, WholeNumber, Eval;
    PlainClose(k, t, 0);
    BetweenParentheses(k, t);
    ExpandReference(w, counts, "$(" + k + ")" + t, |k|, args);
    ArgumentTaken(w, counts, k, n, args);
  }

  lemma ArgumentTaken(w: World, counts: seq<nat>, k: string, n: nat, args: seq<string>)
    requires |counts| == |w.variables| && WholeNumber(k) == Some(n) && 0 < n <= |args|
    ensures Eval(w, counts, k, args) == Ok(args[n - 1])
  {
    hide WholeNumber, ExpandAll, Split;
  }

  /** The text between the parentheses of a reference: its parts expand to the words, with the arguments of the
      enclosing call, and it does not name one of these itself. */
  ghost predicate Clause(w: World, counts: seq<nat>, clause: string, words: seq<string>, args: seq<string>)
    requires |counts| == |w.variables|
  {
    var parts := Split(clause, 0, "");
    && Close(clause + ")", 0) == Some(|clause|) && !IsArgument(clause, args)
    && |words| == |parts| <= 17
    && forall i :: 0 <= i < |parts| ==> Expand(w, counts, false, parts[i], args) == Done(words[i], "")
  }

  lemma {:induction false} AllExpanded(w: World, counts: seq<nat>, parts: seq<string>, words: seq<string>,
                                       args: seq<string>, limit: nat)
    requires |counts| == |w.variables| && |parts| == |words|
    requires forall i :: 0 <= i < |parts| ==>
               |parts[i]| <= limit && Expand(w, counts, false, parts[i], args) == Done(words[i], "")
    ensures ExpandAll(w, counts, parts, args, limit) == Texts(words)
  {
    if words != [] {
      var n := |words| - 1;
      AllExpanded(w, counts, parts[..n], words[..n], args, limit);
      assert words[..n] + [words[n]] == words;
    }
  }

  /** A reference calls the first word with the others as arguments. */
  lemma ClauseCalled(w: World, counts: seq<nat>, clause: string, words: seq<string>, t: string, args: seq<string>)
    requires |counts| == |w.variables| && Clause(w, counts, clause, words, args)
    ensures |words| > 0
    ensures Expand(w, counts, false, "$(" + clause + ")" + t, args) ==
            Follow(Call(w, counts, words[0], words[1..], |clause|), Expand(w, counts, false, t, args))
  {
    hide Close, Expand, WholeNumber, Call, StartsReference;
    CloseAppend(clause + ")", t, 0);
    BetweenParentheses(clause, t);
    ExpandReference(w, counts, "$(" + clause + ")" + t, |clause|, args);
    AllExpanded(w, counts, Split(clause, 0, ""), words, args, |clause|);
  }

  /** Plain words, joined with commas, are such a text. */
  lemma PlainClause(w: World, counts: seq<nat>, words: seq<string>, args: seq<string>)
    requires |counts| == |w.variables| && PlainWords(words) && 0 < |words| <= 17
    requires |words| > 1 || !IsArgument(words[0], args)
    ensures Clause(w, counts, Join(words), words, args)
  {
    hide Close, Expand, WholeNumber;
    var clause := Join(words);
    SplitJoin(words);
    PlainClose(clause, "", 0);
    assert clause + ")" + "" == clause + ")";
    forall i | 0 <= i < |words| ensures Expand(w, counts, false, words[i], args) == Done(words[i], "") {
      PlainText(w, counts, words[i], args);
    }
    if |words| > 1 {
      assert clause[|words[0]|] == ',';
      CommaIsNoNumber(clause);
    }
  }

  /** Variable i is the first one of that name. */
  predicate Named(w: World, name: string, i: nat) {
    && i < |w.variables| && w.variables[i].name == name
    && forall j :: 0 <= j < i ==> w.variables[j].name != name
  }

  predicate Unnamed(w: World, name: string) {
    forall j :: 0 <= j < |w.variables| ==> w.variables[j].name != name
  }

  lemma {:induction false} LookupFirst(w: World, name: string, k: nat)
    requires k <= |w.variables| && forall j :: 0 <= j < k ==> w.variables[j].name != name
    ensures forall i: nat :: Named(w, name, i) ==> Lookup(w.variables, name, k) == Some(i)
    ensures Unnamed(w, name) ==> Lookup(w.variables, name, k) == None
    decreases |w.variables| - k
  {
    if k < |w.variables| && w.variables[k].name != name { LookupFirst(w, name, k + 1); }
  }

  /** The variable of that name comes first. A recursive one stands for the expansion of its value, with the arguments
      of the reference in place of those of the enclosing call; a simple one stands for its value. */
  lemma VariableLaw(w: World, counts: seq<nat>, clause: string, words: seq<string>, i: nat, t: string,
                    args: seq<string>)
    requires |counts| == |w.variables| && Clause(w, counts, clause, words, args)
    requires |words| > 0 && Named(w, words[0], i) && counts[i] <= 1000 && (|words| > 1 || counts[i] == 0)
    ensures var v := w.variables[i];
            Expand(w, counts, false, "$(" + clause + ")" + t, args) ==
            Then(if v.recursive then Expand(w, counts[i := counts[i] + 1], false, v.value, words[1..])
                 else Done(v.value, ""), Expand(w, counts, false, t, args))
  {
    hide Expand, Clause;
    ClauseCalled(w, counts, clause, words, t, args);
    LookupFirst(w, words[0], 0);
    BudgetFalls(counts, i);
    var r := Call(w, counts, words[0], words[1..], |clause|);
    assert r == ExpandVariable(w, counts, i, words[1..], |clause|);
    if w.variables[i].recursive {
      var inner := counts[i := counts[i] + 1];
      assert r == ExpandString(w, inner, w.variables[i].value, words[1..]);
    }
  }

  /** Without a variable of that name, a built-in function comes next. */
  lemma BuiltinLaw(w: World, counts: seq<nat>, clause: string, words: seq<string>, t: string, args: seq<string>)
    requires |counts| == |w.variables| && Clause(w, counts, clause, words, args) && |words| > 0 && Unnamed(w, words[0])
    ensures var after := Expand(w, counts, false, t, args);
            var r := Expand(w, counts, false, "$(" + clause + ")" + t, args);
            && (words == ["filename"] ==> r == Before(w.file, after))
            && (words == ["lineno"] ==> r == Before(w.line, after))
            && (|words| == 2 && words[0] == "shell" ==> r == Before(w.shell(words[1]), after))
            && (|words| == 2 && words[0] == "info" ==> r == after)
            && (|words| == 3 && words[0] == "warning-if" ==> r == after)
            && (|words| == 3 && words[0] == "error-if" ==>
                  r == if words[1] == "y" then Failed(Raised(words[2])) else after)
  {
    hide Expand, Clause;
    ClauseCalled(w, counts, clause, words, t, args);
    LookupFirst(w, words[0], 0);
    BeforeBefore("", "", Expand(w, counts, false, t, args));
  }

  const BUILTINS := ["error-if", "filename", "info", "lineno", "shell", "warning-if"]

  /** How many arguments each of them takes. */
  const ARITIES: seq<nat> := [2, 0, 1, 0, 1, 2]

  /** With any other number of arguments it is an error. */
  lemma ArityLaw(w: World, counts: seq<nat>, clause: string, words: seq<string>, k: nat, t: string, args: seq<string>)
    requires |counts| == |w.variables| && Clause(w, counts, clause, words, args) && |words| > 0 && Unnamed(w, words[0])
    requires k < |BUILTINS| && words[0] == BUILTINS[k]
    ensures var r := Expand(w, counts, false, "$(" + clause + ")" + t, args);
            && (|words| - 1 < ARITIES[k] ==> r == Failed(TooFew(words[0])))
            && (|words| - 1 > ARITIES[k] ==> r == Failed(TooMany(words[0])))
  {
    hide Expand, Clause;
    ClauseCalled(w, counts, clause, words, t, args);
    LookupFirst(w, words[0], 0);
  }

  /** And last, a reference without arguments stands for the environment variable; every other one for nothing. */
  lemma EnvironmentLaw(w: World, counts: seq<nat>, clause: string, words: seq<string>, t: string, args: seq<string>)
    requires |counts| == |w.variables| && Clause(w, counts, clause, words, args) && |words| > 0 && Unnamed(w, words[0])
    requires words[0] !in BUILTINS
    ensures Expand(w, counts, false, "$(" + clause + ")" + t, args) ==
            Before(if |words| == 1 && words[0] != "" && words[0] in w.environment then w.environment[words[0]] else "",
                   Expand(w, counts, false, t, args))
  {
    hide Expand, Clause;
    ClauseCalled(w, counts, clause, words, t, args);
    LookupFirst(w, words[0], 0);
    assert forall k :: 0 <= k < |BUILTINS| ==> words[0] != BUILTINS[k];
    assert words[0] != BUILTINS[0] && words[0] != BUILTINS[1] && words[0] != BUILTINS[2];
    assert words[0] != BUILTINS[3] && words[0] != BUILTINS[4] && words[0] != BUILTINS[5];
  }

  /** The two guards: a reference without arguments to a variable that is being expanded, and more than a thousand
      expansions of one variable at a time; and the limit on the number of arguments. */
  lemma GuardLaw(w: World, counts: seq<nat>, clause: string, words: seq<string>, i: nat, t: string, args: seq<string>)
    requires |counts| == |w.variables| && Clause(w, counts, clause, words, args)
    requires |words| > 0 && Named(w, words[0], i)
    ensures var r := Expand(w, counts, false, "$(" + clause + ")" + t, args);
            && (|words| == 1 && counts[i] > 0 ==> r == Failed(RecursiveVariable(words[0])))
            && (|words| > 1 && counts[i] > 1000 ==> r == Failed(TooDeep))
  {
    hide Expand, Clause;
    ClauseCalled(w, counts, clause, words, t, args);
    LookupFirst(w, words[0], 0);
  }

  lemma TooManyLaw(w: World, counts: seq<nat>, words: seq<string>, t: string, args: seq<string>)
    requires |counts| == |w.variables| && PlainWords(words) && |words| > 17
    ensures Expand(w, counts, false, "$(" + Join(words) + ")" + t, args) == Failed(TooManyArguments)
  {
    hide Close, Expand, WholeNumber, Call, StartsReference;
    var clause := Join(words);
    SplitJoin(words);
    PlainClose(clause, t, 0);
    BetweenParentheses(clause, t);
    ExpandReference(w, counts, "$(" + clause + ")" + t, |clause|, args);
    assert clause[|words[0]|] == ',';
    CommaIsNoNumber(clause);
  }

  /** The digits of a number name the argument of that number. */
  lemma NumberNamed(n: nat)
    requires n <= ULONG_MAX
    ensures WholeNumber(Expressions.Numeral(n, 10)) == Some(n)
  {
    var s := Expressions.Numeral(n, 10);
    Expressions.NumeralValue(n, 10);
    Expressions.NumeralStart(n);
    forall i | 0 <= i < |s| ensures IsDigit(s[i]) { assert Expressions.DigitVal(s[i]) < 10; }
    SameDigits(s);
  }

  lemma {:induction false} SameDigits(s: string)
    requires AllDigits(s)
    ensures Digits(s) == Expressions.Magnitude(s, 10)
  {
    if s != "" {
      assert IsDigit(s[|s| - 1]);
      SameDigits(s[..|s| - 1]);
    }
  }

  lemma ArgumentsExample(w: World, counts: seq<nat>, xs: seq<string>)
    requires |counts| == |w.variables| && |xs| == 2
    ensures Expand(w, counts, false, "$(1)-$(2)", xs) == Done(xs[0] + ("-" + xs[1]), "")
  {
    hide Expand, WholeNumber;
    NumberNamed(1);
    NumberNamed(2);
    assert Expressions.Numeral(1, 10) == "1" && Expressions.Numeral(2, 10) == "2";
    ArgumentLaw(w, counts, "2", 2, "", xs);
    ExpandEmpty(w, counts, xs);
    assert "$(" + "2" + ")" + "" == "$(2)" && xs[1] + "" == xs[1];
    ExpandText(w, counts, "-$(2)", xs);
    assert "-$(2)"[1..] == "$(2)" && ['-'] + xs[1] == "-" + xs[1];
    ArgumentLaw(w, counts, "1", 1, "-$(2)", xs);
    assert "$(" + "1" + ")" + "-$(2)" == "$(1)-$(2)";
  }

  /** `$(f,a,b)` with f = $(1)-$(2) stands for a-b. */
  lemma CallExample(w: World, counts: seq<nat>, args: seq<string>)
    requires |counts| == |w.variables| && Named(w, "f", 0) && counts[0] == 0
    requires w.variables[0] == Variable("f", "$(1)-$(2)", true)
    ensures Expand(w, counts, false, "$(f,a,b)", args) == Done("a-b", "")
  {
    hide Expand, WholeNumber, Clause;
    var words, xs := ["f", "a", "b"], ["a", "b"];
    ArgumentsExample(w, counts[0 := 1], xs);
    assert words[1..] == xs && Join(words) == "f,a,b" by { assert words[1..][1..] == ["b"]; }
    PlainClause(w, counts, words, args);
    VariableLaw(w, counts, "f,a,b", words, 0, "", args);
    ExpandEmpty(w, counts, args);
    assert "$(" + "f,a,b" + ")" + "" == "$(f,a,b)" && "a" + ("-" + "b") + "" == "a-b";
  }

  predicate Lower(c: char) { c in "abcdefghijklmnopqrstuvwxyz" }

  predicate Upper(c: char) { c in "ABCDEFGHIJKLMNOPQRSTUVWXYZ" }

  /** The characters of a token. */
  predicate Listed(c: char) { Lower(c) || Upper(c) || c in "0123456789_-./" }

  lemma LowerRange(c: char)
    requires Lower(c)
    ensures 'a' <= c <= 'z'
  {
  }

  lemma UpperRange(c: char)
    requires Upper(c)
    ensures 'A' <= c <= 'Z'
  {
  }

  lemma InRange(c: char)
    ensures ('a' <= c <= 'z' ==> Lower(c)) && ('A' <= c <= 'Z' ==> Upper(c))
  {
    if 'a' <= c <= 'z' {
      assert "abcdefghijklmnopqrstuvwxyz"[c as int - 'a' as int] == c;
    } else if 'A' <= c <= 'Z' {
      assert "ABCDEFGHIJKLMNOPQRSTUVWXYZ"[c as int - 'A' as int] == c;
    }
  }

  lemma TokenCharacter(c: char)
    ensures IsTokenChar(c) <==> Listed(c)
  {
    hide Lower, Upper;
    InRange(c);
    if Lower(c) { LowerRange(c); }
    if Upper(c) { UpperRange(c); }
  }

  /** A token ends in front of the first character that is none of them. */
  lemma {:induction false} TokenEnds(w: World, counts: seq<nat>, s: string, k: nat, args: seq<string>)
    requires |counts| == |w.variables| && k <= |s| && (forall i :: 0 <= i < k ==> Listed(s[i]))
    requires k < |s| ==> !Listed(s[k]) && s[k] != '$'
    ensures Expand(w, counts, true, s, args) == Done(s[..k], s[k..])
  {
    hide Listed;
    if k < |s| { TokenCharacter(s[k]); }
    if k > 0 {
      TokenCharacter(s[0]);
      TokenEnds(w, counts, s[1..], k - 1, args);
      assert [s[0]] + s[1..][..k - 1] == s[..k];
    }
  }

  // ----- expansion in place

  class Preprocessor {
    const w: World
    /** How many expansions of each variable are active. */
    var counts: seq<nat>

    constructor (w: World)
      ensures this.w == w && counts == seq(|w.variables|, _ => 0)
    {
      this.w := w;
      counts := seq(|w.variables|, _ => 0);
    }

    ghost predicate Sized()
      reads this
    {
      |counts| == |w.variables|
    }

    /** A method has returned `r` where `spec` says what the value is; unless there was an error, the counters are
        what they were. */
    ghost predicate Agrees(spec: Result, r: Result, before: seq<nat>)
      reads this
    {
      r == spec && (r.Ok? ==> counts == before)
    }

    /** The same for a method that reads `s` up to position `pos`. */
    ghost predicate AgreesAt(spec: Outcome, r: Result, s: string, pos: nat, before: seq<nat>)
      reads this
    {
      && (spec.Failed? ==> r == Err(spec.error))
      && (spec.Done? ==> r == Ok(spec.text) && pos <= |s| && s[pos..] == spec.rest && counts == before)
    }

    /** `__expand_string`. */
    method ExpandUntil(s: string, start: nat, token: bool, args: seq<string>) returns (r: Result, pos: nat)
      requires Sized() && start <= |s|
      modifies this
      ensures AgreesAt(Expand(w, old(counts), token, s[start..], args), r, s, pos, old(counts))
      decreases Budget(counts), |s| - start, 0, 0
    {
      hide Expand, Close, Eval;
      ghost var spec := Expand(w, counts, token, s[start..], args);
      var out, from := "", start;
      pos := start;
      BeforeBefore("", "", spec);
      while pos < |s| && (s[pos] == '$' || !IsEnd(token, s[pos]))
        invariant start <= from <= pos <= |s| && counts == old(counts)
        invariant spec == Before(out + s[from..pos], Expand(w, counts, token, s[pos..], args))
        decreases |s| - pos
      {
        ExpandNext(w, counts, token, s, pos, args, out + s[from..pos]);
        if s[pos] == '$' {
          var expansion, after := ExpandDollar(s, pos + 1, args);
          if expansion.Err? { return expansion, pos; }
          out := out + s[from..pos] + expansion.text;
          pos, from := after, after;
          assert out + s[from..pos] == out;
        } else {
          assert out + s[from..pos + 1] == out + s[from..pos] + [s[pos]];
          pos := pos + 1;
        }
      }
      ExpandEnd(w, counts, token, s, pos, args);
      r := Ok(out + s[from..pos]);
    }

    /** `expand_dollar_with_args`: the reference at `start`, just behind the dollar sign. */
    method ExpandDollar(s: string, start: nat, args: seq<string>) returns (r: Result, pos: nat)
      requires Sized() && start <= |s|
      modifies this
      ensures Agrees(Dollar(w, old(counts), s[start..], args), r, old(counts))
      ensures r.Ok? ==> pos == start + Reference(s[start..])
      decreases Budget(counts), |s| - start, 0, 0
    {
      hide Eval, Close;
      if start == |s| || s[start] != '(' {
        return Ok("$"), start;
      }
      var p := start + 1;
      assert s[start..][1..] == s[p..];
      var q := FindClose(s, p);
      if q == |s| {
        return Err(Unterminated), start;
      }
      assert s[p..][..q - p] == s[p..q];
      r := EvalClause(s[p..q], args);
      pos := q + 1;
    }

    /** The loop that looks for the closing parenthesis. */
    method FindClose(s: string, p: nat) returns (q: nat)
      requires p <= |s|
      ensures p <= q <= |s| && Close(s[p..], 0) == if q == |s| then None else Some(q - p)
    {
      hide Close;
      var nest := 0;
      q := p;
      while q < |s| && !(s[q] == ')' && nest == 0)
        invariant p <= q <= |s| && nest >= 0
        invariant Close(s[p..], 0) == Further(Close(s[q..], nest), q - p)
      {
        CloseNext(s, p, q, nest);
        nest := nest + Nesting(s[q]);
        q := q + 1;
      }
      CloseEnd(s, q, nest);
    }

    /** `eval_clause`. */
    method EvalClause(clause: string, args: seq<string>) returns (r: Result)
      requires Sized()
      modifies this
      ensures Agrees(Eval(w, old(counts), clause, args), r, old(counts))
      decreases Budget(counts), |clause|, 2, 0
    {
      hide Expand;
      var n := WholeNumber(clause);
      if n.Some? && 0 < n.value <= |args| {
        return Ok(args[n.value - 1]);
      }
      var parts := SplitClause(clause);
      if parts.NoTexts? { return Err(parts.error); }
      var texts := ExpandParts(parts.texts, args, |clause|);
      if texts.NoTexts? { return Err(texts.error); }
      var name, rest := texts.texts[0], texts.texts[1..];
      var v := Lookup(w.variables, name, 0);
      if v.Some? {
        r := ExpandVariableAt(v.value, rest, |clause|);
      } else {
        var b := Builtin(w, name, rest);
        if b.Some? {
          r := b.value;
        } else if rest == [] && name != "" && name in w.environment {
          r := Ok(w.environment[name]);
        } else {
          r := Ok("");
        }
      }
    }

    /** The loop that splits a clause at its commas. */
    method SplitClause(clause: string) returns (r: Texts)
      ensures var parts := Split(clause, 0, ""); r == if |parts| > 17 then NoTexts(TooManyArguments) else Texts(parts)
      ensures r.NoTexts? <==> TopCommas(clause, 0) >= 17
    {
      SplitCount(clause, 0, "");
      hide Split;
      var parts: seq<string> := [];
      var prev, p, nest := 0, 0, 0;
      assert clause[0..] == clause && [] + Split(clause, 0, "") == Split(clause, 0, "");
      while p < |clause|
        invariant prev <= p <= |clause| && |parts| <= 16
        invariant Split(clause, 0, "") == parts + Split(clause[p..], nest, clause[prev..p])
      {
        SplitNext(clause, prev, p, nest, parts);
        if nest == 0 && clause[p] == ',' {
          if |parts| >= 16 {
            return NoTexts(TooManyArguments);
          }
          parts := parts + [clause[prev..p]];
          prev := p + 1;
        } else {
          nest := nest + Nesting(clause[p]);
        }
        p := p + 1;
      }
      SplitEnd(clause[prev..p], nest);
      assert clause[p..] == "";
      return Texts(parts + [clause[prev..p]]);
    }

    /** The loop that expands the name and the arguments. */
    method ExpandParts(parts: seq<string>, args: seq<string>, ghost limit: nat) returns (r: Texts)
      requires Sized() && forall i :: 0 <= i < |parts| ==> |parts[i]| <= limit
      modifies this
      ensures r == ExpandAll(w, old(counts), parts, args, limit) && (r.Texts? ==> counts == old(counts))
      decreases Budget(counts), limit, 1, 0
    {
      hide Expand;
      var texts: seq<string> := [];
      var i := 0;
      while i < |parts|
        invariant i <= |parts| && counts == old(counts)
        invariant ExpandAll(w, counts, parts[..i], args, limit) == Texts(texts)
      {
        assert parts[..i + 1][..i] == parts[..i] && parts[i][0..] == parts[i];
        var text, pos := ExpandUntil(parts[i], 0, false, args);
        if text.Err? {
          AllFails(w, old(counts), parts, i + 1, args, limit);
          return NoTexts(text.error);
        }
        texts := texts + [text.text];
        i := i + 1;
      }
      assert parts[..i] == parts;
      r := Texts(texts);
    }

    /** `variable_expand`: the counter is raised for as long as the expansion lasts. */
    method ExpandVariableAt(i: nat, args: seq<string>, ghost limit: nat) returns (r: Result)
      requires Sized() && i < |counts|
      modifies this
      ensures Agrees(ExpandVariable(w, old(counts), i, args, limit), r, old(counts))
      decreases Budget(counts), limit, 0, 2
    {
      hide Expand;
      var v := w.variables[i];
      if args == [] && counts[i] != 0 { return Err(RecursiveVariable(v.name)); }
      if counts[i] > 1000 { return Err(TooDeep); }
      BudgetFalls(counts, i);
      counts := counts[i := counts[i] + 1];
      if v.recursive {
        assert v.value[0..] == v.value;
        var pos;
        r, pos := ExpandUntil(v.value, 0, false, args);
        if r.Err? { return; }
      } else {
        r := Ok(v.value);
      }
      counts := counts[i := counts[i] - 1];
      assert counts == old(counts);
    }
  }

  lemma SplitNext(s: string, prev: nat, p: nat, nest: int, parts: seq<string>)
    requires prev <= p < |s|
    ensures parts + Split(s[p..], nest, s[prev..p]) ==
            if nest == 0 && s[p] == ',' then parts + [s[prev..p]] + Split(s[p + 1..], 0, s[p + 1..p + 1])
            else parts + Split(s[p + 1..], nest + Nesting(s[p]), s[prev..p + 1])
    ensures nest == 0 && s[p] == ',' ==> |parts + Split(s[p..], nest, s[prev..p])| >= |parts| + 2
  {
    assert s[p..][1..] == s[p + 1..] && s[prev..p + 1] == s[prev..p] + [s[p]] && s[p + 1..p + 1] == "";
    if nest == 0 && s[p] == ',' {
      var rest := Split(s[p + 1..], 0, "");
      assert parts + ([s[prev..p]] + rest) == parts + [s[prev..p]] + rest;
    }
  }

  lemma SplitEnd(part: string, nest: int)
    ensures Split("", nest, part) == [part]
  {
  }

  lemma CloseNext(s: string, p: nat, q: nat, nest: nat)
    requires p <= q < |s| && !(s[q] == ')' && nest == 0)
    ensures Further(Close(s[q..], nest), q - p) == Further(Close(s[q + 1..], nest + Nesting(s[q])), q + 1 - p)
  {
    assert s[q..][1..] == s[q + 1..];
  }

  lemma CloseEnd(s: string, q: nat, nest: nat)
    requires q <= |s| && (q < |s| ==> s[q] == ')' && nest == 0)
    ensures Close(s[q..], nest) == if q == |s| then None else Some(0)
  {
  }

  function Further(j: Option<nat>, n: nat): Option<nat> { if j.Some? then Some(j.value + n) else None }

  /** What follows a dollar sign, and how much of it belongs to the reference. */
  function Dollar(w: World, counts: seq<nat>, s: string, args: seq<string>): Result
    requires |counts| == |w.variables|
  {
    if s == "" || s[0] != '(' then Ok("$")
    else
      var close := Close(s[1..], 0);
      if close.None? then Err(Unterminated) else Eval(w, counts, s[1..][..close.value], args)
  }

  function Reference(s: string): nat {
    if s == "" || s[0] != '(' then 0
    else
      var close := Close(s[1..], 0);
      if close.None? then 0 else close.value + 2
  }

  /** One failing part makes all of them fail. */
  lemma {:induction false} AllFails(w: World, counts: seq<nat>, parts: seq<string>, k: nat, args: seq<string>,
                                    limit: nat)
    requires |counts| == |w.variables| && k <= |parts| && forall i :: 0 <= i < |parts| ==> |parts[i]| <= limit
    requires ExpandAll(w, counts, parts[..k], args, limit).NoTexts?
    ensures ExpandAll(w, counts, parts, args, limit) == ExpandAll(w, counts, parts[..k], args, limit)
    decreases |parts|
  {
    if k < |parts| {
      var n := |parts| - 1;
      assert parts[..n][..k] == parts[..k];
      AllFails(w, counts, parts[..n], k, args, limit);
    } else {
      assert parts[..k] == parts;
    }
  }

  /** One step of an expansion: a reference, a lone dollar sign, or a character. */
  lemma ExpandNext(w: World, counts: seq<nat>, token: bool, s: string, p: nat, args: seq<string>, text: string)
    requires |counts| == |w.variables| && p < |s| && (s[p] == '$' || !IsEnd(token, s[p]))
    ensures var spec := Before(text, Expand(w, counts, token, s[p..], args));
            if s[p] != '$' then spec == Before(text + [s[p]], Expand(w, counts, token, s[p + 1..], args))
            else
              var r, n := Dollar(w, counts, s[p + 1..], args), p + 1 + Reference(s[p + 1..]);
              n <= |s| && (r.Err? ==> spec == Failed(r.error)) &&
              (r.Ok? ==> spec == Before(text + r.text, Expand(w, counts, token, s[n..], args)))
  {
    hide Eval, Close, Dollar, Reference;
    var rest := s[p..];
    assert rest[1..] == s[p + 1..];
    if s[p] != '$' {
      BeforeBefore(text, [s[p]], Expand(w, counts, token, s[p + 1..], args));
    } else {
      DollarNext(w, counts, token, rest, args);
      var r, n := Dollar(w, counts, rest[1..], args), 1 + Reference(rest[1..]);
      assert n <= |rest| ==> rest[n..] == s[p + n..];
      if r.Ok? { BeforeBefore(text, r.text, Expand(w, counts, token, rest[n..], args)); }
    }
  }

  lemma DollarNext(w: World, counts: seq<nat>, token: bool, s: string, args: seq<string>)
    requires |counts| == |w.variables| && s != "" && s[0] == '$'
    ensures var r, n := Dollar(w, counts, s[1..], args), 1 + Reference(s[1..]);
            n <= |s| && Expand(w, counts, token, s, args) == Follow(r, Expand(w, counts, token, s[n..], args))
  {
    hide Eval;
    if StartsReference(s) {
      assert s[1..][1..] == s[2..];
      var close := Close(s[2..], 0);
      if close.Some? {
        assert s[2..][..close.value] == s[2..2 + close.value];
      }
    }
  }

  lemma ExpandEnd(w: World, counts: seq<nat>, token: bool, s: string, p: nat, args: seq<string>)
    requires |counts| == |w.variables| && p <= |s| && (p < |s| ==> s[p] != '$' && IsEnd(token, s[p]))
    ensures Expand(w, counts, token, s[p..], args) == Done("", s[p..])
  {
  }
}
