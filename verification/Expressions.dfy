/** Dependency expressions, the environments they are evaluated in, and their value. */
module Expressions {
  import opened Tristate

  datatype SymType = Unknown | Boolean | Tristate | Int | Hex | String

  /** A symbol as an expression refers to it. `SymYes`, `SymMod` and `SymNo` are the three built-in
      constants, `Const` any other constant (a quoted string or number), `Var` a symbol with a definition
      or an undefined name. Equality of `Symbol` values stands for equality of symbol pointers. */
  datatype Symbol = SymYes | SymMod | SymNo | Const(name: string) | Var(id: nat, varType: SymType) {
    /** The `type` field; constants never get one. */
    function Type(): SymType { if Var? then varType else Unknown }

    /** SYMBOL_CONST. */
    predicate IsConst() { !Var? }

    /** One of the constants y, m and n. */
    predicate IsBuiltin() { SymYes? || SymMod? || SymNo? }

    predicate IsBoolOrTristate() { Type().Boolean? || Type().Tristate? }
  }

  datatype Rel = Equal | Unequal | Less | LessEq | Greater | GreaterEq

  datatype Op = OpAnd | OpOr

  datatype Expr =
    | Sym(sym: Symbol)
    | Cmp(rel: Rel, lhs: Symbol, rhs: Symbol)
    | Neg(arg: Expr)
    | Bin(op: Op, left: Expr, right: Expr)

  function Conj(a: Expr, b: Expr): Expr { Bin(OpAnd, a, b) }

  function Disj(a: Expr, b: Expr): Expr { Bin(OpOr, a, b) }

  /** Number of nodes. */
  function Size(e: Expr): nat {
    match e
    case Sym(_) => 1
    case Cmp(_, _, _) => 1
    case Neg(a) => 1 + Size(a)
    case Bin(_, l, r) => 1 + Size(l) + Size(r)
  }

  /** The variables an expression reads. */
  function Vars(e: Expr): set<Symbol> {
    match e
    case Sym(s) => VarOf(s)
    case Cmp(_, l, r) => VarOf(l) + VarOf(r)
    case Neg(a) => Vars(a)
    case Bin(_, l, r) => Vars(l) + Vars(r)
  }

  function VarOf(s: Symbol): set<Symbol> { if s.Var? then {s} else {} }

  // ----- numbers inside strings (strtoll / strtoull applied to a whole string)

  datatype Parsed = KString | KSigned(s: int) | KUnsigned(u: int)

  const TWO63: int := 0x8000_0000_0000_0000
  const TWO64: int := 0x1_0000_0000_0000_0000

  predicate IsSpace(c: char) { c == ' ' || '\t' <= c <= '\r' }

  function DigitVal(c: char): int {
    if '0' <= c <= '9' then c as int - '0' as int
    else if 'a' <= c <= 'f' then c as int - 'a' as int + 10
    else if 'A' <= c <= 'F' then c as int - 'A' as int + 10
    else 99
  }

  predicate AllDigits(s: string, base: int) {
    s != [] && forall i :: 0 <= i < |s| ==> DigitVal(s[i]) < base
  }

  function Magnitude(s: string, base: int): int
  {
    if s == [] then 0 else Magnitude(s[..|s| - 1], base) * base + DigitVal(s[|s| - 1])
  }

  function SkipSpace(s: string): string {
    if s != [] && IsSpace(s[0]) then SkipSpace(s[1..]) else s
  }

  predicate HasHexPrefix(s: string) {
    |s| >= 3 && s[0] == '0' && (s[1] == 'x' || s[1] == 'X') && DigitVal(s[2]) < 16
  }

  /** The integer a string denotes when all of it is consumed, or None. Base 0 picks the base from the prefix. */
  function ParseWhole(str: string, base: int): Option<int> {
    var s := SkipSpace(str);
    var negative := s != [] && s[0] == '-';
    var digits := if s != [] && (s[0] == '-' || s[0] == '+') then s[1..] else s;
    var hex := (base == 0 || base == 16) && HasHexPrefix(digits);
    var body := if hex then digits[2..] else digits;
    var radix := if hex then 16 else if base != 0 then base else if digits != [] && digits[0] == '0' then 8 else 10;
    if AllDigits(body, radix) then Some(if negative then -Magnitude(body, radix) else Magnitude(body, radix)) else None
  }

  function ParseString(str: string, t: SymType): Parsed {
    match t
    case Boolean => KSigned(TriIndex(str))
    case Tristate => KSigned(TriIndex(str))
    case Hex =>
      (match ParseWhole(str, 16)
       case Some(v) => if -TWO64 < v < TWO64 then KUnsigned(v % TWO64) else KString
       case None => KString)
    case _ =>
      (match ParseWhole(str, if t == Int then 10 else 0)
       case Some(v) => if -TWO63 <= v < TWO63 then KSigned(v) else KString
       case None => KString)
  }

  function TriIndex(str: string): int {
    if str == "n" then 0 else if str == "m" then 1 else if str == "y" then 2 else -1
  }

  /** strcmp, reduced to its sign. */
  function StrCmp(a: string, b: string): int {
    if a == [] then (if b == [] then 0 else -1)
    else if b == [] then 1
    else if a[0] < b[0] then -1
    else if a[0] > b[0] then 1
    else StrCmp(a[1..], b[1..])
  }

  function Sign(x: int): int { if x < 0 then -1 else if x > 0 then 1 else 0 }

  /** The three-way result of a comparison of two string values. */
  function Compare(str1: string, t1: SymType, str2: string, t2: SymType): int {
    var k1 := if t1.String? && t2.String? then KString else ParseString(str1, t1);
    var k2 := if t1.String? && t2.String? then KString else ParseString(str2, t2);
    if k1.KString? || k2.KString? then StrCmp(str1, str2)
    else if k1.KUnsigned? || k2.KUnsigned? then
      Sign((if k1.KUnsigned? then k1.u else k1.s % TWO64) - (if k2.KUnsigned? then k2.u else k2.s % TWO64))
    else Sign(k1.s - k2.s)
  }

  predicate RelHolds(rel: Rel, res: int) {
    match rel
    case Equal => res == 0
    case Unequal => res != 0
    case Less => res < 0
    case LessEq => res <= 0
    case Greater => res > 0
    case GreaterEq => res >= 0
  }

  // ----- environments and values

  /** The current values: `tri` for bool and tristate symbols, `str` for all others. */
  datatype Env = Env(tri: map<Symbol, Tri>, str: map<Symbol, string>, modules: Tri)

  /** What `sym_calc_value` guarantees of every value it stores: a bool is never m, and nothing is m without modules. */
  predicate ValidEnv(env: Env) {
    forall s :: s in env.tri && (s.Type().Boolean? || env.modules == NO) ==> env.tri[s] != MOD
  }

  function TriOf(env: Env, s: Symbol): Tri {
    match s
    case SymYes => YES
    case SymMod => MOD
    case SymNo => NO
    case Const(_) => NO
    case Var(_, _) => if s.IsBoolOrTristate() && s in env.tri then env.tri[s] else NO
  }

  function TriName(t: Tri): string { if t == NO then "n" else if t == MOD then "m" else "y" }

  function TriString(t: Tri, modules: Tri): string {
    if t == NO then "n" else if t == YES then "y" else if modules == NO then "n" else "m"
  }

  function StrOf(env: Env, s: Symbol): string {
    match s
    case SymYes => "y"
    case SymMod => "m"
    case SymNo => "n"
    case Const(name) => name
    case Var(_, _) =>
      if s.IsBoolOrTristate() then TriString(TriOf(env, s), env.modules)
      else if s in env.str then env.str[s] else ""
  }

  function CompareSyms(env: Env, l: Symbol, r: Symbol): int {
    Compare(StrOf(env, l), l.Type(), StrOf(env, r), r.Type())
  }

  function Apply(op: Op, a: Tri, b: Tri): Tri { if op.OpAnd? then And(a, b) else Or(a, b) }

  /** `expr_calc_value` once the symbols it reads have their values. */
  function Calc(e: Expr, env: Env): Tri {
    match e
    case Sym(s) => TriOf(env, s)
    case Cmp(rel, l, r) => FromBool(RelHolds(rel, CompareSyms(env, l, r)))
    case Neg(a) => Not(Calc(a, env))
    case Bin(op, l, r) => Apply(op, Calc(l, env), Calc(r, env))
  }

  /** A missing expression counts as y. */
  function CalcOpt(e: Option<Expr>, env: Env): Tri { if e.Some? then Calc(e.value, env) else YES }

  ghost predicate Equivalent(e1: Expr, e2: Expr) {
    forall env: Env :: ValidEnv(env) ==> Calc(e1, env) == Calc(e2, env)
  }

  /** The symbol that is neutral for `op`: y for &&, n for ||. */
  function UnitSym(op: Op): Symbol { if op.OpAnd? then SymYes else SymNo }

  function Unit(op: Op): Tri { if op.OpAnd? then YES else NO }

  /** `expr_is_yes` on a non-null expression. */
  predicate IsYes(e: Expr) { e == Sym(SymYes) }

  /** The value of an expression depends on the variables it reads only. */
  lemma {:induction false} CalcFrame(e: Expr, env1: Env, env2: Env)
    requires env1.modules == env2.modules
    requires forall s :: s in Vars(e) ==> TriOf(env1, s) == TriOf(env2, s) && StrOf(env1, s) == StrOf(env2, s)
    ensures Calc(e, env1) == Calc(e, env2)
  {
    match e
    case Sym(s) =>
    case Cmp(_, l, r) =>
    case Neg(a) => CalcFrame(a, env1, env2);
    case Bin(_, l, r) => CalcFrame(l, env1, env2); CalcFrame(r, env1, env2);
  }

  /** strcmp decides equality, so a comparison by string is a comparison of contents. */
  lemma StrCmpZero(a: string, b: string)
    ensures StrCmp(a, b) == 0 <==> a == b
  {
    if a != [] && b != [] && a[0] == b[0] {
      StrCmpZero(a[1..], b[1..]);
      assert a == [a[0]] + a[1..] && b == [b[0]] + b[1..];
    }
  }

  /** A bool or tristate symbol compares equal to y, m or n exactly when it has that value. */
  lemma BuiltinCompare(s: Symbol, c: Symbol, env: Env)
    requires s.IsBoolOrTristate() && c.IsBuiltin() && ValidEnv(env)
    ensures CompareSyms(env, s, c) == 0 <==> TriOf(env, s) == TriOf(env, c)
  {
    assert ParseString(StrOf(env, c), Unknown) == KString;
    StrCmpZero(StrOf(env, s), StrOf(env, c));
  }

  // ----- what the comparison of numbers means

  /** The digits of a number. */
  function Numeral(n: nat, base: int): (s: string)
    requires base in {8, 10, 16}
    ensures |s| > 0
    decreases n
  {
    if n < base then [Digit(n)] else Numeral(n / base, base) + [Digit(n % base)]
  }

  function Digit(d: nat): char
    requires d < 16
  {
    "0123456789abcdef"[d]
  }

  lemma DigitValue(d: nat)
    requires d < 16
    ensures DigitVal(Digit(d)) == d && (Digit(d) == '0' <==> d == 0) && Digit(d) != '-' && Digit(d) != '+'
    ensures !IsSpace(Digit(d)) && Digit(d) != 'x' && Digit(d) != 'X'
  {
  }

  /** One digit more. */
  lemma DigitMore(s: string, d: nat, base: int)
    requires base in {8, 10, 16} && d < base && AllDigits(s, base)
    ensures AllDigits(s + [Digit(d)], base) && Magnitude(s + [Digit(d)], base) == Magnitude(s, base) * base + d
  {
    DigitValue(d);
    var t := s + [Digit(d)];
    assert t[..|t| - 1] == s && t[|t| - 1] == Digit(d);
  }

  lemma Divided(n: nat, base: nat)
    requires 2 <= base <= n
    ensures 0 < n / base < n && n % base < base && n / base * base + n % base == n
  {
  }

  lemma {:induction false} NumeralValue(n: nat, base: int)
    requires base in {8, 10, 16}
    ensures AllDigits(Numeral(n, base), base) && Magnitude(Numeral(n, base), base) == n
    ensures Numeral(n, base)[0] == '0' <==> n == 0
    ensures n == 0 ==> Numeral(n, base) == "0"
    decreases n
  {
    hide Digit, AllDigits;
    if n < base {
      OneDigit(n, base);
    } else {
      Divided(n, base);
      NumeralValue(n / base, base);
      DigitMore(Numeral(n / base, base), n % base, base);
    }
  }

  lemma OneDigit(d: nat, base: int)
    requires base in {8, 10, 16} && d < base
    ensures AllDigits([Digit(d)], base) && Magnitude([Digit(d)], base) == d && (Digit(d) == '0' <==> d == 0)
    ensures d == 0 ==> [Digit(d)] == "0"
  {
    DigitValue(d);
    assert [Digit(d)][..0] == [] && Magnitude([], base) == 0;
  }

  /** A number as Kconfig files spell it. */
  function Decimal(v: int): string { if v < 0 then "-" + Numeral(-v, 10) else Numeral(v, 10) }

  lemma NumeralStart(n: nat)
    ensures var s := Numeral(n, 10);
            !IsSpace(s[0]) && s[0] != '-' && s[0] != '+' && !HasHexPrefix(s) && SkipSpace(s) == s
  {
    NumeralValue(n, 10);
    assert DigitVal(Numeral(n, 10)[0]) < 10;
  }

  /** The digits of a number are read as that number, in either base that a value or a constant is read with. */
  lemma DecimalParsed(v: int, base: int)
    requires base == 0 || base == 10
    ensures ParseWhole(Decimal(v), base) == Some(v)
  {
    hide Numeral, SkipSpace, Magnitude, AllDigits, HasHexPrefix;
    var n: nat := if v < 0 then -v else v;
    var s := Numeral(n, 10);
    NumeralValue(n, 10);
    NumeralStart(n);
    if v < 0 {
      assert Decimal(v)[0] == '-' && Decimal(v)[1..] == s;
      assert SkipSpace(Decimal(v)) == Decimal(v) by { NotSpace(Decimal(v)); }
    }
    if n == 0 { ZeroValue(8); }
  }

  lemma NotSpace(s: string)
    requires s != "" && !IsSpace(s[0])
    ensures SkipSpace(s) == s
  {
  }

  lemma ZeroValue(base: int)
    requires base > 0
    ensures AllDigits("0", base) && Magnitude("0", base) == 0
  {
    assert "0"[..0] == "" && Magnitude("", base) == 0;
  }

  lemma HexParsed(n: nat, base: int)
    requires base == 0 || base == 16
    ensures ParseWhole("0x" + Numeral(n, 16), base) == Some(n)
  {
    var s := Numeral(n, 16);
    NumeralValue(n, 16);
    var whole := "0x" + s;
    assert whole[0] == '0' && whole[1] == 'x' && whole[2..] == s;
  }

  /** A leading zero says that the number is octal, where the base is not given. */
  lemma OctalParsed(n: nat)
    ensures ParseWhole("0" + Numeral(n, 8), 0) == Some(n)
  {
    hide Numeral, Magnitude;
    var s := Numeral(n, 8);
    NumeralValue(n, 8);
    LeadingZero(s, 8);
    assert ("0" + s)[0] == '0' && ("0" + s)[1..] == s && DigitVal(s[0]) < 8;
  }

  lemma {:induction false} LeadingZero(s: string, base: int)
    requires AllDigits(s, base) && base > 0
    ensures AllDigits("0" + s, base) && Magnitude("0" + s, base) == Magnitude(s, base)
  {
    var t := "0" + s;
    assert t[..|t| - 1] == "0" + s[..|s| - 1] && t[|t| - 1] == s[|s| - 1];
    if |s| == 1 {
      ZeroValue(base);
      assert s[..0] == "" && "0" + s[..0] == "0";
    } else {
      LeadingZero(s[..|s| - 1], base);
    }
  }

  /** Space in front of a number, and a plus sign, do not matter. */
  lemma SpaceAndSign(space: string, n: nat, base: int)
    requires (base == 0 || base == 10) && forall i :: 0 <= i < |space| ==> IsSpace(space[i])
    ensures ParseWhole(space + Numeral(n, 10), base) == ParseWhole(space + ("+" + Numeral(n, 10)), base) == Some(n)
  {
    var s := Numeral(n, 10);
    DecimalParsed(n, base);
    NumeralStart(n);
    SpaceSkipped(space, s);
    SpaceSkipped(space, "+" + s);
    SignSkipped(s, base);
  }

  lemma SignSkipped(s: string, base: int)
    requires s != "" && !IsSpace(s[0]) && s[0] != '-' && s[0] != '+'
    ensures ParseWhole("+" + s, base) == ParseWhole(s, base)
  {
    hide Magnitude, AllDigits, HasHexPrefix;
    assert ("+" + s)[1..] == s;
  }

  lemma {:induction false} SpaceSkipped(space: string, s: string)
    requires (forall i :: 0 <= i < |space| ==> IsSpace(space[i])) && s != "" && !IsSpace(s[0])
    ensures SkipSpace(space + s) == s
  {
    if space == "" {
      assert space + s == s;
    } else {
      SpaceSkipped(space[1..], s);
      assert (space + s)[1..] == space[1..] + s;
    }
  }

  /** A number beyond 64 bits, and what does not end in a digit, spell no number: they are compared as texts. */
  lemma BeyondRange(v: int, t: SymType)
    requires !t.Boolean? && !t.Tristate? && !t.Hex? && !(-TWO63 <= v < TWO63)
    ensures ParseString(Decimal(v), t) == KString
  {
    hide Decimal, ParseWhole;
    DecimalParsed(v, 10);
    DecimalParsed(v, 0);
  }

  lemma NoNumber(s: string, t: SymType)
    requires !t.Boolean? && !t.Tristate? && (s == "" || DigitVal(s[|s| - 1]) == 99)
    ensures ParseString(s, t) == KString
  {
    hide ParseWhole;
    NotWhole(s, 10);
    NotWhole(s, 16);
    NotWhole(s, 0);
  }

  lemma NotWhole(s: string, base: int)
    requires (base == 0 || base == 10 || base == 16) && (s == "" || DigitVal(s[|s| - 1]) == 99)
    ensures ParseWhole(s, base) == None
  {
    hide SkipSpace, Magnitude, DigitVal;
    KeepsEnd(s);
    var t := SkipSpace(s);
    forall k: nat | k < |t| ensures !AllDigits(t[k..], 8) && !AllDigits(t[k..], 10) && !AllDigits(t[k..], 16) {
      assert t[k..][|t| - k - 1] == s[|s| - 1];
    }
    assert t == t[0..] && (|t| > 3 ==> t[1..][2..] == t[3..]);
  }

  lemma {:induction false} KeepsEnd(s: string)
    ensures |SkipSpace(s)| <= |s| && SkipSpace(s) == s[|s| - |SkipSpace(s)|..]
  {
    if s != [] && IsSpace(s[0]) {
      KeepsEnd(s[1..]);
      assert forall k :: 1 <= k <= |s| ==> s[k..] == s[1..][k - 1..];
    }
  }

  /** Two int symbols, or an int symbol and a constant, that spell numbers of 64 bits are compared as these numbers. */
  lemma IntegerCompare(rel: Rel, l: Symbol, a: int, r: Symbol, b: int, env: Env)
    requires l.Type().Int? && (r.Type().Int? || r.Const?)
    requires StrOf(env, l) == Decimal(a) && StrOf(env, r) == Decimal(b)
    requires -TWO63 <= a < TWO63 && -TWO63 <= b < TWO63
    ensures Calc(Cmp(rel, l, r), env) == FromBool(
              match rel
              case Equal => a == b
              case Unequal => a != b
              case Less => a < b
              case LessEq => a <= b
              case Greater => a > b
              case GreaterEq => a >= b)
  {
    hide Decimal, ParseWhole;
    DecimalParsed(a, 10);
    DecimalParsed(b, if r.Type().Int? then 10 else 0);
    assert ParseString(StrOf(env, l), Int) == KSigned(a);
    assert ParseString(StrOf(env, r), r.Type()) == KSigned(b);
  }

  /** Hexadecimal symbols are compared as unsigned numbers of 64 bits. */
  lemma HexCompare(rel: Rel, l: Symbol, a: nat, r: Symbol, b: nat, env: Env)
    requires l.Type().Hex? && r.Type().Hex? && a < TWO64 && b < TWO64
    requires StrOf(env, l) == "0x" + Numeral(a, 16) && StrOf(env, r) == "0x" + Numeral(b, 16)
    ensures Calc(Cmp(rel, l, r), env) == FromBool(
              match rel
              case Equal => a == b
              case Unequal => a != b
              case Less => a < b
              case LessEq => a <= b
              case Greater => a > b
              case GreaterEq => a >= b)
  {
    hide Numeral, ParseWhole;
    HexParsed(a, 16);
    HexParsed(b, 16);
    assert ParseString(StrOf(env, l), Hex) == KUnsigned(a) && ParseString(StrOf(env, r), Hex) == KUnsigned(b);
  }

  /** A hexadecimal symbol and something that spells a number of 64 bits are compared as unsigned numbers, a negative
      one counting from 2^64 downwards. */
  lemma MixedCompare(rel: Rel, l: Symbol, a: nat, r: Symbol, b: int, env: Env)
    requires l.Type().Hex? && (r.Type().Int? || r.Const?) && a < TWO64 && -TWO63 <= b < TWO63
    requires StrOf(env, l) == "0x" + Numeral(a, 16) && StrOf(env, r) == Decimal(b)
    ensures var u := if b < 0 then TWO64 + b else b;
            Calc(Cmp(rel, l, r), env) == FromBool(
              match rel
              case Equal => a == u
              case Unequal => a != u
              case Less => a < u
              case LessEq => a <= u
              case Greater => a > u
              case GreaterEq => a >= u)
  {
    hide Numeral, Decimal, ParseWhole;
    HexParsed(a, 16);
    DecimalParsed(b, if r.Type().Int? then 10 else 0);
    assert ParseString(StrOf(env, l), Hex) == KUnsigned(a) && ParseString(StrOf(env, r), r.Type()) == KSigned(b);
  }

  /** Strings, and everything that does not spell a number, are equal if they have the same characters. */
  lemma TextCompare(l: Symbol, r: Symbol, env: Env)
    requires (l.Type().String? && r.Type().String?) || ParseString(StrOf(env, l), l.Type()) == KString ||
             ParseString(StrOf(env, r), r.Type()) == KString
    ensures Calc(Cmp(Equal, l, r), env) == FromBool(StrOf(env, l) == StrOf(env, r))
    ensures Calc(Cmp(Unequal, l, r), env) == FromBool(StrOf(env, l) != StrOf(env, r))
  {
    hide ParseString, StrOf;
    StrCmpZero(StrOf(env, l), StrOf(env, r));
  }

  /** The order of strings: after the longest common start, the next characters decide, and a string
      that ends there comes first. */
  lemma {:induction false} StrCmpMeaning(a: string, b: string) returns (k: nat)
    ensures k <= |a| && k <= |b| && a[..k] == b[..k] && (k < |a| && k < |b| ==> a[k] != b[k])
    ensures StrCmp(a, b) == if k == |a| then (if k == |b| then 0 else -1)
                            else if k < |b| && a[k] < b[k] then -1 else 1
  {
    if a != [] && b != [] && a[0] == b[0] {
      var j := StrCmpMeaning(a[1..], b[1..]);
      k := j + 1;
      assert a[..k] == [a[0]] + a[1..][..j] && b[..k] == [b[0]] + b[1..][..j];
    } else {
      k := 0;
    }
  }
}
