/** Printing an expression, and parsing it again with the expression grammar of parser.y. */
module ExprPrint {
  import opened Tristate
  import opened Expressions

  /** Tokens of expressions. A name stands for the symbol that looking it up yields. */
  datatype Token = TName(sym: Symbol) | TRel(rel: Rel) | TNot | TOp(op: Op) | TOpen | TClose

  // ----- expr_print

  /** The operator an operand belongs to. */
  datatype Above = NoneAbove | NotAbove | OpAbove(op: Op)

  /** `expr_compare_type` of the operator above and of `e`: whether `e` binds less tightly. */
  predicate NeedsParens(above: Above, e: Expr) {
    match above
    case NoneAbove => false
    case NotAbove => e.Bin?
    case OpAbove(op) => op.OpAnd? && e.Bin? && e.op.OpOr?
  }

  function Print(e: Expr, above: Above): seq<Token>
    decreases e, 1
  {
    if NeedsParens(above, e) then [TOpen] + PrintBody(e) + [TClose] else PrintBody(e)
  }

  function PrintBody(e: Expr): seq<Token>
    decreases e, 0
  {
    match e
    case Sym(s) => [TName(s)]
    case Cmp(rel, l, r) => [TName(l), TRel(rel), TName(r)]
    case Neg(a) => [TNot] + Print(a, NotAbove)
    case Bin(op, l, r) => Print(l, OpAbove(op)) + [TOp(op)] + Print(r, OpAbove(op))
  }

  /** A null pointer prints as y. */
  function PrintOpt(e: Option<Expr>): seq<Token> {
    if e.Some? then Print(e.value, NoneAbove) else [TName(SymYes)]
  }

  // ----- the parser: shift and reduce, with the precedences of parser.y

  datatype Item = Tok(token: Token) | Tree(tree: Expr)

  datatype Stack = Bottom | Push(top: Item, below: Stack)

  datatype Next = Reduce(stack: Stack) | Shift | Accept(tree: Expr) | Reject

  /** What the token at the front of the input is. */
  predicate Ahead(input: seq<Token>, t: Token) { input != [] && input[0] == t }

  predicate StartsOperand(input: seq<Token>) { input != [] && (input[0].TName? || input[0].TNot? || input[0].TOpen?) }

  function AtName(s: Symbol, below: Stack, input: seq<Token>): Next {
    match below
    case Push(Tok(TRel(rel)), Push(Tok(TName(l)), rest)) => Reduce(Push(Tree(Cmp(rel, l, s)), rest))
    case _ => if input != [] && input[0].TRel? then Shift else Reduce(Push(Tree(Sym(s)), below))
  }

  function AtTree(e: Expr, below: Stack, input: seq<Token>): Next {
    match below
    case Push(Tok(TNot), rest) => Reduce(Push(Tree(Neg(e)), rest))
    case Push(Tok(TOp(op)), Push(Tree(l), rest)) =>
      if op.OpOr? && Ahead(input, TOp(OpAnd)) then Shift else Reduce(Push(Tree(Bin(op, l, e)), rest))
    case Bottom => if input == [] then Accept(e) else if input[0].TOp? then Shift else Reject
    case _ => if input != [] && (input[0].TOp? || input[0].TClose?) then Shift else Reject
  }

  /** The next action. */
  function Action(stack: Stack, input: seq<Token>): Next {
    match stack
    case Push(Tok(TName(s)), below) => AtName(s, below, input)
    case Push(Tree(e), below) => AtTree(e, below, input)
    case Push(Tok(TClose), Push(Tree(e), Push(Tok(TOpen), rest))) => Reduce(Push(Tree(e), rest))
    case Push(Tok(TClose), _) => Reject
    case Push(Tok(TRel(_)), _) => if input != [] && input[0].TName? then Shift else Reject
    case _ => if StartsOperand(input) then Shift else Reject
  }

  function Weight(s: Stack): nat {
    match s
    case Bottom => 0
    case Push(Tok(TName(_)), below) => 2 + Weight(below)
    case Push(_, below) => 1 + Weight(below)
  }

  /** Every action is one towards the end. */
  lemma ActionLowers(stack: Stack, input: seq<Token>)
    ensures var a := Action(stack, input);
            && (a.Reduce? ==> Weight(a.stack) < Weight(stack))
            && (a.Shift? ==> input != [] && Weight(Push(Tok(input[0]), stack)) <= Weight(stack) + 2)
  {
    if stack.Push? && stack.below.Push? && stack.below.below.Push? {
      var two := stack.below.below;
      assert Weight(two) >= 1 + Weight(two.below);
      assert Weight(stack.below) >= 1 + Weight(two);
    }
  }

  function Run(stack: Stack, input: seq<Token>): Option<Expr>
    decreases 3 * |input| + Weight(stack)
  {
    ActionLowers(stack, input);
    match Action(stack, input)
    case Reduce(s) => Run(s, input)
    case Shift => Run(Push(Tok(input[0]), stack), input[1..])
    case Accept(e) => Some(e)
    case Reject => None
  }

  /** The loop of the parser, with its stack. */
  method Parse(input: seq<Token>) returns (r: Option<Expr>)
    ensures r == Run(Bottom, input)
  {
    var stack, pos := Bottom, 0;
    assert input[0..] == input;
    while true
      invariant pos <= |input| && Run(stack, input[pos..]) == Run(Bottom, input)
      decreases 3 * (|input| - pos) + Weight(stack)
    {
      ActionLowers(stack, input[pos..]);
      match Action(stack, input[pos..]) {
        case Reduce(s) => stack := s;
        case Shift =>
          assert input[pos..][1..] == input[pos + 1..];
          stack, pos := Push(Tok(input[pos]), stack), pos + 1;
        case Accept(e) => return Some(e);
        case Reject => return None;
      }
    }
  }

  // ----- the tree that comes back

  /** Operators of the same kind in a row associate to the left: the operands of `e` are put behind `acc`. */
  function Glue(op: Op, acc: Option<Expr>, e: Expr): Expr
    decreases e, 1
  {
    if e.Bin? && e.op == op then Glue(op, Some(Glue(op, acc, e.left)), e.right)
    else if acc.Some? then Bin(op, acc.value, Reassociate(e))
    else Reassociate(e)
  }

  function Reassociate(e: Expr): Expr
    decreases e, 0
  {
    match e
    case Sym(_) => e
    case Cmp(_, _, _) => e
    case Neg(a) => Neg(Reassociate(a))
    case Bin(op, l, r) => Glue(op, Some(Glue(op, None, l)), r)
  }

  /** Re-association does not change the value. */
  lemma {:induction false} GlueValue(op: Op, acc: Option<Expr>, e: Expr, env: Env)
    ensures Calc(Glue(op, acc, e), env) ==
            if acc.Some? then Apply(op, Calc(acc.value, env), Calc(e, env)) else Calc(e, env)
    decreases e, 1
  {
    if e.Bin? && e.op == op {
      GlueValue(op, acc, e.left, env);
      GlueValue(op, Some(Glue(op, acc, e.left)), e.right, env);
    } else {
      ReassociateValue(e, env);
    }
  }

  lemma {:induction false} ReassociateValue(e: Expr, env: Env)
    ensures Calc(Reassociate(e), env) == Calc(e, env)
    decreases e, 0
  {
    match e
    case Sym(_) =>
    case Cmp(_, _, _) =>
    case Neg(a) => ReassociateValue(a, env);
    case Bin(op, l, r) =>
      GlueValue(op, None, l, env);
      GlueValue(op, Some(Glue(op, None, l)), r, env);
  }

  // ----- printing and then parsing

  /** A stack on which an operand comes next, and what its operator is. */
  predicate Expecting(s: Stack) {
    match s
    case Bottom => true
    case Push(Tok(TOpen), _) => true
    case Push(Tok(TNot), _) => true
    case Push(Tok(TOp(_)), Push(Tree(_), _)) => true
    case _ => false
  }

  /** On this stack an operator of kind `op` is to the right of whatever comes next: nothing that binds as
      tightly is waiting for it. */
  predicate Loose(s: Stack, op: Op) {
    match s
    case Bottom => true
    case Push(Tok(TOpen), _) => true
    case Push(Tok(TOp(o)), Push(Tree(_), _)) => o.OpOr? && op.OpAnd?
    case _ => false
  }

  /** What may follow an operand: nothing that would still be part of it. */
  predicate EndsAtom(rest: seq<Token>) { rest == [] || rest[0].TOp? || rest[0].TClose? }

  predicate EndsOp(op: Op, rest: seq<Token>) {
    EndsAtom(rest) && (op.OpOr? ==> !Ahead(rest, TOp(OpAnd)))
  }

  /** The stack below an accumulated operand and its operator. */
  function WithAcc(s: Stack, op: Op, acc: Option<Expr>): Stack {
    if acc.Some? then Push(Tok(TOp(op)), Push(Tree(acc.value), s)) else s
  }

  lemma Shifted(s: Stack, input: seq<Token>, rest: seq<Token>, t: Token)
    requires input == [t] + rest && Action(s, input).Shift?
    ensures Run(s, input) == Run(Push(Tok(t), s), rest)
  {
    assert input[1..] == rest;
  }

  lemma Reduced(s: Stack, input: seq<Token>, t: Stack)
    requires Action(s, input) == Reduce(t)
    ensures Run(s, input) == Run(t, input)
  {
  }

  /** An operand that is not an operator, or is in parentheses. */
  lemma {:induction false} RunAtom(s: Stack, e: Expr, above: Above, rest: seq<Token>)
    requires Expecting(s) && EndsAtom(rest) && (!e.Bin? || NeedsParens(above, e))
    ensures Run(s, Print(e, above) + rest) == Run(Push(Tree(Reassociate(e)), s), rest)
    decreases e, 1, 0
  {
    match e {
      case Sym(n) =>
        Shifted(s, [TName(n)] + rest, rest, TName(n));
        Reduced(Push(Tok(TName(n)), s), rest, Push(Tree(e), s));
      case Cmp(rel, l, r) => RunComparison(s, rel, l, r, rest);
      case Neg(a) =>
        var t := Push(Tok(TNot), s);
        var input := Print(a, NotAbove) + rest;
        assert Print(e, above) + rest == [TNot] + input;
        Shifted(s, [TNot] + input, input, TNot);
        RunAtom(t, a, NotAbove, rest);
        Reduced(Push(Tree(Reassociate(a)), t), rest, Push(Tree(Reassociate(e)), s));
      case Bin(op, l, r) =>
        var t := Push(Tok(TOpen), s);
        var after := [TClose] + rest;
        assert Print(e, above) + rest == [TOpen] + (PrintBody(e) + after);
        Shifted(s, [TOpen] + (PrintBody(e) + after), PrintBody(e) + after, TOpen);
        RunOp(t, op, None, e, after);
        var tree := Push(Tree(Reassociate(e)), t);
        Shifted(tree, after, rest, TClose);
        Reduced(Push(Tok(TClose), tree), rest, Push(Tree(Reassociate(e)), s));
    }
  }

  lemma RunComparison(s: Stack, rel: Rel, l: Symbol, r: Symbol, rest: seq<Token>)
    requires Expecting(s)
    ensures Run(s, [TName(l), TRel(rel), TName(r)] + rest) == Run(Push(Tree(Cmp(rel, l, r)), s), rest)
  {
    var two := [TName(r)] + rest;
    var one := [TRel(rel)] + two;
    assert [TName(l), TRel(rel), TName(r)] + rest == [TName(l)] + one;
    Shifted(s, [TName(l)] + one, one, TName(l));
    Shifted(Push(Tok(TName(l)), s), one, two, TRel(rel));
    var t := Push(Tok(TRel(rel)), Push(Tok(TName(l)), s));
    Shifted(t, two, rest, TName(r));
    Reduced(Push(Tok(TName(r)), t), rest, Push(Tree(Cmp(rel, l, r)), s));
  }

  /** A row of operands of one kind of operator, behind the operands before it. */
  lemma {:induction false} RunOp(s: Stack, op: Op, acc: Option<Expr>, e: Expr, rest: seq<Token>)
    requires Loose(s, op) && EndsOp(op, rest)
    ensures Run(WithAcc(s, op, acc), Print(e, OpAbove(op)) + rest) == Run(Push(Tree(Glue(op, acc, e)), s), rest)
    decreases e, if e.Bin? && e.op == op then 0 else 2, 0
  {
    var t := WithAcc(s, op, acc);
    if e.Bin? && e.op == op {
      var right := Print(e.right, OpAbove(op)) + rest;
      var middle := [TOp(op)] + right;
      assert Print(e, OpAbove(op)) + rest == Print(e.left, OpAbove(op)) + middle;
      RunOp(s, op, acc, e.left, middle);
      var left := Glue(op, acc, e.left);
      Shifted(Push(Tree(left), s), middle, right, TOp(op));
      RunOp(s, op, Some(left), e.right, rest);
    } else {
      if op.OpOr? && e.Bin? {
        RunOp(t, OpAnd, None, e, rest);
      } else {
        RunAtom(t, e, OpAbove(op), rest);
      }
      if acc.Some? {
        Reduced(Push(Tree(Reassociate(e)), t), rest, Push(Tree(Glue(op, acc, e)), s));
      }
    }
  }

  /** Printing and parsing give the same tree up to re-association, and hence the same value. */
  lemma PrintParse(e: Expr, env: Env)
    ensures Run(Bottom, Print(e, NoneAbove)) == Some(Reassociate(e))
    ensures Calc(Reassociate(e), env) == Calc(e, env)
  {
    var tokens := Print(e, NoneAbove);
    assert tokens + [] == tokens;
    if e.Bin? {
      RunOp(Bottom, e.op, None, e, []);
      assert Print(e, OpAbove(e.op)) == tokens;
    } else {
      RunAtom(Bottom, e, NoneAbove, []);
    }
    ReassociateValue(e, env);
  }

  /** The same for conditions that may be missing: what is printed for them is parsed as a condition of the same
      value. */
  lemma PrintParseOpt(e: Option<Expr>, env: Env)
    ensures var parsed := Run(Bottom, PrintOpt(e)); parsed.Some? && CalcOpt(parsed, env) == CalcOpt(e, env)
  {
    PrintParse(if e.Some? then e.value else Sym(SymYes), env);
  }

  /** The tree that comes back prints as the same tokens, so printing and parsing once more changes nothing. */
  lemma {:induction false} PrintGlue(op: Op, acc: Option<Expr>, e: Expr)
    ensures var g := Glue(op, acc, e);
            Print(g, OpAbove(op)) ==
            if acc.Some? then Print(acc.value, OpAbove(op)) + [TOp(op)] + Print(e, OpAbove(op))
            else Print(e, OpAbove(op))
    ensures acc.Some? || (e.Bin? && e.op == op) ==> Glue(op, acc, e).Bin? && Glue(op, acc, e).op == op
    decreases e, 1
  {
    if e.Bin? && e.op == op {
      PrintGlue(op, acc, e.left);
      PrintGlue(op, Some(Glue(op, acc, e.left)), e.right);
      if acc.Some? {
        Concat3(Print(acc.value, OpAbove(op)) + [TOp(op)], Print(e.left, OpAbove(op)), [TOp(op)],
          Print(e.right, OpAbove(op)));
      }
    } else {
      PrintReassociate(e, OpAbove(op));
    }
  }

  lemma Concat3(a: seq<Token>, b: seq<Token>, c: seq<Token>, d: seq<Token>)
    ensures (a + b) + c + d == a + (b + c + d)
  {
  }

  lemma {:induction false} PrintReassociate(e: Expr, above: Above)
    ensures Print(Reassociate(e), above) == Print(e, above)
    ensures Reassociate(e).Bin? == e.Bin? && (e.Bin? ==> Reassociate(e).op == e.op)
    decreases e, 0
  {
    match e
    case Sym(_) =>
    case Cmp(_, _, _) =>
    case Neg(a) => PrintReassociate(a, NotAbove);
    case Bin(op, l, r) =>
      PrintGlue(op, None, l);
      PrintGlue(op, Some(Glue(op, None, l)), r);
      assert Print(Reassociate(e), OpAbove(op)) == Print(e, OpAbove(op));
  }

  // ----- precedence, and which parentheses are printed

  function Bracketed(brackets: bool, tokens: seq<Token>): seq<Token> {
    if brackets then [TOpen] + tokens + [TClose] else tokens
  }

  predicate IsOr(e: Expr) { e.Bin? && e.op.OpOr? }

  lemma OrParts(l: Expr, r: Expr)
    ensures Print(Disj(l, r), NoneAbove) == Print(l, NoneAbove) + [TOp(OpOr)] + Print(r, NoneAbove)
  {
    assert Print(l, OpAbove(OpOr)) == Print(l, NoneAbove) && Print(r, OpAbove(OpOr)) == Print(r, NoneAbove);
  }

  lemma AndParts(l: Expr, r: Expr)
    ensures Print(Conj(l, r), NoneAbove) ==
            Bracketed(IsOr(l), Print(l, NoneAbove)) + [TOp(OpAnd)] + Bracketed(IsOr(r), Print(r, NoneAbove))
  {
    assert Print(l, OpAbove(OpAnd)) == Bracketed(IsOr(l), Print(l, NoneAbove));
    assert Print(r, OpAbove(OpAnd)) == Bracketed(IsOr(r), Print(r, NoneAbove));
  }

  /** Operands of || are printed without parentheses; of those of &&, exactly the ones that are || get them; and after !
      exactly operators do. */
  lemma PrintParts(l: Expr, r: Expr)
    ensures Print(Disj(l, r), NoneAbove) == Print(l, NoneAbove) + [TOp(OpOr)] + Print(r, NoneAbove)
    ensures Print(Conj(l, r), NoneAbove) ==
            Bracketed(IsOr(l), Print(l, NoneAbove)) + [TOp(OpAnd)] + Bracketed(IsOr(r), Print(r, NoneAbove))
    ensures Print(Neg(l), NoneAbove) == [TNot] + Bracketed(l.Bin?, Print(l, NoneAbove))
  {
    OrParts(l, r);
    AndParts(l, r);
    assert Print(l, NotAbove) == Bracketed(l.Bin?, Print(l, NoneAbove));
  }

  /** What prints as these tokens is what they are parsed as, up to re-association. */
  lemma ParsedAs(e: Expr, tokens: seq<Token>)
    requires Print(e, NoneAbove) == tokens && Reassociate(e) == e
    ensures Run(Bottom, tokens) == Some(e)
  {
    hide Run, Print, Reassociate;
    PrintParse(e, Env(map[], map[], YES));
  }

  lemma NamePrinted(s: Symbol)
    ensures Print(Sym(s), NoneAbove) == [TName(s)] && Reassociate(Sym(s)) == Sym(s)
  {
  }

  /** A tree that already associates to the left. */
  lemma Steady(op: Op, l: Expr, r: Expr)
    requires Reassociate(l) == l && Reassociate(r) == r && !(r.Bin? && r.op == op)
    ensures Reassociate(Bin(op, l, r)) == Bin(op, l, r)
  {
    assert Glue(op, None, l) == Reassociate(l);
    assert Glue(op, Some(l), r) == Bin(op, l, Reassociate(r));
  }

  lemma SteadyNot(e: Expr)
    requires Reassociate(e) == e
    ensures Reassociate(Neg(e)) == Neg(e)
  {
  }

  /** && binds tighter than ||, whichever comes first, */
  lemma OrThenAnd(a: Symbol, b: Symbol, c: Symbol)
    ensures Run(Bottom, [TName(a), TOp(OpOr), TName(b), TOp(OpAnd), TName(c)]) ==
            Some(Disj(Sym(a), Conj(Sym(b), Sym(c))))
  {
    var e := Disj(Sym(a), Conj(Sym(b), Sym(c)));
    hide Run, Print, Reassociate;
    PrintParts(Sym(a), Conj(Sym(b), Sym(c)));
    PrintParts(Sym(b), Sym(c));
    NamePrinted(a);
    NamePrinted(b);
    NamePrinted(c);
    Steady(OpAnd, Sym(b), Sym(c));
    Steady(OpOr, Sym(a), Conj(Sym(b), Sym(c)));
    ParsedAs(e, [TName(a), TOp(OpOr), TName(b), TOp(OpAnd), TName(c)]);
  }

  lemma AndThenOr(a: Symbol, b: Symbol, c: Symbol)
    ensures Run(Bottom, [TName(a), TOp(OpAnd), TName(b), TOp(OpOr), TName(c)]) ==
            Some(Disj(Conj(Sym(a), Sym(b)), Sym(c)))
  {
    var e := Disj(Conj(Sym(a), Sym(b)), Sym(c));
    hide Run, Print, Reassociate;
    PrintParts(Conj(Sym(a), Sym(b)), Sym(c));
    PrintParts(Sym(a), Sym(b));
    NamePrinted(a);
    NamePrinted(b);
    NamePrinted(c);
    Steady(OpAnd, Sym(a), Sym(b));
    Steady(OpOr, Conj(Sym(a), Sym(b)), Sym(c));
    ParsedAs(e, [TName(a), TOp(OpAnd), TName(b), TOp(OpOr), TName(c)]);
  }

  /** unless there are parentheses; */
  lemma OrInParentheses(a: Symbol, b: Symbol, c: Symbol)
    ensures Run(Bottom, [TOpen, TName(a), TOp(OpOr), TName(b), TClose, TOp(OpAnd), TName(c)]) ==
            Some(Conj(Disj(Sym(a), Sym(b)), Sym(c)))
  {
    var e := Conj(Disj(Sym(a), Sym(b)), Sym(c));
    hide Run, Print, Reassociate;
    PrintParts(Disj(Sym(a), Sym(b)), Sym(c));
    PrintParts(Sym(a), Sym(b));
    NamePrinted(a);
    NamePrinted(b);
    NamePrinted(c);
    Steady(OpOr, Sym(a), Sym(b));
    Steady(OpAnd, Disj(Sym(a), Sym(b)), Sym(c));
    ParsedAs(e, [TOpen, TName(a), TOp(OpOr), TName(b), TClose, TOp(OpAnd), TName(c)]);
  }

  /** ! binds tighter than both, */
  lemma NotThenOperator(a: Symbol, b: Symbol, op: Op)
    ensures Run(Bottom, [TNot, TName(a), TOp(op), TName(b)]) == Some(Bin(op, Neg(Sym(a)), Sym(b)))
  {
    var e := Bin(op, Neg(Sym(a)), Sym(b));
    hide Run, Print, Reassociate;
    PrintParts(Neg(Sym(a)), Sym(b));
    PrintParts(Sym(a), Sym(b));
    NamePrinted(a);
    NamePrinted(b);
    SteadyNot(Sym(a));
    Steady(op, Neg(Sym(a)), Sym(b));
    ParsedAs(e, [TNot, TName(a), TOp(op), TName(b)]);
  }

  /** comparisons tighter still, */
  lemma NotThenComparison(a: Symbol, b: Symbol, rel: Rel)
    ensures Run(Bottom, [TNot, TName(a), TRel(rel), TName(b)]) == Some(Neg(Cmp(rel, a, b)))
  {
    PrintParts(Cmp(rel, a, b), Sym(b));
    ParsedAs(Neg(Cmp(rel, a, b)), [TNot, TName(a), TRel(rel), TName(b)]);
  }

  /** and rows associate to the left. */
  lemma LeftToRight(a: Symbol, b: Symbol, c: Symbol, op: Op)
    ensures Run(Bottom, [TName(a), TOp(op), TName(b), TOp(op), TName(c)]) ==
            Some(Bin(op, Bin(op, Sym(a), Sym(b)), Sym(c)))
  {
    var e := Bin(op, Bin(op, Sym(a), Sym(b)), Sym(c));
    hide Run, Print, Reassociate;
    PrintParts(Bin(op, Sym(a), Sym(b)), Sym(c));
    PrintParts(Sym(a), Sym(b));
    NamePrinted(a);
    NamePrinted(b);
    NamePrinted(c);
    Steady(op, Sym(a), Sym(b));
    Steady(op, Bin(op, Sym(a), Sym(b)), Sym(c));
    ParsedAs(e, [TName(a), TOp(op), TName(b), TOp(op), TName(c)]);
  }

  // ----- what any accepted input has to do with its tree

  /** The tokens of a tree from left to right, without parentheses. */
  function Fringe(e: Expr): seq<Token> {
    match e
    case Sym(s) => [TName(s)]
    case Cmp(rel, l, r) => [TName(l), TRel(rel), TName(r)]
    case Neg(a) => [TNot] + Fringe(a)
    case Bin(op, l, r) => Fringe(l) + [TOp(op)] + Fringe(r)
  }

  function Bare(t: Token): seq<Token> { if t.TOpen? || t.TClose? then [] else [t] }

  function WithoutParens(tokens: seq<Token>): seq<Token> {
    if tokens == [] then [] else Bare(tokens[0]) + WithoutParens(tokens[1..])
  }

  function StackFringe(s: Stack): seq<Token> {
    match s
    case Bottom => []
    case Push(Tok(t), below) => StackFringe(below) + Bare(t)
    case Push(Tree(e), below) => StackFringe(below) + Fringe(e)
  }

  lemma ReduceKeepsFringe(s: Stack, input: seq<Token>)
    ensures Action(s, input).Reduce? ==> StackFringe(Action(s, input).stack) == StackFringe(s)
  {
    match s
    case Push(Tok(TName(r)), Push(Tok(TRel(rel)), Push(Tok(TName(l)), rest))) =>
      assert StackFringe(s.below.below) == StackFringe(rest) + [TName(l)];
      assert StackFringe(s.below) == StackFringe(s.below.below) + [TRel(rel)];
    case Push(Tree(e), Push(Tok(TOp(op)), Push(Tree(l), rest))) =>
      assert StackFringe(s.below.below) == StackFringe(rest) + Fringe(l);
      assert StackFringe(s.below) == StackFringe(s.below.below) + [TOp(op)];
    case Push(Tree(e), Push(Tok(TNot), rest)) =>
      assert StackFringe(s.below) == StackFringe(rest) + [TNot];
    case Push(Tok(TClose), Push(Tree(e), Push(Tok(TOpen), rest))) =>
      assert StackFringe(s.below.below) == StackFringe(rest) + [];
      assert StackFringe(s.below) == StackFringe(s.below.below) + Fringe(e);
    case _ =>
  }

  /** The parser drops, invents and reorders nothing: the tree holds exactly the tokens of the input in their order,
      except for the parentheses. */
  lemma {:induction false} ParseKeepsTokens(s: Stack, input: seq<Token>)
    ensures Run(s, input).Some? ==> Fringe(Run(s, input).value) == StackFringe(s) + WithoutParens(input)
    decreases 3 * |input| + Weight(s)
  {
    ActionLowers(s, input);
    match Action(s, input)
    case Reduce(t) =>
      ReduceKeepsFringe(s, input);
      ParseKeepsTokens(t, input);
    case Shift =>
      ParseKeepsTokens(Push(Tok(input[0]), s), input[1..]);
      assert StackFringe(s) + (Bare(input[0]) + WithoutParens(input[1..])) ==
             (StackFringe(s) + Bare(input[0])) + WithoutParens(input[1..]);
    case Accept(e) => assert [] + Fringe(e) + [] == Fringe(e);
    case Reject =>
  }

  function Nesting(t: Token): int { if t.TOpen? then 1 else if t.TClose? then -1 else 0 }

  /** Open parentheses minus closing ones. */
  function Balance(tokens: seq<Token>): int {
    if tokens == [] then 0 else Nesting(tokens[0]) + Balance(tokens[1..])
  }

  function StackBalance(s: Stack): int {
    match s
    case Bottom => 0
    case Push(Tok(t), below) => StackBalance(below) + Nesting(t)
    case Push(Tree(_), below) => StackBalance(below)
  }

  /** And the parentheses of an accepted input are balanced. */
  lemma {:induction false} ParseBalanced(s: Stack, input: seq<Token>)
    ensures Run(s, input).Some? ==> StackBalance(s) + Balance(input) == 0
    decreases 3 * |input| + Weight(s)
  {
    ActionLowers(s, input);
    match Action(s, input)
    case Reduce(t) =>
      ReduceKeepsBalance(s, input);
      ParseBalanced(t, input);
    case Shift => ParseBalanced(Push(Tok(input[0]), s), input[1..]);
    case Accept(_) =>
    case Reject =>
  }

  lemma ReduceKeepsBalance(s: Stack, input: seq<Token>)
    ensures Action(s, input).Reduce? ==> StackBalance(Action(s, input).stack) == StackBalance(s)
  {
    match s
    case Push(Tok(TName(r)), Push(Tok(TRel(rel)), Push(Tok(TName(l)), rest))) =>
      assert StackBalance(s.below.below) == StackBalance(rest);
    case Push(Tree(e), Push(Tok(TOp(op)), Push(Tree(l), rest))) =>
      assert StackBalance(s.below.below) == StackBalance(rest);
    case Push(Tok(TClose), Push(Tree(e), Push(Tok(TOpen), rest))) =>
      assert StackBalance(s.below.below) == StackBalance(rest) + 1;
      assert StackBalance(s.below) == StackBalance(s.below.below);
    case _ =>
  }
}
