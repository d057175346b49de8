/**
 Printing expressions (`expr_str`) and parsing them (`_parse_expr`), on tokens.
 */
module ExprSyntax {
  import opened Expressions

  datatype Token = SymTok(atom: Atom) | RelTok(rel: Relation) | AndTok | OrTok | NotTok | Open | Close | OtherTok

  // ----- Printing -----

  function Parens(ts: seq<Token>): seq<Token> { [Open] + ts + [Close] }

  /** `expr_str` */
  function Print(e: Expr): seq<Token>
    decreases e, 0
  {
    match e
    case Leaf(a) => [SymTok(a)]
    case Mode(_) => [OtherTok]
    case And(l, r) => PrintInAnd(l) + [AndTok] + PrintInAnd(r)
    case Or(l, r) => PrintInOr(l) + [OrTok] + PrintInOr(r)
    case Not(x) => [NotTok] + if x.Leaf? then Print(x) else Parens(Print(x))
    case Cmp(rel, a, b) => [SymTok(a), RelTok(rel), SymTok(b)]
  }

  /** `_parenthesize(e, OR)` */
  function PrintInAnd(e: Expr): seq<Token>
    decreases e, 1
  {
    if e.Or? then Parens(Print(e)) else Print(e)
  }

  /** `_parenthesize(e, AND)` */
  function PrintInOr(e: Expr): seq<Token>
    decreases e, 1
  {
    if e.And? then Parens(Print(e)) else Print(e)
  }

  // ----- Parsing -----

  /** A parsed expression and the tokens after it. */
  datatype Parsed = Parsed(expr: Expr, rest: seq<Token>)

  /** Outside relations, m stands for `m && MODULES` if `modules` is given. */
  function PlainSymbol(a: Atom, modules: Option<SymId>): Expr {
    if a == TriConst(1) && modules.Some? then And(M, Leaf(Sym(modules.value))) else Leaf(a)
  }

  /** expr: and_expr ['||' expr] */
  function ParseExpr(ts: seq<Token>, modules: Option<SymId>): (p: Option<Parsed>)
    ensures p.Some? ==> |p.value.rest| < |ts|
    decreases |ts|, 2
  {
    match ParseAnd(ts, modules)
    case None => None
    case Some(left) =>
      if left.rest == [] || left.rest[0] != OrTok then Some(left)
      else match ParseExpr(left.rest[1..], modules)
        case None => None
        case Some(right) => Some(Parsed(Or(left.expr, right.expr), right.rest))
  }

  /** and_expr: factor ['&&' and_expr] */
  function ParseAnd(ts: seq<Token>, modules: Option<SymId>): (p: Option<Parsed>)
    ensures p.Some? ==> |p.value.rest| < |ts|
    decreases |ts|, 1
  {
    match ParseFactor(ts, modules)
    case None => None
    case Some(left) =>
      if left.rest == [] || left.rest[0] != AndTok then Some(left)
      else match ParseAnd(left.rest[1..], modules)
        case None => None
        case Some(right) => Some(Parsed(And(left.expr, right.expr), right.rest))
  }

  /** factor: symbol [relation symbol] | '!' factor | '(' expr ')' */
  function ParseFactor(ts: seq<Token>, modules: Option<SymId>): (p: Option<Parsed>)
    ensures p.Some? ==> |p.value.rest| < |ts|
    decreases |ts|, 0
  {
    if ts == [] then None
    else match ts[0]
      case SymTok(a) =>
        if |ts| < 2 || !ts[1].RelTok? then Some(Parsed(PlainSymbol(a, modules), ts[1..]))
        else if |ts| < 3 || !ts[2].SymTok? then None
        else Some(Parsed(Cmp(ts[1].rel, a, ts[2].atom), ts[3..]))
      case NotTok =>
        (match ParseFactor(ts[1..], modules)
         case None => None
         case Some(x) => Some(Parsed(Not(x.expr), x.rest)))
      case Open =>
        (match ParseExpr(ts[1..], modules)
         case None => None
         case Some(x) => if x.rest != [] && x.rest[0] == Close then Some(Parsed(x.expr, x.rest[1..])) else None)
      case _ => None
  }

  /** The parser, which advances an index into the tokens of the line. */
  class Parser {
    const tokens: seq<Token>
    const modules: Option<SymId>
    var i: nat

    constructor (ts: seq<Token>, m: Option<SymId>)
      ensures tokens == ts && modules == m && i == 0
    {
      tokens, modules, i := ts, m, 0;
    }

    predicate At(t: Token)
      reads this
    {
      i < |tokens| && tokens[i] == t
    }

    /** `_check_token` */
    method CheckToken(t: Token) returns (found: bool)
      modifies this
      ensures found == old(At(t)) && i == old(i) + if found then 1 else 0
    {
      found := i < |tokens| && tokens[i] == t;
      if found { i := i + 1; }
    }

    /** A parse error leaves the parser anywhere. */
    ghost predicate Agrees(r: Option<Expr>, p: Option<Parsed>)
      reads this
    {
      if r.None? then p.None? else i <= |tokens| && p == Some(Parsed(r.value, tokens[i..]))
    }

    method Expression() returns (r: Option<Expr>)
      requires i <= |tokens|
      modifies this
      ensures Agrees(r, ParseExpr(old(tokens[i..]), modules))
      decreases |tokens| - i, 2
    {
      hide ParseExpr, ParseAnd;
      ghost var ts := tokens[i..];
      var left := Conjunction();
      if left.None? {
        OrFails(ts, modules);
        return None;
      }
      ghost var after := tokens[i..];
      OrStep(ts, Parsed(left.value, after), modules);
      var more := CheckToken(OrTok);
      if !more { return left; }
      assert after[1..] == tokens[i..];
      var right := Expression();
      if right.None? { return None; }
      r := Some(Or(left.value, right.value));
    }

    method Conjunction() returns (r: Option<Expr>)
      requires i <= |tokens|
      modifies this
      ensures Agrees(r, ParseAnd(old(tokens[i..]), modules)) && (r.Some? ==> i > old(i))
      decreases |tokens| - i, 1
    {
      hide ParseAnd, ParseFactor;
      ghost var ts := tokens[i..];
      var left := Factor();
      if left.None? {
        AndFails(ts, modules);
        return None;
      }
      ghost var after := tokens[i..];
      AndStep(ts, Parsed(left.value, after), modules);
      var more := CheckToken(AndTok);
      if !more { return left; }
      assert after[1..] == tokens[i..];
      var right := Conjunction();
      if right.None? { return None; }
      r := Some(And(left.value, right.value));
    }

    method Factor() returns (r: Option<Expr>)
      requires i <= |tokens|
      modifies this
      ensures Agrees(r, ParseFactor(old(tokens[i..]), modules)) && (r.Some? ==> i > old(i))
      decreases |tokens| - i, 0
    {
      hide ParseExpr, ParseFactor;
      ghost var ts := tokens[i..];
      FactorStep(ts, modules);
      if i == |tokens| { return None; }
      var t := tokens[i];
      i := i + 1;
      assert ts[0] == t && ts[1..] == tokens[i..];
      if t.SymTok? {
        assert |ts| > 1 ==> ts[1] == tokens[i];
        if i == |tokens| || !tokens[i].RelTok? { return Some(PlainSymbol(t.atom, modules)); }
        i := i + 1;
        assert |ts| > 2 ==> ts[2] == tokens[i];
        if i == |tokens| || !tokens[i].SymTok? { return None; }
        i := i + 1;
        assert ts[3..] == tokens[i..];
        return Some(Cmp(tokens[i - 2].rel, t.atom, tokens[i - 1].atom));
      }
      if t == NotTok {
        var x := Factor();
        return if x.Some? then Some(Not(x.value)) else None;
      }
      if t == Open {
        var x := Expression();
        if x.None? { return None; }
        ghost var after := tokens[i..];
        var closed := CheckToken(Close);
        if closed {
          assert after[1..] == tokens[i..];
          return x;
        }
      }
      return None;
    }
  }

  /** One unfolding of a factor. */
  lemma FactorStep(ts: seq<Token>, modules: Option<SymId>)
    ensures ParseFactor(ts, modules) ==
            if ts == [] then None
            else if ts[0].SymTok? then
              if |ts| < 2 || !ts[1].RelTok? then Some(Parsed(PlainSymbol(ts[0].atom, modules), ts[1..]))
              else if |ts| < 3 || !ts[2].SymTok? then None
              else Some(Parsed(Cmp(ts[1].rel, ts[0].atom, ts[2].atom), ts[3..]))
            else if ts[0] == NotTok then
              var x := ParseFactor(ts[1..], modules);
              if x.None? then None else Some(Parsed(Not(x.value.expr), x.value.rest))
            else if ts[0] == Open then
              var x := ParseExpr(ts[1..], modules);
              if x.Some? && x.value.rest != [] && x.value.rest[0] == Close
              then Some(Parsed(x.value.expr, x.value.rest[1..])) else None
            else None
  {
  }

  // ----- What is left is the end of the tokens -----

  ghost predicate IsEnd(rest: seq<Token>, ts: seq<Token>) {
    |rest| <= |ts| && rest == ts[|ts| - |rest|..]
  }

  lemma EndOfEnd(a: seq<Token>, b: seq<Token>, c: seq<Token>, n: nat)
    requires n <= |b| && IsEnd(a, b[n..]) && IsEnd(b, c)
    ensures IsEnd(a, c)
  {
    assert b[n..] == c[|c| - |b| + n..];
  }

  lemma {:induction false} ExprLeavesEnd(ts: seq<Token>, modules: Option<SymId>)
    ensures ParseExpr(ts, modules).Some? ==> IsEnd(ParseExpr(ts, modules).value.rest, ts)
    decreases |ts|, 2
  {
    AndLeavesEnd(ts, modules);
    hide IsEnd, ParseAnd;
    var left := ParseAnd(ts, modules);
    if left.Some? && left.value.rest != [] && left.value.rest[0] == OrTok {
      ExprLeavesEnd(left.value.rest[1..], modules);
      var right := ParseExpr(left.value.rest[1..], modules);
      if right.Some? { EndOfEnd(right.value.rest, left.value.rest, ts, 1); }
    }
  }

  lemma {:induction false} AndLeavesEnd(ts: seq<Token>, modules: Option<SymId>)
    ensures ParseAnd(ts, modules).Some? ==> IsEnd(ParseAnd(ts, modules).value.rest, ts)
    decreases |ts|, 1
  {
    FactorLeavesEnd(ts, modules);
    hide IsEnd, ParseFactor;
    var left := ParseFactor(ts, modules);
    if left.Some? && left.value.rest != [] && left.value.rest[0] == AndTok {
      AndLeavesEnd(left.value.rest[1..], modules);
      var right := ParseAnd(left.value.rest[1..], modules);
      if right.Some? { EndOfEnd(right.value.rest, left.value.rest, ts, 1); }
    }
  }

  lemma {:induction false} FactorLeavesEnd(ts: seq<Token>, modules: Option<SymId>)
    ensures ParseFactor(ts, modules).Some? ==> IsEnd(ParseFactor(ts, modules).value.rest, ts)
    decreases |ts|, 0
  {
    FactorStep(ts, modules);
    hide ParseFactor, ParseExpr;
    if ts != [] {
      assert IsEnd(ts, ts);
      if ts[0] == NotTok {
        FactorLeavesEnd(ts[1..], modules);
        var x := ParseFactor(ts[1..], modules);
        if x.Some? { EndOfEnd(x.value.rest, ts, ts, 1); }
      } else if ts[0] == Open {
        ExprLeavesEnd(ts[1..], modules);
        var x := ParseExpr(ts[1..], modules);
        if x.Some? {
          EndOfEnd(x.value.rest, ts, ts, 1);
          if x.value.rest != [] { EndOfEnd(x.value.rest[1..], x.value.rest, ts, 1); }
        }
      }
    }
  }

  // ----- Normal form -----

  /** What parsing the printed expression gives: chains of && and || associate to the right. */
  function Normal(e: Expr, modules: Option<SymId>): Expr
    decreases e, 0
  {
    match e
    case Leaf(a) => PlainSymbol(a, modules)
    case Mode(_) => e
    case And(l, r) => AndThen(l, Normal(r, modules), modules)
    case Or(l, r) => OrElse(l, Normal(r, modules), modules)
    case Not(x) => Not(Normal(x, modules))
    case Cmp(_, _, _) => e
  }

  function AndThen(e: Expr, t: Expr, modules: Option<SymId>): Expr
    decreases e, 1
  {
    if e.And? then AndThen(e.left, AndThen(e.right, t, modules), modules) else And(Normal(e, modules), t)
  }

  function OrElse(e: Expr, t: Expr, modules: Option<SymId>): Expr
    decreases e, 1
  {
    if e.Or? then OrElse(e.left, OrElse(e.right, t, modules), modules) else Or(Normal(e, modules), t)
  }

  // ----- Parsing inverts printing -----

  /** Tokens that cannot continue an expression. */
  predicate Ends(rest: seq<Token>) {
    rest == [] || !(rest[0].RelTok? || rest[0] == AndTok || rest[0] == OrTok)
  }

  predicate NoRelation(rest: seq<Token>) { rest == [] || !rest[0].RelTok? }

  function PrintFactor(e: Expr): seq<Token> {
    if e.And? || e.Or? then Parens(Print(e)) else Print(e)
  }

  /** The operand of a negation: everything but a symbol is parenthesised. */
  function PrintOperand(x: Expr): seq<Token> {
    if x.Leaf? then Print(x) else Parens(Print(x))
  }

  lemma {:induction false} FactorRoundTrip(e: Expr, rest: seq<Token>, modules: Option<SymId>)
    requires ChoicesIn(e) == {} && NoRelation(rest)
    ensures ParseFactor(PrintFactor(e) + rest, modules) == Some(Parsed(Normal(e, modules), rest))
    decreases e, 3
  {
    if e.And? || e.Or? {
      ParensRoundTrip(e, rest, modules);
    } else {
      SimpleRoundTrip(e, rest, modules);
    }
  }

  lemma {:induction false} OperandRoundTrip(x: Expr, rest: seq<Token>, modules: Option<SymId>)
    requires ChoicesIn(x) == {} && NoRelation(rest)
    ensures ParseFactor(PrintOperand(x) + rest, modules) == Some(Parsed(Normal(x, modules), rest))
    decreases x, 4
  {
    if x.Leaf? {
      SimpleRoundTrip(x, rest, modules);
    } else {
      ParensRoundTrip(x, rest, modules);
    }
  }

  lemma {:induction false} ParensRoundTrip(e: Expr, rest: seq<Token>, modules: Option<SymId>)
    requires ChoicesIn(e) == {}
    ensures ParseFactor(Parens(Print(e)) + rest, modules) == Some(Parsed(Normal(e, modules), rest))
    decreases e, 2
  {
    hide ParseExpr, ParseAnd, Print, Normal;
    var ts := Parens(Print(e)) + rest;
    assert ts[0] == Open && ts[1..] == Print(e) + ([Close] + rest);
    ExprRoundTrip(e, [Close] + rest, modules);
    assert ([Close] + rest)[1..] == rest;
  }

  // One unfolding of each definition, for the chains below.

  lemma AndStep(ts: seq<Token>, left: Parsed, modules: Option<SymId>)
    requires ParseFactor(ts, modules) == Some(left)
    ensures left.rest == [] || left.rest[0] != AndTok ==> ParseAnd(ts, modules) == Some(left)
    ensures left.rest != [] && left.rest[0] == AndTok ==>
              ParseAnd(ts, modules) == (match ParseAnd(left.rest[1..], modules)
                                        case None => None
                                        case Some(right) => Some(Parsed(And(left.expr, right.expr), right.rest)))
  {
    hide ParseFactor, ParseExpr;
  }

  lemma AndFails(ts: seq<Token>, modules: Option<SymId>)
    requires ParseFactor(ts, modules).None?
    ensures ParseAnd(ts, modules).None?
  {
  }

  lemma OrFails(ts: seq<Token>, modules: Option<SymId>)
    requires ParseAnd(ts, modules).None?
    ensures ParseExpr(ts, modules).None?
  {
  }

  lemma OrStep(ts: seq<Token>, left: Parsed, modules: Option<SymId>)
    requires ParseAnd(ts, modules) == Some(left)
    ensures left.rest == [] || left.rest[0] != OrTok ==> ParseExpr(ts, modules) == Some(left)
    ensures left.rest != [] && left.rest[0] == OrTok ==>
              ParseExpr(ts, modules) == (match ParseExpr(left.rest[1..], modules)
                                         case None => None
                                         case Some(right) => Some(Parsed(Or(left.expr, right.expr), right.rest)))
  {
    hide ParseAnd, ParseFactor;
  }

  lemma PrintSteps(e: Expr)
    ensures if e.And? then PrintInAnd(e) == Print(e) == PrintInAnd(e.left) + [AndTok] + PrintInAnd(e.right)
            else PrintInAnd(e) == PrintFactor(e)
    ensures if e.Or? then PrintInOr(e) == Print(e) == PrintInOr(e.left) + [OrTok] + PrintInOr(e.right)
            else PrintInOr(e) == PrintFactor(e)
    ensures !e.And? && !e.Or? ==> Print(e) == PrintFactor(e)
  {
  }

  lemma NormalStep(e: Expr, modules: Option<SymId>)
    ensures e.And? ==> Normal(e, modules) == AndThen(e.left, Normal(e.right, modules), modules)
    ensures e.Or? ==> Normal(e, modules) == OrElse(e.left, Normal(e.right, modules), modules)
  {
  }

  lemma ChainSteps(e: Expr, t: Expr, modules: Option<SymId>)
    ensures AndThen(e, t, modules) == if e.And? then AndThen(e.left, AndThen(e.right, t, modules), modules)
            else And(Normal(e, modules), t)
    ensures OrElse(e, t, modules) == if e.Or? then OrElse(e.left, OrElse(e.right, t, modules), modules)
            else Or(Normal(e, modules), t)
  {
  }

  lemma Reassociate(a: seq<Token>, t: Token, b: seq<Token>, rest: seq<Token>)
    ensures (a + [t] + b) + rest == a + ([t] + (b + rest))
  {
  }

  lemma {:induction false} AndChain(e: Expr, tail: seq<Token>, t: Parsed, modules: Option<SymId>)
    requires ChoicesIn(e) == {} && ParseAnd(tail, modules) == Some(t)
    ensures ParseAnd(PrintInAnd(e) + ([AndTok] + tail), modules) == Some(Parsed(AndThen(e, t.expr, modules), t.rest))
    decreases e, 4
  {
    hide ParseExpr, ParseAnd, ParseFactor, Print, PrintInAnd, PrintInOr, PrintFactor, Normal, AndThen, OrElse;
    PrintSteps(e);
    ChainSteps(e, t.expr, modules);
    var rest := [AndTok] + tail;
    if e.And? {
      AndChain(e.right, tail, t, modules);
      AndChain(e.left, PrintInAnd(e.right) + rest, Parsed(AndThen(e.right, t.expr, modules), t.rest), modules);
      Reassociate(PrintInAnd(e.left), AndTok, PrintInAnd(e.right), rest);
    } else {
      FactorRoundTrip(e, rest, modules);
      AndStep(PrintInAnd(e) + rest, Parsed(Normal(e, modules), rest), modules);
      assert rest[1..] == tail;
    }
  }

  lemma {:induction false} AndRoundTrip(e: Expr, rest: seq<Token>, modules: Option<SymId>)
    requires ChoicesIn(e) == {} && (rest == [] || !(rest[0].RelTok? || rest[0] == AndTok))
    ensures ParseAnd(PrintInAnd(e) + rest, modules) == Some(Parsed(Normal(e, modules), rest))
    decreases e, 4
  {
    hide ParseExpr, ParseAnd, ParseFactor, Print, PrintInAnd, PrintInOr, PrintFactor, Normal, AndThen, OrElse;
    PrintSteps(e);
    NormalStep(e, modules);
    if e.And? {
      AndRoundTrip(e.right, rest, modules);
      AndChain(e.left, PrintInAnd(e.right) + rest, Parsed(Normal(e.right, modules), rest), modules);
      Reassociate(PrintInAnd(e.left), AndTok, PrintInAnd(e.right), rest);
    } else {
      FactorRoundTrip(e, rest, modules);
      AndStep(PrintInAnd(e) + rest, Parsed(Normal(e, modules), rest), modules);
    }
  }

  lemma {:induction false} OrChain(e: Expr, tail: seq<Token>, t: Parsed, modules: Option<SymId>)
    requires ChoicesIn(e) == {} && ParseExpr(tail, modules) == Some(t)
    ensures ParseExpr(PrintInOr(e) + ([OrTok] + tail), modules) == Some(Parsed(OrElse(e, t.expr, modules), t.rest))
    decreases e, 6
  {
    hide ParseExpr, ParseAnd, ParseFactor, Print, PrintInAnd, PrintInOr, PrintFactor, Normal, AndThen, OrElse;
    PrintSteps(e);
    ChainSteps(e, t.expr, modules);
    var rest := [OrTok] + tail;
    if e.Or? {
      OrChain(e.right, tail, t, modules);
      OrChain(e.left, PrintInOr(e.right) + rest, Parsed(OrElse(e.right, t.expr, modules), t.rest), modules);
      Reassociate(PrintInOr(e.left), OrTok, PrintInOr(e.right), rest);
    } else {
      FactorRoundTrip(e, rest, modules);
      AndStep(PrintInOr(e) + rest, Parsed(Normal(e, modules), rest), modules);
      OrStep(PrintInOr(e) + rest, Parsed(Normal(e, modules), rest), modules);
      assert rest[1..] == tail;
    }
  }

  lemma {:induction false} OrRoundTrip(e: Expr, rest: seq<Token>, modules: Option<SymId>)
    requires ChoicesIn(e) == {} && Ends(rest)
    ensures ParseExpr(PrintInOr(e) + rest, modules) == Some(Parsed(Normal(e, modules), rest))
    decreases e, 6
  {
    hide ParseExpr, ParseAnd, ParseFactor, Print, PrintInAnd, PrintInOr, PrintFactor, Normal, AndThen, OrElse;
    PrintSteps(e);
    NormalStep(e, modules);
    if e.Or? {
      OrRoundTrip(e.right, rest, modules);
      OrChain(e.left, PrintInOr(e.right) + rest, Parsed(Normal(e.right, modules), rest), modules);
      Reassociate(PrintInOr(e.left), OrTok, PrintInOr(e.right), rest);
    } else {
      FactorRoundTrip(e, rest, modules);
      AndStep(PrintInOr(e) + rest, Parsed(Normal(e, modules), rest), modules);
      OrStep(PrintInOr(e) + rest, Parsed(Normal(e, modules), rest), modules);
    }
  }

  lemma {:induction false} ExprRoundTrip(e: Expr, rest: seq<Token>, modules: Option<SymId>)
    requires ChoicesIn(e) == {} && Ends(rest)
    ensures ParseExpr(Print(e) + rest, modules) == Some(Parsed(Normal(e, modules), rest))
    decreases e, 1
  {
    hide ParseExpr, ParseAnd, ParseFactor, Print, PrintInAnd, PrintInOr, PrintFactor, Normal, AndThen, OrElse;
    PrintSteps(e);
    NormalStep(e, modules);
    var ts := Print(e) + rest;
    if e.And? {
      AndRoundTrip(e.right, rest, modules);
      AndChain(e.left, PrintInAnd(e.right) + rest, Parsed(Normal(e.right, modules), rest), modules);
      Reassociate(PrintInAnd(e.left), AndTok, PrintInAnd(e.right), rest);
      OrStep(ts, Parsed(Normal(e, modules), rest), modules);
    } else if e.Or? {
      OrRoundTrip(e.right, rest, modules);
      OrChain(e.left, PrintInOr(e.right) + rest, Parsed(Normal(e.right, modules), rest), modules);
      Reassociate(PrintInOr(e.left), OrTok, PrintInOr(e.right), rest);
    } else {
      SimpleRoundTrip(e, rest, modules);
      AndStep(ts, Parsed(Normal(e, modules), rest), modules);
      OrStep(ts, Parsed(Normal(e, modules), rest), modules);
    }
  }

  /** && binds more tightly than ||: a conjunction needs no parentheses on either side of ||. */
  lemma AndBindsTighter(e: Expr, tail: seq<Token>, t: Parsed, rest: seq<Token>, modules: Option<SymId>)
    requires ChoicesIn(e) == {} && ParseExpr(tail, modules) == Some(t) && Ends(rest)
    ensures ParseExpr(PrintInAnd(e) + ([OrTok] + tail), modules) == Some(Parsed(Or(Normal(e, modules), t.expr), t.rest))
    ensures ParseExpr(PrintInAnd(e) + rest, modules) == Some(Parsed(Normal(e, modules), rest))
  {
    hide ParseExpr, ParseAnd, ParseFactor, Print, PrintInAnd, Normal;
    var more := [OrTok] + tail;
    AndRoundTrip(e, more, modules);
    OrStep(PrintInAnd(e) + more, Parsed(Normal(e, modules), more), modules);
    assert more[1..] == tail;
    AndRoundTrip(e, rest, modules);
    OrStep(PrintInAnd(e) + rest, Parsed(Normal(e, modules), rest), modules);
  }

  /** An expression that is neither && nor ||. */
  lemma {:induction false} SimpleRoundTrip(e: Expr, rest: seq<Token>, modules: Option<SymId>)
    requires ChoicesIn(e) == {} && NoRelation(rest) && !e.And? && !e.Or?
    ensures ParseFactor(Print(e) + rest, modules) == Some(Parsed(Normal(e, modules), rest))
    decreases e, 0
  {
    hide ParseExpr, ParseAnd;
    var ts := Print(e) + rest;
    match e
    case Leaf(_) => assert ts[1..] == rest;
    case Cmp(_, _, _) => assert ts[3..] == rest;
    case Not(x) =>
      assert ts[1..] == PrintOperand(x) + rest;
      OperandRoundTrip(x, rest, modules);
  }

  // ----- Meaning -----

  /** The expression with every m outside relations replaced by `m && MODULES`. */
  function Rewritten(e: Expr, modules: SymId): Expr {
    match e
    case Leaf(a) => PlainSymbol(a, Some(modules))
    case Mode(_) => e
    case And(l, r) => And(Rewritten(l, modules), Rewritten(r, modules))
    case Or(l, r) => Or(Rewritten(l, modules), Rewritten(r, modules))
    case Not(x) => Not(Rewritten(x, modules))
    case Cmp(_, _, _) => e
  }

  /** What the normal form means: the expression itself, or its rewriting. */
  function Meaning(e: Expr, modules: Option<SymId>): Expr {
    if modules.Some? then Rewritten(e, modules.value) else e
  }

  lemma {:induction false} NormalKeepsMeaning(e: Expr, modules: Option<SymId>, env: Env)
    ensures Value(Normal(e, modules), env) == Value(Meaning(e, modules), env)
    decreases e, 0
  {
    match e
    case Leaf(_) =>
    case Mode(_) =>
    case And(l, r) =>
      NormalKeepsMeaning(r, modules, env);
      ChainKeepsMeaning(l, Normal(r, modules), modules, env);
    case Or(l, r) =>
      NormalKeepsMeaning(r, modules, env);
      ChainKeepsMeaning(l, Normal(r, modules), modules, env);
    case Not(x) => NormalKeepsMeaning(x, modules, env);
    case Cmp(_, _, _) =>
  }

  lemma {:induction false} ChainKeepsMeaning(e: Expr, t: Expr, modules: Option<SymId>, env: Env)
    ensures Value(AndThen(e, t, modules), env) == Min(Value(Meaning(e, modules), env), Value(t, env))
    ensures Value(OrElse(e, t, modules), env) == Max(Value(Meaning(e, modules), env), Value(t, env))
    decreases e, 1
  {
    NormalKeepsMeaning(e, modules, env);
    if e.And? {
      ChainKeepsMeaning(e.right, t, modules, env);
      ChainKeepsMeaning(e.left, AndThen(e.right, t, modules), modules, env);
    }
    if e.Or? {
      ChainKeepsMeaning(e.right, t, modules, env);
      ChainKeepsMeaning(e.left, OrElse(e.right, t, modules), modules, env);
    }
  }

  /** Rewriting m a second time changes nothing. */
  lemma {:induction false} RewritingTwice(e: Expr, modules: SymId, env: Env)
    ensures Value(Rewritten(Rewritten(e, modules), modules), env) == Value(Rewritten(e, modules), env)
    ensures ChoicesIn(Rewritten(e, modules)) == ChoicesIn(e)
  {
    match e
    case Leaf(_) =>
    case Mode(_) =>
    case And(l, r) => RewritingTwice(l, modules, env); RewritingTwice(r, modules, env);
    case Or(l, r) => RewritingTwice(l, modules, env); RewritingTwice(r, modules, env);
    case Not(x) => RewritingTwice(x, modules, env);
    case Cmp(_, _, _) =>
  }

  /** Parsing a printed expression consumes it all and gives its right-associated form, which
      has the same value under every valuation. */
  lemma PrintThenParse(e: Expr, env: Env)
    requires ChoicesIn(e) == {}
    ensures ParseExpr(Print(e), None) == Some(Parsed(Normal(e, None), []))
    ensures Value(Normal(e, None), env) == Value(e, env)
  {
    ExprRoundTrip(e, [], None);
    assert Print(e) + [] == Print(e);
    NormalKeepsMeaning(e, None, env);
  }

  /** The same for a condition, in which m is rewritten again when it is parsed again. */
  lemma PrintThenParseCondition(e: Expr, modules: SymId, env: Env)
    requires ChoicesIn(e) == {}
    ensures var cond := Rewritten(e, modules);
            && ParseExpr(Print(cond), Some(modules)) == Some(Parsed(Normal(cond, Some(modules)), []))
            && Value(Normal(cond, Some(modules)), env) == Value(cond, env)
  {
    var cond := Rewritten(e, modules);
    RewritingTwice(e, modules, env);
    ExprRoundTrip(cond, [], Some(modules));
    assert Print(cond) + [] == Print(cond);
    NormalKeepsMeaning(cond, Some(modules), env);
  }
}
