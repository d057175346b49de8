/**
 Kconfig values and expressions: tristate values, the expression trees the parser
 builds, their meaning (`expr_value`), and the simplifying constructors that
 dependency propagation uses.
 */
module Expressions {

  /** n, m and y are 0, 1 and 2. */
  type Tri = t: int | 0 <= t <= 2 witness 0

  type SymId = nat
  type ChoiceId = nat

  datatype Option<+T> = None | Some(value: T)

  datatype Type = Unknown | Bool | Tristate | Str | Int | Hex

  datatype Relation = Equal | Unequal | Less | LessEqual | Greater | GreaterEqual

  /** A symbol used as an operand. The constant symbols n, m and y (quoted or not) are
      `TriConst`; every other quoted value is `Quoted`. */
  datatype Atom = TriConst(tri: Tri) | Quoted(name: string) | Sym(id: SymId)

  datatype Expr =
    | Leaf(atom: Atom)
    | Mode(choice: ChoiceId)
    | And(left: Expr, right: Expr)
    | Or(left: Expr, right: Expr)
    | Not(operand: Expr)
    | Cmp(rel: Relation, lhs: Atom, rhs: Atom)

  const N := Leaf(TriConst(0))
  const M := Leaf(TriConst(1))
  const Y := Leaf(TriConst(2))

  predicate IsBoolTristate(t: Type) { t == Bool || t == Tristate }

  function Min(a: Tri, b: Tri): Tri { if a < b then a else b }
  function Max(a: Tri, b: Tri): Tri { if a < b then b else a }

  function TriStr(t: Tri): string {
    if t == 0 then "n" else if t == 1 then "m" else "y"
  }

  // ----- Numbers in strings -----

  function DigitValue(c: char): int {
    if '0' <= c <= '9' then c as int - '0' as int
    else if 'a' <= c <= 'f' then c as int - 'a' as int + 10
    else if 'A' <= c <= 'F' then c as int - 'A' as int + 10
    else 99
  }

  function Digits(s: string, base: nat): Option<nat> {
    if s == [] then Some(0)
    else
      var d := DigitValue(s[|s| - 1]);
      if d >= base then None
      else match Digits(s[..|s| - 1], base)
        case None => None
        case Some(n) => Some(n * base + d)
  }

  predicate HasHexPrefix(s: string) { |s| >= 2 && s[0] == '0' && (s[1] == 'x' || s[1] == 'X') }

  /** The unsigned part of `int(s, base)`, for base 10, 16 and 0 (base from the format). */
  function Magnitude(s: string, base: nat): Option<nat> {
    if s == [] then None
    else if base == 10 then Digits(s, 10)
    else if HasHexPrefix(s) then (if |s| == 2 then None else Digits(s[2..], 16))
    else if base == 16 then Digits(s, 16)
    else if s[0] == '0' && (exists i :: 0 <= i < |s| && s[i] != '0') then None
    else Digits(s, 10)
  }

  /** `int(s, base)`: a number, or None where Python raises ValueError. */
  function ParseInt(s: string, base: nat): Option<int> {
    if s != [] && (s[0] == '-' || s[0] == '+') then
      match Magnitude(s[1..], base)
      case None => None
      case Some(n) => var k: int := n; Some(if s[0] == '-' then -k else k)
    else
      match Magnitude(s, base)
      case None => None
      case Some(n) => Some(n)
  }

  function DigitChar(d: nat): char
    requires d < 16
  {
    "0123456789abcdef"[d]
  }

  function DigitStr(n: nat, base: nat): string
    requires 2 <= base <= 16
  {
    if n < base then [DigitChar(n)]
    else DigitStr(n / base, base) + [DigitChar(n % base)]
  }

  /** `str(n)` for an int symbol and `hex(n)` for a hex symbol. */
  function FormatInt(n: int, t: Type): string {
    var sign := if n < 0 then "-" else "";
    var magnitude := if n < 0 then -n else n;
    if t == Int then sign + DigitStr(magnitude, 10)
    else sign + "0x" + DigitStr(magnitude, 16)
  }

  function TypeToBase(t: Type): nat {
    if t == Hex then 16 else if t == Int then 10 else 0
  }

  /** `_strcmp`: -1, 0 or 1 by code point order. */
  function StrCmp(a: string, b: string): int {
    if a == [] && b == [] then 0
    else if a == [] then -1
    else if b == [] then 1
    else if a[0] < b[0] then -1
    else if a[0] > b[0] then 1
    else StrCmp(a[1..], b[1..])
  }

  // ----- Meaning -----

  /** What an expression's value depends on. */
  datatype Env = Env(typ: SymId -> Type, tri: SymId -> Tri, str: SymId -> string, mode: ChoiceId -> Tri)

  function AtomType(a: Atom, env: Env): Type {
    match a
    case TriConst(_) => Tristate
    case Quoted(_) => Unknown
    case Sym(s) => env.typ(s)
  }

  function AtomTri(a: Atom, env: Env): Tri {
    match a
    case TriConst(t) => t
    case Quoted(_) => 0
    case Sym(s) => env.tri(s)
  }

  function AtomStr(a: Atom, env: Env): string {
    match a
    case TriConst(t) => TriStr(t)
    case Quoted(name) => name
    case Sym(s) => env.str(s)
  }

  /** `_sym_to_num` */
  function AtomNum(a: Atom, env: Env): Option<int> {
    if IsBoolTristate(AtomType(a, env)) then Some(AtomTri(a, env))
    else ParseInt(AtomStr(a, env), TypeToBase(AtomType(a, env)))
  }

  function Compare(a: Atom, b: Atom, env: Env): int {
    if AtomType(a, env) == Str && AtomType(b, env) == Str then StrCmp(AtomStr(a, env), AtomStr(b, env))
    else match (AtomNum(a, env), AtomNum(b, env))
      case (Some(x), Some(y)) => x - y
      case _ => StrCmp(AtomStr(a, env), AtomStr(b, env))
  }

  function Holds(rel: Relation, comp: int): bool {
    match rel
    case Equal => comp == 0
    case Unequal => comp != 0
    case Less => comp < 0
    case LessEqual => comp <= 0
    case Greater => comp > 0
    case GreaterEqual => comp >= 0
  }

  /** `expr_value` */
  function Value(e: Expr, env: Env): Tri {
    match e
    case Leaf(a) => AtomTri(a, env)
    case Mode(c) => env.mode(c)
    case And(l, r) => Min(Value(l, env), Value(r, env))
    case Or(l, r) => Max(Value(l, env), Value(r, env))
    case Not(x) => 2 - Value(x, env)
    case Cmp(rel, l, r) => if Holds(rel, Compare(l, r, env)) then 2 else 0
  }

  // ----- What an expression mentions -----

  function AtomSyms(a: Atom): set<SymId> {
    if a.Sym? then {a.id} else {}
  }

  function SymsIn(e: Expr): set<SymId> {
    match e
    case Leaf(a) => AtomSyms(a)
    case Mode(_) => {}
    case And(l, r) => SymsIn(l) + SymsIn(r)
    case Or(l, r) => SymsIn(l) + SymsIn(r)
    case Not(x) => SymsIn(x)
    case Cmp(_, l, r) => AtomSyms(l) + AtomSyms(r)
  }

  /** The symbols that are compared as strings or numbers. */
  function ComparedIn(e: Expr): set<SymId> {
    match e
    case Leaf(_) => {}
    case Mode(_) => {}
    case And(l, r) => ComparedIn(l) + ComparedIn(r)
    case Or(l, r) => ComparedIn(l) + ComparedIn(r)
    case Not(x) => ComparedIn(x)
    case Cmp(_, l, r) => AtomSyms(l) + AtomSyms(r)
  }

  function ChoicesIn(e: Expr): set<ChoiceId> {
    match e
    case Leaf(_) => {}
    case Mode(c) => {c}
    case And(l, r) => ChoicesIn(l) + ChoicesIn(r)
    case Or(l, r) => ChoicesIn(l) + ChoicesIn(r)
    case Not(x) => ChoicesIn(x)
    case Cmp(_, _, _) => {}
  }

  lemma {:induction false} ComparedAreSyms(e: Expr)
    ensures ComparedIn(e) <= SymsIn(e)
  {
    match e
    case Leaf(_) =>
    case Mode(_) =>
    case And(l, r) => ComparedAreSyms(l); ComparedAreSyms(r);
    case Or(l, r) => ComparedAreSyms(l); ComparedAreSyms(r);
    case Not(x) => ComparedAreSyms(x);
    case Cmp(_, _, _) =>
  }

  ghost predicate SameOn(e: Expr, a: Env, b: Env) {
    && (forall s {:trigger a.typ(s)} {:trigger b.typ(s)} :: a.typ(s) == b.typ(s))
    && (forall s | s in SymsIn(e) :: a.tri(s) == b.tri(s))
    && (forall s | s in ComparedIn(e) :: a.str(s) == b.str(s))
    && (forall c | c in ChoicesIn(e) :: a.mode(c) == b.mode(c))
  }

  lemma AtomDependsOnItself(x: Atom, a: Env, b: Env)
    requires x.Sym? ==> a.typ(x.id) == b.typ(x.id) && a.tri(x.id) == b.tri(x.id) && a.str(x.id) == b.str(x.id)
    ensures AtomType(x, a) == AtomType(x, b) && AtomStr(x, a) == AtomStr(x, b) && AtomNum(x, a) == AtomNum(x, b)
  {
  }

  /** An expression's value depends only on what it mentions. */
  lemma {:induction false} ValueDependsOnMentions(e: Expr, a: Env, b: Env)
    requires SameOn(e, a, b)
    ensures Value(e, a) == Value(e, b)
  {
    match e
    case Leaf(_) =>
    case Mode(_) =>
    case And(l, r) => ValueDependsOnMentions(l, a, b); ValueDependsOnMentions(r, a, b);
    case Or(l, r) => ValueDependsOnMentions(l, a, b); ValueDependsOnMentions(r, a, b);
    case Not(x) => ValueDependsOnMentions(x, a, b);
    case Cmp(_, l, r) =>
      AtomDependsOnItself(l, a, b);
      AtomDependsOnItself(r, a, b);
  }

  // ----- Simplifying constructors -----

  function MakeAnd(a: Expr, b: Expr): (r: Expr)
    ensures forall env :: Value(r, env) == Min(Value(a, env), Value(b, env))
  {
    if a == Y then b
    else if b == Y then a
    else if a == N || b == N then N
    else And(a, b)
  }

  function MakeOr(a: Expr, b: Expr): (r: Expr)
    ensures forall env :: Value(r, env) == Max(Value(a, env), Value(b, env))
  {
    if a == N then b
    else if b == N then a
    else if a == Y || b == Y then Y
    else Or(a, b)
  }

  /** `c` bounds `e`: `e` is a conjunction with the mode of `c` among its operands, or is
      the constant n that such a conjunction simplifies to. */
  predicate GuardedBy(e: Expr, c: ChoiceId) {
    || e == N
    || e == Mode(c)
    || (e.And? && (GuardedBy(e.left, c) || GuardedBy(e.right, c)))
  }

  /** A guarded expression never exceeds the mode of its choice. */
  lemma {:induction false} GuardBoundsValue(e: Expr, c: ChoiceId, env: Env)
    requires GuardedBy(e, c)
    ensures Value(e, env) <= env.mode(c)
  {
    if e.And? {
      if GuardedBy(e.left, c) { GuardBoundsValue(e.left, c, env); }
      else { GuardBoundsValue(e.right, c, env); }
    }
  }

  /** A guarded expression that does not mention the choice is always n. */
  lemma {:induction false} GuardMentionsOrZero(e: Expr, c: ChoiceId, env: Env)
    requires GuardedBy(e, c) && c !in ChoicesIn(e)
    ensures Value(e, env) == 0
  {
    if e.And? {
      if GuardedBy(e.left, c) { GuardMentionsOrZero(e.left, c, env); }
      else { GuardMentionsOrZero(e.right, c, env); }
    }
  }

  /** Conjoining with a guarded expression keeps the guard. */
  lemma MakeAndKeepsGuard(a: Expr, b: Expr, c: ChoiceId)
    requires GuardedBy(a, c) || GuardedBy(b, c)
    ensures GuardedBy(MakeAnd(a, b), c)
  {
  }
}
