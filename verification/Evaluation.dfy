/**
 Plain recursive evaluation. A ranking of everything that is calculated, under which each
 rule only reads lower ranked things, makes the rules a terminating recursion whose result
 is the one valuation that satisfies all rules at once.
 */
module Evaluation {
  import opened Expressions
  import opened Config
  import opened Locality

  datatype Quantity = VisOf(item: Item) | TriOf(sym: SymId) | StrOf(sym: SymId) | SelOf(choice: ChoiceId)

  type Rank = Quantity -> nat

  // ----- Acyclic configurations -----

  /** MODULES is read only to decide whether a tristate counts as a bool. */
  ghost predicate ModulesBelow(k: Kconfig, rank: Rank, bound: nat, t: Type) {
    t == Tristate ==> rank(TriOf(k.modules)) < bound
  }

  ghost predicate ModeBelow(k: Kconfig, rank: Rank, bound: nat, c: ChoiceId) {
    rank(VisOf(ChoiceItem(c))) < bound && ModulesBelow(k, rank, bound, k.Choice(c).typ)
  }

  ghost predicate ExprBelow(k: Kconfig, rank: Rank, bound: nat, e: Expr) {
    && (forall s | s in SymsIn(e) :: rank(TriOf(s)) < bound)
    && (forall s | s in ComparedIn(e) :: rank(StrOf(s)) < bound)
    && (forall c | c in ChoicesIn(e) :: ModeBelow(k, rank, bound, c))
  }

  ghost predicate AtomBelow(rank: Rank, bound: nat, a: Atom) {
    a.Sym? ==> rank(TriOf(a.id)) < bound && rank(StrOf(a.id)) < bound
  }

  ghost predicate AllBelow(k: Kconfig, rank: Rank, bound: nat, es: seq<Expr>) {
    forall i | 0 <= i < |es| :: ExprBelow(k, rank, bound, es[i])
  }

  ghost predicate DefaultsBelow(k: Kconfig, rank: Rank, bound: nat, ds: seq<Default>) {
    forall i | 0 <= i < |ds| ::
      && ExprBelow(k, rank, bound, ds[i].value)
      && ExprBelow(k, rank, bound, ds[i].cond)
      && (ds[i].value.Leaf? ==> AtomBelow(rank, bound, ds[i].value.atom))
  }

  ghost predicate RangesBelow(k: Kconfig, rank: Rank, bound: nat, rs: seq<Range>) {
    forall i | 0 <= i < |rs| ::
      ExprBelow(k, rank, bound, rs[i].cond) && AtomBelow(rank, bound, rs[i].low) && AtomBelow(rank, bound, rs[i].high)
  }

  ghost predicate SymVisBelow(k: Kconfig, rank: Rank, bound: nat, s: SymId) {
    var d := k.Def(s);
    && AllBelow(k, rank, bound, d.prompts)
    && ModulesBelow(k, rank, bound, d.typ)
    && (d.choice.Some? ==> ModeBelow(k, rank, bound, d.choice.value))
  }

  ghost predicate SymValueBelow(k: Kconfig, rank: Rank, bound: nat, s: SymId) {
    var d := k.Def(s);
    && rank(VisOf(SymItem(s))) < bound
    && ModulesBelow(k, rank, bound, d.typ)
    && (d.choice.Some? ==> ModeBelow(k, rank, bound, d.choice.value) && rank(SelOf(d.choice.value)) < bound)
    && DefaultsBelow(k, rank, bound, d.defaults)
    && RangesBelow(k, rank, bound, d.ranges)
    && ExprBelow(k, rank, bound, d.revDep)
    && ExprBelow(k, rank, bound, d.weakRevDep)
    && ExprBelow(k, rank, bound, d.directDep)
  }

  ghost predicate ChoiceVisBelow(k: Kconfig, rank: Rank, bound: nat, c: ChoiceId) {
    AllBelow(k, rank, bound, k.Choice(c).prompts) && ModulesBelow(k, rank, bound, k.Choice(c).typ)
  }

  ghost predicate SelectionBelow(k: Kconfig, rank: Rank, bound: nat, c: ChoiceId) {
    && ModeBelow(k, rank, bound, c)
    && (forall s | s in k.Choice(c).syms :: rank(VisOf(SymItem(s))) < bound)
    && (forall i | 0 <= i < |k.Choice(c).defaults| :: ExprBelow(k, rank, bound, k.Choice(c).defaults[i].cond))
  }

  /** Every rule reads only lower ranked things. */
  ghost predicate Acyclic(k: Kconfig, rank: Rank) {
    && (forall s: SymId :: SymVisBelow(k, rank, rank(VisOf(SymItem(s))), s))
    && (forall s: SymId :: SymValueBelow(k, rank, rank(TriOf(s)), s))
    && (forall s: SymId :: SymValueBelow(k, rank, rank(StrOf(s)), s) && rank(TriOf(s)) < rank(StrOf(s)))
    && (forall c: ChoiceId :: ChoiceVisBelow(k, rank, rank(VisOf(ChoiceItem(c))), c))
    && (forall c: ChoiceId :: SelectionBelow(k, rank, rank(SelOf(c)), c))
  }

  // ----- Rules read only what is ranked below them -----

  ghost predicate AgreeBelow(rank: Rank, bound: nat, a: Valuation, b: Valuation) {
    && (forall i: Item | rank(VisOf(i)) < bound :: a.vis(i) == b.vis(i))
    && (forall s: SymId | rank(TriOf(s)) < bound :: a.tri(s) == b.tri(s))
    && (forall s: SymId | rank(StrOf(s)) < bound :: a.str(s) == b.str(s))
    && (forall c: ChoiceId | rank(SelOf(c)) < bound :: a.sel(c) == b.sel(c))
  }

  ghost predicate SameModesBelow(k: Kconfig, u: User, u': User, rank: Rank, bound: nat, a: Valuation, b: Valuation) {
    forall c | ModeBelow(k, rank, bound, c) :: ModeRule(k, u, a, c) == ModeRule(k, u', b, c)
  }

  lemma BelowIsLocal(k: Kconfig, u: User, u': User, rank: Rank, bound: nat, a: Valuation, b: Valuation, e: Expr)
    requires AgreeBelow(rank, bound, a, b) && SameModesBelow(k, u, u', rank, bound, a, b)
             && ExprBelow(k, rank, bound, e)
    ensures SameOn(e, EnvOf(k, u, a), EnvOf(k, u', b))
  {
  }

  lemma AllBelowIsLocal(k: Kconfig, u: User, u': User, rank: Rank, bound: nat, a: Valuation, b: Valuation,
                        es: seq<Expr>)
    requires AgreeBelow(rank, bound, a, b) && SameModesBelow(k, u, u', rank, bound, a, b)
             && AllBelow(k, rank, bound, es)
    ensures SameOnAll(es, EnvOf(k, u, a), EnvOf(k, u', b))
  {
    hide ExprBelow, SameOn, SameModesBelow, AgreeBelow;
    forall i | 0 <= i < |es| ensures SameOn(es[i], EnvOf(k, u, a), EnvOf(k, u', b)) {
      BelowIsLocal(k, u, u', rank, bound, a, b, es[i]);
    }
  }

  lemma VisAgrees(k: Kconfig, u: User, u': User, rank: Rank, a: Valuation, b: Valuation, i: Item)
    requires Acyclic(k, rank) && AgreeBelow(rank, rank(VisOf(i)), a, b)
             && SameModesBelow(k, u, u', rank, rank(VisOf(i)), a, b)
    ensures VisRule(k, u, a, i) == VisRule(k, u', b, i)
  {
    hide VisRule, SameOnAll, AllBelow;
    match i
    case SymItem(s) =>
      assert SymVisBelow(k, rank, rank(VisOf(i)), s);
      AllBelowIsLocal(k, u, u', rank, rank(VisOf(i)), a, b, k.Def(s).prompts);
      SymVisLocal(k, u, a, u', b, s);
    case ChoiceItem(c) =>
      assert ChoiceVisBelow(k, rank, rank(VisOf(i)), c);
      AllBelowIsLocal(k, u, u', rank, rank(VisOf(i)), a, b, k.Choice(c).prompts);
      ChoiceVisLocal(k, u, a, u', b, c);
  }

  lemma VisCongruent(k: Kconfig, u: User, rank: Rank, a: Valuation, b: Valuation, i: Item)
    requires Acyclic(k, rank) && AgreeBelow(rank, rank(VisOf(i)), a, b)
    ensures VisRule(k, u, a, i) == VisRule(k, u, b, i)
  {
    VisAgrees(k, u, u, rank, a, b, i);
  }

  lemma ContextBelow(k: Kconfig, u: User, u': User, rank: Rank, bound: nat, a: Valuation, b: Valuation, s: SymId)
    requires SymValueBelow(k, rank, bound, s) && AgreeBelow(rank, bound, a, b)
             && SameModesBelow(k, u, u', rank, bound, a, b)
    ensures SameContext(k, u, a, u', b, s)
    ensures k.Def(s).choice.Some? ==> a.sel(k.Def(s).choice.value) == b.sel(k.Def(s).choice.value)
  {
    var d := k.Def(s);
    var x, y := EnvOf(k, u, a), EnvOf(k, u', b);
    assert SymType(k, u, a, s) == SymType(k, u', b, s);
    hide SameOn, ExprBelow, SymType;
    forall i | 0 <= i < |d.defaults| ensures SameOn(d.defaults[i].value, x, y) && SameOn(d.defaults[i].cond, x, y) {
      BelowIsLocal(k, u, u', rank, bound, a, b, d.defaults[i].value);
      BelowIsLocal(k, u, u', rank, bound, a, b, d.defaults[i].cond);
    }
    forall i | 0 <= i < |d.ranges| ensures SameOn(d.ranges[i].cond, x, y) {
      BelowIsLocal(k, u, u', rank, bound, a, b, d.ranges[i].cond);
    }
    BelowIsLocal(k, u, u', rank, bound, a, b, d.revDep);
    BelowIsLocal(k, u, u', rank, bound, a, b, d.weakRevDep);
    BelowIsLocal(k, u, u', rank, bound, a, b, d.directDep);
  }

  lemma ValueReadsBelow(k: Kconfig, u: User, u': User, rank: Rank, bound: nat, a: Valuation, b: Valuation, s: SymId)
    requires SymValueBelow(k, rank, bound, s) && AgreeBelow(rank, bound, a, b)
             && SameModesBelow(k, u, u', rank, bound, a, b)
    requires u.TriOf(s) == u'.TriOf(s) && u.StrOf(s) == u'.StrOf(s)
    ensures SameValueReads(k, u, a, u', b, s) && SameTextReads(k, u, a, u', b, s)
  {
    ContextBelow(k, u, u', rank, bound, a, b, s);
    hide SameOn, SameOnDefaults, SameOnRanges, SymType, SameModesBelow;
  }

  lemma TriAgrees(k: Kconfig, u: User, u': User, rank: Rank, a: Valuation, b: Valuation, s: SymId)
    requires Acyclic(k, rank) && AgreeBelow(rank, rank(TriOf(s)), a, b)
             && SameModesBelow(k, u, u', rank, rank(TriOf(s)), a, b)
    requires u.TriOf(s) == u'.TriOf(s) && u.StrOf(s) == u'.StrOf(s)
    ensures TriRule(k, u, a, s) == TriRule(k, u', b, s)
  {
    ValueReadsBelow(k, u, u', rank, rank(TriOf(s)), a, b, s);
    TriLocal(k, u, a, u', b, s);
  }

  lemma TriCongruent(k: Kconfig, u: User, rank: Rank, a: Valuation, b: Valuation, s: SymId)
    requires Acyclic(k, rank) && AgreeBelow(rank, rank(TriOf(s)), a, b)
    ensures TriRule(k, u, a, s) == TriRule(k, u, b, s)
  {
    TriAgrees(k, u, u, rank, a, b, s);
  }

  lemma StrAgrees(k: Kconfig, u: User, u': User, rank: Rank, a: Valuation, b: Valuation, s: SymId)
    requires Acyclic(k, rank) && AgreeBelow(rank, rank(StrOf(s)), a, b)
             && SameModesBelow(k, u, u', rank, rank(StrOf(s)), a, b)
    requires u.TriOf(s) == u'.TriOf(s) && u.StrOf(s) == u'.StrOf(s)
    ensures StrRule(k, u, a, s) == StrRule(k, u', b, s)
  {
    assert SymValueBelow(k, rank, rank(StrOf(s)), s) && rank(TriOf(s)) < rank(StrOf(s));
    ValueReadsBelow(k, u, u', rank, rank(StrOf(s)), a, b, s);
    if IsBoolTristate(k.Def(s).typ) {
      TriLocal(k, u, a, u', b, s);
    } else {
      TextLocal(k, u, a, u', b, s);
    }
  }

  lemma StrCongruent(k: Kconfig, u: User, rank: Rank, a: Valuation, b: Valuation, s: SymId)
    requires Acyclic(k, rank) && AgreeBelow(rank, rank(StrOf(s)), a, b)
    ensures StrRule(k, u, a, s) == StrRule(k, u, b, s)
  {
    StrAgrees(k, u, u, rank, a, b, s);
  }

  lemma SelAgrees(k: Kconfig, u: User, u': User, rank: Rank, a: Valuation, b: Valuation, c: ChoiceId)
    requires WellFormed(k) && UserOk(k, u) && u.SelectionOf(c) == u'.SelectionOf(c)
    requires Acyclic(k, rank) && AgreeBelow(rank, rank(SelOf(c)), a, b)
             && SameModesBelow(k, u, u', rank, rank(SelOf(c)), a, b)
    ensures SelRule(k, u, a, c) == SelRule(k, u', b, c)
  {
    assert SelectionBelow(k, rank, rank(SelOf(c)), c);
    forall i | 0 <= i < |k.Choice(c).defaults|
      ensures SameOn(k.Choice(c).defaults[i].cond, EnvOf(k, u, a), EnvOf(k, u', b))
    {
      BelowIsLocal(k, u, u', rank, rank(SelOf(c)), a, b, k.Choice(c).defaults[i].cond);
    }
    SelLocal(k, u, a, u', b, c);
  }

  lemma SelCongruent(k: Kconfig, u: User, rank: Rank, a: Valuation, b: Valuation, c: ChoiceId)
    requires WellFormed(k) && UserOk(k, u)
    requires Acyclic(k, rank) && AgreeBelow(rank, rank(SelOf(c)), a, b)
    ensures SelRule(k, u, a, c) == SelRule(k, u, b, c)
  {
    SelAgrees(k, u, u, rank, a, b, c);
  }

  // ----- The recursion -----

  function EvalVis(k: Kconfig, u: User, rank: Rank, i: Item): Tri
    decreases rank(VisOf(i)), 2
  {
    VisRule(k, u, EvalBelow(k, u, rank, rank(VisOf(i))), i)
  }

  function EvalTri(k: Kconfig, u: User, rank: Rank, s: SymId): Tri
    decreases rank(TriOf(s)), 2
  {
    TriRule(k, u, EvalBelow(k, u, rank, rank(TriOf(s))), s).val
  }

  function EvalStr(k: Kconfig, u: User, rank: Rank, s: SymId): string
    decreases rank(StrOf(s)), 2
  {
    StrRule(k, u, EvalBelow(k, u, rank, rank(StrOf(s))), s).val
  }

  function EvalSel(k: Kconfig, u: User, rank: Rank, c: ChoiceId): Option<SymId>
    decreases rank(SelOf(c)), 2
  {
    SelRule(k, u, EvalBelow(k, u, rank, rank(SelOf(c))), c)
  }

  function EvalVisBelow(k: Kconfig, u: User, rank: Rank, bound: nat, i: Item): Tri
    decreases bound, 0
  {
    if rank(VisOf(i)) < bound then EvalVis(k, u, rank, i) else 0
  }

  function EvalTriBelow(k: Kconfig, u: User, rank: Rank, bound: nat, s: SymId): Tri
    decreases bound, 0
  {
    if rank(TriOf(s)) < bound then EvalTri(k, u, rank, s) else 0
  }

  function EvalBelow(k: Kconfig, u: User, rank: Rank, bound: nat): Valuation
    decreases bound, 1
  {
    Valuation(
      (i: Item) => EvalVisBelow(k, u, rank, bound, i),
      (s: SymId) => EvalTriBelow(k, u, rank, bound, s),
      (s: SymId) => if rank(StrOf(s)) < bound then EvalStr(k, u, rank, s) else "",
      (c: ChoiceId) => if rank(SelOf(c)) < bound then EvalSel(k, u, rank, c) else None)
  }

  /** Plain evaluation of everything. */
  function Evaluate(k: Kconfig, u: User, rank: Rank): Valuation {
    Valuation(
      (i: Item) => EvalVis(k, u, rank, i),
      (s: SymId) => EvalTri(k, u, rank, s),
      (s: SymId) => EvalStr(k, u, rank, s),
      (c: ChoiceId) => EvalSel(k, u, rank, c))
  }

  /** `v` satisfies every rule. */
  ghost predicate Solves(k: Kconfig, u: User, v: Valuation) {
    && (forall i: Item :: v.vis(i) == VisRule(k, u, v, i))
    && (forall s: SymId :: v.tri(s) == TriRule(k, u, v, s).val)
    && (forall s: SymId :: v.str(s) == StrRule(k, u, v, s).val)
    && (forall c: ChoiceId :: v.sel(c) == SelRule(k, u, v, c))
  }

  ghost predicate Same(a: Valuation, b: Valuation) {
    && (forall i: Item :: a.vis(i) == b.vis(i))
    && (forall s: SymId :: a.tri(s) == b.tri(s))
    && (forall s: SymId :: a.str(s) == b.str(s))
    && (forall c: ChoiceId :: a.sel(c) == b.sel(c))
  }

  lemma EvalBelowAgrees(k: Kconfig, u: User, rank: Rank, bound: nat)
    ensures AgreeBelow(rank, bound, EvalBelow(k, u, rank, bound), Evaluate(k, u, rank))
  {
    forall i: Item | rank(VisOf(i)) < bound
      ensures EvalBelow(k, u, rank, bound).vis(i) == Evaluate(k, u, rank).vis(i)
    {
      assert EvalBelow(k, u, rank, bound).vis(i) == EvalVisBelow(k, u, rank, bound, i);
    }
  }

  /** Evaluation satisfies every rule. */
  lemma EvaluateSolves(k: Kconfig, u: User, rank: Rank)
    requires WellFormed(k) && UserOk(k, u) && Acyclic(k, rank)
    ensures Solves(k, u, Evaluate(k, u, rank))
  {
    var v := Evaluate(k, u, rank);
    forall i: Item ensures v.vis(i) == VisRule(k, u, v, i) {
      EvalBelowAgrees(k, u, rank, rank(VisOf(i)));
      VisCongruent(k, u, rank, EvalBelow(k, u, rank, rank(VisOf(i))), v, i);
    }
    forall s: SymId ensures v.tri(s) == TriRule(k, u, v, s).val {
      EvalBelowAgrees(k, u, rank, rank(TriOf(s)));
      TriCongruent(k, u, rank, EvalBelow(k, u, rank, rank(TriOf(s))), v, s);
    }
    forall s: SymId ensures v.str(s) == StrRule(k, u, v, s).val {
      EvalBelowAgrees(k, u, rank, rank(StrOf(s)));
      StrCongruent(k, u, rank, EvalBelow(k, u, rank, rank(StrOf(s))), v, s);
    }
    forall c: ChoiceId ensures v.sel(c) == SelRule(k, u, v, c) {
      EvalBelowAgrees(k, u, rank, rank(SelOf(c)));
      SelCongruent(k, u, rank, EvalBelow(k, u, rank, rank(SelOf(c))), v, c);
    }
  }

  lemma {:induction false} SolutionsAgreeBelow(k: Kconfig, u: User, rank: Rank, a: Valuation, b: Valuation, bound: nat)
    requires WellFormed(k) && UserOk(k, u) && Acyclic(k, rank)
    requires Solves(k, u, a) && Solves(k, u, b)
    ensures AgreeBelow(rank, bound, a, b)
  {
    if bound > 0 {
      SolutionsAgreeBelow(k, u, rank, a, b, bound - 1);
      forall i: Item | rank(VisOf(i)) < bound ensures a.vis(i) == b.vis(i) {
        VisCongruent(k, u, rank, a, b, i);
      }
      forall s: SymId | rank(TriOf(s)) < bound ensures a.tri(s) == b.tri(s) {
        TriCongruent(k, u, rank, a, b, s);
      }
      forall s: SymId | rank(StrOf(s)) < bound ensures a.str(s) == b.str(s) {
        StrCongruent(k, u, rank, a, b, s);
      }
      forall c: ChoiceId | rank(SelOf(c)) < bound ensures a.sel(c) == b.sel(c) {
        SelCongruent(k, u, rank, a, b, c);
      }
    }
  }

  /** The rules of an acyclic configuration have exactly one solution: evaluation. */
  lemma SolutionIsEvaluation(k: Kconfig, u: User, rank: Rank, v: Valuation)
    requires WellFormed(k) && UserOk(k, u) && Acyclic(k, rank)
    ensures Solves(k, u, v) <==> Same(v, Evaluate(k, u, rank))
  {
    var w := Evaluate(k, u, rank);
    EvaluateSolves(k, u, rank);
    if Solves(k, u, v) {
      forall i: Item ensures v.vis(i) == w.vis(i) { SolutionsAgreeBelow(k, u, rank, v, w, rank(VisOf(i)) + 1); }
      forall s: SymId ensures v.tri(s) == w.tri(s) { SolutionsAgreeBelow(k, u, rank, v, w, rank(TriOf(s)) + 1); }
      forall s: SymId ensures v.str(s) == w.str(s) { SolutionsAgreeBelow(k, u, rank, v, w, rank(StrOf(s)) + 1); }
      forall c: ChoiceId ensures v.sel(c) == w.sel(c) { SolutionsAgreeBelow(k, u, rank, v, w, rank(SelOf(c)) + 1); }
    }
    if Same(v, w) {
      forall i: Item ensures v.vis(i) == VisRule(k, u, v, i) { VisCongruent(k, u, rank, v, w, i); }
      forall s: SymId ensures v.tri(s) == TriRule(k, u, v, s).val { TriCongruent(k, u, rank, v, w, s); }
      forall s: SymId ensures v.str(s) == StrRule(k, u, v, s).val { StrCongruent(k, u, rank, v, w, s); }
      forall c: ChoiceId ensures v.sel(c) == SelRule(k, u, v, c) { SelCongruent(k, u, rank, v, w, c); }
    }
  }
}
