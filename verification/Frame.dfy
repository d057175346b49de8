/**
 What setting a symbol can change, and which values can be assigned to it.
 */
module Frame {
  import opened Expressions
  import opened Config
  import opened Locality
  import opened Evaluation
  import opened Caching
  import opened Assignments
  import Choices
  import opened Meaning

  // ----- What setting a symbol can change -----

  function ItemOf(q: Quantity): Item {
    match q
    case VisOf(i) => i
    case TriOf(s) => SymItem(s)
    case StrOf(s) => SymItem(s)
    case SelOf(x) => ChoiceItem(x)
  }

  /** `d` holds all items that may depend on an item in `d`, directly or through others. A
      choice symbol always counts as depending on its choice. */
  ghost predicate ClosedUnderDependents(k: Kconfig, d: set<Item>) {
    && (forall i: Item, j | j in DependsOn(k, i) && j in d :: i in d)
    && (forall s: SymId | k.Def(s).choice.Some? && ChoiceItem(k.Def(s).choice.value) in d :: SymItem(s) in d)
    && (SymItem(k.modules) in d ==>
          && (forall s: SymId | k.Def(s).typ == Tristate :: SymItem(s) in d)
          && (forall x: ChoiceId | k.Choice(x).typ == Tristate :: ChoiceItem(x) in d))
  }

  /** Moves everything in `d` up by `lift`. */
  function Lifted(rank: Rank, d: set<Item>, lift: nat): Rank {
    (q: Quantity) => if ItemOf(q) in d then rank(q) + lift else rank(q)
  }

  /** If an item outside `d` depends on `j`, then `j` is outside `d` too, so what was below
      `i` stays below it. */
  lemma LiftRead(k: Kconfig, rank: Rank, d: set<Item>, lift: nat, i: Item, bound: nat, q: Quantity)
    requires ClosedUnderDependents(k, d) && rank(q) < bound && ItemOf(q) in DependsOn(k, i)
    ensures Lifted(rank, d, lift)(q) < LiftedBound(d, lift, i, bound)
  {
  }

  function LiftedBound(d: set<Item>, lift: nat, i: Item, bound: nat): nat {
    if i in d then bound + lift else bound
  }

  lemma LiftMode(k: Kconfig, rank: Rank, d: set<Item>, lift: nat, i: Item, bound: nat, x: ChoiceId)
    requires ClosedUnderDependents(k, d) && ModeBelow(k, rank, bound, x)
    requires ChoiceItem(x) in d ==> i in d
    ensures ModeBelow(k, Lifted(rank, d, lift), LiftedBound(d, lift, i, bound), x)
  {
  }

  lemma LiftExpr(k: Kconfig, rank: Rank, d: set<Item>, lift: nat, i: Item, bound: nat, e: Expr)
    requires ClosedUnderDependents(k, d) && ExprBelow(k, rank, bound, e) && ItemsIn(e) <= DependsOn(k, i)
    ensures ExprBelow(k, Lifted(rank, d, lift), LiftedBound(d, lift, i, bound), e)
  {
    hide DependsOn, Lifted, LiftedBound, ModeBelow;
    var up, ub := Lifted(rank, d, lift), LiftedBound(d, lift, i, bound);
    ComparedAreSyms(e);
    forall s | s in SymsIn(e) ensures up(TriOf(s)) < ub && (s in ComparedIn(e) ==> up(StrOf(s)) < ub) {
      assert SymItem(s) in ItemsIn(e);
      LiftRead(k, rank, d, lift, i, bound, TriOf(s));
      if s in ComparedIn(e) { LiftRead(k, rank, d, lift, i, bound, StrOf(s)); }
    }
    forall x | x in ChoicesIn(e) ensures ModeBelow(k, up, ub, x) {
      assert ChoiceItem(x) in ItemsIn(e);
      LiftMode(k, rank, d, lift, i, bound, x);
    }
  }

  lemma LiftAll(k: Kconfig, rank: Rank, d: set<Item>, lift: nat, i: Item, bound: nat, es: seq<Expr>)
    requires ClosedUnderDependents(k, d) && AllBelow(k, rank, bound, es) && PromptItems(es) <= DependsOn(k, i)
    ensures AllBelow(k, Lifted(rank, d, lift), LiftedBound(d, lift, i, bound), es)
  {
    hide DependsOn, Lifted, LiftedBound, ExprBelow, ClosedUnderDependents;
    forall j | 0 <= j < |es| ensures ExprBelow(k, Lifted(rank, d, lift), LiftedBound(d, lift, i, bound), es[j]) {
      assert ItemsIn(es[j]) <= PromptItems(es);
      LiftExpr(k, rank, d, lift, i, bound, es[j]);
    }
  }

  lemma LiftAtom(k: Kconfig, rank: Rank, d: set<Item>, lift: nat, i: Item, bound: nat, a: Atom)
    requires ClosedUnderDependents(k, d) && AtomBelow(rank, bound, a) && ItemsIn(Leaf(a)) <= DependsOn(k, i)
    ensures AtomBelow(Lifted(rank, d, lift), LiftedBound(d, lift, i, bound), a)
  {
    hide DependsOn, Lifted, LiftedBound, ClosedUnderDependents;
    if a.Sym? {
      assert SymItem(a.id) in ItemsIn(Leaf(a));
      LiftRead(k, rank, d, lift, i, bound, TriOf(a.id));
      LiftRead(k, rank, d, lift, i, bound, StrOf(a.id));
    }
  }

  lemma LiftDefaults(k: Kconfig, rank: Rank, d: set<Item>, lift: nat, i: Item, bound: nat, ds: seq<Default>)
    requires ClosedUnderDependents(k, d) && DefaultsBelow(k, rank, bound, ds) && DefaultItems(ds) <= DependsOn(k, i)
    ensures DefaultsBelow(k, Lifted(rank, d, lift), LiftedBound(d, lift, i, bound), ds)
  {
    hide DependsOn, Lifted, LiftedBound, ExprBelow, AtomBelow, ClosedUnderDependents;
    var up, ub := Lifted(rank, d, lift), LiftedBound(d, lift, i, bound);
    forall j | 0 <= j < |ds|
      ensures ExprBelow(k, up, ub, ds[j].value) && ExprBelow(k, up, ub, ds[j].cond)
      ensures ds[j].value.Leaf? ==> AtomBelow(up, ub, ds[j].value.atom)
    {
      assert ItemsIn(ds[j].value) + ItemsIn(ds[j].cond) <= DefaultItems(ds);
      LiftExpr(k, rank, d, lift, i, bound, ds[j].value);
      LiftExpr(k, rank, d, lift, i, bound, ds[j].cond);
      if ds[j].value.Leaf? { LiftAtom(k, rank, d, lift, i, bound, ds[j].value.atom); }
    }
  }

  lemma LiftRanges(k: Kconfig, rank: Rank, d: set<Item>, lift: nat, i: Item, bound: nat, rs: seq<Range>)
    requires ClosedUnderDependents(k, d) && RangesBelow(k, rank, bound, rs) && RangeItems(rs) <= DependsOn(k, i)
    ensures RangesBelow(k, Lifted(rank, d, lift), LiftedBound(d, lift, i, bound), rs)
  {
    hide DependsOn, Lifted, LiftedBound, ExprBelow, AtomBelow, ClosedUnderDependents;
    var up, ub := Lifted(rank, d, lift), LiftedBound(d, lift, i, bound);
    forall j | 0 <= j < |rs|
      ensures ExprBelow(k, up, ub, rs[j].cond) && AtomBelow(up, ub, rs[j].low) && AtomBelow(up, ub, rs[j].high)
    {
      var r := rs[j];
      assert ItemsIn(Leaf(r.low)) + ItemsIn(Leaf(r.high)) + ItemsIn(r.cond) <= RangeItems(rs);
      LiftExpr(k, rank, d, lift, i, bound, r.cond);
      LiftAtom(k, rank, d, lift, i, bound, r.low);
      LiftAtom(k, rank, d, lift, i, bound, r.high);
    }
  }

  lemma LiftModules(k: Kconfig, rank: Rank, d: set<Item>, lift: nat, i: Item, bound: nat, t: Type)
    requires ClosedUnderDependents(k, d) && ModulesBelow(k, rank, bound, t)
    requires t == match i case SymItem(s) => k.Def(s).typ case ChoiceItem(x) => k.Choice(x).typ
    ensures ModulesBelow(k, Lifted(rank, d, lift), LiftedBound(d, lift, i, bound), t)
  {
  }

  lemma LiftSymVis(k: Kconfig, rank: Rank, d: set<Item>, lift: nat, s: SymId)
    requires WellFormed(k) && ClosedUnderDependents(k, d) && SymVisBelow(k, rank, rank(VisOf(SymItem(s))), s)
    ensures SymVisBelow(k, Lifted(rank, d, lift), Lifted(rank, d, lift)(VisOf(SymItem(s))), s)
  {
    var i, b, def := SymItem(s), rank(VisOf(SymItem(s))), k.Def(s);
    assert PromptItems(def.prompts) <= DependsOn(k, i) by { assert def.defined || UndefinedIsEmpty(def); }
    assert def.choice.Some? && ChoiceItem(def.choice.value) in d ==> i in d;
    assert Lifted(rank, d, lift)(VisOf(i)) == LiftedBound(d, lift, i, b);
    hide WellFormed, ClosedUnderDependents, Lifted, LiftedBound, AllBelow, ModeBelow, ModulesBelow;
    LiftAll(k, rank, d, lift, i, b, def.prompts);
    LiftModules(k, rank, d, lift, i, b, def.typ);
    if def.choice.Some? { LiftMode(k, rank, d, lift, i, b, def.choice.value); }
  }

  lemma LiftSymValue(k: Kconfig, rank: Rank, d: set<Item>, lift: nat, bound: nat, s: SymId)
    requires WellFormed(k) && ClosedUnderDependents(k, d) && SymValueBelow(k, rank, bound, s)
    ensures SymValueBelow(k, Lifted(rank, d, lift), LiftedBound(d, lift, SymItem(s), bound), s)
  {
    hide WellFormed, ClosedUnderDependents, Lifted, LiftedBound, ModeBelow, ModulesBelow, ExprBelow;
    hide DefaultsBelow, RangesBelow, DependsOn, ItemsIn, DefaultItems, RangeItems;
    var i, def := SymItem(s), k.Def(s);
    SymValueItems(k, s);
    LiftOwnReads(k, rank, d, lift, bound, s);
    LiftModules(k, rank, d, lift, i, bound, def.typ);
    if def.choice.Some? { LiftMode(k, rank, d, lift, i, bound, def.choice.value); }
    LiftDefaults(k, rank, d, lift, i, bound, def.defaults);
    LiftRanges(k, rank, d, lift, i, bound, def.ranges);
    LiftExpr(k, rank, d, lift, i, bound, def.revDep);
    LiftExpr(k, rank, d, lift, i, bound, def.weakRevDep);
    LiftExpr(k, rank, d, lift, i, bound, def.directDep);
  }

  lemma LiftOwnReads(k: Kconfig, rank: Rank, d: set<Item>, lift: nat, bound: nat, s: SymId)
    requires ClosedUnderDependents(k, d) && rank(VisOf(SymItem(s))) < bound
    requires k.Def(s).choice.Some? ==> rank(SelOf(k.Def(s).choice.value)) < bound
    ensures Lifted(rank, d, lift)(VisOf(SymItem(s))) < LiftedBound(d, lift, SymItem(s), bound)
    ensures k.Def(s).choice.Some? ==>
              && Lifted(rank, d, lift)(SelOf(k.Def(s).choice.value)) < LiftedBound(d, lift, SymItem(s), bound)
              && (ChoiceItem(k.Def(s).choice.value) in d ==> SymItem(s) in d)
  {
  }

  lemma SymValueItems(k: Kconfig, s: SymId)
    requires WellFormed(k)
    ensures var d, near := k.Def(s), DependsOn(k, SymItem(s));
            && DefaultItems(d.defaults) <= near && RangeItems(d.ranges) <= near
            && ItemsIn(d.revDep) <= near && ItemsIn(d.weakRevDep) <= near && ItemsIn(d.directDep) <= near
  {
    assert k.Def(s).defined || UndefinedIsEmpty(k.Def(s));
  }

  lemma LiftChoiceVis(k: Kconfig, rank: Rank, d: set<Item>, lift: nat, x: ChoiceId)
    requires ClosedUnderDependents(k, d) && ChoiceVisBelow(k, rank, rank(VisOf(ChoiceItem(x))), x)
    ensures ChoiceVisBelow(k, Lifted(rank, d, lift), Lifted(rank, d, lift)(VisOf(ChoiceItem(x))), x)
  {
    var i, b := ChoiceItem(x), rank(VisOf(ChoiceItem(x)));
    assert Lifted(rank, d, lift)(VisOf(i)) == LiftedBound(d, lift, i, b);
    hide ClosedUnderDependents, Lifted, LiftedBound, AllBelow, ModulesBelow;
    LiftAll(k, rank, d, lift, i, b, k.Choice(x).prompts);
    LiftModules(k, rank, d, lift, i, b, k.Choice(x).typ);
  }

  lemma LiftSelection(k: Kconfig, rank: Rank, d: set<Item>, lift: nat, x: ChoiceId)
    requires ClosedUnderDependents(k, d) && SelectionBelow(k, rank, rank(SelOf(x)), x)
    ensures SelectionBelow(k, Lifted(rank, d, lift), Lifted(rank, d, lift)(SelOf(x)), x)
  {
    var i, b, up := ChoiceItem(x), rank(SelOf(x)), Lifted(rank, d, lift);
    var ub := LiftedBound(d, lift, i, b);
    assert up(SelOf(x)) == ub;
    hide ClosedUnderDependents, Lifted, LiftedBound, ModeBelow, ExprBelow;
    LiftMode(k, rank, d, lift, i, b, x);
    forall s | s in k.Choice(x).syms ensures up(VisOf(SymItem(s))) < ub {
      var j :| 0 <= j < |k.Choice(x).syms| && k.Choice(x).syms[j] == s;
      assert SymItem(k.Choice(x).syms[j]) in MemberItems(k.Choice(x).syms);
      LiftRead(k, rank, d, lift, i, b, VisOf(SymItem(s)));
    }
    forall j | 0 <= j < |k.Choice(x).defaults| ensures ExprBelow(k, up, ub, k.Choice(x).defaults[j].cond) {
      assert ItemsIn(k.Choice(x).defaults[j].cond) <= ChoiceDefaultItems(k.Choice(x).defaults);
      LiftExpr(k, rank, d, lift, i, b, k.Choice(x).defaults[j].cond);
    }
  }

  lemma LiftAcyclic(k: Kconfig, rank: Rank, d: set<Item>, lift: nat)
    requires WellFormed(k) && Acyclic(k, rank) && ClosedUnderDependents(k, d)
    ensures Acyclic(k, Lifted(rank, d, lift))
  {
    hide WellFormed, ClosedUnderDependents, SymVisBelow, SymValueBelow, ChoiceVisBelow, SelectionBelow;
    var up := Lifted(rank, d, lift);
    forall s: SymId
      ensures SymVisBelow(k, up, up(VisOf(SymItem(s))), s)
      ensures SymValueBelow(k, up, up(TriOf(s)), s) && SymValueBelow(k, up, up(StrOf(s)), s)
              && up(TriOf(s)) < up(StrOf(s))
    {
      LiftSymVis(k, rank, d, lift, s);
      LiftSymValue(k, rank, d, lift, rank(TriOf(s)), s);
      LiftSymValue(k, rank, d, lift, rank(StrOf(s)), s);
    }
    forall x: ChoiceId
      ensures ChoiceVisBelow(k, up, up(VisOf(ChoiceItem(x))), x) && SelectionBelow(k, up, up(SelOf(x)), x)
    {
      LiftChoiceVis(k, rank, d, lift, x);
      LiftSelection(k, rank, d, lift, x);
    }
  }

  /** `u'` differs from `u` at most in the user value of `s` and in the selection of its choice. */
  ghost predicate DifferAt(k: Kconfig, u: User, u': User, s: SymId) {
    && u'.mode == u.mode
    && (forall x: ChoiceId | k.Def(s).choice != Some(x) :: u.SelectionOf(x) == u'.SelectionOf(x))
    && forall t | t != s :: u.TriOf(t) == u'.TriOf(t) && u.StrOf(t) == u'.StrOf(t)
  }

  lemma {:induction false} UserValueFrame(k: Kconfig, rank: Rank, u: User, u': User, v: Valuation, v': Valuation,
                                          s: SymId, bound: nat)
    requires WellFormed(k) && Acyclic(k, rank) && UserOk(k, u) && UserOk(k, u')
    requires Solves(k, u, v) && Solves(k, u', v') && DifferAt(k, u, u', s) && bound <= rank(TriOf(s))
    requires k.Def(s).choice.Some? ==> bound <= rank(SelOf(k.Def(s).choice.value))
    ensures AgreeBelow(rank, bound, v, v')
  {
    hide WellFormed, Acyclic, UserOk;
    if bound > 0 {
      UserValueFrame(k, rank, u, u', v, v', s, bound - 1);
      forall i: Item | rank(VisOf(i)) < bound ensures v.vis(i) == v'.vis(i) {
        VisCongruent(k, u, rank, v, v', i);
        SameUserVis(k, u, u', v', i);
      }
      forall t: SymId | rank(TriOf(t)) < bound ensures v.tri(t) == v'.tri(t) {
        TriCongruent(k, u, rank, v, v', t);
        SameUserTri(k, u, u', v', t);
      }
      forall t: SymId | rank(StrOf(t)) < bound ensures v.str(t) == v'.str(t) {
        StrCongruent(k, u, rank, v, v', t);
        TriBeforeStr(k, rank, s);
        SameUserTri(k, u, u', v', t);
      }
      forall x: ChoiceId | rank(SelOf(x)) < bound ensures v.sel(x) == v'.sel(x) {
        SelCongruent(k, u, rank, v, v', x);
        SameUserSel(k, u, u', v', x);
      }
    }
  }

  lemma TriBeforeStr(k: Kconfig, rank: Rank, s: SymId)
    requires Acyclic(k, rank)
    ensures rank(TriOf(s)) < rank(StrOf(s))
  {
  }

  lemma SameModesEnv(k: Kconfig, u: User, u': User, v: Valuation, e: Expr)
    requires u'.mode == u.mode
    ensures SameOn(e, EnvOf(k, u, v), EnvOf(k, u', v))
  {
  }

  lemma SameUserVis(k: Kconfig, u: User, u': User, v: Valuation, i: Item)
    requires u'.mode == u.mode
    ensures VisRule(k, u, v, i) == VisRule(k, u', v, i)
  {
    forall e: Expr ensures SameOn(e, EnvOf(k, u, v), EnvOf(k, u', v)) { SameModesEnv(k, u, u', v, e); }
    match i
    case SymItem(s) => SymVisLocal(k, u, v, u', v, s);
    case ChoiceItem(x) => ChoiceVisLocal(k, u, v, u', v, x);
  }

  lemma SameUserTri(k: Kconfig, u: User, u': User, v: Valuation, t: SymId)
    requires u'.mode == u.mode && u.TriOf(t) == u'.TriOf(t) && u.StrOf(t) == u'.StrOf(t)
    ensures TriRule(k, u, v, t) == TriRule(k, u', v, t) && StrRule(k, u, v, t) == StrRule(k, u', v, t)
  {
    forall e: Expr ensures SameOn(e, EnvOf(k, u, v), EnvOf(k, u', v)) { SameModesEnv(k, u, u', v, e); }
    assert SameValueReads(k, u, v, u', v, t);
    TriLocal(k, u, v, u', v, t);
    if !IsBoolTristate(k.Def(t).typ) { TextLocal(k, u, v, u', v, t); }
  }

  lemma SameUserSel(k: Kconfig, u: User, u': User, v: Valuation, x: ChoiceId)
    requires WellFormed(k) && UserOk(k, u) && u'.mode == u.mode && u'.SelectionOf(x) == u.SelectionOf(x)
    ensures SelRule(k, u, v, x) == SelRule(k, u', v, x)
  {
    forall e: Expr ensures SameOn(e, EnvOf(k, u, v), EnvOf(k, u', v)) { SameModesEnv(k, u, u', v, e); }
    SelLocal(k, u, v, u', v, x);
  }

  lemma ChoiceDepends(k: Kconfig, s: SymId, d: set<Item>)
    requires WellFormed(k) && ClosedUnderDependents(k, d) && SymItem(s) in d
    ensures k.Def(s).choice.Some? ==> ChoiceItem(k.Def(s).choice.value) in d
  {
    if k.Def(s).choice.Some? {
      var x := k.Def(s).choice.value;
      assert s in k.Choice(x).syms;
      var j :| 0 <= j < |k.Choice(x).syms| && k.Choice(x).syms[j] == s;
      assert SymItem(k.Choice(x).syms[j]) in MemberItems(k.Choice(x).syms);
      assert SymItem(s) in DependsOn(k, ChoiceItem(x));
    }
  }

  /** Setting or unsetting a symbol changes nothing outside any set that holds the symbol and
      is closed under dependents. */
  lemma SettingChangesOnlyDependents(k: Kconfig, rank: Rank, u: User, u': User, v: Valuation, v': Valuation, s: SymId,
                                     d: set<Item>, q: Quantity)
    requires WellFormed(k) && Acyclic(k, rank) && UserOk(k, u) && UserOk(k, u')
    requires Solves(k, u, v) && Solves(k, u', v') && DifferAt(k, u, u', s)
    requires ClosedUnderDependents(k, d) && SymItem(s) in d && ItemOf(q) !in d
    ensures match q
            case VisOf(i) => v.vis(i) == v'.vis(i)
            case TriOf(t) => v.tri(t) == v'.tri(t)
            case StrOf(t) => v.str(t) == v'.str(t)
            case SelOf(x) => v.sel(x) == v'.sel(x)
  {
    hide WellFormed, Acyclic, UserOk, Solves, ClosedUnderDependents;
    var lift := rank(q) + 1;
    var up := Lifted(rank, d, lift);
    LiftAcyclic(k, rank, d, lift);
    ChoiceDepends(k, s, d);
    assert up(q) == rank(q) && up(TriOf(s)) == rank(TriOf(s)) + lift;
    if k.Def(s).choice.Some? { assert ItemOf(SelOf(k.Def(s).choice.value)) in d; }
    UserValueFrame(k, up, u, u', v, v', s, up(q) + 1);
  }

  // ----- Assignable values -----

  /** Visible as m, selected to m and implied to y. */
  predicate SelectedAndImplied(k: Kconfig, u: User, v: Valuation, s: SymId) {
    && v.vis(SymItem(s)) == 1
    && Value(k.Def(s).revDep, EnvOf(k, u, v)) == 1
    && Value(k.Def(s).weakRevDep, EnvOf(k, u, v)) == 2
  }

  /** The value that a visible symbol has once the user has set it to `t`. */
  function SetTo(k: Kconfig, u: User, v: Valuation, s: SymId, t: Tri): Tri {
    Select(k.Def(s), SymType(k, u, v, s), EnvOf(k, u, v), TriResult(Min(t, v.vis(SymItem(s))), true)).val
  }

  lemma SettingGives(k: Kconfig, rank: Rank, u: User, v: Valuation, s: SymId, t: Tri, u': User, v': Valuation)
    requires WellFormed(k) && Acyclic(k, rank) && UserOk(k, u) && UserOk(k, u') && Solves(k, u, v) && Solves(k, u', v')
    requires k.Def(s).choice.None? && IsBoolTristate(k.Def(s).typ) && v.vis(SymItem(s)) != 0
    requires DifferAt(k, u, u', s) && u'.TriOf(s) == Some(t)
    ensures v'.tri(s) == SetTo(k, u, v, s, t)
  {
    assert v'.tri(s) == TriRule(k, u', v', s).val;
    hide WellFormed, Acyclic, UserOk, Solves;
    UserValueFrame(k, rank, u, u', v, v', s, rank(TriOf(s)));
    TriCongruent(k, u', rank, v, v', s);
    SameModesEnv(k, u, u', v, k.Def(s).revDep);
    SameModesEnv(k, u, u', v, k.Def(s).weakRevDep);
    ValueDependsOnMentions(k.Def(s).revDep, EnvOf(k, u, v), EnvOf(k, u', v));
    ValueDependsOnMentions(k.Def(s).weakRevDep, EnvOf(k, u, v), EnvOf(k, u', v));
  }

  lemma AssignableTable(k: Kconfig, u: User, v: Valuation, s: SymId, t: Tri)
    requires k.Def(s).choice.None? && IsBoolTristate(k.Def(s).typ) && v.vis(SymItem(s)) != 0
    requires v.vis(SymItem(s)) == 1 ==> SymType(k, u, v, s) == Tristate
    requires ValidFor(k.Def(s).typ, UserTri(t))
    ensures if SelectedAndImplied(k, u, v, s) then SymAssignable(k, u, v, s) == {1} && SetTo(k, u, v, s, t) == 2
            else t in SymAssignable(k, u, v, s) <==> SetTo(k, u, v, s, t) == t
  {
    hide EnvOf, Value;
  }

  lemma VisibleAsMIsTristate(k: Kconfig, u: User, v: Valuation, s: SymId)
    requires Solves(k, u, v) && v.vis(SymItem(s)) == 1
    ensures SymType(k, u, v, s) == Tristate
  {
    assert v.vis(SymItem(s)) == VisRule(k, u, v, SymItem(s));
  }

  /** A value is assignable exactly if setting it makes it the symbol's value. The one
      exception is a symbol that is visible as m, selected to m and implied to y: m is
      offered, but every setting gives y. */
  lemma AssignableIsExact(k: Kconfig, rank: Rank, u: User, v: Valuation, s: SymId, t: Tri, v': Valuation)
    requires WellFormed(k) && Acyclic(k, rank) && UserOk(k, u) && Solves(k, u, v)
    requires k.Def(s).choice.None? && IsBoolTristate(k.Def(s).typ) && v.vis(SymItem(s)) != 0
    requires ValidFor(k.Def(s).typ, UserTri(t)) && Solves(k, SetSym(k, State(u, {}), s, UserTri(t)).user, v')
    ensures if SelectedAndImplied(k, u, v, s) then SymAssignable(k, u, v, s) == {1} && v'.tri(s) == 2
            else t in SymAssignable(k, u, v, s) <==> v'.tri(s) == t
  {
    hide Acyclic, UserOk, Solves, SymAssignable, SetTo, SymType;
    var u' := SetSym(k, State(u, {}), s, UserTri(t)).user;
    SetKeepsUserOk(k, State(u, {}), s, UserTri(t));
    SettingGives(k, rank, u, v, s, t, u', v');
    if v.vis(SymItem(s)) == 1 { VisibleAsMIsTristate(k, u, v, s); }
    AssignableTable(k, u, v, s, t);
  }

  /** The exception is real: exactly there `assignable` is wrong about some value. */
  lemma AssignableExceptionIsReal(k: Kconfig, rank: Rank, u: User, v: Valuation, s: SymId, v': Valuation)
    requires WellFormed(k) && Acyclic(k, rank) && UserOk(k, u) && Solves(k, u, v)
    requires k.Def(s).choice.None? && k.Def(s).typ == Tristate && SelectedAndImplied(k, u, v, s)
    requires Solves(k, SetSym(k, State(u, {}), s, UserTri(1)).user, v')
    ensures 1 in SymAssignable(k, u, v, s) && v'.tri(s) != 1
  {
    AssignableIsExact(k, rank, u, v, s, 1, v');
  }

  // ----- Choices -----

  lemma SetMember(k: Kconfig, u: User, s: SymId, x: ChoiceId, t: Tri)
    requires WellFormed(k) && ChoicesTyped(k) && UserOk(k, u) && k.Def(s).choice == Some(x)
    requires ValidFor(k.Def(s).typ, UserTri(t))
    ensures var u' := SetSym(k, State(u, {}), s, UserTri(t)).user;
            && UserOk(k, u') && DifferAt(k, u, u', s) && u'.TriOf(s) == Some(t)
            && (t == 2 ==> x in u'.selection && u'.selection[x] == s)
    ensures IsBoolTristate(k.Def(s).typ)
  {
    SetKeepsUserOk(k, State(u, {}), s, UserTri(t));
  }

  lemma ModeStays(k: Kconfig, rank: Rank, u: User, u': User, v: Valuation, v': Valuation, bound: nat, x: ChoiceId)
    requires AgreeBelow(rank, bound, v, v') && u'.mode == u.mode && ModeBelow(k, rank, bound, x)
    ensures EnvOf(k, u, v).mode(x) == EnvOf(k, u', v').mode(x)
  {
  }

  /** Picking a visible symbol of a choice in y mode makes it y and the others n. */
  lemma PickingGives(k: Kconfig, rank: Rank, u: User, v: Valuation, s: SymId, x: ChoiceId, v': Valuation)
    requires WellFormed(k) && ChoicesTyped(k) && Acyclic(k, rank) && UserOk(k, u) && Solves(k, u, v)
    requires k.Def(s).choice == Some(x) && v.vis(SymItem(s)) != 0 && EnvOf(k, u, v).mode(x) == 2
    requires Solves(k, SetSym(k, State(u, {}), s, UserTri(2)).user, v')
    ensures v'.sel(x) == Some(s) && v'.tri(s) == 2 && forall t | t in k.Choice(x).syms && t != s :: v'.tri(t) == 0
  {
    hide WellFormed, Acyclic, UserOk, Solves, ChoicesTyped, SetSym, EnvOf, ModeBelow;
    var u' := SetSym(k, State(u, {}), s, UserTri(2)).user;
    MemberReads(k, rank, s, x);
    MembersAreTyped(k, s);
    SetMember(k, u, s, x, 2);
    UserValueFrame(k, rank, u, u', v, v', s, rank(SelOf(x)));
    ModeStays(k, rank, u, u', v, v', rank(SelOf(x)), x);
    UserSelectionIsY(k, u', v', x, s);
  }

  lemma MembersAreTyped(k: Kconfig, s: SymId)
    requires ChoicesTyped(k) && k.Def(s).choice.Some?
    ensures IsBoolTristate(k.Def(s).typ)
  {
  }

  /** Selections are read from visibilities and modes, and values from selections. */
  lemma MemberReads(k: Kconfig, rank: Rank, s: SymId, x: ChoiceId)
    requires WellFormed(k) && Acyclic(k, rank) && k.Def(s).choice == Some(x)
    ensures rank(VisOf(SymItem(s))) < rank(SelOf(x)) < rank(TriOf(s))
    ensures ModeBelow(k, rank, rank(SelOf(x)), x)
  {
    assert SelectionBelow(k, rank, rank(SelOf(x)), x) && s in k.Choice(x).syms;
    assert SymValueBelow(k, rank, rank(TriOf(s)), s);
  }

  /** The values offered for a visible symbol of a choice. In y mode that is y, and setting it gives it. In
      m mode it is n and m, and they are what setting gives, unless the symbol is selected or implied. */
  lemma MemberAssignable(k: Kconfig, rank: Rank, u: User, v: Valuation, s: SymId, x: ChoiceId, t: Tri, v': Valuation)
    requires WellFormed(k) && ChoicesTyped(k) && Acyclic(k, rank) && UserOk(k, u) && Solves(k, u, v)
    requires k.Def(s).choice == Some(x) && v.vis(SymItem(s)) != 0 && ValidFor(k.Def(s).typ, UserTri(t))
    requires Solves(k, SetSym(k, State(u, {}), s, UserTri(t)).user, v')
    ensures v.vis(SymItem(s)) == 2 ==> SymAssignable(k, u, v, s) == {2} && (t == 2 ==> v'.tri(s) == 2)
    ensures v.vis(SymItem(s)) == 1 && Value(k.Def(s).revDep, EnvOf(k, u, v)) == 0
            && Value(k.Def(s).weakRevDep, EnvOf(k, u, v)) != 2 ==>
              (t in SymAssignable(k, u, v, s) <==> v'.tri(s) == t)
  {
    hide WellFormed, Acyclic, UserOk, Solves, ChoicesTyped, SetSym, EnvOf, ModeBelow, ModeRule, Value;
    var u' := SetSym(k, State(u, {}), s, UserTri(t)).user;
    MemberReads(k, rank, s, x);
    Choices.MemberVisibility(k, u, v, s);
    SetMember(k, u, s, x, t);
    UserValueFrame(k, rank, u, u', v, v', s, rank(SelOf(x)));
    MemberMeaning(k, u', v', s, x);
    if v.vis(SymItem(s)) == 2 && t == 2 {
      InYMode(k, u, v, x);
      PickingGives(k, rank, u, v, s, x, v');
    }
  }

  lemma InYMode(k: Kconfig, u: User, v: Valuation, x: ChoiceId)
    ensures EnvOf(k, u, v).mode(x) == ModeRule(k, u, v, x)
  {
  }

  /** `u'` differs from `u` at most in the mode of `x`. */
  ghost predicate DifferInMode(u: User, u': User, x: ChoiceId) {
    u'.value == u.value && u'.selection == u.selection && forall c: ChoiceId | c != x :: u.ModeOf(c) == u'.ModeOf(c)
  }

  lemma OtherModesStay(k: Kconfig, rank: Rank, u: User, u': User, v: Valuation, v': Valuation, x: ChoiceId, bound: nat)
    requires DifferInMode(u, u', x) && AgreeBelow(rank, bound, v, v') && bound <= rank(VisOf(ChoiceItem(x)))
    ensures SameModesBelow(k, u, u', rank, bound, v, v')
  {
  }

  lemma {:induction false} ModeFrame(k: Kconfig, rank: Rank, u: User, u': User, v: Valuation, v': Valuation,
                                     x: ChoiceId, bound: nat)
    requires WellFormed(k) && Acyclic(k, rank) && UserOk(k, u) && UserOk(k, u')
    requires Solves(k, u, v) && Solves(k, u', v') && DifferInMode(u, u', x) && bound <= rank(VisOf(ChoiceItem(x))) + 1
    ensures AgreeBelow(rank, bound, v, v')
  {
    hide WellFormed, Acyclic, UserOk, SameModesBelow;
    if bound > 0 {
      ModeFrame(k, rank, u, u', v, v', x, bound - 1);
      forall i: Item | rank(VisOf(i)) < bound ensures v.vis(i) == v'.vis(i) {
        OtherModesStay(k, rank, u, u', v, v', x, rank(VisOf(i)));
        VisAgrees(k, u, u', rank, v, v', i);
      }
      forall t: SymId | rank(TriOf(t)) < bound ensures v.tri(t) == v'.tri(t) {
        OtherModesStay(k, rank, u, u', v, v', x, rank(TriOf(t)));
        TriAgrees(k, u, u', rank, v, v', t);
      }
      forall t: SymId | rank(StrOf(t)) < bound ensures v.str(t) == v'.str(t) {
        OtherModesStay(k, rank, u, u', v, v', x, rank(StrOf(t)));
        StrAgrees(k, u, u', rank, v, v', t);
      }
      forall c: ChoiceId | rank(SelOf(c)) < bound ensures v.sel(c) == v'.sel(c) {
        OtherModesStay(k, rank, u, u', v, v', x, rank(SelOf(c)));
        SelAgrees(k, u, u', rank, v, v', c);
      }
    }
  }

  lemma ModulesBefore(k: Kconfig, rank: Rank, x: ChoiceId)
    requires Acyclic(k, rank) && k.Choice(x).typ == Tristate
    ensures rank(TriOf(k.modules)) < rank(VisOf(ChoiceItem(x)))
  {
    assert ChoiceVisBelow(k, rank, rank(VisOf(ChoiceItem(x))), x);
  }

  lemma SetModeUser(k: Kconfig, u: User, x: ChoiceId, m: Tri)
    requires UserOk(k, u) && ValidMode(k.Choice(x).typ, m)
    ensures var u' := SetMode(k, State(u, {}), x, m).user;
            UserOk(k, u') && DifferInMode(u, u', x) && x in u'.mode && u'.mode[x] == m
  {
  }

  /** A mode is assignable to a visible choice exactly if setting it makes it the mode. */
  lemma ModeAssignableIsExact(k: Kconfig, rank: Rank, u: User, v: Valuation, x: ChoiceId, m: Tri, v': Valuation)
    requires WellFormed(k) && Acyclic(k, rank) && UserOk(k, u) && Solves(k, u, v)
    requires v.vis(ChoiceItem(x)) != 0 && ValidMode(k.Choice(x).typ, m)
    requires Solves(k, SetMode(k, State(u, {}), x, m).user, v')
    ensures m in ChoiceAssignable(k, v, x) <==> EnvOf(k, SetMode(k, State(u, {}), x, m).user, v').mode(x) == m
  {
    hide WellFormed, Acyclic, UserOk, Solves, SetMode, EnvOf;
    var u' := SetMode(k, State(u, {}), x, m).user;
    SetModeUser(k, u, x, m);
    ModeFrame(k, rank, u, u', v, v', x, rank(VisOf(ChoiceItem(x))) + 1);
    ChoiceVisibilityMeaning(k, u, v, x);
    ModeMeaning(k, u', v', x);
    if k.Choice(x).typ == Tristate { ModulesBefore(k, rank, x); }
  }
}
