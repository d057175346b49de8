/**
 What every state guarantees about choices.
 */
module Choices {
  import opened Expressions
  import opened Config
  import opened Evaluation

  // ----- Exclusivity -----

  lemma {:induction false} PromptsBounded(es: seq<Expr>, x: ChoiceId, env: Env)
    requires forall i | 0 <= i < |es| :: GuardedBy(es[i], x)
    ensures MaxValue(es, env) <= env.mode(x)
  {
    if es != [] {
      PromptsBounded(es[..|es| - 1], x, env);
      GuardBoundsValue(es[|es| - 1], x, env);
    }
  }

  /** The mode of a choice limits the visibility of its symbols. */
  lemma MemberVisibility(k: Kconfig, u: User, v: Valuation, s: SymId)
    requires WellFormed(k) && ChoicesTyped(k) && Solves(k, u, v) && k.Def(s).choice.Some?
    ensures var mode := ModeRule(k, u, v, k.Def(s).choice.value);
            && (mode == 0 ==> v.vis(SymItem(s)) == 0)
            && (mode == 1 ==> v.vis(SymItem(s)) != 2)
            && (mode == 2 ==> v.vis(SymItem(s)) != 1)
  {
    var x := k.Def(s).choice.value;
    var env := EnvOf(k, u, v);
    PromptsBounded(k.Def(s).prompts, x, env);
    assert v.vis(SymItem(s)) == VisRule(k, u, v, SymItem(s));
    assert IsBoolTristate(k.Def(s).typ);
    assert s in k.Choice(x).syms && IsBoolTristate(k.Choice(x).typ);
  }

  lemma {:induction false} FirstVisibleIsVisible(syms: seq<SymId>, v: Valuation)
    ensures var r := FirstVisible(syms, v);
            if r.Some? then r.value in syms && v.vis(SymItem(r.value)) != 0
            else forall s | s in syms :: v.vis(SymItem(s)) == 0
  {
    if syms != [] { FirstVisibleIsVisible(syms[1..], v); }
  }

  lemma {:induction false} DefaultSelectionIsVisible(ds: seq<ChoiceDefault>, env: Env, v: Valuation)
    ensures var r := DefaultSelection(ds, env, v);
            r.Some? ==> v.vis(SymItem(r.value)) != 0 && exists i | 0 <= i < |ds| :: ds[i].sym == r.value
  {
    if ds != [] {
      DefaultSelectionIsVisible(ds[1..], env, v);
      if DefaultSelection(ds[1..], env, v).Some? {
        var i :| 0 <= i < |ds[1..]| && ds[1..][i].sym == DefaultSelection(ds[1..], env, v).value;
        assert ds[i + 1].sym == DefaultSelection(ds[1..], env, v).value;
      }
    }
  }

  /** In y mode the selection is a visible symbol of the choice, if there is any. */
  lemma SelectionIsVisibleMember(k: Kconfig, u: User, v: Valuation, x: ChoiceId)
    requires WellFormed(k) && UserOk(k, u)
    ensures var r := SelRule(k, u, v, x);
            && (r.Some? ==> r.value in k.Choice(x).syms && v.vis(SymItem(r.value)) != 0)
            && (ModeRule(k, u, v, x) == 2 && r.None? ==> forall s | s in k.Choice(x).syms :: v.vis(SymItem(s)) == 0)
  {
    DefaultSelectionIsVisible(k.Choice(x).defaults, EnvOf(k, u, v), v);
    FirstVisibleIsVisible(k.Choice(x).syms, v);
  }

  /** The three modes of a choice. */
  ghost predicate Exclusive(k: Kconfig, v: Valuation, x: ChoiceId, mode: Tri) {
    var syms := k.Choice(x).syms;
    match mode
    case 0 => v.sel(x).None? && forall s | s in syms :: v.tri(s) == 0
    case 1 => v.sel(x).None? && forall s | s in syms :: v.tri(s) != 2
    case _ =>
      if exists s | s in syms :: v.vis(SymItem(s)) != 0 then
        && v.sel(x).Some? && v.sel(x).value in syms
        && forall s | s in syms :: v.tri(s) == if s == v.sel(x).value then 2 else 0
      else v.sel(x).None? && forall s | s in syms :: v.tri(s) == 0
  }

  lemma MemberValue(k: Kconfig, u: User, v: Valuation, s: SymId)
    requires ChoicesTyped(k) && Solves(k, u, v) && k.Def(s).choice.Some?
    ensures v.vis(SymItem(s)) == 0 ==> v.tri(s) == 0
    ensures v.vis(SymItem(s)) == 1 ==> v.tri(s) != 2
    ensures v.vis(SymItem(s)) == 2 ==> v.tri(s) == if v.sel(k.Def(s).choice.value) == Some(s) then 2 else 0
  {
    assert v.tri(s) == TriRule(k, u, v, s).val;
  }

  /** In y mode with a visible symbol exactly one symbol of the choice is y and the rest are
      n; in m mode none is y; in n mode all are n. */
  lemma ChoiceIsExclusive(k: Kconfig, u: User, v: Valuation, x: ChoiceId)
    requires WellFormed(k) && ChoicesTyped(k) && UserOk(k, u) && Solves(k, u, v)
    ensures Exclusive(k, v, x, ModeRule(k, u, v, x))
  {
    var mode := ModeRule(k, u, v, x);
    SelectionIsVisibleMember(k, u, v, x);
    assert v.sel(x) == SelRule(k, u, v, x);
    assert mode != 2 ==> v.sel(x).None?;
    assert forall s :: s in k.Choice(x).syms <==> k.Def(s).choice == Some(x);
    hide Solves, ModeRule, SelRule, WellFormed, UserOk, ChoicesTyped;
    forall s | s in k.Choice(x).syms
      ensures v.vis(SymItem(s)) == 0 ==> v.tri(s) == 0
      ensures mode == 0 ==> v.vis(SymItem(s)) == 0
      ensures mode == 1 ==> v.tri(s) != 2
      ensures mode == 2 && v.vis(SymItem(s)) != 0 ==> v.tri(s) == if v.sel(x) == Some(s) then 2 else 0
    {
      MemberVisibility(k, u, v, s);
      MemberValue(k, u, v, s);
    }
  }
}
