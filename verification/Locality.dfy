/**
 What each rule reads. Two user states and valuations that agree on what a rule reads give
 it the same result.
 */
module Locality {
  import opened Expressions
  import opened Config

  ghost predicate SameModules(k: Kconfig, v: Valuation, v': Valuation, t: Type) {
    t == Tristate ==> v.tri(k.modules) == v'.tri(k.modules)
  }

  ghost predicate SameOnAll(es: seq<Expr>, a: Env, b: Env) {
    forall i | 0 <= i < |es| :: SameOn(es[i], a, b)
  }

  ghost predicate SameOnDefaults(ds: seq<Default>, a: Env, b: Env) {
    forall i | 0 <= i < |ds| ::
      && SameOn(ds[i].value, a, b)
      && SameOn(ds[i].cond, a, b)
      && DefaultText(ds[i].value, a) == DefaultText(ds[i].value, b)
  }

  ghost predicate SameOnRanges(rs: seq<Range>, a: Env, b: Env) {
    forall i | 0 <= i < |rs| ::
      SameOn(rs[i].cond, a, b) && AtomStr(rs[i].low, a) == AtomStr(rs[i].low, b)
        && AtomStr(rs[i].high, a) == AtomStr(rs[i].high, b)
  }

  lemma {:induction false} MaxValueLocal(es: seq<Expr>, a: Env, b: Env)
    requires SameOnAll(es, a, b)
    ensures MaxValue(es, a) == MaxValue(es, b)
  {
    if es != [] {
      MaxValueLocal(es[..|es| - 1], a, b);
      ValueDependsOnMentions(es[|es| - 1], a, b);
    }
  }

  lemma {:induction false} ActiveDefaultLocal(ds: seq<Default>, a: Env, b: Env)
    requires SameOnDefaults(ds, a, b)
    ensures ActiveDefault(ds, a) == ActiveDefault(ds, b)
    ensures var r := ActiveDefault(ds, a);
            r.Some? ==>
              && Value(r.value.value, a) == Value(r.value.value, b)
              && Value(r.value.cond, a) == Value(r.value.cond, b)
              && DefaultText(r.value.value, a) == DefaultText(r.value.value, b)
  {
    if ds != [] {
      ValueDependsOnMentions(ds[0].cond, a, b);
      ValueDependsOnMentions(ds[0].value, a, b);
      ActiveDefaultLocal(ds[1..], a, b);
    }
  }

  lemma {:induction false} ActiveRangeLocal(rs: seq<Range>, a: Env, b: Env)
    requires SameOnRanges(rs, a, b)
    ensures ActiveRange(rs, a) == ActiveRange(rs, b)
    ensures var r := ActiveRange(rs, a);
            r.Some? ==>
              && AtomStr(r.value.low, a) == AtomStr(r.value.low, b)
              && AtomStr(r.value.high, a) == AtomStr(r.value.high, b)
  {
    if rs != [] {
      ValueDependsOnMentions(rs[0].cond, a, b);
      ActiveRangeLocal(rs[1..], a, b);
    }
  }

  // ----- Visibility -----

  ghost predicate SameSymVisReads(k: Kconfig, u: User, v: Valuation, u': User, v': Valuation, s: SymId) {
    var d := k.Def(s);
    && SameOnAll(d.prompts, EnvOf(k, u, v), EnvOf(k, u', v'))
    && SameModules(k, v, v', d.typ)
    && (d.choice.Some? ==>
          || ModeRule(k, u, v, d.choice.value) == ModeRule(k, u', v', d.choice.value)
          || MaxValue(d.prompts, EnvOf(k, u, v)) == 0)
  }

  lemma SymVisLocal(k: Kconfig, u: User, v: Valuation, u': User, v': Valuation, s: SymId)
    requires SameSymVisReads(k, u, v, u', v', s)
    ensures VisRule(k, u, v, SymItem(s)) == VisRule(k, u', v', SymItem(s))
  {
    MaxValueLocal(k.Def(s).prompts, EnvOf(k, u, v), EnvOf(k, u', v'));
  }

  ghost predicate SameChoiceVisReads(k: Kconfig, u: User, v: Valuation, u': User, v': Valuation, c: ChoiceId) {
    && SameOnAll(k.Choice(c).prompts, EnvOf(k, u, v), EnvOf(k, u', v'))
    && SameModules(k, v, v', k.Choice(c).typ)
  }

  lemma ChoiceVisLocal(k: Kconfig, u: User, v: Valuation, u': User, v': Valuation, c: ChoiceId)
    requires SameChoiceVisReads(k, u, v, u', v', c)
    ensures VisRule(k, u, v, ChoiceItem(c)) == VisRule(k, u', v', ChoiceItem(c))
  {
    MaxValueLocal(k.Choice(c).prompts, EnvOf(k, u, v), EnvOf(k, u', v'));
  }

  // ----- Values -----

  ghost predicate SameValueReads(k: Kconfig, u: User, v: Valuation, u': User, v': Valuation, s: SymId) {
    var d := k.Def(s);
    var a, b := EnvOf(k, u, v), EnvOf(k, u', v');
    && v.vis(SymItem(s)) == v'.vis(SymItem(s))
    && (v.vis(SymItem(s)) != 0 ==>
          && u.TriOf(s) == u'.TriOf(s)
          && u.StrOf(s) == u'.StrOf(s)
          && (d.choice.Some? ==> v.sel(d.choice.value) == v'.sel(d.choice.value)))
    && (d.choice.None? ==>
          && SameModules(k, v, v', d.typ)
          && SameOnDefaults(d.defaults, a, b)
          && SameOnRanges(d.ranges, a, b)
          && SameOn(d.revDep, a, b)
          && SameOn(d.weakRevDep, a, b)
          && SameOn(d.directDep, a, b))
  }

  lemma TriLocal(k: Kconfig, u: User, v: Valuation, u': User, v': Valuation, s: SymId)
    requires SameValueReads(k, u, v, u', v', s)
    ensures TriRule(k, u, v, s) == TriRule(k, u', v', s)
  {
    var d := k.Def(s);
    var a, b := EnvOf(k, u, v), EnvOf(k, u', v');
    if IsBoolTristate(d.typ) && d.choice.None? {
      ActiveDefaultLocal(d.defaults, a, b);
      ValueDependsOnMentions(d.revDep, a, b);
      ValueDependsOnMentions(d.weakRevDep, a, b);
      ValueDependsOnMentions(d.directDep, a, b);
    }
  }

  /** A symbol with text is not a choice symbol's value, so it reads no selection. */
  ghost predicate SameTextReads(k: Kconfig, u: User, v: Valuation, u': User, v': Valuation, s: SymId) {
    var d := k.Def(s);
    && v.vis(SymItem(s)) == v'.vis(SymItem(s))
    && (v.vis(SymItem(s)) != 0 ==> u.StrOf(s) == u'.StrOf(s))
    && SameOnDefaults(d.defaults, EnvOf(k, u, v), EnvOf(k, u', v'))
    && SameOnRanges(d.ranges, EnvOf(k, u, v), EnvOf(k, u', v'))
  }

  lemma TextLocal(k: Kconfig, u: User, v: Valuation, u': User, v': Valuation, s: SymId)
    requires !IsBoolTristate(k.Def(s).typ)
    requires k.Def(s).typ == Unknown || SameTextReads(k, u, v, u', v', s)
    ensures StrRule(k, u, v, s) == StrRule(k, u', v', s)
  {
    hide Value, EnvOf, ParseInt, FormatInt, ActiveDefault, ActiveRange, SameOn;
    if k.Def(s).typ != Unknown {
      ActiveDefaultLocal(k.Def(s).defaults, EnvOf(k, u, v), EnvOf(k, u', v'));
      ActiveRangeLocal(k.Def(s).ranges, EnvOf(k, u, v), EnvOf(k, u', v'));
    }
  }

  // ----- Selections -----

  ghost predicate SameSelReads(k: Kconfig, u: User, v: Valuation, u': User, v': Valuation, c: ChoiceId) {
    && ModeRule(k, u, v, c) == ModeRule(k, u', v', c)
    && u.SelectionOf(c) == u'.SelectionOf(c)
    && (forall s | s in k.Choice(c).syms :: v.vis(SymItem(s)) == v'.vis(SymItem(s)))
    && (forall i | 0 <= i < |k.Choice(c).defaults| ::
        SameOn(k.Choice(c).defaults[i].cond, EnvOf(k, u, v), EnvOf(k, u', v')))
  }

  lemma {:induction false} FirstVisibleLocal(syms: seq<SymId>, v: Valuation, v': Valuation)
    requires forall s | s in syms :: v.vis(SymItem(s)) == v'.vis(SymItem(s))
    ensures FirstVisible(syms, v) == FirstVisible(syms, v')
  {
    if syms != [] { FirstVisibleLocal(syms[1..], v, v'); }
  }

  lemma {:induction false} DefaultSelectionLocal(ds: seq<ChoiceDefault>, a: Env, v: Valuation, b: Env, v': Valuation)
    requires forall i | 0 <= i < |ds| ::
               v.vis(SymItem(ds[i].sym)) == v'.vis(SymItem(ds[i].sym)) && SameOn(ds[i].cond, a, b)
    ensures DefaultSelection(ds, a, v) == DefaultSelection(ds, b, v')
  {
    if ds != [] {
      ValueDependsOnMentions(ds[0].cond, a, b);
      DefaultSelectionLocal(ds[1..], a, v, b, v');
    }
  }

  lemma SelLocal(k: Kconfig, u: User, v: Valuation, u': User, v': Valuation, c: ChoiceId)
    requires ChoicesLinked(k) && UserOk(k, u)
    requires SameSelReads(k, u, v, u', v', c)
    ensures SelRule(k, u, v, c) == SelRule(k, u', v', c)
    ensures SelectionFromDefaults(k, u, v, c) == SelectionFromDefaults(k, u', v', c)
  {
    DefaultSelectionLocal(k.Choice(c).defaults, EnvOf(k, u, v), v, EnvOf(k, u', v'), v');
    FirstVisibleLocal(k.Choice(c).syms, v, v');
  }

  // ----- Assignable values -----

  lemma SymAssignableLocal(k: Kconfig, u: User, v: Valuation, u': User, v': Valuation, s: SymId)
    requires SameValueReads(k, u, v, u', v', s)
    requires k.Def(s).choice.Some? && v.vis(SymItem(s)) == 1 ==>
               SameOn(k.Def(s).revDep, EnvOf(k, u, v), EnvOf(k, u', v'))
                 && SameOn(k.Def(s).weakRevDep, EnvOf(k, u, v), EnvOf(k, u', v'))
    ensures SymAssignable(k, u, v, s) == SymAssignable(k, u', v', s)
  {
    var d := k.Def(s);
    if IsBoolTristate(d.typ) && (d.choice.None? || v.vis(SymItem(s)) == 1) {
      ValueDependsOnMentions(d.revDep, EnvOf(k, u, v), EnvOf(k, u', v'));
      ValueDependsOnMentions(d.weakRevDep, EnvOf(k, u, v), EnvOf(k, u', v'));
    }
  }

  // ----- Everything about a symbol but its user value -----

  ghost predicate SameContext(k: Kconfig, u: User, v: Valuation, u': User, v': Valuation, s: SymId) {
    var d := k.Def(s);
    var a, b := EnvOf(k, u, v), EnvOf(k, u', v');
    && v.vis(SymItem(s)) == v'.vis(SymItem(s))
    && SymType(k, u, v, s) == SymType(k, u', v', s)
    && SameOnDefaults(d.defaults, a, b)
    && SameOnRanges(d.ranges, a, b)
    && SameOn(d.revDep, a, b)
    && SameOn(d.weakRevDep, a, b)
    && SameOn(d.directDep, a, b)
  }

  lemma TriContextLocal(k: Kconfig, u: User, v: Valuation, u': User, v': Valuation, s: SymId)
    requires SameContext(k, u, v, u', v', s)
    ensures var d, a, b := k.Def(s), EnvOf(k, u, v), EnvOf(k, u', v');
            && (forall visible :: DefaultTri(d, a, visible) == DefaultTri(d, b, visible))
            && Value(d.revDep, a) == Value(d.revDep, b) && Value(d.weakRevDep, a) == Value(d.weakRevDep, b)
            && (forall r :: Select(d, SymType(k, u, v, s), a, r) == Select(d, SymType(k, u', v', s), b, r))
  {
    var d, a, b := k.Def(s), EnvOf(k, u, v), EnvOf(k, u', v');
    hide EnvOf, SymType;
    ActiveDefaultLocal(d.defaults, a, b);
    ValueDependsOnMentions(d.revDep, a, b);
    ValueDependsOnMentions(d.weakRevDep, a, b);
    ValueDependsOnMentions(d.directDep, a, b);
  }

  lemma TextContextLocal(k: Kconfig, u: User, v: Valuation, u': User, v': Valuation, s: SymId)
    requires SameContext(k, u, v, u', v', s)
    ensures var d, a, b := k.Def(s), EnvOf(k, u, v), EnvOf(k, u', v');
            forall visible ::
                DefaultNum(d, a, visible) == DefaultNum(d, b, visible)
                  && DefaultStr(d, a, visible) == DefaultStr(d, b, visible)
    ensures var d, a, b := k.Def(s), EnvOf(k, u, v), EnvOf(k, u', v');
            forall text :: NumTakesEffect(d, a, text) == NumTakesEffect(d, b, text)
  {
    var d, a, b := k.Def(s), EnvOf(k, u, v), EnvOf(k, u', v');
    hide EnvOf, SymType, ParseInt, FormatInt;
    ActiveDefaultLocal(d.defaults, a, b);
    ActiveRangeLocal(d.ranges, a, b);
  }
}
