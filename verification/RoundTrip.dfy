/**
 When does loading a written configuration reproduce it? Exactly when four conditions hold,
 each of which concerns one symbol or choice and can be read off the configuration before it
 is written.
 */
module RoundTrip {
  import opened Expressions
  import opened Config
  import opened Locality
  import opened Evaluation
  import opened Choices
  import opened ConfigText
  import opened Assignments
  import opened ConfigFile

  /** A valuation together with the modes of all choices. */
  ghost predicate SameConfiguration(k: Kconfig, u: User, v: Valuation, u': User, v': Valuation) {
    Same(v, v') && forall x: ChoiceId :: ModeRule(k, u, v, x) == ModeRule(k, u', v', x)
  }

  // ----- The conditions -----

  /** The mode of `x` is the one it has by itself, or a kept symbol tells it. */
  ghost predicate ModeIsTold(k: Kconfig, u: User, v: Valuation, keep: SymId -> bool, x: ChoiceId) {
    || ModeRule(k, u, v, x) == ModeRule(k, NoUser, v, x)
    || exists s | s in k.Choice(x).syms :: keep(s) && v.tri(s) != 0
  }

  /** The selection of `x` is kept, or is the one made by default. */
  predicate SelectionIsTold(k: Kconfig, u: User, v: Valuation, keep: SymId -> bool, x: ChoiceId) {
    v.sel(x).Some? ==> keep(v.sel(x).value) || SelectionFromDefaults(k, u, v, x) == v.sel(x)
  }

  /** The value that a visible symbol gets from its defaults, implies and selects alone. */
  function ValueByDefault(k: Kconfig, u: User, v: Valuation, s: SymId): Tri {
    Select(k.Def(s), SymType(k, u, v, s), EnvOf(k, u, v), DefaultTri(k.Def(s), EnvOf(k, u, v), true)).val
  }

  /** A default gave y to a symbol that the user can only set to m. */
  predicate ExceedsVisibility(k: Kconfig, u: User, v: Valuation, s: SymId) {
    && v.vis(SymItem(s)) == 1 && v.tri(s) == 2
    && Value(k.Def(s).revDep, EnvOf(k, u, v)) != 2 && Value(k.Def(s).weakRevDep, EnvOf(k, u, v)) != 2
  }

  predicate ValueIsTold(k: Kconfig, u: User, v: Valuation, keep: SymId -> bool, s: SymId) {
    if k.Def(s).choice.Some? then v.vis(SymItem(s)) == 1 && v.tri(s) == 1 ==> keep(s)
    else v.vis(SymItem(s)) != 0 ==>
      if keep(s) then !ExceedsVisibility(k, u, v, s) else v.tri(s) == ValueByDefault(k, u, v, s)
  }

  function TextByDefault(k: Kconfig, u: User, v: Valuation, s: SymId): string {
    var d := k.Def(s);
    if d.typ == Str then DefaultStr(d, EnvOf(k, u, v), true).val else DefaultNum(d, EnvOf(k, u, v), true).val
  }

  predicate TextIsTold(k: Kconfig, u: User, v: Valuation, keep: SymId -> bool, s: SymId) {
    v.vis(SymItem(s)) != 0 && !(keep(s) && !k.Def(s).auto) ==> v.str(s) == TextByDefault(k, u, v, s)
  }

  ghost predicate Reproducible(k: Kconfig, u: User, v: Valuation, keep: SymId -> bool) {
    && (forall x: ChoiceId :: ModeIsTold(k, u, v, keep, x) && SelectionIsTold(k, u, v, keep, x))
    && (forall s: SymId | IsBoolTristate(k.Def(s).typ) :: ValueIsTold(k, u, v, keep, s))
    && (forall s: SymId | k.Def(s).typ in {Str, Int, Hex} :: TextIsTold(k, u, v, keep, s))
  }

  /** `u'` is the user state after loading what was written for `v`. */
  ghost predicate Reloaded(k: Kconfig, u: User, v: Valuation, keep: SymId -> bool, u': User) {
    && Configured(k, u, v) && UserOk(k, u')
    && exists order: seq<SymId> ::
         && (forall s: SymId | k.Def(s).defined :: s in order)
         && ValuesLoaded(k, u, v, keep, order, u') && ChoicesLoaded(k, u, v, keep, order, u')
  }

  // ----- What a reloaded user state holds -----

  lemma ReloadedTri(k: Kconfig, u: User, v: Valuation, keep: SymId -> bool, u': User, s: SymId)
    requires Reloaded(k, u, v, keep, u') && IsBoolTristate(k.Def(s).typ) && v.vis(SymItem(s)) != 0
    ensures u'.TriOf(s) == if keep(s) then Some(v.tri(s)) else None
  {
    ValueIsValid(k, u, v, s);
    VisibleIsWritten(k, u, v, s);
    assert k.Def(s).defined by { assert k.Def(s).defined || UndefinedIsEmpty(k.Def(s)); }
    hide StrRule, Configured, ValidFor, ChoicesLoaded;
  }

  lemma ReloadedStr(k: Kconfig, u: User, v: Valuation, keep: SymId -> bool, u': User, s: SymId)
    requires Reloaded(k, u, v, keep, u') && k.Def(s).typ in {Str, Int, Hex} && v.vis(SymItem(s)) != 0
    ensures u'.StrOf(s) == if keep(s) && !k.Def(s).auto
            && ValidFor(k.Def(s).typ, UserStr(v.str(s))) then Some(v.str(s)) else None
  {
    VisibleIsWritten(k, u, v, s);
    assert k.Def(s).defined by { assert k.Def(s).defined || UndefinedIsEmpty(k.Def(s)); }
    hide StrRule, Configured, ValidFor, ChoicesLoaded;
  }

  lemma MemberIsDefined(k: Kconfig, s: SymId)
    requires WellFormed(k) && k.Def(s).choice.Some?
    ensures k.Def(s).defined && s in k.Choice(k.Def(s).choice.value).syms
  {
    assert k.Def(s).defined || UndefinedIsEmpty(k.Def(s));
  }

  lemma EntryOfMember(k: Kconfig, u: User, v: Valuation, keep: SymId -> bool, s: SymId)
    requires Configured(k, u, v) && k.Def(s).choice.Some?
    ensures IsNonN(Entry(k, u, v, keep, s)) <==> keep(s) && v.tri(s) != 0
  {
    assert IsBoolTristate(k.Def(s).typ);
    ValueIsValid(k, u, v, s);
    if v.tri(s) != 0 {
      MemberEntries(k, u, v, s);
      VisibleIsWritten(k, u, v, s);
    }
  }

  lemma ReloadedParts(k: Kconfig, u: User, v: Valuation, keep: SymId -> bool, u': User)
    requires Reloaded(k, u, v, keep, u')
    ensures Configured(k, u, v) && UserOk(k, u') && WellFormed(k) && ChoicesLinked(k) && ChoicesTyped(k)
            && Solves(k, u, v) && UserOk(k, u)
  {
  }

  /** The mode of a choice is set exactly if a kept symbol has a value other than n. */
  lemma ReloadedMode(k: Kconfig, u: User, v: Valuation, keep: SymId -> bool, u': User, x: ChoiceId)
    requires Reloaded(k, u, v, keep, u')
    ensures x in u'.mode <==> exists s | s in k.Choice(x).syms :: keep(s) && v.tri(s) != 0
    ensures x in u'.mode ==> u'.mode[x] == ModeRule(k, u, v, x)
    ensures x in u'.selection ==> x in u'.mode
    ensures x in u'.mode && u'.mode[x] == 2 ==>
              x in u'.selection && Some(u'.selection[x]) == v.sel(x) && keep(u'.selection[x])
  {
    hide Configured, ValuesLoaded, Entry, ModeRule, UserOk, WellFormed, ChoicesTyped;
    ReloadedParts(k, u, v, keep, u');
    var order :| (forall s: SymId | k.Def(s).defined :: s in order) && ValuesLoaded(k, u, v, keep, order, u')
      && ChoicesLoaded(k, u, v, keep, order, u');
    if x in u'.mode {
      assert SomeEntry(k, u, v, keep, order, x);
      var i :| 0 <= i < |order| && k.Def(order[i]).choice == Some(x) && IsNonN(Entry(k, u, v, keep, order[i]));
      EntryOfMember(k, u, v, keep, order[i]);
      assert order[i] in k.Choice(x).syms;
    }
    forall s | s in k.Choice(x).syms && keep(s) && v.tri(s) != 0 ensures x in u'.mode {
      MemberIsDefined(k, s);
      EntryOfMember(k, u, v, keep, s);
      var i :| 0 <= i < |order| && order[i] == s;
      assert SomeEntry(k, u, v, keep, order, x);
    }
  }

  // ----- Each rule after reloading -----

  lemma ModeIsAtMostVisibility(k: Kconfig, u: User, v: Valuation, x: ChoiceId)
    requires Solves(k, u, v)
    ensures ModeRule(k, u, v, x) <= v.vis(ChoiceItem(x))
    ensures ModeRule(k, u, v, x) == 1 ==> ChoiceType(k, v, x) != Bool
  {
    assert v.vis(ChoiceItem(x)) == VisRule(k, u, v, ChoiceItem(x));
  }

  lemma ModeAfter(k: Kconfig, u: User, v: Valuation, keep: SymId -> bool, u': User, v': Valuation, x: ChoiceId)
    requires Reloaded(k, u, v, keep, u')
    requires v.vis(ChoiceItem(x)) == v'.vis(ChoiceItem(x)) && SameModules(k, v, v', k.Choice(x).typ)
    ensures ModeRule(k, u', v', x) == ModeRule(k, u, v, x) <==> ModeIsTold(k, u, v, keep, x)
  {
    hide Reloaded, Configured, Solves, WellFormed, ChoicesLinked, ChoicesTyped, UserOk;
    ReloadedParts(k, u, v, keep, u');
    ReloadedMode(k, u, v, keep, u', x);
    ModeIsAtMostVisibility(k, u, v, x);
    forall s | s in k.Choice(x).syms && v.tri(s) != 0 ensures ModeRule(k, u, v, x) != 0 {
      LinkedMember(k, s, x);
      MemberEntries(k, u, v, s);
    }
  }

  lemma LinkedMember(k: Kconfig, s: SymId, x: ChoiceId)
    requires ChoicesLinked(k) && s in k.Choice(x).syms
    ensures k.Def(s).choice == Some(x)
  {
  }

  /** A visible symbol's own value, used as its user value, gives that value again, unless it
      exceeds the visibility. */
  lemma KeptValue(k: Kconfig, u: User, v: Valuation, s: SymId)
    requires Solves(k, u, v) && k.Def(s).choice.None? && IsBoolTristate(k.Def(s).typ) && v.vis(SymItem(s)) != 0
    ensures var wanted := TriResult(Min(v.tri(s), v.vis(SymItem(s))), true);
            Select(k.Def(s), SymType(k, u, v, s), EnvOf(k, u, v), wanted).val == v.tri(s)
            <==> !ExceedsVisibility(k, u, v, s)
  {
    assert v.tri(s) == TriRule(k, u, v, s).val;
    assert v.vis(SymItem(s)) == VisRule(k, u, v, SymItem(s));
    assert v.vis(SymItem(s)) == 1 ==> SymType(k, u, v, s) == Tristate;
    hide Solves, EnvOf, Value, SymType, DefaultTri, MaxValue;
  }

  lemma TriAfter(k: Kconfig, u: User, v: Valuation, keep: SymId -> bool, u': User, v': Valuation, s: SymId)
    requires Reloaded(k, u, v, keep, u') && IsBoolTristate(k.Def(s).typ) && SameContext(k, u, v, u', v', s)
    requires k.Def(s).choice.Some? ==> v.sel(k.Def(s).choice.value) == v'.sel(k.Def(s).choice.value)
    ensures TriRule(k, u', v', s).val == v.tri(s) <==> ValueIsTold(k, u, v, keep, s)
  {
    hide Reloaded, Configured, WellFormed, ChoicesLinked, ChoicesTyped, UserOk, SameContext, Select;
    hide DefaultTri, EnvOf, SymType;
    ReloadedParts(k, u, v, keep, u');
    assert v.tri(s) == TriRule(k, u, v, s).val;
    hide Solves;
    SameContextVis(k, u, v, u', v', s);
    if v.vis(SymItem(s)) != 0 { ReloadedTri(k, u, v, keep, u', s); }
    if k.Def(s).choice.None? {
      TriContextLocal(k, u, v, u', v', s);
      if v.vis(SymItem(s)) != 0 { KeptValue(k, u, v, s); }
    }
  }

  lemma SameContextVis(k: Kconfig, u: User, v: Valuation, u': User, v': Valuation, s: SymId)
    requires SameContext(k, u, v, u', v', s)
    ensures v.vis(SymItem(s)) == v'.vis(SymItem(s))
  {
  }

  lemma TextAfter(k: Kconfig, u: User, v: Valuation, keep: SymId -> bool, u': User, v': Valuation, s: SymId)
    requires Reloaded(k, u, v, keep, u') && k.Def(s).typ in {Str, Int, Hex} && SameContext(k, u, v, u', v', s)
    ensures StrRule(k, u', v', s).val == v.str(s) <==> TextIsTold(k, u, v, keep, s)
  {
    hide Reloaded, Configured, WellFormed, ChoicesLinked, ChoicesTyped, SameContext, EnvOf, DefaultNum;
    hide DefaultStr, NumTakesEffect;
    ReloadedParts(k, u, v, keep, u');
    assert v.str(s) == StrRule(k, u, v, s).val;
    assert u.StrOf(s).Some? ==> ValidFor(k.Def(s).typ, UserStr(u.StrOf(s).value));
    hide Solves, ValidFor, UserOk;
    SameContextVis(k, u, v, u', v', s);
    TextContextLocal(k, u, v, u', v', s);
    DefaultValueIgnoresVisibility(k.Def(s), EnvOf(k, u, v));
    if v.vis(SymItem(s)) != 0 { ReloadedStr(k, u, v, keep, u', s); }
  }

  lemma DefaultValueIgnoresVisibility(d: SymDef, env: Env)
    ensures DefaultNum(d, env, false).val == DefaultNum(d, env, true).val
            && DefaultStr(d, env, false).val == DefaultStr(d, env, true).val
  {
  }

  lemma SelAfter(k: Kconfig, u: User, v: Valuation, keep: SymId -> bool, u': User, v': Valuation, x: ChoiceId)
    requires Reloaded(k, u, v, keep, u') && ModeRule(k, u, v, x) == ModeRule(k, u', v', x)
    requires forall s | s in k.Choice(x).syms :: v.vis(SymItem(s)) == v'.vis(SymItem(s))
    requires forall i | 0 <= i < |k.Choice(x).defaults| ::
               SameOn(k.Choice(x).defaults[i].cond, EnvOf(k, u, v), EnvOf(k, u', v'))
    ensures SelRule(k, u', v', x) == v.sel(x) <==> SelectionIsTold(k, u, v, keep, x)
  {
    hide Reloaded, Configured, WellFormed, ChoicesTyped, EnvOf, ModeRule, SelectionFromDefaults;
    hide DefaultSelection, FirstVisible;
    ReloadedParts(k, u, v, keep, u');
    assert v.sel(x) == SelRule(k, u, v, x);
    SelectionIsVisibleMember(k, u, v, x);
    hide Solves;
    ReloadedMode(k, u, v, keep, u', x);
    SelectionFromDefaultsLocal(k, u, v, u', v', x);
    if v.sel(x).Some? {
      LinkedMember(k, v.sel(x).value, x);
      MemberIsDefined(k, v.sel(x).value);
      SelectionIsY(k, u, v, x);
      if x in u'.selection { assert u'.selection[x] in k.Choice(x).syms; }
    } else {
      SelectionFromDefaultsHidden(k, u', v', x);
    }
  }

  lemma SelectionIsY(k: Kconfig, u: User, v: Valuation, x: ChoiceId)
    requires Configured(k, u, v) && v.sel(x).Some?
    ensures v.tri(v.sel(x).value) == 2 && v.sel(x).value in k.Choice(x).syms && ModeRule(k, u, v, x) == 2
  {
    ChoiceIsExclusive(k, u, v, x);
    SelectionIsVisibleMember(k, u, v, x);
    assert v.sel(x) == SelRule(k, u, v, x);
  }

  lemma SelectionFromDefaultsLocal(k: Kconfig, u: User, v: Valuation, u': User, v': Valuation, x: ChoiceId)
    requires ChoicesLinked(k)
    requires forall s | s in k.Choice(x).syms :: v.vis(SymItem(s)) == v'.vis(SymItem(s))
    requires forall i | 0 <= i < |k.Choice(x).defaults| ::
               SameOn(k.Choice(x).defaults[i].cond, EnvOf(k, u, v), EnvOf(k, u', v'))
    ensures SelectionFromDefaults(k, u, v, x) == SelectionFromDefaults(k, u', v', x)
  {
    hide SameOn, EnvOf;
    DefaultSelectionLocal(k.Choice(x).defaults, EnvOf(k, u, v), v, EnvOf(k, u', v'), v');
    FirstVisibleLocal(k.Choice(x).syms, v, v');
  }

  lemma SelectionFromDefaultsHidden(k: Kconfig, u: User, v: Valuation, x: ChoiceId)
    requires ChoicesLinked(k)
    ensures (forall s | s in k.Choice(x).syms :: v.vis(SymItem(s)) == 0) ==> SelectionFromDefaults(k, u, v, x) == None
  {
    DefaultSelectionIsVisible(k.Choice(x).defaults, EnvOf(k, u, v), v);
    FirstVisibleIsVisible(k.Choice(x).syms, v);
  }

  // ----- The theorem -----

  lemma ModesBelowReproduced(k: Kconfig, rank: Rank, u: User, v: Valuation, keep: SymId -> bool, u': User,
                             v': Valuation, bound: nat)
    requires Reloaded(k, u, v, keep, u') && AgreeBelow(rank, bound, v, v')
    requires forall x: ChoiceId :: ModeIsTold(k, u, v, keep, x)
    ensures SameModesBelow(k, u, u', rank, bound, v, v')
  {
    hide Reloaded, ModeIsTold, ModeRule;
    forall x | ModeBelow(k, rank, bound, x) ensures ModeRule(k, u, v, x) == ModeRule(k, u', v', x) {
      ModeAfter(k, u, v, keep, u', v', x);
    }
  }

  lemma {:induction false} ReproducedBelow(k: Kconfig, rank: Rank, u: User, v: Valuation, keep: SymId -> bool,
                                           u': User, v': Valuation, bound: nat)
    requires Reloaded(k, u, v, keep, u') && Acyclic(k, rank) && Solves(k, u', v') && Reproducible(k, u, v, keep)
    ensures AgreeBelow(rank, bound, v, v')
  {
    hide Reloaded, ModeIsTold, SelectionIsTold, ValueIsTold, TextIsTold, SameModesBelow, SymValueBelow;
    hide SelectionBelow, SymVisBelow, ChoiceVisBelow, VisRule, TriRule, StrRule, SelRule, Acyclic;
    hide Configured, WellFormed, ChoicesLinked, ChoicesTyped, UserOk;
    if bound > 0 {
      ReproducedBelow(k, rank, u, v, keep, u', v', bound - 1);
      ReloadedParts(k, u, v, keep, u');
      forall i: Item | rank(VisOf(i)) < bound ensures v.vis(i) == v'.vis(i) {
        ModesBelowReproduced(k, rank, u, v, keep, u', v', rank(VisOf(i)));
        VisAgrees(k, u, u', rank, v, v', i);
      }
      forall s: SymId | rank(TriOf(s)) < bound ensures v.tri(s) == v'.tri(s) {
        TriReproduced(k, rank, u, v, keep, u', v', s);
      }
      forall s: SymId | rank(StrOf(s)) < bound ensures v.str(s) == v'.str(s) {
        StrReproduced(k, rank, u, v, keep, u', v', s);
      }
      forall x: ChoiceId | rank(SelOf(x)) < bound ensures v.sel(x) == v'.sel(x) {
        SelReproduced(k, rank, u, v, keep, u', v', x);
      }
    }
  }

  lemma TriReproduced(k: Kconfig, rank: Rank, u: User, v: Valuation, keep: SymId -> bool, u': User, v': Valuation,
                      s: SymId)
    requires Reloaded(k, u, v, keep, u') && Acyclic(k, rank) && Solves(k, u', v') && Reproducible(k, u, v, keep)
    requires AgreeBelow(rank, rank(TriOf(s)), v, v')
    ensures v.tri(s) == v'.tri(s)
  {
    hide Reloaded, Configured, WellFormed, ChoicesLinked, ChoicesTyped, UserOk, SameContext, SameModesBelow;
    hide ModeIsTold, SelectionIsTold, ValueIsTold, TextIsTold;
    ReloadedParts(k, u, v, keep, u');
    assert SymValueBelow(k, rank, rank(TriOf(s)), s);
    assert v'.tri(s) == TriRule(k, u', v', s).val && v.tri(s) == TriRule(k, u, v, s).val;
    hide Acyclic, Solves, SymValueBelow;
    if IsBoolTristate(k.Def(s).typ) {
      ModesBelowReproduced(k, rank, u, v, keep, u', v', rank(TriOf(s)));
      ContextBelow(k, u, u', rank, rank(TriOf(s)), v, v', s);
      TriAfter(k, u, v, keep, u', v', s);
    }
  }

  lemma StrReproduced(k: Kconfig, rank: Rank, u: User, v: Valuation, keep: SymId -> bool, u': User, v': Valuation,
                      s: SymId)
    requires Reloaded(k, u, v, keep, u') && Acyclic(k, rank) && Solves(k, u', v') && Reproducible(k, u, v, keep)
    requires AgreeBelow(rank, rank(StrOf(s)), v, v')
    ensures v.str(s) == v'.str(s)
  {
    hide Reloaded, Configured, WellFormed, ChoicesLinked, ChoicesTyped, UserOk, SameContext, SameModesBelow;
    hide ModeIsTold, SelectionIsTold, ValueIsTold, TextIsTold;
    ReloadedParts(k, u, v, keep, u');
    assert SymValueBelow(k, rank, rank(StrOf(s)), s) && rank(TriOf(s)) < rank(StrOf(s));
    assert v'.str(s) == StrRule(k, u', v', s).val && v.str(s) == StrRule(k, u, v, s).val;
    hide Acyclic, Solves, SymValueBelow;
    if k.Def(s).typ in {Str, Int, Hex} {
      hide StrRule;
      ModesBelowReproduced(k, rank, u, v, keep, u', v', rank(StrOf(s)));
      ContextBelow(k, u, u', rank, rank(StrOf(s)), v, v', s);
      TextAfter(k, u, v, keep, u', v', s);
    }
  }

  lemma SelReproduced(k: Kconfig, rank: Rank, u: User, v: Valuation, keep: SymId -> bool, u': User, v': Valuation,
                      x: ChoiceId)
    requires Reloaded(k, u, v, keep, u') && Acyclic(k, rank) && Solves(k, u', v') && Reproducible(k, u, v, keep)
    requires AgreeBelow(rank, rank(SelOf(x)), v, v')
    ensures v.sel(x) == v'.sel(x)
  {
    hide Reloaded, Configured, WellFormed, ChoicesLinked, ChoicesTyped, UserOk, ModeIsTold, SelectionIsTold;
    hide ValueIsTold, TextIsTold, SelRule;
    assert SelectionBelow(k, rank, rank(SelOf(x)), x);
    assert v'.sel(x) == SelRule(k, u', v', x);
    hide Acyclic, Solves;
    ModesBelowReproduced(k, rank, u, v, keep, u', v', rank(SelOf(x)));
    forall i | 0 <= i < |k.Choice(x).defaults|
      ensures SameOn(k.Choice(x).defaults[i].cond, EnvOf(k, u, v), EnvOf(k, u', v'))
    {
      BelowIsLocal(k, u, u', rank, rank(SelOf(x)), v, v', k.Choice(x).defaults[i].cond);
    }
    SelAfter(k, u, v, keep, u', v', x);
  }

  lemma ReproducedModes(k: Kconfig, u: User, v: Valuation, keep: SymId -> bool, u': User, v': Valuation)
    requires Reloaded(k, u, v, keep, u') && Same(v, v')
    ensures (forall x: ChoiceId :: ModeRule(k, u, v, x) == ModeRule(k, u', v', x)) <==>
              forall x: ChoiceId :: ModeIsTold(k, u, v, keep, x)
  {
    hide Reloaded, ModeRule, ModeIsTold;
    forall x: ChoiceId ensures ModeRule(k, u, v, x) == ModeRule(k, u', v', x) <==> ModeIsTold(k, u, v, keep, x) {
      ModeAfter(k, u, v, keep, u', v', x);
    }
  }

  lemma SameEnvs(k: Kconfig, u: User, v: Valuation, u': User, v': Valuation, e: Expr)
    requires SameConfiguration(k, u, v, u', v')
    ensures SameOn(e, EnvOf(k, u, v), EnvOf(k, u', v'))
  {
  }

  lemma SameContexts(k: Kconfig, u: User, v: Valuation, u': User, v': Valuation, s: SymId)
    requires SameConfiguration(k, u, v, u', v')
    ensures SameContext(k, u, v, u', v', s)
  {
    assert SymType(k, u, v, s) == SymType(k, u', v', s);
    assert forall e: Expr :: DefaultText(e, EnvOf(k, u, v)) == DefaultText(e, EnvOf(k, u', v'));
    hide SymType;
    forall e: Expr ensures SameOn(e, EnvOf(k, u, v), EnvOf(k, u', v')) { SameEnvs(k, u, v, u', v', e); }
  }

  /** What was reproduced was reproducible. */
  lemma ReproducedOnlyIf(k: Kconfig, u: User, v: Valuation, keep: SymId -> bool, u': User, v': Valuation)
    requires Reloaded(k, u, v, keep, u') && Solves(k, u', v') && SameConfiguration(k, u, v, u', v')
    ensures Reproducible(k, u, v, keep)
  {
    hide Reloaded, ModeRule, ModeIsTold, SelectionIsTold, ValueIsTold, TextIsTold, SameContext, TriRule;
    hide StrRule, SelRule;
    ReproducedModes(k, u, v, keep, u', v');
    forall s: SymId | IsBoolTristate(k.Def(s).typ) ensures ValueIsTold(k, u, v, keep, s) {
      SameContexts(k, u, v, u', v', s);
      TriAfter(k, u, v, keep, u', v', s);
    }
    forall s: SymId | k.Def(s).typ in {Str, Int, Hex} ensures TextIsTold(k, u, v, keep, s) {
      SameContexts(k, u, v, u', v', s);
      TextAfter(k, u, v, keep, u', v', s);
    }
    forall x: ChoiceId ensures SelectionIsTold(k, u, v, keep, x) {
      forall e: Expr ensures SameOn(e, EnvOf(k, u, v), EnvOf(k, u', v')) { SameEnvs(k, u, v, u', v', e); }
      SelAfter(k, u, v, keep, u', v', x);
    }
  }

  /** Loading the written lines, over any earlier user state, reproduces every value,
      visibility, selection and mode exactly if the configuration is reproducible. */
  lemma LoadingReproduces(k: Kconfig, rank: Rank, u: User, v: Valuation, keep: SymId -> bool, order: seq<SymId>,
                          w: User, u': User, v': Valuation)
    requires Configured(k, u, v) && Acyclic(k, rank) && UserOk(k, w)
    requires forall s: SymId | k.Def(s).defined :: s in order
    requires u' == LoadReplacing(k, w, WrittenLines(k, u, v, keep, order)) && Solves(k, u', v')
    ensures SameConfiguration(k, u, v, u', v') <==> Reproducible(k, u, v, keep)
  {
    hide Acyclic, UserOk, Solves, Configured, LoadReplacing, WrittenLines, ValuesLoaded, ChoicesLoaded, ModeRule;
    ReplacingLoad(k, u, v, keep, order, w);
    assert Reloaded(k, u, v, keep, u');
    hide Reloaded;
    if SameConfiguration(k, u, v, u', v') { ReproducedOnlyIf(k, u, v, keep, u', v'); }
    if Reproducible(k, u, v, keep) {
      SameFromBelow(k, rank, u, v, keep, u', v');
      ReproducedModes(k, u, v, keep, u', v');
    }
  }

  lemma SameFromBelow(k: Kconfig, rank: Rank, u: User, v: Valuation, keep: SymId -> bool, u': User, v': Valuation)
    requires Reloaded(k, u, v, keep, u') && Acyclic(k, rank) && Solves(k, u', v') && Reproducible(k, u, v, keep)
    ensures Same(v, v')
  {
    hide Reloaded, Acyclic, Solves, Reproducible;
    forall i: Item ensures v.vis(i) == v'.vis(i) { ReproducedBelow(k, rank, u, v, keep, u', v', rank(VisOf(i)) + 1); }
    forall s: SymId ensures v.tri(s) == v'.tri(s) { ReproducedBelow(k, rank, u, v, keep, u', v', rank(TriOf(s)) + 1); }
    forall s: SymId ensures v.str(s) == v'.str(s) { ReproducedBelow(k, rank, u, v, keep, u', v', rank(StrOf(s)) + 1); }
    forall x: ChoiceId ensures v.sel(x) == v'.sel(x) {
      ReproducedBelow(k, rank, u, v, keep, u', v', rank(SelOf(x)) + 1);
    }
  }
}
