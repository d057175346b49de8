/**
 The two files that are written: the full .config and the minimal configuration.
 */
module SavedConfig {
  import opened Expressions
  import opened Config
  import opened Evaluation
  import opened Choices
  import opened Assignments
  import opened ConfigFile
  import opened RoundTrip

  /** `_check_sym_sanity` has nothing to warn about: only bool and tristate symbols are
      selected. Values that come from the environment are not for the user to set. */
  ghost predicate SymsSane(k: Kconfig) {
    && (forall s: SymId | !IsBoolTristate(k.Def(s).typ) :: k.Def(s).revDep == N)
    && (forall s: SymId | k.Def(s).auto :: k.Def(s).prompts == [] && !IsBoolTristate(k.Def(s).typ))
  }

  /** Dependencies have been propagated to prompts. */
  ghost predicate PromptsRespectDeps(k: Kconfig) {
    forall s: SymId, i: nat, env: Env | i < |k.Def(s).prompts| ::
      Value(k.Def(s).prompts[i], env) <= Value(k.Def(s).directDep, env)
  }

  ghost predicate NoTristates(k: Kconfig) {
    && (forall s: SymId :: k.Def(s).typ != Tristate)
    && (forall x: ChoiceId :: k.Choice(x).typ != Tristate)
  }

  /** Every choice that the user has put into a mode of its own has a symbol that is not n. */
  ghost predicate ModesAreShown(k: Kconfig, u: User, v: Valuation) {
    forall x: ChoiceId ::
      || ModeRule(k, u, v, x) == ModeRule(k, NoUser, v, x)
      || exists s | s in k.Choice(x).syms :: v.tri(s) != 0
  }

  /** No optional choice is in y mode without a symbol to select. */
  ghost predicate OptionalChoicesSelect(k: Kconfig, u: User, v: Valuation) {
    forall x: ChoiceId | k.Choice(x).optional && ModeRule(k, u, v, x) == 2 :: v.sel(x).Some?
  }

  lemma HiddenWithoutPrompt(k: Kconfig, u: User, v: Valuation, s: SymId)
    requires Solves(k, u, v) && k.Def(s).prompts == []
    ensures v.vis(SymItem(s)) == 0
  {
    assert v.vis(SymItem(s)) == VisRule(k, u, v, SymItem(s));
  }

  // ----- Full configurations -----

  function Everything(): SymId -> bool { (s: SymId) => true }

  /** Writing a .config and loading it again preserves every value, selection and mode
      exactly if modes are shown and no default exceeds an m visibility. */
  lemma FullConfigRoundTrip(k: Kconfig, rank: Rank, u: User, v: Valuation, order: seq<SymId>, w: User, u': User,
                            v': Valuation)
    requires Configured(k, u, v) && Acyclic(k, rank) && SymsSane(k) && UserOk(k, w)
    requires forall s: SymId | k.Def(s).defined :: s in order
    requires u' == LoadReplacing(k, w, WrittenLines(k, u, v, Everything(), order)) && Solves(k, u', v')
    ensures SameConfiguration(k, u, v, u', v') <==>
              && ModesAreShown(k, u, v)
              && forall s: SymId | IsBoolTristate(k.Def(s).typ) && k.Def(s).choice.None? ::
                  !ExceedsVisibility(k, u, v, s)
  {
    LoadingReproduces(k, rank, u, v, Everything(), order, w, u', v');
    FullIsReproducible(k, u, v);
    hide Configured, Acyclic, UserOk, Solves, SymsSane, LoadReplacing, WrittenLines, Reproducible, ModesAreShown;
  }

  lemma FullIsReproducible(k: Kconfig, u: User, v: Valuation)
    requires Solves(k, u, v) && SymsSane(k)
    ensures Reproducible(k, u, v, Everything()) <==>
              && ModesAreShown(k, u, v)
              && forall s: SymId | IsBoolTristate(k.Def(s).typ) && k.Def(s).choice.None? ::
                  !ExceedsVisibility(k, u, v, s)
  {
    hide ModeRule, ExceedsVisibility, SelectionFromDefaults, Solves, TextByDefault;
    forall s: SymId | k.Def(s).typ in {Str, Int, Hex} ensures TextIsTold(k, u, v, Everything(), s) {
      if k.Def(s).auto { HiddenWithoutPrompt(k, u, v, s); }
    }
    forall s: SymId | ExceedsVisibility(k, u, v, s) ensures v.vis(SymItem(s)) != 0 { ExceedsIsVisible(k, u, v, s); }
    assert forall x: ChoiceId :: ModeIsTold(k, u, v, Everything(), x) <==>
      ModeRule(k, u, v, x) == ModeRule(k, NoUser, v, x) || exists s | s in k.Choice(x).syms :: v.tri(s) != 0;
  }

  lemma ExceedsIsVisible(k: Kconfig, u: User, v: Valuation, s: SymId)
    requires ExceedsVisibility(k, u, v, s)
    ensures v.vis(SymItem(s)) != 0
  {
  }

  // ----- Without tristates -----

  lemma VisibleIsY(k: Kconfig, u: User, v: Valuation, i: Item)
    requires Solves(k, u, v) && NoTristates(k)
    ensures v.vis(i) != 1
  {
    assert v.vis(i) == VisRule(k, u, v, i);
  }

  /** The mode of a bool choice is the user's only if the choice is optional. */
  lemma BoolModes(k: Kconfig, u: User, v: Valuation, x: ChoiceId)
    requires Solves(k, u, v) && NoTristates(k) && UserOk(k, u)
    ensures ModeRule(k, u, v, x) == ModeRule(k, NoUser, v, x) <==> !(k.Choice(x).optional && ModeRule(k, u, v, x) != 0)
    ensures IsBoolTristate(k.Choice(x).typ) ==> ModeRule(k, u, v, x) != 1
  {
    VisibleIsY(k, u, v, ChoiceItem(x));
    if x in u.mode { assert ValidMode(k.Choice(x).typ, u.mode[x]); }
    hide Solves, NoTristates, UserOk;
  }

  lemma BoolModesShown(k: Kconfig, u: User, v: Valuation, x: ChoiceId)
    requires Configured(k, u, v) && NoTristates(k)
    ensures (exists s | s in k.Choice(x).syms :: v.tri(s) != 0) <==> v.sel(x).Some?
    ensures v.sel(x).Some? ==>
              v.sel(x).value in k.Choice(x).syms && v.tri(v.sel(x).value) == 2 && ModeRule(k, u, v, x) == 2
  {
    if v.sel(x).Some? { SelectionIsY(k, u, v, x); }
    forall s | s in k.Choice(x).syms && v.tri(s) != 0 ensures v.sel(x).Some? {
      MemberEntries(k, u, v, s);
      BoolModes(k, u, v, x);
      assert IsBoolTristate(k.Choice(x).typ);
    }
  }

  lemma ModeShownIffSelects(k: Kconfig, u: User, v: Valuation, x: ChoiceId)
    requires Configured(k, u, v) && NoTristates(k)
    ensures (ModeRule(k, u, v, x) == ModeRule(k, NoUser, v, x) || exists s | s in k.Choice(x).syms :: v.tri(s) != 0)
            <==> (k.Choice(x).optional && ModeRule(k, u, v, x) == 2 ==> v.sel(x).Some?)
  {
    BoolModes(k, u, v, x);
    BoolModesShown(k, u, v, x);
    if x in u.mode { assert ValidMode(k.Choice(x).typ, u.mode[x]); }
    hide Configured;
  }

  /** Without tristates, a full .config preserves everything exactly if no optional choice is
      in y mode with nothing to select. */
  lemma BoolFullConfigRoundTrip(k: Kconfig, rank: Rank, u: User, v: Valuation, order: seq<SymId>, w: User, u': User,
                                v': Valuation)
    requires Configured(k, u, v) && Acyclic(k, rank) && SymsSane(k) && NoTristates(k) && UserOk(k, w)
    requires forall s: SymId | k.Def(s).defined :: s in order
    requires u' == LoadReplacing(k, w, WrittenLines(k, u, v, Everything(), order)) && Solves(k, u', v')
    ensures SameConfiguration(k, u, v, u', v') <==> OptionalChoicesSelect(k, u, v)
  {
    hide Acyclic, UserOk, SymsSane, NoTristates, LoadReplacing, WrittenLines, ModeRule, SameConfiguration;
    FullConfigRoundTrip(k, rank, u, v, order, w, u', v');
    forall s: SymId ensures !ExceedsVisibility(k, u, v, s) { VisibleIsY(k, u, v, SymItem(s)); }
    hide Configured, ExceedsVisibility;
    forall x: ChoiceId
      ensures (ModeRule(k, u, v, x) == ModeRule(k, NoUser, v, x) || exists s | s in k.Choice(x).syms :: v.tri(s) != 0)
              <==> (k.Choice(x).optional && ModeRule(k, u, v, x) == 2 ==> v.sel(x).Some?)
    {
      ModeShownIffSelects(k, u, v, x);
    }
  }

  // ----- Minimal configurations -----

  /** `_str_default` for bool and tristate symbols. */
  function TriDefault(k: Kconfig, u: User, v: Valuation, s: SymId): Tri {
    var d, env := k.Def(s), EnvOf(k, u, v);
    if d.choice.Some? then 0
    else
      var dflt := ActiveDefault(d.defaults, env);
      var val := if dflt.Some? then Min(Value(dflt.value.value, env), Value(dflt.value.cond, env)) else 0;
      var all := Max(Max(Value(d.revDep, env), Value(d.weakRevDep, env)), val);
      if all == 1 && SymType(k, u, v, s) == Bool then 2 else all
  }

  /** `_str_default`: the value that a symbol would have without a user value, according to
      the C tools. */
  function StrDefault(k: Kconfig, u: User, v: Valuation, s: SymId): string {
    var d, env := k.Def(s), EnvOf(k, u, v);
    if IsBoolTristate(d.typ) then TriStr(TriDefault(k, u, v, s))
    else if d.typ == Unknown then ""
    else
      var dflt := ActiveDefault(d.defaults, env);
      if dflt.Some? then DefaultText(dflt.value.value, env) else ""
  }

  /** Is the symbol written to a minimal configuration? */
  predicate InMinConfig(k: Kconfig, u: User, v: Valuation, s: SymId) {
    var d := k.Def(s);
    && !(d.choice.None? && v.vis(SymItem(s)) <= Value(d.revDep, EnvOf(k, u, v)))
    && v.str(s) != StrDefault(k, u, v, s)
    && !(d.choice.Some? && !k.Choice(d.choice.value).optional
         && SelectionFromDefaults(k, u, v, d.choice.value) == Some(s) && d.typ == Bool && v.tri(s) == 2)
  }

  function MinConfig(k: Kconfig, u: User, v: Valuation): SymId -> bool {
    (s: SymId) => InMinConfig(k, u, v, s)
  }

  lemma {:induction false} PromptsBelowDep(es: seq<Expr>, dep: Expr, env: Env)
    requires forall i: nat | i < |es| :: Value(es[i], env) <= Value(dep, env)
    ensures MaxValue(es, env) <= Value(dep, env)
  {
    if es != [] { PromptsBelowDep(es[..|es| - 1], dep, env); }
  }

  /** A visible symbol has its direct dependencies met. */
  lemma VisibleHasDeps(k: Kconfig, u: User, v: Valuation, s: SymId)
    requires Solves(k, u, v) && PromptsRespectDeps(k) && v.vis(SymItem(s)) != 0
    ensures Value(k.Def(s).directDep, EnvOf(k, u, v)) != 0
  {
    assert v.vis(SymItem(s)) == VisRule(k, u, v, SymItem(s));
    PromptsBelowDep(k.Def(s).prompts, k.Def(s).directDep, EnvOf(k, u, v));
  }

  lemma TriStrInjective(a: Tri, b: Tri)
    requires TriStr(a) == TriStr(b)
    ensures a == b
  {
    assert TriStr(a)[0] == TriStr(b)[0];
  }

  /** A bool symbol that is left out gets its value from defaults, implies and selects. */
  lemma OmittedValue(k: Kconfig, u: User, v: Valuation, s: SymId)
    requires Solves(k, u, v) && PromptsRespectDeps(k) && k.Def(s).typ == Bool && k.Def(s).choice.None?
    requires v.vis(SymItem(s)) == 2 && !InMinConfig(k, u, v, s)
    ensures v.tri(s) == ValueByDefault(k, u, v, s)
  {
    VisibleHasDeps(k, u, v, s);
    assert v.str(s) == StrRule(k, u, v, s).val && v.tri(s) == TriRule(k, u, v, s).val;
    if v.str(s) == StrDefault(k, u, v, s) { TriStrInjective(v.tri(s), TriDefault(k, u, v, s)); }
    hide Solves, EnvOf, Value, ActiveDefault, PromptsRespectDeps;
  }

  /** An int, hex or string symbol that is left out gets its value from its default. */
  lemma OmittedText(k: Kconfig, u: User, v: Valuation, s: SymId)
    requires Solves(k, u, v) && k.Def(s).typ in {Str, Int, Hex} && v.vis(SymItem(s)) != 0
             && v.str(s) == StrDefault(k, u, v, s)
    ensures v.str(s) == TextByDefault(k, u, v, s)
  {
    assert v.str(s) == StrRule(k, u, v, s).val;
    hide Solves, EnvOf, ActiveDefault, ActiveRange, ParseInt, FormatInt;
  }

  lemma MinKeepsSelections(k: Kconfig, u: User, v: Valuation, x: ChoiceId)
    requires Configured(k, u, v) && v.sel(x).Some?
    ensures var s := v.sel(x).value;
            InMinConfig(k, u, v, s) || (!k.Choice(x).optional && SelectionFromDefaults(k, u, v, x) == Some(s))
  {
    var s := v.sel(x).value;
    SelectionIsY(k, u, v, x);
    ConfiguredLinks(k, u, v);
    LinkedMember(k, s, x);
    assert v.str(s) == StrRule(k, u, v, s).val;
    assert IsBoolTristate(k.Def(s).typ);
    assert TriStr(2)[0] != TriStr(0)[0];
  }

  lemma MinIsReproducible(k: Kconfig, u: User, v: Valuation)
    requires Configured(k, u, v) && SymsSane(k) && NoTristates(k) && PromptsRespectDeps(k)
    ensures Reproducible(k, u, v, MinConfig(k, u, v)) <==> OptionalChoicesSelect(k, u, v)
  {
    var keep := MinConfig(k, u, v);
    hide ModeRule, ExceedsVisibility, SelectionFromDefaults, TextByDefault, ValueByDefault, InMinConfig;
    hide StrDefault, PromptsRespectDeps, WellFormed, UserOk;
    forall s: SymId ensures v.vis(SymItem(s)) != 1 && !ExceedsVisibility(k, u, v, s) { NothingExceeds(k, u, v, s); }
    forall s: SymId | IsBoolTristate(k.Def(s).typ) ensures ValueIsTold(k, u, v, keep, s) {
      if k.Def(s).choice.None? && v.vis(SymItem(s)) != 0 && !keep(s) { OmittedValue(k, u, v, s); }
    }
    forall s: SymId | k.Def(s).typ in {Str, Int, Hex} ensures TextIsTold(k, u, v, keep, s) {
      MinTextIsTold(k, u, v, s);
    }
    forall x: ChoiceId
      ensures SelectionIsTold(k, u, v, keep, x)
      ensures ModeIsTold(k, u, v, keep, x) <==> (k.Choice(x).optional && ModeRule(k, u, v, x) == 2 ==> v.sel(x).Some?)
    {
      MinChoices(k, u, v, x);
    }
  }

  lemma NothingExceeds(k: Kconfig, u: User, v: Valuation, s: SymId)
    requires Solves(k, u, v) && NoTristates(k)
    ensures v.vis(SymItem(s)) != 1 && !ExceedsVisibility(k, u, v, s)
  {
    VisibleIsY(k, u, v, SymItem(s));
  }

  lemma MinTextIsTold(k: Kconfig, u: User, v: Valuation, s: SymId)
    requires WellFormed(k) && ChoicesTyped(k) && Solves(k, u, v) && SymsSane(k) && k.Def(s).typ in {Str, Int, Hex}
    ensures TextIsTold(k, u, v, MinConfig(k, u, v), s)
  {
    hide Solves, EnvOf, TextByDefault, StrDefault;
    if v.vis(SymItem(s)) != 0 {
      if k.Def(s).auto { HiddenWithoutPrompt(k, u, v, s); }
      assert k.Def(s).choice.None? && k.Def(s).revDep == N;
      if v.str(s) == StrDefault(k, u, v, s) { OmittedText(k, u, v, s); }
    }
  }

  lemma MinChoices(k: Kconfig, u: User, v: Valuation, x: ChoiceId)
    requires Configured(k, u, v) && NoTristates(k)
    ensures SelectionIsTold(k, u, v, MinConfig(k, u, v), x)
    ensures ModeIsTold(k, u, v, MinConfig(k, u, v), x) <==>
              (k.Choice(x).optional && ModeRule(k, u, v, x) == 2 ==> v.sel(x).Some?)
  {
    hide Configured, NoTristates, ModeRule, SelectionFromDefaults, InMinConfig;
    if v.sel(x).Some? { MinKeepsSelections(k, u, v, x); }
    BoolModesShown(k, u, v, x);
    ModeShownIffSelects(k, u, v, x);
    BoolModesOf(k, u, v, x);
  }

  lemma BoolModesOf(k: Kconfig, u: User, v: Valuation, x: ChoiceId)
    requires Configured(k, u, v) && NoTristates(k)
    ensures !k.Choice(x).optional ==> ModeRule(k, u, v, x) == ModeRule(k, NoUser, v, x)
  {
    BoolModes(k, u, v, x);
  }

  /** A full configuration can be derived from a minimal one by loading it: without
      tristates, exactly if no optional choice is in y mode with nothing to select. */
  lemma MinConfigRoundTrip(k: Kconfig, rank: Rank, u: User, v: Valuation, order: seq<SymId>, w: User, u': User,
                           v': Valuation)
    requires Configured(k, u, v) && Acyclic(k, rank) && SymsSane(k) && NoTristates(k) && PromptsRespectDeps(k)
             && UserOk(k, w)
    requires forall s: SymId | k.Def(s).defined :: s in order
    requires u' == LoadReplacing(k, w, WrittenLines(k, u, v, MinConfig(k, u, v), order)) && Solves(k, u', v')
    ensures SameConfiguration(k, u, v, u', v') <==> OptionalChoicesSelect(k, u, v)
  {
    hide Configured, Acyclic, SymsSane, NoTristates, PromptsRespectDeps, UserOk, Solves, LoadReplacing;
    hide WrittenLines, SameConfiguration, Reproducible, OptionalChoicesSelect;
    LoadingReproduces(k, rank, u, v, MinConfig(k, u, v), order, w, u', v');
    MinIsReproducible(k, u, v);
  }

  // ----- Minimality -----

  lemma KeptValueIsNeeded(k: Kconfig, u: User, v: Valuation, s: SymId)
    requires Solves(k, u, v) && PromptsRespectDeps(k) && k.Def(s).typ == Bool && k.Def(s).choice.None?
    requires InMinConfig(k, u, v, s)
    ensures v.vis(SymItem(s)) != 0 && v.tri(s) != ValueByDefault(k, u, v, s)
  {
    VisibleHasDeps(k, u, v, s);
    assert v.str(s) == StrRule(k, u, v, s).val;
    hide Solves, EnvOf, Value, ActiveDefault, PromptsRespectDeps;
  }

  lemma KeptTextIsNeeded(k: Kconfig, u: User, v: Valuation, s: SymId)
    requires Solves(k, u, v) && ChoicesTyped(k) && k.Def(s).typ == Str && InMinConfig(k, u, v, s)
    ensures v.vis(SymItem(s)) != 0 && v.str(s) != TextByDefault(k, u, v, s)
  {
    hide Solves, EnvOf, Value, ActiveDefault;
    assert k.Def(s).choice.None?;
  }

  lemma KeptMemberIsNeeded(k: Kconfig, u: User, v: Valuation, keep: SymId -> bool, s: SymId, x: ChoiceId)
    requires Configured(k, u, v) && NoTristates(k) && k.Def(s).choice == Some(x)
    requires InMinConfig(k, u, v, s) && !keep(s)
    ensures !ModeIsTold(k, u, v, keep, x) || !SelectionIsTold(k, u, v, keep, x)
  {
    assert v.str(s) == StrRule(k, u, v, s).val && IsBoolTristate(k.Def(s).typ) && k.Def(s).typ == Bool;
    assert v.tri(s) != 0;
    BoolMemberIsNotM(k, u, v, s);
    MemberVisibility(k, u, v, s);
    MemberValue(k, u, v, s);
    ChoiceIsExclusive(k, u, v, x);
    ConfiguredLinks(k, u, v);
    assert s in k.Choice(x).syms;
    BoolModes(k, u, v, x);
    hide Configured, NoTristates, SelectionFromDefaults;
  }

  /** Every line of a minimal configuration without tristates is needed: leaving it out, and keeping
      whichever others, does not bring the configuration back. The one exception is a number that is
      clamped to its range by default. */
  lemma MinConfigIsMinimal(k: Kconfig, u: User, v: Valuation, keep: SymId -> bool, s: SymId)
    requires Configured(k, u, v) && NoTristates(k) && PromptsRespectDeps(k) && k.Def(s).typ != Unknown
    requires InMinConfig(k, u, v, s) && !keep(s)
    requires k.Def(s).typ in {Int, Hex} ==> v.str(s) != TextByDefault(k, u, v, s)
    ensures !Reproducible(k, u, v, keep)
  {
    hide InMinConfig, ValueByDefault, TextByDefault, PromptsRespectDeps, ModeIsTold, SelectionIsTold;
    assert Solves(k, u, v) && ChoicesTyped(k);
    if k.Def(s).choice.Some? {
      KeptMemberIsNeeded(k, u, v, keep, s, k.Def(s).choice.value);
    } else if k.Def(s).typ == Bool {
      KeptValueIsNeeded(k, u, v, s);
      assert !ValueIsTold(k, u, v, keep, s);
    } else {
      if k.Def(s).typ == Str { KeptTextIsNeeded(k, u, v, s); }
      KeptIsVisible(k, u, v, s);
      assert !TextIsTold(k, u, v, keep, s);
    }
  }

  lemma KeptIsVisible(k: Kconfig, u: User, v: Valuation, s: SymId)
    requires InMinConfig(k, u, v, s) && k.Def(s).choice.None?
    ensures v.vis(SymItem(s)) != 0
  {
  }
}
