/**
 Writing a configuration and loading it again. `keep` says which symbols' lines are
 written: all of them for a full .config, fewer for a minimal one.
 */
module ConfigFile {
  import opened Expressions
  import opened Config
  import opened Locality
  import opened Evaluation
  import opened Choices
  import opened ConfigText
  import opened Assignments
  import opened Layout

  /** `Symbol.config_string` */
  function ConfigLine(k: Kconfig, u: User, v: Valuation, s: SymId): Option<Line> {
    var t := k.Def(s).typ;
    if !StrRule(k, u, v, s).write then None
    else if IsBoolTristate(t) then
      Some(if v.str(s) != "n" then SetLine(s, v.str(s)) else UnsetLine(s))
    else if t == Str then Some(SetLine(s, Quote(v.str(s))))
    else Some(SetLine(s, v.str(s)))
  }

  /** The lines for the kept symbols, in the order in which the symbols are visited. */
  function WrittenLines(k: Kconfig, u: User, v: Valuation, keep: SymId -> bool, order: seq<SymId>): seq<Line> {
    if order == [] then []
    else
      var s := order[|order| - 1];
      WrittenLines(k, u, v, keep, order[..|order| - 1])
      + if keep(s) && ConfigLine(k, u, v, s).Some? then [ConfigLine(k, u, v, s).value] else []
  }

  ghost function LineParts(k: Kconfig, u: User, v: Valuation, keep: SymId -> bool, order: seq<SymId>): seq<seq<Line>> {
    seq(|order|, i requires 0 <= i < |order| =>
      if keep(order[i]) && ConfigLine(k, u, v, order[i]).Some? then [ConfigLine(k, u, v, order[i]).value] else [])
  }

  /** Exactly the lines of the kept symbols that have one, in the order of the symbols. */
  lemma {:induction false} LinesInOrder(k: Kconfig, u: User, v: Valuation, keep: SymId -> bool, order: seq<SymId>)
    ensures InOrder(LineParts(k, u, v, keep, order), WrittenLines(k, u, v, keep, order))
  {
    hide ConfigLine, InOrder;
    if order == [] {
      NoParts<Line>();
      assert LineParts(k, u, v, keep, order) == [];
    } else {
      var n := |order| - 1;
      var line := ConfigLine(k, u, v, order[n]);
      LinesInOrder(k, u, v, keep, order[..n]);
      var part := if keep(order[n]) && line.Some? then [line.value] else [];
      OneMorePart(LineParts(k, u, v, keep, order[..n]), WrittenLines(k, u, v, keep, order[..n]), part);
      assert LineParts(k, u, v, keep, order) == LineParts(k, u, v, keep, order[..n]) + [part];
    }
  }

  // ----- What a written line assigns -----

  ghost predicate Configured(k: Kconfig, u: User, v: Valuation) {
    WellFormed(k) && ChoicesTyped(k) && UserOk(k, u) && Solves(k, u, v)
  }

  /** The user value that a symbol has after loading, if any. */
  function Entry(k: Kconfig, u: User, v: Valuation, keep: SymId -> bool, s: SymId): Option<UserValue> {
    var t := k.Def(s).typ;
    var x := if IsBoolTristate(t) then UserTri(v.tri(s)) else UserStr(v.str(s));
    if keep(s) && StrRule(k, u, v, s).write && ValidFor(t, x) then Some(x) else None
  }

  predicate IsNonN(x: Option<UserValue>) {
    x.Some? && x.value.UserTri? && x.value.tri != 0
  }

  lemma BoolIsNotM(k: Kconfig, u: User, v: Valuation, s: SymId)
    requires Solves(k, u, v) && k.Def(s).typ == Bool && k.Def(s).choice.None?
    ensures v.tri(s) != 1
  {
    assert v.tri(s) == TriRule(k, u, v, s).val;
    assert SymType(k, u, v, s) == Bool;
  }

  lemma BoolMemberIsNotM(k: Kconfig, u: User, v: Valuation, s: SymId)
    requires Configured(k, u, v) && k.Def(s).typ == Bool && k.Def(s).choice.Some?
    ensures v.tri(s) != 1
  {
    var x := k.Def(s).choice.value;
    MemberVisibility(k, u, v, s);
    MemberValue(k, u, v, s);
    assert s in k.Choice(x).syms && IsBoolTristate(k.Choice(x).typ);
    assert v.vis(SymItem(s)) == VisRule(k, u, v, SymItem(s));
    assert v.tri(s) == TriRule(k, u, v, s).val;
  }

  lemma ValueIsValid(k: Kconfig, u: User, v: Valuation, s: SymId)
    requires Configured(k, u, v) && IsBoolTristate(k.Def(s).typ)
    ensures ValidFor(k.Def(s).typ, UserTri(v.tri(s)))
  {
    if k.Def(s).typ == Bool {
      if k.Def(s).choice.None? { BoolIsNotM(k, u, v, s); } else { BoolMemberIsNotM(k, u, v, s); }
    }
  }

  /** A line assigns the symbol's current value. */
  lemma LineAssignsValue(k: Kconfig, u: User, v: Valuation, s: SymId)
    requires Configured(k, u, v) && ConfigLine(k, u, v, s).Some?
    ensures var x := if IsBoolTristate(k.Def(s).typ) then UserTri(v.tri(s)) else UserStr(v.str(s));
            LineValue(k, ConfigLine(k, u, v, s).value) == Some((s, x))
  {
    assert v.str(s) == StrRule(k, u, v, s).val;
    assert k.Def(s).defined by {
      assert k.Def(s).defined || UndefinedIsEmpty(k.Def(s));
    }
    if IsBoolTristate(k.Def(s).typ) {
      ValueIsValid(k, u, v, s);
    } else if k.Def(s).typ == Str {
      LiteralRoundTrip(v.str(s));
    }
  }

  /** A visible symbol is written, unless its value comes from elsewhere. */
  lemma VisibleIsWritten(k: Kconfig, u: User, v: Valuation, s: SymId)
    requires v.vis(SymItem(s)) != 0 && k.Def(s).typ != Unknown
    ensures StrRule(k, u, v, s).write <==> IsBoolTristate(k.Def(s).typ) || !k.Def(s).auto
  {
    hide EnvOf, NumTakesEffect, ActiveDefault, ActiveRange, Value, SymType;
  }

  /** Members of a choice with a value other than n have the mode of the choice, and the y
      member is the selection. */
  lemma MemberEntries(k: Kconfig, u: User, v: Valuation, s: SymId)
    requires Configured(k, u, v) && k.Def(s).choice.Some? && v.tri(s) != 0
    ensures v.tri(s) == ModeRule(k, u, v, k.Def(s).choice.value) && v.vis(SymItem(s)) != 0
    ensures v.tri(s) == 2 ==> v.sel(k.Def(s).choice.value) == Some(s)
    ensures ValidMode(k.Choice(k.Def(s).choice.value).typ, v.tri(s))
  {
    var x := k.Def(s).choice.value;
    assert s in k.Choice(x).syms && IsBoolTristate(k.Choice(x).typ);
    ChoiceIsExclusive(k, u, v, x);
    MemberVisibility(k, u, v, s);
    MemberValue(k, u, v, s);
  }

  // ----- The user state after loading -----

  ghost predicate SomeEntry(k: Kconfig, u: User, v: Valuation, keep: SymId -> bool, order: seq<SymId>, x: ChoiceId) {
    exists i | 0 <= i < |order| :: k.Def(order[i]).choice == Some(x) && IsNonN(Entry(k, u, v, keep, order[i]))
  }

  ghost predicate ValuesLoaded(k: Kconfig, u: User, v: Valuation, keep: SymId -> bool, order: seq<SymId>, u': User) {
    forall s: SymId ::
      && (s in u'.value <==> s in order && Entry(k, u, v, keep, s).Some?)
      && (s in u'.value ==> u'.value[s] == Entry(k, u, v, keep, s).value)
  }

  ghost predicate ChoicesLoaded(k: Kconfig, u: User, v: Valuation, keep: SymId -> bool, order: seq<SymId>, u': User) {
    forall x: ChoiceId ::
      && (x in u'.mode <==> SomeEntry(k, u, v, keep, order, x))
      && (x in u'.mode ==> u'.mode[x] == ModeRule(k, u, v, x))
      && (x in u'.mode && u'.mode[x] == 2 ==>
          x in u'.selection && Some(u'.selection[x]) == v.sel(x) && keep(u'.selection[x]))
      && (x in u'.selection && x !in u'.mode ==> false)
  }

  lemma SomeEntryOf(k: Kconfig, u: User, v: Valuation, keep: SymId -> bool, order: seq<SymId>, x: ChoiceId)
    requires order != []
    ensures var init, s := order[..|order| - 1], order[|order| - 1];
            SomeEntry(k, u, v, keep, order, x) <==>
              SomeEntry(k, u, v, keep, init, x) || (k.Def(s).choice == Some(x) && IsNonN(Entry(k, u, v, keep, s)))
  {
    hide Entry;
    var init := order[..|order| - 1];
    if SomeEntry(k, u, v, keep, init, x) {
      var i :| 0 <= i < |init| && k.Def(init[i]).choice == Some(x) && IsNonN(Entry(k, u, v, keep, init[i]));
      assert order[i] == init[i];
    }
    if SomeEntry(k, u, v, keep, order, x) {
      var i :| 0 <= i < |order| && k.Def(order[i]).choice == Some(x) && IsNonN(Entry(k, u, v, keep, order[i]));
      if i < |init| { assert order[i] == init[i]; }
    }
  }

  /** The user state after the line of `s` has been loaded. */
  ghost predicate Loads(k: Kconfig, u: User, v: Valuation, keep: SymId -> bool, s: SymId, u0: User, u1: User) {
    var e := Entry(k, u, v, keep, s);
    var c := k.Def(s).choice;
    && u1.value == (if e.Some? then u0.value[s := e.value] else u0.value)
    && u1.mode == (if c.Some? && IsNonN(e) then u0.mode[c.value := ModeRule(k, u, v, c.value)] else u0.mode)
    && u1.selection == (if c.Some? && e == Some(UserTri(2)) then u0.selection[c.value := s] else u0.selection)
    && (c.Some? && IsNonN(e) ==>
          && e.value.tri == ModeRule(k, u, v, c.value)
          && keep(s) && (e.value.tri == 2 ==> v.sel(c.value) == Some(s)))
  }

  lemma LineLoads(k: Kconfig, u: User, v: Valuation, keep: SymId -> bool, s: SymId, st: State)
    requires Configured(k, u, v) && keep(s) && ConfigLine(k, u, v, s).Some?
    requires s in st.user.value ==> ValidFor(k.Def(s).typ, st.user.value[s])
    ensures Loads(k, u, v, keep, s, st.user, ApplyLine(k, st, ConfigLine(k, u, v, s).value).user)
  {
    var t := k.Def(s).typ;
    var x := if IsBoolTristate(t) then UserTri(v.tri(s)) else UserStr(v.str(s));
    LineAssignsValue(k, u, v, s);
    if IsBoolTristate(t) { ValueIsValid(k, u, v, s); }
    assert k.Def(s).choice.Some? ==> IsBoolTristate(t);
    if k.Def(s).choice.Some? && v.tri(s) != 0 { MemberEntries(k, u, v, s); }
    StepEffects(k, st, s, x);
    hide Configured, ModeRule, ApplyValue, ValidFor;
  }

  lemma NoLineNoEntry(k: Kconfig, u: User, v: Valuation, keep: SymId -> bool, s: SymId)
    requires !(keep(s) && ConfigLine(k, u, v, s).Some?)
    ensures Entry(k, u, v, keep, s).None?
  {
    hide StrRule;
  }

  lemma StepValues(k: Kconfig, u: User, v: Valuation, keep: SymId -> bool, order: seq<SymId>, u0: User, u1: User)
    requires order != [] && ValuesLoaded(k, u, v, keep, order[..|order| - 1], u0)
    requires var s := order[|order| - 1];
             u1.value == if Entry(k, u, v, keep, s).Some? then u0.value[s := Entry(k, u, v, keep, s).value]
               else u0.value
    ensures ValuesLoaded(k, u, v, keep, order, u1)
  {
    hide Entry;
    assert order == order[..|order| - 1] + [order[|order| - 1]];
  }

  lemma StepChoices(k: Kconfig, u: User, v: Valuation, keep: SymId -> bool, order: seq<SymId>, u0: User, u1: User)
    requires order != [] && ChoicesLoaded(k, u, v, keep, order[..|order| - 1], u0)
    requires Loads(k, u, v, keep, order[|order| - 1], u0, u1)
             || (u1.mode == u0.mode && u1.selection == u0.selection && Entry(k, u, v, keep, order[|order| - 1]).None?)
    ensures ChoicesLoaded(k, u, v, keep, order, u1)
  {
    hide Entry, ModeRule, SomeEntry;
    forall x: ChoiceId
      ensures x in u1.mode <==> SomeEntry(k, u, v, keep, order, x)
    {
      SomeEntryOf(k, u, v, keep, order, x);
    }
  }

  lemma {:induction false} FreshLoad(k: Kconfig, u: User, v: Valuation, keep: SymId -> bool, order: seq<SymId>)
    requires Configured(k, u, v)
    ensures var u' := LoadFresh(k, WrittenLines(k, u, v, keep, order));
            ValuesLoaded(k, u, v, keep, order, u') && ChoicesLoaded(k, u, v, keep, order, u')
  {
    hide Configured, ConfigLine, Loads, ApplyLine, ModeRule, SomeEntry, StrRule;
    if order == [] {
      NothingLoaded(k, u, v, keep);
    } else {
      var init, s := order[..|order| - 1], order[|order| - 1];
      var before, all := WrittenLines(k, u, v, keep, init), WrittenLines(k, u, v, keep, order);
      FreshLoad(k, u, v, keep, init);
      var st := ApplyLines(k, State(NoUser, {}), before);
      if keep(s) && ConfigLine(k, u, v, s).Some? {
        assert all == before + [ConfigLine(k, u, v, s).value];
        assert all[..|all| - 1] == before;
        LineLoads(k, u, v, keep, s, st);
        LoadsValue(k, u, v, keep, s, st.user, LoadFresh(k, all));
        StepValues(k, u, v, keep, order, st.user, LoadFresh(k, all));
        StepChoices(k, u, v, keep, order, st.user, LoadFresh(k, all));
      } else {
        assert all == before;
        NoLineNoEntry(k, u, v, keep, s);
        StepValues(k, u, v, keep, order, st.user, st.user);
        StepChoices(k, u, v, keep, order, st.user, st.user);
      }
    }
  }

  lemma LoadsValue(k: Kconfig, u: User, v: Valuation, keep: SymId -> bool, s: SymId, u0: User, u1: User)
    requires Loads(k, u, v, keep, s, u0, u1)
    ensures u1.value == if Entry(k, u, v, keep, s).Some? then u0.value[s := Entry(k, u, v, keep, s).value] else u0.value
  {
  }

  lemma NothingLoaded(k: Kconfig, u: User, v: Valuation, keep: SymId -> bool)
    ensures ValuesLoaded(k, u, v, keep, [], NoUser) && ChoicesLoaded(k, u, v, keep, [], NoUser)
  {
  }

  /** Loading over any earlier user state gives the same, except that a choice in m mode may
      keep an old selection. */
  lemma ReplacingLoad(k: Kconfig, u: User, v: Valuation, keep: SymId -> bool, order: seq<SymId>, w: User)
    requires Configured(k, u, v) && UserOk(k, w)
    ensures var u' := LoadReplacing(k, w, WrittenLines(k, u, v, keep, order));
            ValuesLoaded(k, u, v, keep, order, u') && ChoicesLoaded(k, u, v, keep, order, u') && UserOk(k, u')
  {
    hide Configured, ChoicesLinked, ChoicesTyped, UserOk, LoadReplacing, LoadFresh, WrittenLines, Entry;
    hide ModeRule, SomeEntry;
    ConfiguredLinks(k, u, v);
    FreshLoad(k, u, v, keep, order);
    ReplacingEffects(k, w, WrittenLines(k, u, v, keep, order));
  }

  lemma ConfiguredLinks(k: Kconfig, u: User, v: Valuation)
    requires Configured(k, u, v)
    ensures ChoicesLinked(k) && ChoicesTyped(k)
  {
  }

  /** The effect of one assignment from a file on the user state. */
  lemma StepEffects(k: Kconfig, st: State, s: SymId, x: UserValue)
    requires IsBoolTristate(k.Def(s).typ) ==> ValidFor(k.Def(s).typ, x)
    requires SetsMode(k, s, x) ==> IsBoolTristate(k.Def(s).typ) && ValidMode(k.Choice(k.Def(s).choice.value).typ, x.tri)
    requires k.Def(s).choice.Some? ==> IsBoolTristate(k.Def(s).typ)
    requires s in st.user.value ==> ValidFor(k.Def(s).typ, st.user.value[s])
    ensures var st' := ApplyValue(k, st, s, x);
            && st'.user.value == (if ValidFor(k.Def(s).typ, x) then st.user.value[s := x] else st.user.value)
            && st'.user.mode == (if SetsMode(k, s, x) then st.user.mode[k.Def(s).choice.value := x.tri]
              else st.user.mode)
            && st'.user.selection == (if SetsMode(k, s, x)
              && x.tri == 2 then st.user.selection[k.Def(s).choice.value := s] else st.user.selection)
  {
  }
}
