/**
 Setting and unsetting values, and loading .config files: the effect on the user state.
 */
module Assignments {
  import opened Expressions
  import opened Config
  import opened ConfigText

  /** The user state and which items have `_was_set`. */
  datatype State = State(user: User, wasSet: set<Item>)

  // ----- Single assignments -----

  predicate Unchanged(k: Kconfig, u: User, s: SymId, x: UserValue) {
    s in u.value && u.value[s] == x && k.Def(s).choice.None?
  }

  /** `Symbol.set_value`; the value is ignored if it is not valid for the type. */
  function SetSym(k: Kconfig, st: State, s: SymId, x: UserValue): State {
    var d := k.Def(s);
    if Unchanged(k, st.user, s, x) then st.(wasSet := st.wasSet + {SymItem(s)})
    else if !ValidFor(d.typ, x) then st
    else if d.choice.Some? && x == UserTri(2) then
      State(
        st.user.(value := st.user.value[s := x], selection := st.user.selection[d.choice.value := s]),
        st.wasSet + {SymItem(s), ChoiceItem(d.choice.value)})
    else State(st.user.(value := st.user.value[s := x]), st.wasSet + {SymItem(s)})
  }

  /** What `Symbol.set_value` returns. */
  predicate Accepts(k: Kconfig, u: User, s: SymId, x: UserValue) {
    Unchanged(k, u, s, x) || ValidFor(k.Def(s).typ, x)
  }

  /** `Choice.set_value` */
  function SetMode(k: Kconfig, st: State, c: ChoiceId, m: Tri): State {
    if st.user.ModeOf(c) == Some(m) then st.(wasSet := st.wasSet + {ChoiceItem(c)})
    else if !ValidMode(k.Choice(c).typ, m) then st
    else State(st.user.(mode := st.user.mode[c := m]), st.wasSet + {ChoiceItem(c)})
  }

  function UnsetSym(u: User, s: SymId): User {
    u.(value := u.value - {s})
  }

  function UnsetChoice(u: User, c: ChoiceId): User {
    u.(mode := u.mode - {c}, selection := u.selection - {c})
  }

  lemma SetKeepsUserOk(k: Kconfig, st: State, s: SymId, x: UserValue)
    requires ChoicesLinked(k) && UserOk(k, st.user)
    ensures UserOk(k, SetSym(k, st, s, x).user)
  {
  }

  // ----- .config lines -----

  /** A line, with the symbol's name looked up. */
  datatype Line = SetLine(sym: SymId, val: string) | UnsetLine(sym: SymId) | OtherLine

  function TriOfChar(c: char): Tri { if c == 'y' then 2 else if c == 'm' then 1 else 0 }

  /** The value that a line assigns, if it is well-formed. */
  function LineValue(k: Kconfig, l: Line): Option<(SymId, UserValue)> {
    match l
    case OtherLine => None
    case UnsetLine(s) =>
      if k.Def(s).defined && IsBoolTristate(k.Def(s).typ) then Some((s, UserTri(0))) else None
    case SetLine(s, val) =>
      var t := k.Def(s).typ;
      if !k.Def(s).defined then None
      else if IsBoolTristate(t) then
        if val != [] && (val[0] == 'y' || val[0] == 'n' || (t == Tristate && val[0] == 'm'))
        then Some((s, UserTri(TriOfChar(val[0])))) else None
      else if t == Str then
        match Literal(val)
        case None => None
        case Some(body) => Some((s, UserStr(Unescape(body))))
      else Some((s, UserStr(val)))
  }

  /** The mode of a choice is inferred from the values assigned to its symbols. */
  predicate SetsMode(k: Kconfig, s: SymId, x: UserValue) {
    k.Def(s).choice.Some? && x.UserTri? && x.tri != 0
  }

  function ApplyValue(k: Kconfig, st: State, s: SymId, x: UserValue): State {
    SetSym(k, if SetsMode(k, s, x) then SetMode(k, st, k.Def(s).choice.value, x.tri) else st, s, x)
  }

  function ApplyLine(k: Kconfig, st: State, l: Line): State {
    match LineValue(k, l)
    case None => st
    case Some((s, x)) => ApplyValue(k, st, s, x)
  }

  function ApplyLines(k: Kconfig, st: State, ls: seq<Line>): State {
    if ls == [] then st else ApplyLine(k, ApplyLines(k, st, ls[..|ls| - 1]), ls[|ls| - 1])
  }

  /** Unset what did not get set. */
  function UnsetRest(st: State): User {
    User(
      map s | s in st.user.value && SymItem(s) in st.wasSet :: st.user.value[s],
      map c | c in st.user.mode && ChoiceItem(c) in st.wasSet :: st.user.mode[c],
      map c | c in st.user.selection && ChoiceItem(c) in st.wasSet :: st.user.selection[c])
  }

  /** `load_config(replace=True)`: set what the file sets, then unset the rest. */
  function LoadReplacing(k: Kconfig, u: User, ls: seq<Line>): User {
    UnsetRest(ApplyLines(k, State(u, {}), ls))
  }

  /** Loading into a configuration without user values. */
  function LoadFresh(k: Kconfig, ls: seq<Line>): User {
    ApplyLines(k, State(NoUser, {}), ls).user
  }

  /** The lines that are ignored: those for undefined symbols, values of a bool or tristate that do not
      start with one of its letters, and values of a string that do not start with a literal. */
  lemma IgnoredLines(k: Kconfig, st: State, l: Line)
    ensures LineValue(k, l).None? <==>
              match l
              case OtherLine => true
              case UnsetLine(s) => !k.Def(s).defined || !IsBoolTristate(k.Def(s).typ)
              case SetLine(s, val) =>
                || !k.Def(s).defined
                || (k.Def(s).typ == Bool && (val == [] || val[0] !in "yn"))
                || (k.Def(s).typ == Tristate && (val == [] || val[0] !in "ymn"))
                || (k.Def(s).typ == Str && !exists us, rest ::
                      AllFine(us) && val == "\"" + (Spelled(us) + ("\"" + rest)))
    ensures LineValue(k, l).None? ==> ApplyLine(k, st, l) == st
  {
    if l.SetLine? && k.Def(l.sym).typ == Str {
      if Literal(l.val).Some? { LiteralMeaning(l.val, Literal(l.val).value); }
      forall us, rest | AllFine(us) && l.val == "\"" + (Spelled(us) + ("\"" + rest)) ensures Literal(l.val).Some? {
        QuoteEndsUnits(us, rest);
        assert l.val[1..] == Spelled(us) + ("\"" + rest);
      }
    }
  }

  // ----- Replacing load equals fresh load -----

  /** A run from `u` and a run from no user values have made the same assignments. */
  ghost predicate InStep(k: Kconfig, u: User, a: State, b: State) {
    && a.wasSet == b.wasSet
    && (forall s: SymId ::
          && (SymItem(s) in a.wasSet ==> s in a.user.value && s in b.user.value && a.user.value[s] == b.user.value[s])
          && (SymItem(s) !in a.wasSet ==> s !in b.user.value))
    && (forall c: ChoiceId :: c in b.user.mode ==>
        ChoiceItem(c) in b.wasSet && c in a.user.mode && a.user.mode[c] == b.user.mode[c])
    && (forall c: ChoiceId :: ChoiceItem(c) in a.wasSet && IsBoolTristate(k.Choice(c).typ) ==> c in b.user.mode)
    && (forall c: ChoiceId :: c in b.user.selection ==>
        ChoiceItem(c) in b.wasSet && c in a.user.selection && a.user.selection[c] == b.user.selection[c])
    && (forall c: ChoiceId :: c !in b.user.selection ==> a.user.SelectionOf(c) == u.SelectionOf(c))
  }

  lemma StepMode(k: Kconfig, u: User, a: State, b: State, c: ChoiceId, m: Tri)
    requires UserOk(k, a.user) && InStep(k, u, a, b)
    ensures InStep(k, u, SetMode(k, a, c, m), SetMode(k, b, c, m)) && UserOk(k, SetMode(k, a, c, m).user)
    ensures m == 2 && IsBoolTristate(k.Choice(c).typ) ==> c in SetMode(k, b, c, m).user.mode
  {
  }

  lemma StepSym(k: Kconfig, u: User, a: State, b: State, s: SymId, x: UserValue)
    requires ChoicesLinked(k) && UserOk(k, a.user) && InStep(k, u, a, b)
    requires k.Def(s).choice.Some? && x == UserTri(2) && IsBoolTristate(k.Choice(k.Def(s).choice.value).typ)
             ==> k.Def(s).choice.value in b.user.mode
    ensures InStep(k, u, SetSym(k, a, s, x), SetSym(k, b, s, x)) && UserOk(k, SetSym(k, a, s, x).user)
  {
  }

  lemma {:induction false} StepLines(k: Kconfig, u: User, ls: seq<Line>)
    requires ChoicesLinked(k) && UserOk(k, u)
    ensures InStep(k, u, ApplyLines(k, State(u, {}), ls), ApplyLines(k, State(NoUser, {}), ls))
    ensures UserOk(k, ApplyLines(k, State(u, {}), ls).user)
  {
    if ls != [] {
      StepLines(k, u, ls[..|ls| - 1]);
      var a, b := ApplyLines(k, State(u, {}), ls[..|ls| - 1]), ApplyLines(k, State(NoUser, {}), ls[..|ls| - 1]);
      match LineValue(k, ls[|ls| - 1])
      case None =>
      case Some((s, x)) =>
        if SetsMode(k, s, x) {
          var c := k.Def(s).choice.value;
          StepMode(k, u, a, b, c, x.tri);
          StepSym(k, u, SetMode(k, a, c, x.tri), SetMode(k, b, c, x.tri), s, x);
        } else {
          StepSym(k, u, a, b, s, x);
        }
    }
  }

  /** Some line assigns a value to a symbol of `c` that sets the mode of `c`. */
  ghost predicate AssignsMode(k: Kconfig, ls: seq<Line>, c: ChoiceId) {
    exists i | 0 <= i < |ls| :: LineSetsMode(k, ls[i], c)
  }

  predicate LineSetsMode(k: Kconfig, l: Line, c: ChoiceId) {
    var v := LineValue(k, l);
    v.Some? && SetsMode(k, v.value.0, v.value.1) && k.Def(v.value.0).choice == Some(c)
      && ValidMode(k.Choice(c).typ, v.value.1.tri)
  }

  /** Some line assigns y to a symbol of `c`. */
  ghost predicate AssignsSelection(k: Kconfig, ls: seq<Line>, c: ChoiceId) {
    exists i | 0 <= i < |ls| :: LineSelects(k, ls[i], c)
  }

  predicate LineSelects(k: Kconfig, l: Line, c: ChoiceId) {
    var v := LineValue(k, l);
    v.Some? && v.value.1 == UserTri(2) && k.Def(v.value.0).choice == Some(c)
  }

  lemma LineEffects(k: Kconfig, b: State, l: Line, c: ChoiceId)
    requires IsBoolTristate(k.Choice(c).typ) && UserOk(k, b.user)
    ensures ChoiceItem(c) in ApplyLine(k, b, l).wasSet <==> ChoiceItem(c) in b.wasSet || LineSetsMode(k, l, c)
    ensures c in ApplyLine(k, b, l).user.selection <==> c in b.user.selection || LineSelects(k, l, c)
  {
  }

  lemma {:induction false} FreshEffects(k: Kconfig, ls: seq<Line>, c: ChoiceId)
    requires ChoicesLinked(k) && IsBoolTristate(k.Choice(c).typ)
    ensures var b := ApplyLines(k, State(NoUser, {}), ls);
            && (ChoiceItem(c) in b.wasSet <==> AssignsMode(k, ls, c))
            && (c in b.user.selection <==> AssignsSelection(k, ls, c))
  {
    hide ApplyLine, LineSetsMode, LineSelects, LineValue, ChoicesLinked;
    if ls != [] {
      var init, last := ls[..|ls| - 1], ls[|ls| - 1];
      FreshEffects(k, init, c);
      StepLines(k, NoUser, init);
      LineEffects(k, ApplyLines(k, State(NoUser, {}), init), last, c);
      assert ls == init + [last];
      if AssignsMode(k, init, c) {
        var i :| 0 <= i < |init| && LineSetsMode(k, init[i], c);
        assert LineSetsMode(k, ls[i], c);
      }
      if AssignsSelection(k, init, c) {
        var i :| 0 <= i < |init| && LineSelects(k, init[i], c);
        assert LineSelects(k, ls[i], c);
      }
    }
  }

  /** The file sets the mode of a choice but none of its symbols to y, and an earlier user
      selection is left behind. */
  ghost predicate KeepsStaleSelection(k: Kconfig, u: User, ls: seq<Line>, c: ChoiceId) {
    c in u.selection && AssignsMode(k, ls, c) && !AssignsSelection(k, ls, c)
  }

  lemma UnsetRestEffects(k: Kconfig, u: User, a: State, b: State)
    requires UserOk(k, a.user) && InStep(k, u, a, b)
    ensures UnsetRest(a).value == b.user.value && UnsetRest(a).mode == b.user.mode
    ensures forall c | c in b.user.selection ::
              c in UnsetRest(a).selection && UnsetRest(a).selection[c] == b.user.selection[c]
    ensures forall c :: c in UnsetRest(a).selection && c !in b.user.selection <==>
              ChoiceItem(c) in b.wasSet && c in u.selection && c !in b.user.selection
  {
    assert forall c | c in a.user.mode :: ValidMode(k.Choice(c).typ, a.user.mode[c]);
    assert forall c :: c in a.user.selection <==> a.user.SelectionOf(c).Some?;
    assert forall c :: c in u.selection <==> u.SelectionOf(c).Some?;
  }

  /** A replacing load and a fresh load can only differ in old selections of choices whose
      mode was set. */
  lemma ReplacingEffects(k: Kconfig, u: User, ls: seq<Line>)
    requires ChoicesLinked(k) && ChoicesTyped(k) && UserOk(k, u)
    ensures var r, f := LoadReplacing(k, u, ls), LoadFresh(k, ls);
            && r.value == f.value && r.mode == f.mode
            && (forall c | c in f.selection :: c in r.selection && r.selection[c] == f.selection[c])
            && (forall c | c in r.selection :: c in r.mode) && UserOk(k, r)
  {
    var a, b := ApplyLines(k, State(u, {}), ls), ApplyLines(k, State(NoUser, {}), ls);
    StepLines(k, u, ls);
    UnsetRestEffects(k, u, a, b);
    hide ApplyLines;
    forall c | c in UnsetRest(a).selection ensures c in b.user.mode {
      assert a.user.selection[c] in k.Choice(c).syms;
    }
  }

  /** Set-then-unset-the-rest gives the same user state as starting from nothing, exactly
      when no choice keeps a stale selection. */
  lemma ReplacingLoadIsFreshLoad(k: Kconfig, u: User, ls: seq<Line>)
    requires ChoicesLinked(k) && ChoicesTyped(k) && UserOk(k, u)
    ensures LoadReplacing(k, u, ls) == LoadFresh(k, ls) <==> forall c :: !KeepsStaleSelection(k, u, ls, c)
  {
    var a, b := ApplyLines(k, State(u, {}), ls), ApplyLines(k, State(NoUser, {}), ls);
    StepLines(k, u, ls);
    UnsetRestEffects(k, u, a, b);
    hide InStep, ApplyLines, AssignsMode, AssignsSelection, UnsetRest;
    forall c | c in u.selection
      ensures ChoiceItem(c) in b.wasSet <==> AssignsMode(k, ls, c)
      ensures c in b.user.selection <==> AssignsSelection(k, ls, c)
    {
      FreshEffects(k, ls, c);
    }
    var r := UnsetRest(a).selection;
    if r != b.user.selection {
      var c :| c in r && c !in b.user.selection;
      assert KeepsStaleSelection(k, u, ls, c);
    }
    forall c | KeepsStaleSelection(k, u, ls, c) ensures r != b.user.selection {
      assert c in r && c !in b.user.selection;
    }
  }

  /** With bool choices only, no selection can go stale. */
  lemma BoolChoicesLoadFresh(k: Kconfig, u: User, ls: seq<Line>)
    requires ChoicesLinked(k) && ChoicesTyped(k) && UserOk(k, u)
    requires forall c: ChoiceId :: k.Choice(c).typ != Tristate
    ensures LoadReplacing(k, u, ls) == LoadFresh(k, ls)
  {
    ReplacingLoadIsFreshLoad(k, u, ls);
    forall c ensures !KeepsStaleSelection(k, u, ls, c) {
      if AssignsMode(k, ls, c) {
        var i :| 0 <= i < |ls| && LineSetsMode(k, ls[i], c);
        assert LineSelects(k, ls[i], c);
      }
    }
  }

  /** A tristate choice whose symbol was selected in y mode, and a file that only assigns m. */
  lemma StaleSelectionExample(k: Kconfig, u: User, ls: seq<Line>)
    requires k == Kconfig([SymDef(true, "A", Tristate, [Mode(0)], [], [], N, N, N, Some(0), false)],
                          [ChoiceDef(Tristate, [Y], [], [0], false)], 1)
    requires u == User(map[0 := UserTri(2)], map[0 := 2], map[0 := 0]) && ls == [SetLine(0, "m")]
    ensures ChoicesLinked(k) && ChoicesTyped(k) && UserOk(k, u)
    ensures LoadReplacing(k, u, ls) != LoadFresh(k, ls)
  {
    var st := State(u, {});
    assert ls[..0] == [];
    assert LineValue(k, ls[0]) == Some((0, UserTri(1)));
    assert ApplyLines(k, st, ls) == ApplyLine(k, ApplyLines(k, st, ls[..0]), ls[0]);
    assert ApplyLines(k, State(NoUser, {}), ls) == ApplyLine(k, ApplyLines(k, State(NoUser, {}), ls[..0]), ls[0]);
    assert 0 in LoadReplacing(k, u, ls).selection && 0 !in LoadFresh(k, ls).selection;
  }
}
