/**
 A finalised Kconfig configuration and the rules that give every symbol and choice its
 visibility, value and selection. The rules are stated over an arbitrary valuation of
 everything they read, so that one text serves both plain evaluation (the valuation that
 satisfies all rules at once) and the cached evaluator.
 */
module Config {
  import opened Expressions

  datatype Default = Default(value: Expr, cond: Expr)
  datatype Range = Range(low: Atom, high: Atom, cond: Expr)
  datatype ChoiceDefault = ChoiceDefault(sym: SymId, cond: Expr)

  /** `auto` marks `option env` and `option defconfig_list` symbols. `prompts` holds the
      condition of each prompt. */
  datatype SymDef = SymDef(
    defined: bool,
    name: string,
    typ: Type,
    prompts: seq<Expr>,
    defaults: seq<Default>,
    ranges: seq<Range>,
    revDep: Expr,
    weakRevDep: Expr,
    directDep: Expr,
    choice: Option<ChoiceId>,
    auto: bool)

  datatype ChoiceDef = ChoiceDef(
    typ: Type,
    prompts: seq<Expr>,
    defaults: seq<ChoiceDefault>,
    syms: seq<SymId>,
    optional: bool)

  const UndefinedSym := SymDef(false, "", Unknown, [], [], [], N, N, N, None, false)
  const EmptyChoice := ChoiceDef(Unknown, [], [], [], false)

  /** Ids beyond the tables are symbols that are mentioned but never defined. */
  datatype Kconfig = Kconfig(syms: seq<SymDef>, choices: seq<ChoiceDef>, modules: SymId) {
    function Def(s: SymId): SymDef {
      if s < |syms| then syms[s] else UndefinedSym
    }

    function Choice(c: ChoiceId): ChoiceDef {
      if c < |choices| then choices[c] else EmptyChoice
    }
  }

  datatype Item = SymItem(sym: SymId) | ChoiceItem(choice: ChoiceId)

  // ----- What the user has set -----

  datatype UserValue = UserTri(tri: Tri) | UserStr(str: string)

  datatype User = User(value: map<SymId, UserValue>, mode: map<ChoiceId, Tri>, selection: map<ChoiceId, SymId>) {
    function TriOf(s: SymId): Option<Tri> {
      if s in value && value[s].UserTri? then Some(value[s].tri) else None
    }

    function StrOf(s: SymId): Option<string> {
      if s in value && value[s].UserStr? then Some(value[s].str) else None
    }

    function ModeOf(c: ChoiceId): Option<Tri> {
      if c in mode then Some(mode[c]) else None
    }

    function SelectionOf(c: ChoiceId): Option<SymId> {
      if c in selection then Some(selection[c]) else None
    }
  }

  const NoUser := User(map[], map[], map[])

  // ----- Valuations -----

  /** A value for everything the rules read. */
  datatype Valuation = Valuation(
    vis: Item -> Tri,
    tri: SymId -> Tri,
    str: SymId -> string,
    sel: ChoiceId -> Option<SymId>)

  function ChoiceType(k: Kconfig, v: Valuation, c: ChoiceId): Type {
    if k.Choice(c).typ == Tristate && v.tri(k.modules) == 0 then Bool else k.Choice(c).typ
  }

  /** `Choice.tri_value` */
  function ModeRule(k: Kconfig, u: User, v: Valuation, c: ChoiceId): Tri {
    var floor: Tri := if k.Choice(c).optional then 0 else 1;
    var wanted := if u.ModeOf(c).Some? then Max(floor, u.ModeOf(c).value) else floor;
    var mode := Min(wanted, v.vis(ChoiceItem(c)));
    if mode == 1 && ChoiceType(k, v, c) == Bool then 2 else mode
  }

  function EnvOf(k: Kconfig, u: User, v: Valuation): Env {
    Env((s: SymId) => k.Def(s).typ, v.tri, v.str, (c: ChoiceId) => ModeRule(k, u, v, c))
  }

  /** `Symbol.type` */
  function SymType(k: Kconfig, u: User, v: Valuation, s: SymId): Type {
    var d := k.Def(s);
    if d.typ == Tristate
       && ((d.choice.Some? && ModeRule(k, u, v, d.choice.value) == 2) || v.tri(k.modules) == 0)
    then Bool else d.typ
  }

  function MaxValue(es: seq<Expr>, env: Env): Tri {
    if es == [] then 0 else Max(MaxValue(es[..|es| - 1], env), Value(es[|es| - 1], env))
  }

  /** `_visibility` */
  function VisRule(k: Kconfig, u: User, v: Valuation, i: Item): Tri {
    match i
    case ChoiceItem(c) =>
      var vis := MaxValue(k.Choice(c).prompts, EnvOf(k, u, v));
      if vis == 1 && ChoiceType(k, v, c) != Tristate then 2 else vis
    case SymItem(s) =>
      var d := k.Def(s);
      var vis := MaxValue(d.prompts, EnvOf(k, u, v));
      if d.choice.Some? && k.Choice(d.choice.value).typ == Tristate && d.typ != Tristate
         && ModeRule(k, u, v, d.choice.value) != 2 then 0
      else if d.choice.Some? && d.typ == Tristate && vis == 1
              && ModeRule(k, u, v, d.choice.value) == 2 then 0
      else if vis == 1 && SymType(k, u, v, s) != Tristate then 2
      else vis
  }

  function ActiveDefault(ds: seq<Default>, env: Env): Option<Default> {
    if ds == [] then None
    else if Value(ds[0].cond, env) != 0 then Some(ds[0])
    else ActiveDefault(ds[1..], env)
  }

  function ActiveRange(rs: seq<Range>, env: Env): Option<Range> {
    if rs == [] then None
    else if Value(rs[0].cond, env) != 0 then Some(rs[0])
    else ActiveRange(rs[1..], env)
  }

  /** A value together with `_write_to_conf`, which is calculated along with it. */
  datatype TriResult = TriResult(val: Tri, write: bool)
  datatype StrResult = StrResult(val: string, write: bool)

  /** The value from defaults and implies, for a symbol without an effective user value. */
  function DefaultTri(d: SymDef, env: Env, visible: bool): TriResult {
    var dflt := ActiveDefault(d.defaults, env);
    var val := if dflt.Some? then Min(Value(dflt.value.value, env), Value(dflt.value.cond, env)) else 0;
    var weak := Value(d.weakRevDep, env);
    if weak != 0 && Value(d.directDep, env) != 0 then TriResult(Max(weak, val), true)
    else TriResult(val, visible || val != 0)
  }

  /** Selects, then the promotion of m to y. */
  function Select(d: SymDef, typ: Type, env: Env, r: TriResult): TriResult {
    var rev := Value(d.revDep, env);
    var val := Max(rev, r.val);
    TriResult(if val == 1 && (typ == Bool || Value(d.weakRevDep, env) == 2) then 2 else val,
              r.write || rev != 0)
  }

  /** `Symbol.tri_value` */
  function TriRule(k: Kconfig, u: User, v: Valuation, s: SymId): TriResult {
    var d := k.Def(s);
    var vis := v.vis(SymItem(s));
    if !IsBoolTristate(d.typ) then TriResult(0, false)
    else if d.choice.Some? then
      if vis == 2 then TriResult(if v.sel(d.choice.value) == Some(s) then 2 else 0, true)
      else TriResult(if vis != 0 && u.TriOf(s).Some? && u.TriOf(s).value != 0 then 1 else 0, vis != 0)
    else
      var env := EnvOf(k, u, v);
      Select(d, SymType(k, u, v, s), env,
             if vis != 0 && u.TriOf(s).Some? then TriResult(Min(u.TriOf(s).value, vis), true)
             else DefaultTri(d, env, vis != 0))
  }

  function Number(s: string, base: nat): int {
    match ParseInt(s, base)
    case Some(n) => n
    case None => 0
  }

  predicate InRange(n: int, r: Option<Range>, base: nat, env: Env) {
    r.Some? ==> Number(AtomStr(r.value.low, env), base) <= n <= Number(AtomStr(r.value.high, env), base)
  }

  function DefaultText(e: Expr, env: Env): string {
    if e.Leaf? then AtomStr(e.atom, env) else ""
  }

  /** The value of an int or hex symbol from its defaults, clamped to the active range. */
  function DefaultNum(d: SymDef, env: Env, visible: bool): StrResult {
    var base := TypeToBase(d.typ);
    var dflt := ActiveDefault(d.defaults, env);
    var text := if dflt.Some? then DefaultText(dflt.value.value, env) else "";
    var n := Number(text, base);
    var r := ActiveRange(d.ranges, env);
    var val :=
      if r.Some? && n < Number(AtomStr(r.value.low, env), base) then
        FormatInt(Number(AtomStr(r.value.low, env), base), d.typ)
      else if r.Some? && n > Number(AtomStr(r.value.high, env), base) then
        FormatInt(Number(AtomStr(r.value.high, env), base), d.typ)
      else text;
    StrResult(val, visible || dflt.Some?)
  }

  function DefaultStr(d: SymDef, env: Env, visible: bool): StrResult {
    var dflt := ActiveDefault(d.defaults, env);
    if dflt.Some? then StrResult(DefaultText(dflt.value.value, env), true) else StrResult("", visible)
  }

  /** Does the user value `text` take effect on a visible int or hex symbol? */
  predicate NumTakesEffect(d: SymDef, env: Env, text: string) {
    && ParseInt(text, TypeToBase(d.typ)).Some?
    && InRange(ParseInt(text, TypeToBase(d.typ)).value, ActiveRange(d.ranges, env), TypeToBase(d.typ), env)
  }

  /** `Symbol.str_value` */
  function StrRule(k: Kconfig, u: User, v: Valuation, s: SymId): StrResult {
    var d := k.Def(s);
    var visible := v.vis(SymItem(s)) != 0;
    var env := EnvOf(k, u, v);
    if IsBoolTristate(d.typ) then StrResult(TriStr(v.tri(s)), TriRule(k, u, v, s).write)
    else if d.typ == Unknown then StrResult(d.name, false)
    else
      var r :=
        if d.typ == Str then
          if visible && u.StrOf(s).Some? then StrResult(u.StrOf(s).value, true)
          else DefaultStr(d, env, visible)
        else if visible && u.StrOf(s).Some? && NumTakesEffect(d, env, u.StrOf(s).value) then
          StrResult(u.StrOf(s).value, true)
        else DefaultNum(d, env, visible);
      StrResult(r.val, r.write && !d.auto)
  }

  function FirstVisible(syms: seq<SymId>, v: Valuation): Option<SymId> {
    if syms == [] then None
    else if v.vis(SymItem(syms[0])) != 0 then Some(syms[0])
    else FirstVisible(syms[1..], v)
  }

  function DefaultSelection(ds: seq<ChoiceDefault>, env: Env, v: Valuation): Option<SymId> {
    if ds == [] then None
    else if Value(ds[0].cond, env) != 0 && v.vis(SymItem(ds[0].sym)) != 0 then Some(ds[0].sym)
    else DefaultSelection(ds[1..], env, v)
  }

  /** `_selection_from_defaults` */
  function SelectionFromDefaults(k: Kconfig, u: User, v: Valuation, c: ChoiceId): Option<SymId> {
    var dflt := DefaultSelection(k.Choice(c).defaults, EnvOf(k, u, v), v);
    if dflt.Some? then dflt else FirstVisible(k.Choice(c).syms, v)
  }

  /** `Choice.selection` */
  function SelRule(k: Kconfig, u: User, v: Valuation, c: ChoiceId): Option<SymId> {
    if ModeRule(k, u, v, c) != 2 then None
    else if u.SelectionOf(c).Some? && v.vis(SymItem(u.SelectionOf(c).value)) != 0 then u.SelectionOf(c)
    else SelectionFromDefaults(k, u, v, c)
  }

  /** `Symbol._assignable` */
  function SymAssignable(k: Kconfig, u: User, v: Valuation, s: SymId): set<Tri> {
    var d := k.Def(s);
    var vis := v.vis(SymItem(s));
    if !IsBoolTristate(d.typ) || vis == 0 then {}
    else
      var env := EnvOf(k, u, v);
      var rev := Value(d.revDep, env);
      if vis == 2 then
        if d.choice.Some? then {2}
        else
          var twoValued := SymType(k, u, v, s) == Bool || Value(d.weakRevDep, env) == 2;
          if rev == 0 then (if twoValued then {0, 2} else {0, 1, 2})
          else if rev == 2 then {2}
          else if twoValued then {2} else {1, 2}
      else if rev == 0 then (if Value(d.weakRevDep, env) != 2 then {0, 1} else {0, 2})
      else if rev == 2 then {2}
      else {1}
  }

  /** `Choice._assignable` */
  function ChoiceAssignable(k: Kconfig, v: Valuation, c: ChoiceId): set<Tri> {
    var vis := v.vis(ChoiceItem(c));
    if vis == 0 then {}
    else if vis == 2 then
      if !k.Choice(c).optional then (if ChoiceType(k, v, c) == Bool then {2} else {1, 2})
      else if ChoiceType(k, v, c) == Bool then {0, 2} else {0, 1, 2}
    else if k.Choice(c).optional then {0, 1} else {1}
  }

  function AssignableRule(k: Kconfig, u: User, v: Valuation, i: Item): set<Tri> {
    match i
    case SymItem(s) => SymAssignable(k, u, v, s)
    case ChoiceItem(c) => ChoiceAssignable(k, v, c)
  }

  // ----- Which configurations and user states can occur -----

  /** `_check_choice_sanity` has nothing to warn about, and finalising has linked choices
      and their symbols and put each choice's mode into its symbols' prompt conditions. */
  ghost predicate ChoicesLinked(k: Kconfig) {
    && (forall c: ChoiceId, s: SymId :: s in k.Choice(c).syms <==> k.Def(s).choice == Some(c))
    && (forall c: ChoiceId, i :: 0 <= i < |k.Choice(c).defaults| ==> k.Choice(c).defaults[i].sym in k.Choice(c).syms)
    && (forall s: SymId, i :: k.Def(s).choice.Some? && 0 <= i < |k.Def(s).prompts|
          ==> GuardedBy(k.Def(s).prompts[i], k.Def(s).choice.value))
  }

  /** A symbol without definitions. Selecting or implying it has no effect, so its reverse
      dependencies are left out. */
  predicate UndefinedIsEmpty(d: SymDef) {
    && d.typ == Unknown && d.prompts == [] && d.defaults == [] && d.ranges == [] && d.choice.None?
    && d.revDep == N && d.weakRevDep == N && d.directDep == N
  }

  ghost predicate WellFormed(k: Kconfig) {
    && ChoicesLinked(k)
    && (forall s: SymId :: !k.Def(s).defined ==> UndefinedIsEmpty(k.Def(s)))
  }

  /** Choices and their symbols are bool or tristate. */
  ghost predicate ChoicesTyped(k: Kconfig) {
    && (forall s: SymId :: k.Def(s).choice.Some? ==> IsBoolTristate(k.Def(s).typ))
    && (forall c: ChoiceId :: k.Choice(c).syms != [] ==> IsBoolTristate(k.Choice(c).typ))
  }

  /** Is `x` well-formed for the type of the symbol? (`Symbol.set_value`) */
  predicate ValidFor(t: Type, x: UserValue) {
    match x
    case UserTri(v) => t == Tristate || (t == Bool && v != 1)
    case UserStr(text) =>
      || t == Str
      || (t == Int && ParseInt(text, 10).Some?)
      || (t == Hex && ParseInt(text, 16).Some? && ParseInt(text, 16).value >= 0)
  }

  predicate ValidMode(t: Type, m: Tri) {
    t == Tristate || (t == Bool && m != 1)
  }

  /** Holds of every user state that `set_value` and `unset_value` can produce. */
  ghost predicate UserOk(k: Kconfig, u: User) {
    && (forall s :: s in u.value ==> ValidFor(k.Def(s).typ, u.value[s]))
    && (forall c :: c in u.mode ==> ValidMode(k.Choice(c).typ, u.mode[c]))
    && (forall c :: c in u.selection ==> u.selection[c] in k.Choice(c).syms)
  }
}
