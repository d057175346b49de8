/**
 Working with a configuration: reading values through the caches, writing a .config from
 them, and loading one into a configuration that is in use.
 */
module Session {
  import opened Expressions
  import opened Config
  import opened Evaluation
  import opened Caching
  import opened Forcing
  import opened Engine
  import opened ConfigText
  import opened Assignments
  import opened ConfigFile
  import opened RoundTrip
  import opened SavedConfig
  import opened Layout
  import Frame
  import Meaning

  /** The values that plain recursion gives, without any cache. */
  ghost function Values(kc: Kconf): Valuation
    requires kc.Valid()
    reads kc
  {
    Evaluate(kc.k, kc.user, kc.rank)
  }

  // ----- Reading -----

  /** A cached read is what plain recursion gives, whatever was set, unset and read before. */
  method ReadString(kc: Kconf, s: SymId) returns (text: string, write: bool)
    requires kc.Valid()
    modifies kc`cache
    ensures kc.Valid() && text == Values(kc).str(s)
    ensures kc.k.Def(s).typ != Unknown ==> write == StrRule(kc.k, kc.user, Values(kc), s).write
  {
    text := kc.StrValue(s);
    write := kc.cache.Write(s);
    CacheIsCoherent(kc.k, kc.user, kc.rank, kc.cache);
  }

  method ReadTristate(kc: Kconf, s: SymId) returns (value: Tri)
    requires kc.Valid()
    modifies kc`cache
    ensures kc.Valid() && value == Values(kc).tri(s)
  {
    value := kc.TriValue(s);
    CacheIsCoherent(kc.k, kc.user, kc.rank, kc.cache);
  }

  method ReadVisibility(kc: Kconf, i: Item) returns (value: Tri)
    requires kc.Valid()
    modifies kc`cache
    ensures kc.Valid() && value == Values(kc).vis(i)
  {
    value := kc.Visibility(i);
    CacheIsCoherent(kc.k, kc.user, kc.rank, kc.cache);
  }

  method ReadSelection(kc: Kconf, x: ChoiceId) returns (selected: Option<SymId>)
    requires kc.Valid()
    modifies kc`cache
    ensures kc.Valid() && selected == Values(kc).sel(x)
  {
    selected := kc.Selection(x);
    CacheIsCoherent(kc.k, kc.user, kc.rank, kc.cache);
  }

  method ReadAssignable(kc: Kconf, i: Item) returns (values: set<Tri>)
    requires kc.Valid()
    modifies kc`cache
    ensures kc.Valid() && values == AssignableRule(kc.k, kc.user, Values(kc), i)
  {
    values := kc.Assignable(i);
    CacheIsCoherent(kc.k, kc.user, kc.rank, kc.cache);
  }

  // ----- Setting -----

  /** Setting a symbol of a choice to y and reading it back. It is y, and the other symbols are n, if it is
      then visible with its choice in y mode; and it is if it was so before. */
  method PickSymbol(kc: Kconf, s: SymId, x: ChoiceId) returns (value: Tri)
    requires kc.Valid() && ChoicesTyped(kc.k) && kc.k.Def(s).choice == Some(x)
    modifies kc
    ensures kc.Valid() && value == Values(kc).tri(s)
    ensures (Values(kc).vis(SymItem(s)) != 0 && EnvOf(kc.k, kc.user, Values(kc)).mode(x) == 2)
            || old(Values(kc).vis(SymItem(s)) != 0 && EnvOf(kc.k, kc.user, Values(kc)).mode(x) == 2) ==>
              && value == 2 && Values(kc).sel(x) == Some(s)
              && forall t | t in kc.k.Choice(x).syms && t != s :: Values(kc).tri(t) == 0
  {
    hide WellFormed, Acyclic, CacheOk, UserOk, Evaluate, EnvOf, ChoicesTyped, SetSym;
    ghost var u, v := kc.user, Values(kc);
    Frame.MembersAreTyped(kc.k, s);
    Frame.SetMember(kc.k, u, s, x, 2);
    EvaluateSolves(kc.k, u, kc.rank);
    SameUser(kc.k, u, kc.wasSet, s);
    var ok := kc.SetSymValue(s, UserTri(2));
    EvaluateSolves(kc.k, kc.user, kc.rank);
    value := ReadTristate(kc, s);
    if v.vis(SymItem(s)) != 0 && EnvOf(kc.k, u, v).mode(x) == 2 {
      Frame.PickingGives(kc.k, kc.rank, u, v, s, x, Values(kc));
    }
    if Values(kc).vis(SymItem(s)) != 0 && EnvOf(kc.k, kc.user, Values(kc)).mode(x) == 2 {
      Meaning.UserSelectionIsY(kc.k, kc.user, Values(kc), x, s);
    }
  }

  lemma SameUser(k: Kconfig, u: User, wasSet: set<Item>, s: SymId)
    ensures SetSym(k, State(u, wasSet), s, UserTri(2)).user == SetSym(k, State(u, {}), s, UserTri(2)).user
  {
  }

  // ----- Writing -----

  /** The nodes' symbols, each at its first visit only. */
  function FirstVisits(order: seq<SymId>): seq<SymId> {
    if order == [] then []
    else
      var s, before := order[|order| - 1], order[..|order| - 1];
      FirstVisits(before) + if s in before then [] else [s]
  }

  lemma {:induction false} EveryoneIsVisited(order: seq<SymId>, s: SymId)
    ensures s in FirstVisits(order) <==> s in order
  {
    if order != [] {
      var last, before := order[|order| - 1], order[..|order| - 1];
      EveryoneIsVisited(before, s);
      assert order == before + [last];
    }
  }

  ghost function VisitParts(order: seq<SymId>): seq<seq<SymId>> {
    seq(|order|, i requires 0 <= i < |order| => if order[i] in order[..i] then [] else [order[i]])
  }

  /** Every symbol is visited where it comes first. */
  lemma {:induction false} VisitsInOrder(order: seq<SymId>)
    ensures InOrder(VisitParts(order), FirstVisits(order))
  {
    hide InOrder;
    if order == [] {
      NoParts<SymId>();
    } else {
      var n := |order| - 1;
      VisitsInOrder(order[..n]);
      var part := if order[n] in order[..n] then [] else [order[n]];
      OneMorePart(VisitParts(order[..n]), FirstVisits(order[..n]), part);
      assert forall i :: 0 <= i < n ==> order[..n][..i] == order[..i];
      assert VisitParts(order) == VisitParts(order[..n]) + [part];
    }
  }

  /** config_string */
  method ConfigString(kc: Kconf, s: SymId) returns (line: Option<Line>)
    requires kc.Valid()
    modifies kc`cache
    ensures kc.Valid() && line == ConfigLine(kc.k, kc.user, Values(kc), s)
  {
    var text, write := ReadString(kc, s);
    var t := kc.k.Def(s).typ;
    if t == Unknown || !write {
      line := None;
    } else if IsBoolTristate(t) {
      line := Some(if text != "n" then SetLine(s, text) else UnsetLine(s));
    } else if t == Str {
      line := Some(SetLine(s, Quote(text)));
    } else {
      line := Some(SetLine(s, text));
    }
  }

  /** The symbol lines of a .config; `order` is the symbols of the menu nodes in walking order. */
  method WriteConfig(kc: Kconf, order: seq<SymId>) returns (lines: seq<Line>)
    requires kc.Valid()
    modifies kc`cache
    ensures kc.Valid()
    ensures lines == WrittenLines(kc.k, kc.user, Values(kc), Everything(), FirstVisits(order))
  {
    hide ConfigLine, Evaluate, WrittenLines, FirstVisits, WellFormed, Acyclic, UserOk, CacheOk;
    lines := [];
    var visited: set<SymId> := {};
    ghost var v := Values(kc);
    NothingWritten(kc.k, kc.user, v, order);
    for i := 0 to |order|
      invariant kc.Valid() && Values(kc) == v && forall s :: s in visited <==> s in order[..i]
      invariant lines == WrittenLines(kc.k, kc.user, v, Everything(), FirstVisits(order[..i]))
    {
      var s := order[i];
      VisitStep(kc.k, kc.user, v, order, i);
      assert order[..i + 1] == order[..i] + [s];
      if s !in visited {
        visited := visited + {s};
        var line := ConfigString(kc, s);
        if line.Some? {
          lines := lines + [line.value];
        }
      }
    }
    assert order[..|order|] == order;
  }

  lemma NothingWritten(k: Kconfig, u: User, v: Valuation, order: seq<SymId>)
    ensures WrittenLines(k, u, v, Everything(), FirstVisits(order[..0])) == []
  {
  }

  lemma VisitStep(k: Kconfig, u: User, v: Valuation, order: seq<SymId>, i: nat)
    requires i < |order|
    ensures var line := ConfigLine(k, u, v, order[i]);
            WrittenLines(k, u, v, Everything(), FirstVisits(order[..i + 1]))
            == WrittenLines(k, u, v, Everything(), FirstVisits(order[..i]))
               + if order[i] in order[..i] || line.None? then [] else [line.value]
  {
    hide ConfigLine;
    var s, firsts := order[i], FirstVisits(order[..i]);
    assert order[..i + 1][..i] == order[..i] && order[..i + 1][i] == s;
    assert FirstVisits(order[..i + 1]) == firsts + if s in order[..i] then [] else [s];
    if s !in order[..i] {
      assert (firsts + [s])[..|firsts|] == firsts && (firsts + [s])[|firsts|] == s && Everything()(s);
    } else {
      assert firsts + [] == firsts;
    }
  }

  // ----- Writing a minimal configuration -----

  lemma ValuesAgree(k: Kconfig, u: User, rank: Rank, c: Cache, near: set<Item>)
    requires WellFormed(k) && UserOk(k, u) && Acyclic(k, rank) && CacheOk(k, u, c)
    ensures Agrees(Evaluate(k, u, rank), c, near)
  {
    EvaluateSolves(k, u, rank);
    CachedValuesAgree(k, u, rank, c, Evaluate(k, u, rank));
  }

  /** The environment in which expressions are evaluated. */
  ghost function Now(kc: Kconf): Env
    requires kc.Valid()
    reads kc
  {
    EnvOf(kc.k, kc.user, Values(kc))
  }

  method ReadExpr(kc: Kconf, e: Expr, ghost bound: nat) returns (value: Tri)
    requires kc.Valid() && ExprBelow(kc.k, kc.rank, bound, e)
    modifies kc`cache
    ensures kc.Valid() && value == Value(e, Now(kc))
  {
    hide WellFormed, Acyclic, CacheOk, UserOk, ExprBelow, Agrees, ItemsIn, Evaluate, EnvOf;
    ghost var near := ItemsIn(e) + {SymItem(kc.k.modules)};
    value := kc.ExprValue(e, bound, near);
    ValuesAgree(kc.k, kc.user, kc.rank, kc.cache, near);
  }

  method ReadAtom(kc: Kconf, a: Atom, ghost bound: nat) returns (text: string)
    requires kc.Valid() && AtomBelow(kc.rank, bound, a)
    modifies kc`cache
    ensures kc.Valid() && text == AtomStr(a, Now(kc))
  {
    hide WellFormed, Acyclic, CacheOk, UserOk, Agrees, Evaluate, EnvOf;
    ghost var near := if a.Sym? then {SymItem(a.id)} else {};
    text := kc.AtomText(a, bound, near);
    ValuesAgree(kc.k, kc.user, kc.rank, kc.cache, near);
  }

  method ReadType(kc: Kconf, s: SymId) returns (t: Type)
    requires kc.Valid()
    modifies kc`cache
    ensures kc.Valid() && t == SymType(kc.k, kc.user, Values(kc), s)
  {
    ghost var bound := kc.rank(TriOf(s));
    assert SymValueBelow(kc.k, kc.rank, bound, s);
    hide WellFormed, Acyclic, CacheOk, UserOk, Agrees, Evaluate, SymType;
    ghost var near := {SymItem(kc.k.modules)} + if kc.k.Def(s).choice.Some?
      then {ChoiceItem(kc.k.Def(s).choice.value)} else {};
    t := kc.CurrentType(s, bound, near);
    ValuesAgree(kc.k, kc.user, kc.rank, kc.cache, near);
  }

  /** The first default whose condition holds, and the value of the condition. */
  method ReadDefault(kc: Kconf, ds: seq<Default>, ghost bound: nat) returns (dflt: Option<Default>, cond: Tri)
    requires kc.Valid() && DefaultsBelow(kc.k, kc.rank, bound, ds)
    modifies kc`cache
    ensures kc.Valid() && dflt == ActiveDefault(ds, Now(kc))
    ensures dflt.Some? ==> dflt.value in ds && cond == Value(dflt.value.cond, Now(kc))
  {
    hide WellFormed, Acyclic, CacheOk, UserOk, ExprBelow, Evaluate, EnvOf, Value;
    dflt, cond := None, 0;
    assert ds[0..] == ds;
    for i := 0 to |ds|
      invariant kc.Valid() && ActiveDefault(ds, Now(kc)) == ActiveDefault(ds[i..], Now(kc))
    {
      cond := ReadExpr(kc, ds[i].cond, bound);
      assert ds[i..][1..] == ds[i + 1..];
      if cond != 0 {
        return Some(ds[i]), cond;
      }
    }
  }

  /** The value of that default, limited by its condition. */
  method ReadDefaultTri(kc: Kconf, ds: seq<Default>, ghost bound: nat) returns (value: Tri)
    requires kc.Valid() && DefaultsBelow(kc.k, kc.rank, bound, ds)
    modifies kc`cache
    ensures kc.Valid()
    ensures var dflt := ActiveDefault(ds, Now(kc));
            value == if dflt.Some? then Min(Value(dflt.value.value, Now(kc)), Value(dflt.value.cond, Now(kc))) else 0
  {
    hide WellFormed, Acyclic, CacheOk, UserOk, ExprBelow, Evaluate, EnvOf, Value, ActiveDefault;
    value := 0;
    var dflt, cond := ReadDefault(kc, ds, bound);
    if dflt.Some? {
      var x := ReadExpr(kc, dflt.value.value, bound);
      value := Min(x, cond);
    }
  }

  lemma BelowParts(k: Kconfig, rank: Rank, s: SymId)
    requires Acyclic(k, rank)
    ensures DefaultsBelow(k, rank, rank(TriOf(s)), k.Def(s).defaults)
    ensures ExprBelow(k, rank, rank(TriOf(s)), k.Def(s).revDep)
    ensures ExprBelow(k, rank, rank(TriOf(s)), k.Def(s).weakRevDep)
  {
    assert SymValueBelow(k, rank, rank(TriOf(s)), s);
  }

  /** _str_default for bool and tristate symbols. */
  method ReadTriDefault(kc: Kconf, s: SymId) returns (value: Tri)
    requires kc.Valid()
    modifies kc`cache
    ensures kc.Valid() && value == TriDefault(kc.k, kc.user, Values(kc), s)
  {
    hide WellFormed, Acyclic, CacheOk, UserOk, ExprBelow, DefaultsBelow, Evaluate, EnvOf, Value, ActiveDefault, SymType;
    var d := kc.k.Def(s);
    ghost var bound := kc.rank(TriOf(s));
    BelowParts(kc.k, kc.rank, s);
    value := 0;
    if d.choice.None? {
      value := ReadDefaultTri(kc, d.defaults, bound);
      var rev := ReadExpr(kc, d.revDep, bound);
      var weak := ReadExpr(kc, d.weakRevDep, bound);
      value := Max(Max(rev, weak), value);
      if value == 1 {
        var t := ReadType(kc, s);
        if t == Bool {
          value := 2;
        }
      }
    }
  }

  /** _str_default */
  method ReadStrDefault(kc: Kconf, s: SymId) returns (text: string)
    requires kc.Valid()
    modifies kc`cache
    ensures kc.Valid() && text == StrDefault(kc.k, kc.user, Values(kc), s)
  {
    var d := kc.k.Def(s);
    ghost var bound := kc.rank(TriOf(s));
    assert SymValueBelow(kc.k, kc.rank, bound, s);
    hide WellFormed, Acyclic, CacheOk, UserOk, ExprBelow, AtomBelow, Evaluate, EnvOf, Value, ActiveDefault, TriDefault;
    text := "";
    if IsBoolTristate(d.typ) {
      var value := ReadTriDefault(kc, s);
      text := TriStr(value);
    } else if d.typ != Unknown {
      var dflt, cond := ReadDefault(kc, d.defaults, bound);
      if dflt.Some? && dflt.value.value.Leaf? {
        text := ReadAtom(kc, dflt.value.value.atom, bound);
      }
    }
  }

  method ReadSelectionFromDefaults(kc: Kconf, x: ChoiceId) returns (selected: Option<SymId>)
    requires kc.Valid()
    modifies kc`cache
    ensures kc.Valid() && selected == SelectionFromDefaults(kc.k, kc.user, Values(kc), x)
  {
    hide WellFormed, Acyclic, CacheOk, UserOk, Agrees, Near, Evaluate, SelectionFromDefaults;
    selected := kc.SelectionDefault(x);
    ValuesAgree(kc.k, kc.user, kc.rank, kc.cache, Near(kc.k, ChoiceItem(x)));
  }

  /** The three tests of _min_config_contents. */
  method IsInMinConfig(kc: Kconf, s: SymId) returns (keep: bool)
    requires kc.Valid()
    modifies kc`cache
    ensures kc.Valid() && keep == InMinConfig(kc.k, kc.user, Values(kc), s)
  {
    hide WellFormed, Acyclic, CacheOk, UserOk, ExprBelow, Evaluate, EnvOf, Value, StrDefault, SelectionFromDefaults;
    var d := kc.k.Def(s);
    ghost var bound := kc.rank(TriOf(s));
    BelowParts(kc.k, kc.rank, s);
    if d.choice.None? {
      var vis := ReadVisibility(kc, SymItem(s));
      var rev := ReadExpr(kc, d.revDep, bound);
      if vis <= rev {
        return false;
      }
    }
    var text, write := ReadString(kc, s);
    var byDefault := ReadStrDefault(kc, s);
    if text == byDefault {
      return false;
    }
    if d.choice.Some? && !kc.k.Choice(d.choice.value).optional {
      var selected := ReadSelectionFromDefaults(kc, d.choice.value);
      var value := ReadTristate(kc, s);
      if selected == Some(s) && d.typ == Bool && value == 2 {
        return false;
      }
    }
    return true;
  }

  /** _min_config_contents; `order` is the defined symbols. */
  method WriteMinConfig(kc: Kconf, order: seq<SymId>) returns (lines: seq<Line>)
    requires kc.Valid()
    modifies kc`cache
    ensures kc.Valid()
    ensures lines == WrittenLines(kc.k, kc.user, Values(kc), MinConfig(kc.k, kc.user, Values(kc)), order)
  {
    hide ConfigLine, Evaluate, InMinConfig, WellFormed, Acyclic, UserOk, CacheOk;
    lines := [];
    ghost var v := Values(kc);
    for i := 0 to |order|
      invariant kc.Valid() && Values(kc) == v
      invariant lines == WrittenLines(kc.k, kc.user, v, MinConfig(kc.k, kc.user, v), order[..i])
    {
      assert order[..i + 1][..i] == order[..i];
      var keep := IsInMinConfig(kc, order[i]);
      if keep {
        var line := ConfigString(kc, order[i]);
        if line.Some? {
          lines := lines + [line.value];
        }
      }
    }
    assert order[..|order|] == order;
  }

  // ----- Loading -----

  /** One line of a .config. */
  method LoadLine(kc: Kconf, line: Line)
    requires kc.Valid()
    modifies kc
    ensures kc.Valid()
    ensures State(kc.user, kc.wasSet) == ApplyLine(kc.k, State(old(kc.user), old(kc.wasSet)), line)
  {
    var assignment := LineValue(kc.k, line);
    if assignment.Some? {
      var (s, x) := assignment.value;
      if SetsMode(kc.k, s, x) {
        var ok := kc.SetChoiceMode(kc.k.Def(s).choice.value, x.tri);
      }
      var ok := kc.SetSymValue(s, x);
    }
  }

  /** _load_config with replace: set what the file sets, then unset the rest, one at a time. */
  method LoadConfig(kc: Kconf, lines: seq<Line>)
    requires kc.Valid()
    modifies kc
    ensures kc.Valid() && kc.user == LoadReplacing(kc.k, old(kc.user), lines)
  {
    ghost var u := kc.user;
    kc.wasSet := {};
    for i := 0 to |lines|
      invariant kc.Valid() && State(kc.user, kc.wasSet) == ApplyLines(kc.k, State(u, {}), lines[..i])
    {
      LoadLine(kc, lines[i]);
      assert lines[..i + 1][..i] == lines[..i];
    }
    assert lines[..|lines|] == lines;
    UnsetOthers(kc);
  }

  method UnsetOthers(kc: Kconf)
    requires kc.Valid()
    modifies kc`user, kc`cache
    ensures kc.Valid() && kc.user == UnsetRest(State(old(kc.user), kc.wasSet))
  {
    ghost var u := kc.user;
    KeysInTables(kc.k, u);
    hide WellFormed, Acyclic, CacheOk, UserOk;
    UnsetSyms(kc);
    UnsetChoices(kc);
    RestIsUnset(kc.k, u, kc.wasSet, kc.user);
  }

  lemma RestIsUnset(k: Kconfig, u: User, wasSet: set<Item>, u': User)
    requires forall s <- u.value :: s < |k.syms|
    requires forall c <- u.mode :: c < |k.choices|
    requires forall c <- u.selection :: c < |k.choices|
    requires u'.value == map s | s in u.value && (s >= |k.syms| || SymItem(s) in wasSet) :: u.value[s]
    requires u'.mode == map c | c in u.mode && (c >= |k.choices| || ChoiceItem(c) in wasSet) :: u.mode[c]
    requires u'.selection
          == map c | c in u.selection && (c >= |k.choices| || ChoiceItem(c) in wasSet) :: u.selection[c]
    ensures u' == UnsetRest(State(u, wasSet))
  {
    var r := UnsetRest(State(u, wasSet));
    assert u'.value == r.value && u'.mode == r.mode && u'.selection == r.selection;
  }

  lemma KeysInTables(k: Kconfig, u: User)
    requires UserOk(k, u)
    ensures forall s <- u.value :: s < |k.syms|
    ensures forall c <- u.mode :: c < |k.choices|
    ensures forall c <- u.selection :: c < |k.choices|
  {
  }

  method UnsetSyms(kc: Kconf)
    requires kc.Valid()
    modifies kc`user, kc`cache
    ensures kc.Valid() && kc.user.mode == old(kc.user.mode) && kc.user.selection == old(kc.user.selection)
    ensures kc.user.value
         == map t | t in old(kc.user.value) && (t >= |kc.k.syms| || SymItem(t) in kc.wasSet) :: old(kc.user.value)[t]
  {
    hide WellFormed, Acyclic, CacheOk, UserOk;
    ghost var u := kc.user;
    for s := 0 to |kc.k.syms|
      invariant kc.Valid() && kc.user.mode == u.mode && kc.user.selection == u.selection
      invariant kc.user.value == map t | t in u.value && (t >= s || SymItem(t) in kc.wasSet) :: u.value[t]
    {
      if !kc.k.Def(s).defined {
        UndefinedHasNoValue(kc.k, kc.user, s);
      }
      if kc.k.syms[s].defined && SymItem(s) !in kc.wasSet {
        kc.UnsetSymValue(s);
      }
    }
  }

  lemma UndefinedHasNoValue(k: Kconfig, u: User, s: SymId)
    requires WellFormed(k) && UserOk(k, u) && !k.Def(s).defined
    ensures s !in u.value
  {
  }

  method UnsetChoices(kc: Kconf)
    requires kc.Valid()
    modifies kc`user, kc`cache
    ensures kc.Valid() && kc.user.value == old(kc.user.value)
    ensures kc.user.mode
         == map c | c in old(kc.user.mode) && (c >= |kc.k.choices| || ChoiceItem(c) in kc.wasSet) ::
             old(kc.user.mode)[c]
    ensures kc.user.selection
         == map c | c in old(kc.user.selection) && (c >= |kc.k.choices| || ChoiceItem(c) in kc.wasSet) ::
              old(kc.user.selection)[c]
  {
    hide WellFormed, Acyclic, CacheOk, UserOk;
    ghost var u := kc.user;
    for x := 0 to |kc.k.choices|
      invariant kc.Valid() && kc.user.value == u.value
      invariant kc.user.mode == map c | c in u.mode && (c >= x || ChoiceItem(c) in kc.wasSet) :: u.mode[c]
      invariant kc.user.selection
             == map c | c in u.selection && (c >= x || ChoiceItem(c) in kc.wasSet) :: u.selection[c]
    {
      if ChoiceItem(x) !in kc.wasSet {
        kc.UnsetChoiceValue(x);
      }
    }
  }

  /** Saving and reloading, into any state that the caches are in by then. */
  method SaveAndLoad(kc: Kconf, other: Kconf, order: seq<SymId>)
    requires kc != other && kc.Valid() && other.Valid() && other.k == kc.k
    requires ChoicesTyped(kc.k) && SymsSane(kc.k) && forall s: SymId | kc.k.Def(s).defined :: s in order
    modifies kc`cache, other
    ensures kc.Valid() && other.Valid()
    ensures SameConfiguration(kc.k, kc.user, Values(kc), other.user, Values(other)) <==>
              && ModesAreShown(kc.k, kc.user, Values(kc))
              && forall s: SymId | IsBoolTristate(kc.k.Def(s).typ) && kc.k.Def(s).choice.None? ::
                   !ExceedsVisibility(kc.k, kc.user, Values(kc), s)
  {
    hide Evaluate, SameConfiguration, ModesAreShown, ExceedsVisibility, LoadReplacing, WrittenLines, SymsSane;
    ghost var w := other.user;
    var lines := WriteConfig(kc, order);
    LoadConfig(other, lines);
    EvaluateSolves(kc.k, kc.user, kc.rank);
    EvaluateSolves(other.k, other.user, other.rank);
    forall s: SymId | kc.k.Def(s).defined ensures s in FirstVisits(order) { EveryoneIsVisited(order, s); }
    FullConfigRoundTrip(kc.k, kc.rank, kc.user, Values(kc), FirstVisits(order), w, other.user, Values(other));
  }

  /** The same with a minimal configuration, tristates included: it brings everything back exactly if
      what was left out can be told from the rest. */
  method SaveMinAndLoad(kc: Kconf, other: Kconf, order: seq<SymId>)
    requires kc != other && kc.Valid() && other.Valid() && other.k == kc.k
    requires ChoicesTyped(kc.k) && forall s: SymId | kc.k.Def(s).defined :: s in order
    modifies kc`cache, other
    ensures kc.Valid() && other.Valid()
    ensures SameConfiguration(kc.k, kc.user, Values(kc), other.user, Values(other)) <==>
              Reproducible(kc.k, kc.user, Values(kc), MinConfig(kc.k, kc.user, Values(kc)))
    ensures SymsSane(kc.k) && NoTristates(kc.k) && PromptsRespectDeps(kc.k) ==>
              (SameConfiguration(kc.k, kc.user, Values(kc), other.user, Values(other)) <==>
                 OptionalChoicesSelect(kc.k, kc.user, Values(kc)))
  {
    hide Evaluate, SameConfiguration, Reproducible, OptionalChoicesSelect, LoadReplacing, WrittenLines;
    hide SymsSane, NoTristates, PromptsRespectDeps, MinConfig;
    ghost var w := other.user;
    var lines := WriteMinConfig(kc, order);
    LoadConfig(other, lines);
    EvaluateSolves(kc.k, kc.user, kc.rank);
    EvaluateSolves(other.k, other.user, other.rank);
    ghost var v := Values(kc);
    LoadingReproduces(kc.k, kc.rank, kc.user, v, MinConfig(kc.k, kc.user, v), order, w, other.user, Values(other));
    if SymsSane(kc.k) && NoTristates(kc.k) && PromptsRespectDeps(kc.k) {
      MinIsReproducible(kc.k, kc.user, v);
    }
  }
}
