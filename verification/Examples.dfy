/**
 Small configurations that meet all the assumptions made elsewhere, and in which the
 promises that hold only under a condition are broken.
 */
module Examples {
  import opened Expressions
  import opened Config
  import opened Evaluation
  import opened Assignments
  import opened ConfigFile
  import opened RoundTrip
  import opened SavedConfig
  import opened Frame
  import opened Caching
  import opened DepLoop
  import LoopSearch

  /** Configurations that are loaded without warnings and can be evaluated. */
  ghost predicate Fine(k: Kconfig, rank: Rank) {
    WellFormed(k) && ChoicesTyped(k) && SymsSane(k) && PromptsRespectDeps(k) && Acyclic(k, rank)
  }

  /** Symbols in the order of their ids; the only choice belongs to symbol 1. */
  function ById(): Rank {
    (q: Quantity) =>
      match q
      case VisOf(SymItem(s)) => 10 * s + 1
      case TriOf(s) => 10 * s + 3
      case StrOf(s) => 10 * s + 4
      case VisOf(ChoiceItem(_)) => 0
      case SelOf(_) => 12
  }

  // ----- Tristates -----

  /** A is m; B is visible as m, selected by A, implied by `weak`, and y by default. */
  function Tristates(weak: Expr): Kconfig {
    Kconfig([SymDef(true, "MODULES", Bool, [], [Default(Y, Y)], [], N, N, Y, None, false),
             SymDef(true, "A", Tristate, [], [Default(M, Y)], [], N, N, Y, None, false),
             SymDef(true, "B", Tristate, [M], [Default(Y, Y)], [], Leaf(Sym(1)), weak, Y, None, false)], [], 0)
  }

  lemma TristatesAreFine(weak: Expr)
    requires weak == N || weak == Leaf(Sym(0))
    ensures Fine(Tristates(weak), ById())
  {
    hide Acyclic;
    TristatesAreAcyclic(weak);
  }

  lemma TristatesAreAcyclic(weak: Expr)
    requires weak == N || weak == Leaf(Sym(0))
    ensures Acyclic(Tristates(weak), ById())
  {
    hide SymVisBelow, SymValueBelow, ChoiceVisBelow, SelectionBelow;
    var k := Tristates(weak);
    forall s: SymId
      ensures SymVisBelow(k, ById(), ById()(VisOf(SymItem(s))), s)
      ensures SymValueBelow(k, ById(), ById()(TriOf(s)), s) && SymValueBelow(k, ById(), ById()(StrOf(s)), s)
    {
      TristateBelow(weak, s, ById()(TriOf(s)));
      TristateBelow(weak, s, ById()(StrOf(s)));
    }
    forall x: ChoiceId
      ensures ChoiceVisBelow(k, ById(), ById()(VisOf(ChoiceItem(x))), x)
              && SelectionBelow(k, ById(), ById()(SelOf(x)), x)
    {
      NoChoiceBelow(k, x);
    }
  }

  lemma TristateBelow(weak: Expr, s: SymId, bound: nat)
    requires weak == N || weak == Leaf(Sym(0))
    requires bound > ById()(VisOf(SymItem(s)))
    ensures SymVisBelow(Tristates(weak), ById(), ById()(VisOf(SymItem(s))), s)
    ensures SymValueBelow(Tristates(weak), ById(), bound, s)
  {
    var k := Tristates(weak);
    assert s >= 3 ==> k.Def(s) == UndefinedSym;
    var low := ById()(VisOf(SymItem(s)));
    ConstantsBelow(k, low);
    ConstantsBelow(k, bound);
    if s == 2 {
      LeafBelow(k, bound, 0);
      LeafBelow(k, bound, 1);
    }
    hide ExprBelow;
  }

  lemma ConstantsBelow(k: Kconfig, bound: nat)
    ensures ExprBelow(k, ById(), bound, N) && ExprBelow(k, ById(), bound, M) && ExprBelow(k, ById(), bound, Y)
  {
  }

  lemma LeafBelow(k: Kconfig, bound: nat, s: SymId)
    requires ById()(TriOf(s)) < bound
    ensures ExprBelow(k, ById(), bound, Leaf(Sym(s)))
  {
  }

  lemma NoChoiceBelow(k: Kconfig, x: ChoiceId)
    requires k.Choice(x) == EmptyChoice
    ensures ChoiceVisBelow(k, ById(), ById()(VisOf(ChoiceItem(x))), x) && SelectionBelow(k, ById(), ById()(SelOf(x)), x)
  {
  }

  lemma TristateValues(weak: Expr, u: User, v: Valuation)
    requires (weak == N || weak == Leaf(Sym(0))) && Solves(Tristates(weak), u, v) && 0 !in u.value && 1 !in u.value
    ensures v.tri(0) == 2 && v.tri(1) == 1 && v.vis(SymItem(2)) == 1
    ensures v.str(0) == "y" && v.str(1) == "m"
    ensures weak == N ==>
              v.tri(2) == if u.TriOf(2).None? then 2 else Max(1, Min(u.TriOf(2).value, 1))
  {
    var k := Tristates(weak);
    assert v.vis(SymItem(0)) == VisRule(k, u, v, SymItem(0)) && v.vis(SymItem(1)) == VisRule(k, u, v, SymItem(1));
    assert v.tri(0) == TriRule(k, u, v, 0).val && v.tri(1) == TriRule(k, u, v, 1).val;
    assert v.vis(SymItem(2)) == VisRule(k, u, v, SymItem(2));
    assert v.tri(2) == TriRule(k, u, v, 2).val;
    assert v.str(0) == StrRule(k, u, v, 0).val && v.str(1) == StrRule(k, u, v, 1).val;
  }

  const B_IS_M := User(map[2 := UserTri(1)], map[], map[])

  /** B, being m-selected and visible as m, is taken for unchangeable and left out of a minimal
      configuration, but its default is y. */
  lemma MinConfigLosesTristate() returns (v: Valuation, u': User, v': Valuation)
    ensures var k := Tristates(N);
            && Fine(k, ById()) && UserOk(k, B_IS_M) && Solves(k, B_IS_M, v)
            && u' == LoadFresh(k, WrittenLines(k, B_IS_M, v, MinConfig(k, B_IS_M, v), [0, 1, 2])) && Solves(k, u', v')
    ensures v.tri(2) == 1 && v'.tri(2) == 2
  {
    hide Fine, Solves, Evaluate, UserOk, InMinConfig;
    v := SolveTristates(N, B_IS_M);
    v' := SolveTristates(N, NoUser);
    u' := NoUser;
    TristateValues(N, B_IS_M, v);
    TristateValues(N, NoUser, v');
    LeftOut(v);
    NothingKept(Tristates(N), B_IS_M, v, MinConfig(Tristates(N), B_IS_M, v), [0, 1, 2]);
  }

  lemma SolveTristates(weak: Expr, u: User) returns (v: Valuation)
    requires weak == N || weak == Leaf(Sym(0))
    requires u == NoUser || u == B_IS_M
    ensures Fine(Tristates(weak), ById()) && UserOk(Tristates(weak), u) && Solves(Tristates(weak), u, v)
  {
    TristatesAreFine(weak);
    v := Evaluate(Tristates(weak), u, ById());
    EvaluateSolves(Tristates(weak), u, ById());
  }

  lemma LeftOut(v: Valuation)
    requires Solves(Tristates(N), B_IS_M, v)
    ensures forall s | 0 <= s < 3 :: !InMinConfig(Tristates(N), B_IS_M, v, s)
  {
    var k := Tristates(N);
    TristateValues(N, B_IS_M, v);
    assert InMinConfig(k, B_IS_M, v, 0) == false;
    assert InMinConfig(k, B_IS_M, v, 1) == false;
    assert InMinConfig(k, B_IS_M, v, 2) == false;
  }

  lemma {:induction false} NothingKept(k: Kconfig, u: User, v: Valuation, keep: SymId -> bool, order: seq<SymId>)
    requires forall i | 0 <= i < |order| :: !keep(order[i])
    ensures WrittenLines(k, u, v, keep, order) == []
  {
    if order != [] { NothingKept(k, u, v, keep, order[..|order| - 1]); }
  }

  /** A valuation for whatever a loaded file assigns. */
  lemma SolveLoaded(k: Kconfig, u: User, lines: seq<Line>) returns (v: Valuation)
    requires Fine(k, ById()) && UserOk(k, u)
    ensures UserOk(k, LoadReplacing(k, u, lines)) && Solves(k, LoadReplacing(k, u, lines), v)
  {
    hide Solves, Acyclic, SymsSane, PromptsRespectDeps;
    StepLines(k, u, lines);
    v := Evaluate(k, LoadReplacing(k, u, lines), ById());
    EvaluateSolves(k, LoadReplacing(k, u, lines), ById());
  }

  /** Without user values B is y by default; written to a full .config and loaded, it is set to y,
      and that is limited to m. */
  lemma FullConfigLosesTristate() returns (v: Valuation, u': User, v': Valuation)
    ensures var k := Tristates(N);
            && Fine(k, ById()) && Solves(k, NoUser, v) && Solves(k, u', v')
            && u' == LoadReplacing(k, NoUser, WrittenLines(k, NoUser, v, Everything(), [0, 1, 2]))
            && !SameConfiguration(k, NoUser, v, u', v')
  {
    hide Fine, Solves, SameConfiguration, LoadReplacing, WrittenLines, UserOk, Configured, ExceedsVisibility;
    hide ModesAreShown;
    var k := Tristates(N);
    v := SolveTristates(N, NoUser);
    var lines := WrittenLines(k, NoUser, v, Everything(), [0, 1, 2]);
    u' := LoadReplacing(k, NoUser, lines);
    v' := SolveLoaded(k, NoUser, lines);
    FineParts(k, NoUser, v);
    BExceeds(v);
    hide Acyclic, SymsSane;
    FullConfigRoundTrip(k, ById(), NoUser, v, [0, 1, 2], NoUser, u', v');
  }

  lemma FineParts(k: Kconfig, u: User, v: Valuation)
    requires Fine(k, ById()) && UserOk(k, u) && Solves(k, u, v)
    ensures Configured(k, u, v) && Acyclic(k, ById()) && SymsSane(k) && PromptsRespectDeps(k)
  {
  }

  lemma BExceeds(v: Valuation)
    requires Solves(Tristates(N), NoUser, v)
    ensures ExceedsVisibility(Tristates(N), NoUser, v, 2)
  {
    TristateValues(N, NoUser, v);
  }

  /** With B implied by MODULES as well, m is offered for it, and setting m gives y. */
  lemma AssignableExample() returns (v: Valuation, v': Valuation)
    ensures var k := Tristates(Leaf(Sym(0)));
            && Fine(k, ById()) && Solves(k, NoUser, v)
              && Solves(k, SetSym(k, State(NoUser, {}), 2, UserTri(1)).user, v')
            && 1 in SymAssignable(k, NoUser, v, 2) && v'.tri(2) == 2
  {
    var weak := Leaf(Sym(0));
    var k := Tristates(weak);
    v := SolveTristates(weak, NoUser);
    v' := SolveTristates(weak, B_IS_M);
    TristateValues(weak, NoUser, v);
    assert SelectedAndImplied(k, NoUser, v, 2);
    assert SetSym(k, State(NoUser, {}), 2, UserTri(1)).user == B_IS_M;
    hide Solves, Acyclic, WellFormed, SymsSane, PromptsRespectDeps, UserOk, SelectedAndImplied, SymAssignable;
    AssignableIsExact(k, ById(), NoUser, v, 2, 1, v');
  }

  // ----- Optional choices -----

  /** An optional choice with one symbol, A, that depends on B, which is n. */
  const OPTIONAL := Kconfig(
    [SymDef(true, "B", Bool, [], [], [], N, N, Y, None, false),
     SymDef(true, "A", Bool, [And(Mode(0), Leaf(Sym(0)))], [], [], N, N, And(Mode(0), Leaf(Sym(0))), Some(0), false)],
    [ChoiceDef(Bool, [Y], [], [1], true)], 2)

  const Y_MODE := User(map[], map[0 := 2], map[])

  lemma OptionalIsFine()
    ensures Fine(OPTIONAL, ById()) && NoTristates(OPTIONAL) && UserOk(OPTIONAL, Y_MODE)
  {
    hide Acyclic;
    OptionalIsAcyclic();
    assert forall s: SymId | s >= 2 :: OPTIONAL.Def(s) == UndefinedSym;
    assert forall x: ChoiceId | x >= 1 :: OPTIONAL.Choice(x) == EmptyChoice;
  }

  lemma OptionalIsAcyclic()
    ensures Acyclic(OPTIONAL, ById())
  {
    hide SymVisBelow, SymValueBelow, ChoiceVisBelow, SelectionBelow;
    var k := OPTIONAL;
    forall s: SymId
      ensures SymVisBelow(k, ById(), ById()(VisOf(SymItem(s))), s)
      ensures SymValueBelow(k, ById(), ById()(TriOf(s)), s) && SymValueBelow(k, ById(), ById()(StrOf(s)), s)
    {
      OptionalBelow(s, ById()(TriOf(s)));
      OptionalBelow(s, ById()(StrOf(s)));
    }
    forall x: ChoiceId
      ensures ChoiceVisBelow(k, ById(), ById()(VisOf(ChoiceItem(x))), x)
              && SelectionBelow(k, ById(), ById()(SelOf(x)), x)
    {
      if x == 0 { OptionalChoiceBelow(); } else { NoChoiceBelow(k, x); }
    }
  }

  lemma OptionalBelow(s: SymId, bound: nat)
    requires bound > ById()(VisOf(SymItem(s))) + 1
    ensures SymVisBelow(OPTIONAL, ById(), ById()(VisOf(SymItem(s))), s)
    ensures SymValueBelow(OPTIONAL, ById(), bound, s)
  {
    var k := OPTIONAL;
    assert s >= 2 ==> k.Def(s) == UndefinedSym;
    ConstantsBelow(k, bound);
    if s == 1 {
      AndBelow(k, 11);
      AndBelow(k, bound);
    }
    hide ExprBelow;
  }

  lemma AndBelow(k: Kconfig, bound: nat)
    requires k == OPTIONAL && bound > 3
    ensures ExprBelow(k, ById(), bound, And(Mode(0), Leaf(Sym(0))))
  {
  }

  lemma OptionalChoiceBelow()
    ensures ChoiceVisBelow(OPTIONAL, ById(), ById()(VisOf(ChoiceItem(0))), 0)
    ensures SelectionBelow(OPTIONAL, ById(), ById()(SelOf(0)), 0)
  {
    ConstantsBelow(OPTIONAL, 0);
  }

  lemma NothingToSelect(v: Valuation)
    requires Solves(OPTIONAL, Y_MODE, v)
    ensures !OptionalChoicesSelect(OPTIONAL, Y_MODE, v)
  {
    var k := OPTIONAL;
    assert v.vis(ChoiceItem(0)) == VisRule(k, Y_MODE, v, ChoiceItem(0));
    assert v.vis(SymItem(0)) == VisRule(k, Y_MODE, v, SymItem(0)) && v.tri(0) == TriRule(k, Y_MODE, v, 0).val;
    assert v.vis(SymItem(1)) == VisRule(k, Y_MODE, v, SymItem(1));
    var env, e := EnvOf(k, Y_MODE, v), And(Mode(0), Leaf(Sym(0)));
    assert ModeRule(k, Y_MODE, v, 0) == 2 && v.tri(0) == 0;
    assert Value(Leaf(Sym(0)), env) == 0 && Value(e, env) == 0;
    assert MaxValue([e], env) == 0 by { assert [e][..0] == []; }
    assert v.vis(SymItem(1)) == 0;
    assert FirstVisible([1], v) == None by { assert [1][1..] == []; }
    assert v.sel(0) == SelRule(k, Y_MODE, v, 0) == None;
    assert k.Choice(0).optional;
  }

  lemma SolveOptional() returns (v: Valuation)
    ensures Fine(OPTIONAL, ById()) && NoTristates(OPTIONAL) && UserOk(OPTIONAL, Y_MODE) && UserOk(OPTIONAL, NoUser)
    ensures Solves(OPTIONAL, Y_MODE, v)
  {
    OptionalIsFine();
    v := Evaluate(OPTIONAL, Y_MODE, ById());
    EvaluateSolves(OPTIONAL, Y_MODE, ById());
  }

  /** Neither a full nor a minimal configuration can say that such a choice is in y mode. */
  lemma SavedConfigLosesMode(minimal: bool) returns (v: Valuation, u': User, v': Valuation)
    ensures var k := OPTIONAL;
            && Fine(k, ById()) && NoTristates(k) && UserOk(k, Y_MODE) && Solves(k, Y_MODE, v) && Solves(k, u', v')
            && u' == LoadReplacing(k, NoUser, WrittenLines(k, Y_MODE, v,
                       if minimal then MinConfig(k, Y_MODE, v) else Everything(), [0, 1]))
            && !SameConfiguration(k, Y_MODE, v, u', v')
  {
    hide Fine, Solves, SameConfiguration, LoadReplacing, WrittenLines, UserOk, Configured, OptionalChoicesSelect;
    hide Acyclic, SymsSane, PromptsRespectDeps, NoTristates, MinConfig, Everything;
    var k := OPTIONAL;
    v := SolveOptional();
    var lines := WrittenLines(k, Y_MODE, v, if minimal then MinConfig(k, Y_MODE, v) else Everything(), [0, 1]);
    u' := LoadReplacing(k, NoUser, lines);
    v' := SolveLoaded(k, NoUser, lines);
    FineParts(k, Y_MODE, v);
    NothingToSelect(v);
    if minimal {
      MinConfigRoundTrip(k, ById(), Y_MODE, v, [0, 1], NoUser, u', v');
    } else {
      BoolFullConfigRoundTrip(k, ById(), Y_MODE, v, [0, 1], NoUser, u', v');
    }
  }

  // ----- MODULES calculated from a tristate -----

  /** MODULES is y if A is not n; A is m by default. */
  const MODULES_LOOP := Kconfig(
    [SymDef(true, "MODULES", Bool, [], [Default(Y, Leaf(Sym(1)))], [], N, N, Y, None, false),
     SymDef(true, "A", Tristate, [], [Default(M, Y)], [], N, N, Y, None, false)], [], 0)

  lemma OnlyModulesDepends(s: SymId, t: SymId)
    requires SymItem(s) in DependsOn(MODULES_LOOP, SymItem(t))
    ensures s == 1 && t == 0
  {
    var d := MODULES_LOOP.Def(t);
    assert t >= 2 ==> d == UndefinedSym;
    assert ItemsIn(N) == {} && ItemsIn(Y) == {} && ItemsIn(M) == {};
    assert ItemsIn(Leaf(Sym(1))) == {SymItem(1)};
  }

  lemma ModulesNeedsA(rank: Rank)
    requires Acyclic(MODULES_LOOP, rank)
    ensures rank(TriOf(1)) < rank(TriOf(0))
  {
    assert SymValueBelow(MODULES_LOOP, rank, rank(TriOf(0)), 0);
    var e := MODULES_LOOP.Def(0).defaults[0].cond;
    assert ExprBelow(MODULES_LOOP, rank, rank(TriOf(0)), e) && SymsIn(e) == {1};
  }

  lemma ANeedsModules(rank: Rank)
    requires Acyclic(MODULES_LOOP, rank)
    ensures rank(TriOf(0)) < rank(TriOf(1))
  {
    assert SymValueBelow(MODULES_LOOP, rank, rank(TriOf(1)), 1);
  }

  /** No loop is found, because reading MODULES is not a dependency; but A needs MODULES to tell its
      type and MODULES needs A, so that evaluation never ends. */
  lemma LoopThroughModules()
    ensures WellFormed(MODULES_LOOP) && forall l :: !IsCycle(DependencyGraph(MODULES_LOOP), l)
    ensures !CanEvaluate(MODULES_LOOP)
  {
    var k, g := MODULES_LOOP, DependencyGraph(MODULES_LOOP);
    assert WellFormed(k);
    hide DependsOn, WellFormed;
    forall l ensures !IsCycle(g, l) {
      if IsCycle(g, l) {
        var n := |l| - 1;
        OnlyModulesDepends(l[0], l[n]);
        if n > 0 {
          assert l[n - 1] in g.next(l[n - 1 + 1]);
          OnlyModulesDepends(l[n], l[n - 1]);
        }
        assert false;
      }
    }
    forall rank ensures !Acyclic(k, rank) {
      if Acyclic(k, rank) {
        ModulesNeedsA(rank);
        ANeedsModules(rank);
      }
    }
  }

  // ----- A loop through a choice that is not found -----

  /** The choice depends on Z; X depends on W, the other symbol of the choice. */
  const MISSED := Kconfig(
    [SymDef(true, "Z", Bool, [Y], [], [], N, N, Y, None, false),
     SymDef(true, "X", Bool, [And(Mode(0), Leaf(Sym(2)))], [], [], N, N, And(Mode(0), Leaf(Sym(2))), Some(0), false),
     SymDef(true, "W", Bool, [Mode(0)], [], [], N, N, Mode(0), Some(0), false)],
    [ChoiceDef(Bool, [Leaf(Sym(0))], [], [1, 2], false)], 3)

  const MISSED_NET := LoopSearch.Net(
    {SymItem(0), SymItem(1), SymItem(2), ChoiceItem(0)},
    (s: SymId) => if s == 0 then [ChoiceItem(0)] else if s == 2 then [SymItem(1)] else [],
    (s: SymId) => if s == 1 || s == 2 then Some(0) else None,
    (c: ChoiceId) => if c == 0 then [1, 2] else [])

  lemma MissedItems()
    ensures ItemsIn(Y) == {} && ItemsIn(N) == {} && ItemsIn(Leaf(Sym(0))) == {SymItem(0)}
    ensures ItemsIn(Mode(0)) == {ChoiceItem(0)}
    ensures ItemsIn(And(Mode(0), Leaf(Sym(2)))) == {ChoiceItem(0), SymItem(2)}
  {
    assert SymsIn(And(Mode(0), Leaf(Sym(2)))) == {2} && ChoicesIn(And(Mode(0), Leaf(Sym(2)))) == {0};
  }

  lemma OnePrompt(e: Expr)
    ensures PromptItems([e]) == ItemsIn(e) && PromptItems([]) == {}
    ensures DefaultItems([]) == {} && RangeItems([]) == {} && ChoiceDefaultItems([]) == {}
  {
    hide ItemsIn;
    forall x | x in ItemsIn(e) ensures x in PromptItems([e]) {
      assert x in ItemsIn([e][0]);
    }
  }

  lemma MissedBuiltOn(j: Item)
    ensures LoopSearch.BuiltOn(MISSED, j) ==
            if j == SymItem(1) then {ChoiceItem(0), SymItem(2)}
            else if j == SymItem(2) then {ChoiceItem(0)}
            else if j == ChoiceItem(0) then {SymItem(0)}
            else {}
  {
    MissedItems();
    OnePrompt(Y);
    OnePrompt(Mode(0));
    OnePrompt(Leaf(Sym(0)));
    OnePrompt(And(Mode(0), Leaf(Sym(2))));
    hide ItemsIn, PromptItems, DefaultItems, RangeItems, ChoiceDefaultItems;
  }

  lemma MissedIsWellFormed()
    ensures WellFormed(MISSED)
  {
    assert forall s: SymId | s >= 3 :: MISSED.Def(s) == UndefinedSym;
    assert forall c: ChoiceId | c >= 1 :: MISSED.Choice(c) == EmptyChoice;
  }

  lemma MissedIsRepresented()
    ensures LoopSearch.Represents(MISSED_NET, MISSED)
  {
    forall s: SymId, j | SymItem(s) in MISSED_NET.items
      ensures j in MISSED_NET.next(s) <==> j in MISSED_NET.items && SymItem(s) in LoopSearch.BuiltOn(MISSED, j)
    {
      MissedBuiltOn(j);
    }
    hide LoopSearch.BuiltOn;
  }

  /** Entered through Z, the choice is searched without going from a symbol back to the choice. */
  lemma MissedChoiceIsPassed(p: LoopSearch.Progress)
    requires LoopSearch.Sane(MISSED_NET)
    requires p == LoopSearch.Progress(map[SymItem(0) := LoopSearch.Grey], [])
    ensures var r := LoopSearch.SearchChoice(MISSED_NET, p, 0, None);
            && r.1 == LoopSearch.NoLoop
            && forall s: SymId | s == 1 || s == 2 :: LoopSearch.ColourOf(r.0, SymItem(s)) == LoopSearch.Black
  {
    var net, q := MISSED_NET, LoopSearch.Enter(p, ChoiceItem(0));
    var q1 := LoopSearch.Enter(q, SymItem(1));
    LoopSearch.NextEnd(net, q1, 1);
    assert LoopSearch.SearchSym(net, q, 1, true) == (LoopSearch.Finish(q1, SymItem(1)), LoopSearch.NoLoop);
    var q2 := LoopSearch.Finish(q1, SymItem(1));
    var q3 := LoopSearch.Enter(q2, SymItem(2));
    assert LoopSearch.SearchSym(net, q3, 1, false) == (q3, LoopSearch.NoLoop);
    LoopSearch.NextStep(net, q3, 2, 0);
    LoopSearch.NextEnd(net, q3, 2);
    var q4 := LoopSearch.Finish(q3, SymItem(2));
    assert LoopSearch.SearchSym(net, q2, 2, true) == (q4, LoopSearch.NoLoop);
    LoopSearch.MembersStep(net, q, 0, None, 0);
    LoopSearch.MembersStep(net, q2, 0, None, 1);
    LoopSearch.MembersEnd(net, q4, 0, None);
    hide LoopSearch.SearchMembers, LoopSearch.SearchSym;
  }

  lemma MissedIsPassed()
    requires LoopSearch.Sane(MISSED_NET)
    ensures LoopSearch.SearchAll(MISSED_NET, LoopSearch.Progress(map[], []), [0, 1, 2], 0).1 == LoopSearch.NoLoop
  {
    var net, p, syms := MISSED_NET, LoopSearch.Progress(map[], []), [0, 1, 2];
    var q := LoopSearch.Enter(p, SymItem(0));
    assert q.visited == map[SymItem(0) := LoopSearch.Grey];
    MissedChoiceIsPassed(q);
    var q1 := LoopSearch.SearchChoice(net, q, 0, None).0;
    LoopSearch.NextStep(net, q, 0, 0);
    LoopSearch.NextEnd(net, q1, 0);
    var q2 := LoopSearch.Finish(q1, SymItem(0));
    assert LoopSearch.SearchSym(net, p, 0, false) == (q2, LoopSearch.NoLoop);
    assert forall s: SymId | s == 1 || s == 2 :: LoopSearch.ColourOf(q2, SymItem(s)) == LoopSearch.Black;
    assert LoopSearch.SearchSym(net, q2, 1, false) == (q2, LoopSearch.NoLoop);
    assert LoopSearch.SearchSym(net, q2, 2, false) == (q2, LoopSearch.NoLoop);
    hide LoopSearch.SearchSym;
    assert LoopSearch.SearchAll(net, q2, syms, 3) == (q2, LoopSearch.NoLoop);
    assert LoopSearch.SearchAll(net, q2, syms, 2) == (q2, LoopSearch.NoLoop);
    assert LoopSearch.SearchAll(net, q2, syms, 1) == (q2, LoopSearch.NoLoop);
  }

  lemma MissedXNeedsW(rank: Rank)
    requires Acyclic(MISSED, rank)
    ensures rank(TriOf(2)) < rank(VisOf(SymItem(1)))
  {
    assert SymVisBelow(MISSED, rank, rank(VisOf(SymItem(1))), 1);
    var e := MISSED.Def(1).prompts[0];
    assert ExprBelow(MISSED, rank, rank(VisOf(SymItem(1))), e) && 2 in SymsIn(e);
  }

  lemma MissedWNeedsX(rank: Rank)
    requires Acyclic(MISSED, rank)
    ensures rank(VisOf(SymItem(1))) < rank(SelOf(0)) < rank(TriOf(2))
  {
    assert SelectionBelow(MISSED, rank, rank(SelOf(0)), 0) && 1 in MISSED.Choice(0).syms;
    assert SymValueBelow(MISSED, rank, rank(TriOf(2)), 2);
  }

  /** The selection of the choice needs the visibility of X, which needs W, which needs the selection.
      Loop detection passes, because the choice is entered through Z. */
  lemma LoopThroughChoice()
    ensures WellFormed(MISSED) && LoopSearch.Represents(MISSED_NET, MISSED) && LoopSearch.Sane(MISSED_NET)
    ensures LoopSearch.SearchAll(MISSED_NET, LoopSearch.Progress(map[], []), [0, 1, 2], 0).1 == LoopSearch.NoLoop
    ensures LoopSearch.IsLoop(MISSED_NET, [SymItem(1), SymItem(2), ChoiceItem(0)])
    ensures ModulesIsEarly(MISSED) && !CanEvaluate(MISSED)
  {
    MissedIsWellFormed();
    MissedIsRepresented();
    LoopSearch.NetIsSane(MISSED_NET, MISSED);
    MissedIsPassed();
    hide LoopSearch.SearchAll, LoopSearch.Sane, LoopSearch.Represents, WellFormed, Acyclic;
    MissedIsLoop();
    assert ModulesFirst(MISSED, {3});
    forall rank ensures !Acyclic(MISSED, rank) {
      if Acyclic(MISSED, rank) {
        MissedXNeedsW(rank);
        MissedWNeedsX(rank);
      }
    }
  }

  lemma MissedIsLoop()
    ensures LoopSearch.IsLoop(MISSED_NET, [SymItem(1), SymItem(2), ChoiceItem(0)])
  {
    var loop := [SymItem(1), SymItem(2), ChoiceItem(0)];
    assert LoopSearch.Depends(MISSED_NET, loop[0 + 1], loop[0]);
    assert LoopSearch.Owns(MISSED_NET, loop[1 + 1], loop[1]);
    assert LoopSearch.Owns(MISSED_NET, loop[0], loop[2]);
  }
}
