/**
 A configuration without choices can be evaluated if and only if no dependency loop is found
 and MODULES is not calculated from a tristate.
 */
module DepLoop {
  import opened Expressions
  import opened Config
  import opened Evaluation
  import opened Caching
  import LoopSearch

  /** A dependency graph: `next(s)` are the symbols that depend on `s`. */
  datatype Graph = Graph(nodes: set<SymId>, next: SymId -> set<SymId>)

  /** Each element depends on the next one, and the last on the first. */
  ghost predicate IsCycle(g: Graph, loop: seq<SymId>) {
    && loop != []
    && (forall i | 0 <= i < |loop| :: loop[i] in g.nodes)
    && (forall i | 0 <= i < |loop| - 1 :: loop[i] in g.next(loop[i + 1]))
    && loop[|loop| - 1] in g.next(loop[0])
  }

  /** Everything that depends on an element comes before it. */
  ghost predicate Topological(g: Graph, order: seq<SymId>) {
    forall i, y | 0 <= i < |order| && y in g.next(order[i]) :: y in order[..i]
  }

  /** Dependents come strictly earlier. */
  lemma DependentIsEarlier(g: Graph, order: seq<SymId>, s: SymId, y: SymId)
    requires Topological(g, order) && s in order && y in g.next(s)
    ensures y in order && LoopSearch.Index(order, y) < LoopSearch.Index(order, s)
  {
    assert y in order[..LoopSearch.Index(order, s)];
  }

  lemma {:induction false} CycleGoesDown(g: Graph, order: seq<SymId>, loop: seq<SymId>, i: nat)
    requires Topological(g, order) && IsCycle(g, loop) && i < |loop| && forall s | s in g.nodes :: s in order
    ensures LoopSearch.Index(order, loop[0]) <= LoopSearch.Index(order, loop[i])
    ensures i > 0 ==> LoopSearch.Index(order, loop[0]) < LoopSearch.Index(order, loop[i])
  {
    if i > 0 {
      CycleGoesDown(g, order, loop, i - 1);
      DependentIsEarlier(g, order, loop[i], loop[i - 1]);
    }
  }

  /** A graph with a topological order has no cycle. */
  lemma NoCycle(g: Graph, order: seq<SymId>, loop: seq<SymId>)
    requires Topological(g, order) && forall s | s in g.nodes :: s in order
    ensures !IsCycle(g, loop)
  {
    if IsCycle(g, loop) {
      var first, last := loop[0], loop[|loop| - 1];
      DependentIsEarlier(g, order, first, last);
      CycleGoesDown(g, order, loop, |loop| - 1);
      assert false;
    }
  }

  // ----- A loop-free configuration can be evaluated -----

  /** The graph of a configuration without choices. */
  function DependencyGraph(k: Kconfig): Graph {
    Graph(set s | 0 <= s < |k.syms| && k.syms[s].defined,
          (s: SymId) => set t: SymId | 0 <= t < |k.syms| && SymItem(s) in DependsOn(k, SymItem(t)))
  }

  /** MODULES can be evaluated without first deciding whether a tristate counts as a bool:
      neither MODULES nor anything in `early`, from which it is calculated, is a tristate. */
  ghost predicate ModulesFirst(k: Kconfig, early: set<SymId>) {
    && k.modules in early
    && (forall t | t in early :: k.Def(t).typ != Tristate)
    && (forall s: SymId, t: SymId | t in early && SymItem(s) in DependsOn(k, SymItem(t)) :: s in early)
  }

  /** Later in the search order is earlier in the evaluation; `early` symbols come first. */
  function Level(order: seq<SymId>, early: set<SymId>, s: SymId): nat {
    if s !in order then 0
    else |order| - LoopSearch.Index(order, s) + if s in early then 0 else |order|
  }

  function SearchRank(order: seq<SymId>, early: set<SymId>): Rank {
    (q: Quantity) => match q
      case VisOf(SymItem(s)) => 3 * Level(order, early, s)
      case TriOf(s) => 3 * Level(order, early, s) + 1
      case StrOf(s) => 3 * Level(order, early, s) + 2
      case VisOf(ChoiceItem(_)) => 0
      case SelOf(_) => 1
  }

  lemma DependencyIsLower(k: Kconfig, order: seq<SymId>, early: set<SymId>, s: SymId, t: SymId)
    requires Topological(DependencyGraph(k), order) && ModulesFirst(k, early)
    requires forall x | x in DependencyGraph(k).nodes :: x in order
    requires SymItem(s) in DependsOn(k, SymItem(t))
    ensures Level(order, early, s) < Level(order, early, t)
  {
    var g := DependencyGraph(k);
    assert t < |k.syms| && k.syms[t].defined && t in g.nodes && t in g.next(s);
    if s in order { DependentIsEarlier(g, order, s, t); }
  }

  lemma ModulesAreLower(k: Kconfig, order: seq<SymId>, early: set<SymId>, t: SymId)
    requires ModulesFirst(k, early) && t in order && t !in early
    ensures Level(order, early, k.modules) < Level(order, early, t)
  {
  }

  ghost predicate Searched(k: Kconfig, order: seq<SymId>, early: set<SymId>) {
    && Topological(DependencyGraph(k), order) && ModulesFirst(k, early) && k.choices == [] && WellFormed(k)
    && (forall x | x in DependencyGraph(k).nodes :: x in order)
      && (forall x | x in order :: x in DependencyGraph(k).nodes)
  }

  lemma SearchAtom(k: Kconfig, order: seq<SymId>, early: set<SymId>, t: SymId, s: SymId)
    requires Searched(k, order, early) && SymItem(s) in DependsOn(k, SymItem(t))
    ensures SearchRank(order, early)(TriOf(s)) < 3 * Level(order, early, t)
            && SearchRank(order, early)(StrOf(s)) < 3 * Level(order, early, t)
  {
    DependencyIsLower(k, order, early, s, t);
  }

  lemma SearchExpr(k: Kconfig, order: seq<SymId>, early: set<SymId>, t: SymId, e: Expr, bound: nat)
    requires Searched(k, order, early) && ItemsIn(e) <= DependsOn(k, SymItem(t))
    requires bound >= 3 * Level(order, early, t) && bound > 0
    ensures ExprBelow(k, SearchRank(order, early), bound, e)
    ensures e.Leaf? ==> AtomBelow(SearchRank(order, early), bound, e.atom)
  {
    assert k.choices == [];
    hide DependsOn, Searched;
    ComparedAreSyms(e);
    forall s | s in SymsIn(e)
      ensures SearchRank(order, early)(TriOf(s)) < bound && SearchRank(order, early)(StrOf(s)) < bound
    {
      assert SymItem(s) in ItemsIn(e);
      SearchAtom(k, order, early, t, s);
    }
  }

  lemma SearchSym(k: Kconfig, order: seq<SymId>, early: set<SymId>, t: SymId, bound: nat)
    requires Searched(k, order, early) && k.Def(t).defined && bound >= 3 * Level(order, early, t) && bound > 0
    ensures var rank, d := SearchRank(order, early), k.Def(t);
            && AllBelow(k, rank, bound, d.prompts) && DefaultsBelow(k, rank, bound, d.defaults)
              && RangesBelow(k, rank, bound, d.ranges)
            && ExprBelow(k, rank, bound, d.revDep) && ExprBelow(k, rank, bound, d.weakRevDep)
              && ExprBelow(k, rank, bound, d.directDep)
  {
    hide Searched, ExprBelow, AtomBelow, SearchRank, Level;
    var rank, d := SearchRank(order, early), k.Def(t);
    forall i | 0 <= i < |d.prompts| ensures ExprBelow(k, rank, bound, d.prompts[i]) {
      assert ItemsIn(d.prompts[i]) <= PromptItems(d.prompts);
      SearchExpr(k, order, early, t, d.prompts[i], bound);
    }
    forall i | 0 <= i < |d.defaults|
      ensures ExprBelow(k, rank, bound, d.defaults[i].value) && ExprBelow(k, rank, bound, d.defaults[i].cond)
      ensures d.defaults[i].value.Leaf? ==> AtomBelow(rank, bound, d.defaults[i].value.atom)
    {
      assert ItemsIn(d.defaults[i].value) + ItemsIn(d.defaults[i].cond) <= DefaultItems(d.defaults);
      SearchExpr(k, order, early, t, d.defaults[i].value, bound);
      SearchExpr(k, order, early, t, d.defaults[i].cond, bound);
    }
    forall i | 0 <= i < |d.ranges|
      ensures ExprBelow(k, rank, bound, d.ranges[i].cond) && AtomBelow(rank, bound, d.ranges[i].low)
              && AtomBelow(rank, bound, d.ranges[i].high)
    {
      var r := d.ranges[i];
      assert ItemsIn(Leaf(r.low)) + ItemsIn(Leaf(r.high)) + ItemsIn(r.cond) <= RangeItems(d.ranges);
      SearchExpr(k, order, early, t, r.cond, bound);
      SearchExpr(k, order, early, t, Leaf(r.low), bound);
      SearchExpr(k, order, early, t, Leaf(r.high), bound);
    }
    SearchExpr(k, order, early, t, d.revDep, bound);
    SearchExpr(k, order, early, t, d.weakRevDep, bound);
    SearchExpr(k, order, early, t, d.directDep, bound);
  }

  lemma SearchModules(k: Kconfig, order: seq<SymId>, early: set<SymId>, t: SymId, bound: nat)
    requires Searched(k, order, early) && bound >= 3 * Level(order, early, t)
    ensures ModulesBelow(k, SearchRank(order, early), bound, k.Def(t).typ)
  {
    if k.Def(t).typ == Tristate {
      assert k.Def(t).defined || UndefinedIsEmpty(k.Def(t));
      assert t in DependencyGraph(k).nodes;
      ModulesAreLower(k, order, early, t);
    }
  }

  lemma SearchValue(k: Kconfig, order: seq<SymId>, early: set<SymId>, t: SymId, bound: nat)
    requires Searched(k, order, early) && bound > 3 * Level(order, early, t)
    ensures SymValueBelow(k, SearchRank(order, early), bound, t)
  {
    SearchModules(k, order, early, t, bound);
    NoMembers(k, t);
    if k.Def(t).defined {
      SearchSym(k, order, early, t, bound);
    } else {
      assert UndefinedIsEmpty(k.Def(t));
    }
    hide Searched, ExprBelow, DefaultsBelow, RangesBelow, AllBelow, Level;
  }

  lemma NoMembers(k: Kconfig, t: SymId)
    requires WellFormed(k) && k.choices == []
    ensures k.Def(t).choice.None?
  {
    assert k.Def(t).choice.Some? ==> t in k.Choice(k.Def(t).choice.value).syms;
  }

  lemma SearchVis(k: Kconfig, order: seq<SymId>, early: set<SymId>, t: SymId)
    requires Searched(k, order, early)
    ensures SymVisBelow(k, SearchRank(order, early), SearchRank(order, early)(VisOf(SymItem(t))), t)
  {
    NoMembers(k, t);
    SearchModules(k, order, early, t, 3 * Level(order, early, t));
    if k.Def(t).defined {
      assert t in DependencyGraph(k).nodes && t in order;
      SearchSym(k, order, early, t, 3 * Level(order, early, t));
    } else {
      assert UndefinedIsEmpty(k.Def(t));
    }
  }

  /** If no loop is found, the order in which the search finished the symbols gives a ranking
      under which evaluation is a terminating recursion. */
  lemma SearchOrderIsAcyclic(k: Kconfig, order: seq<SymId>, early: set<SymId>)
    requires Searched(k, order, early)
    ensures Acyclic(k, SearchRank(order, early))
  {
    assert k.choices == [];
    hide Searched, SymVisBelow, SymValueBelow, ChoiceVisBelow, SelectionBelow, SearchRank, Level;
    var rank := SearchRank(order, early);
    forall t: SymId
      ensures SymVisBelow(k, rank, rank(VisOf(SymItem(t))), t)
      ensures SymValueBelow(k, rank, rank(TriOf(t)), t) && SymValueBelow(k, rank, rank(StrOf(t)), t)
              && rank(TriOf(t)) < rank(StrOf(t))
    {
      SearchVis(k, order, early, t);
      SearchValues(k, order, early, t);
    }
    forall x: ChoiceId
      ensures ChoiceVisBelow(k, rank, rank(VisOf(ChoiceItem(x))), x) && SelectionBelow(k, rank, rank(SelOf(x)), x)
    {
      SearchChoice(k, order, early, x);
    }
  }

  lemma SearchValues(k: Kconfig, order: seq<SymId>, early: set<SymId>, t: SymId)
    requires Searched(k, order, early)
    ensures var rank := SearchRank(order, early);
            SymValueBelow(k, rank, rank(TriOf(t)), t) && SymValueBelow(k, rank, rank(StrOf(t)), t)
              && rank(TriOf(t)) < rank(StrOf(t))
  {
    hide Searched, SymValueBelow, Level;
    SearchValue(k, order, early, t, 3 * Level(order, early, t) + 1);
    SearchValue(k, order, early, t, 3 * Level(order, early, t) + 2);
  }

  lemma SearchChoice(k: Kconfig, order: seq<SymId>, early: set<SymId>, x: ChoiceId)
    requires k.choices == []
    ensures var rank := SearchRank(order, early);
            ChoiceVisBelow(k, rank, rank(VisOf(ChoiceItem(x))), x) && SelectionBelow(k, rank, rank(SelOf(x)), x)
  {
  }

  // ----- What can be evaluated has no loop, and MODULES does not need a tristate -----

  ghost predicate CanEvaluate(k: Kconfig) {
    exists rank :: Acyclic(k, rank)
  }

  ghost predicate ModulesIsEarly(k: Kconfig) {
    exists early :: ModulesFirst(k, early)
  }

  lemma LowerIn(k: Kconfig, rank: Rank, bound: nat, e: Expr, s: SymId)
    requires ExprBelow(k, rank, bound, e) && SymItem(s) in ItemsIn(e)
    ensures rank(TriOf(s)) < bound
  {
  }

  /** Dependencies are evaluated first. */
  lemma DependencyRanksLower(k: Kconfig, rank: Rank, s: SymId, t: SymId)
    requires Acyclic(k, rank) && SymItem(s) in DependsOn(k, SymItem(t))
    ensures rank(TriOf(s)) < rank(TriOf(t))
  {
    var d, bound := k.Def(t), rank(TriOf(t));
    assert SymValueBelow(k, rank, bound, t) && SymVisBelow(k, rank, rank(VisOf(SymItem(t))), t);
    hide ExprBelow, ItemsIn, Acyclic;
    if SymItem(s) in PromptItems(d.prompts) {
      var i :| 0 <= i < |d.prompts| && SymItem(s) in ItemsIn(d.prompts[i]);
      LowerIn(k, rank, rank(VisOf(SymItem(t))), d.prompts[i], s);
    } else if SymItem(s) in DefaultItems(d.defaults) {
      LowerInDefaults(k, rank, bound, d.defaults, s);
    } else if SymItem(s) in RangeItems(d.ranges) {
      LowerInRanges(k, rank, bound, d.ranges, s);
    } else if SymItem(s) in ItemsIn(d.revDep) {
      LowerIn(k, rank, bound, d.revDep, s);
    } else if SymItem(s) in ItemsIn(d.weakRevDep) {
      LowerIn(k, rank, bound, d.weakRevDep, s);
    } else {
      LowerIn(k, rank, bound, d.directDep, s);
    }
  }

  lemma LowerInDefaults(k: Kconfig, rank: Rank, bound: nat, ds: seq<Default>, s: SymId)
    requires DefaultsBelow(k, rank, bound, ds) && SymItem(s) in DefaultItems(ds)
    ensures rank(TriOf(s)) < bound
  {
    hide ExprBelow, ItemsIn;
    var i :| 0 <= i < |ds| && SymItem(s) in ItemsIn(ds[i].value) + ItemsIn(ds[i].cond);
    if SymItem(s) in ItemsIn(ds[i].value) {
      LowerIn(k, rank, bound, ds[i].value, s);
    } else {
      LowerIn(k, rank, bound, ds[i].cond, s);
    }
  }

  lemma LowerInRanges(k: Kconfig, rank: Rank, bound: nat, rs: seq<Range>, s: SymId)
    requires RangesBelow(k, rank, bound, rs) && SymItem(s) in RangeItems(rs)
    ensures rank(TriOf(s)) < bound
  {
    var i :| 0 <= i < |rs| && SymItem(s) in ItemsIn(Leaf(rs[i].low)) + ItemsIn(Leaf(rs[i].high)) + ItemsIn(rs[i].cond);
    if SymItem(s) in ItemsIn(rs[i].cond) {
      LowerIn(k, rank, bound, rs[i].cond, s);
    }
  }

  /** The symbols that MODULES is calculated from are among those ranked no higher. */
  lemma EvaluableHasModulesFirst(k: Kconfig, rank: Rank)
    requires Acyclic(k, rank)
    ensures ModulesIsEarly(k)
  {
    var ids := {k.modules} + set t, x | 0 <= t < |k.syms| && x in DependsOn(k, SymItem(t)) && x.SymItem? :: x.sym;
    var early := set s | s in ids && rank(TriOf(s)) <= rank(TriOf(k.modules));
    forall t | t in early ensures k.Def(t).typ != Tristate {
      assert SymValueBelow(k, rank, rank(TriOf(t)), t);
    }
    hide Acyclic, DependsOn;
    forall s: SymId, t: SymId | t in early && SymItem(s) in DependsOn(k, SymItem(t)) ensures s in early {
      DependencyRanksLower(k, rank, s, t);
      HasDependencies(k, s, t);
      assert SymItem(s).sym == s;
    }
    assert ModulesFirst(k, early);
  }

  lemma HasDependencies(k: Kconfig, s: SymId, t: SymId)
    requires SymItem(s) in DependsOn(k, SymItem(t))
    ensures t < |k.syms| && k.syms[t].defined
  {
  }

  lemma {:induction false} LoopGoesUp(k: Kconfig, rank: Rank, loop: seq<SymId>, i: nat)
    requires Acyclic(k, rank) && IsCycle(DependencyGraph(k), loop) && i < |loop|
    ensures rank(TriOf(loop[i])) <= rank(TriOf(loop[0]))
  {
    hide Acyclic, DependsOn;
    if i > 0 {
      LoopGoesUp(k, rank, loop, i - 1);
      assert loop[i - 1] in DependencyGraph(k).next(loop[i - 1 + 1]);
      DependencyRanksLower(k, rank, loop[i], loop[i - 1]);
    }
  }

  lemma EvaluableHasNoLoop(k: Kconfig, rank: Rank, loop: seq<SymId>)
    requires Acyclic(k, rank)
    ensures !IsCycle(DependencyGraph(k), loop)
  {
    hide Acyclic, DependsOn;
    if IsCycle(DependencyGraph(k), loop) {
      LoopGoesUp(k, rank, loop, |loop| - 1);
      DependencyRanksLower(k, rank, loop[0], loop[|loop| - 1]);
      assert false;
    }
  }

  // ----- The search -----

  function Symbols(items: seq<Item>): seq<SymId>
    requires forall i <- items :: i.SymItem?
  {
    seq<SymId>(|items|, n requires 0 <= n < |items| => assert items[n] in items; items[n].sym)
  }

  lemma OnlySymbols(k: Kconfig, net: LoopSearch.Net, items: seq<Item>)
    requires k.choices == [] && LoopSearch.Represents(net, k) && forall i <- items :: i in net.items
    ensures forall i <- items :: i.SymItem?
  {
    hide LoopSearch.BuiltOn;
  }

  lemma NextIsNext(k: Kconfig, net: LoopSearch.Net, s: SymId, t: SymId)
    requires k.choices == [] && LoopSearch.Represents(net, k) && SymItem(s) in net.items
    ensures SymItem(t) in net.next(s) <==> t in DependencyGraph(k).next(s)
  {
    hide DependsOn;
    if SymItem(s) in DependsOn(k, SymItem(t)) { HasDependencies(k, s, t); }
  }

  lemma OrderIsTopological(k: Kconfig, net: LoopSearch.Net, order: seq<Item>)
    requires k.choices == [] && LoopSearch.Represents(net, k) && LoopSearch.Complete(net, order)
    requires forall i <- order :: i.SymItem?
    ensures Topological(DependencyGraph(k), Symbols(order))
    ensures forall x :: x in DependencyGraph(k).nodes <==> x in Symbols(order)
  {
    var g, syms := DependencyGraph(k), Symbols(order);
    hide LoopSearch.BuiltOn, DependsOn;
    forall i, y | 0 <= i < |syms| && y in g.next(syms[i]) ensures y in syms[..i] {
      assert order[i] in order && LoopSearch.Settled(net, order, i);
      NextIsNext(k, net, syms[i], y);
      var j :| 0 <= j < i && order[j] == SymItem(y);
      assert syms[..i][j] == y;
    }
    forall x: SymId ensures x in g.nodes <==> x in syms {
      if x in g.nodes {
        var j :| 0 <= j < |order| && order[j] == SymItem(x);
        assert syms[j] == x;
      }
      if x in syms {
        var j :| 0 <= j < |syms| && syms[j] == x;
        assert order[j] in order;
      }
    }
  }

  lemma LeadsIsNext(k: Kconfig, net: LoopSearch.Net, i: Item, j: Item)
    requires k.choices == [] && LoopSearch.Represents(net, k) && i in net.items && i.SymItem? && j.SymItem?
    requires LoopSearch.Leads(net, i, j)
    ensures j.sym in DependencyGraph(k).next(i.sym)
  {
    hide LoopSearch.BuiltOn, DependsOn;
    NextIsNext(k, net, i.sym, j.sym);
  }

  lemma IsNode(k: Kconfig, net: LoopSearch.Net, i: Item)
    requires LoopSearch.Represents(net, k) && i in net.items && i.SymItem?
    ensures i.sym in DependencyGraph(k).nodes
  {
    hide LoopSearch.BuiltOn, DependsOn;
  }

  lemma LoopIsCycle(k: Kconfig, net: LoopSearch.Net, loop: seq<Item>)
    requires k.choices == [] && LoopSearch.Represents(net, k) && LoopSearch.IsLoop(net, loop)
    requires forall i <- loop :: i.SymItem?
    ensures IsCycle(DependencyGraph(k), Symbols(loop))
  {
    hide LoopSearch.Represents, LoopSearch.Leads, LoopSearch.UsesDependency, LoopSearch.Distinct, DependencyGraph;
    var g, syms := DependencyGraph(k), Symbols(loop);
    assert forall i | 0 <= i < |syms| :: loop[i] in loop && syms[i] == loop[i].sym;
    forall i | 0 <= i < |syms| - 1 ensures syms[i] in g.next(syms[i + 1]) {
      LeadsIsNext(k, net, loop[i + 1], loop[i]);
    }
    LeadsIsNext(k, net, loop[0], loop[|loop| - 1]);
    forall i | 0 <= i < |syms| ensures syms[i] in g.nodes {
      IsNode(k, net, loop[i]);
    }
  }

  /**
    Loop detection on a configuration: an error exactly for a loop. A configuration that passes can
    be evaluated exactly if MODULES is not calculated from a tristate, since a tristate reads MODULES
    without depending on it.
   */
  method CheckConfiguration(k: Kconfig, net: LoopSearch.Net, syms: seq<SymId>) returns (found: LoopSearch.Found)
    requires WellFormed(k) && k.choices == [] && LoopSearch.Represents(net, k)
    requires forall s: SymId :: k.Def(s).defined <==> s in syms
    ensures found.NoLoop? || (found.Raised? && LoopSearch.IsLoop(net, found.loop))
    ensures found.Raised? <==> exists l :: IsCycle(DependencyGraph(k), l)
    ensures CanEvaluate(k) <==> found.NoLoop? && ModulesIsEarly(k)
  {
    ghost var g := DependencyGraph(k);
    LoopSearch.NetIsSane(net, k);
    ghost var order;
    found, order := LoopSearch.CheckAll(net, syms);
    if found.NoLoop? {
      PassedHasNoCycle(k, net, order);
    } else {
      OnlySymbols(k, net, found.loop);
      LoopIsCycle(k, net, found.loop);
    }
    hide WellFormed, ModulesFirst, DependencyGraph, Acyclic, LoopSearch.Represents, LoopSearch.IsLoop;
    forall rank | Acyclic(k, rank) ensures found.NoLoop? && ModulesIsEarly(k) {
      EvaluableHasModulesFirst(k, rank);
      if found.Raised? { EvaluableHasNoLoop(k, rank, Symbols(found.loop)); }
    }
  }

  lemma PassedHasNoCycle(k: Kconfig, net: LoopSearch.Net, order: seq<Item>)
    requires WellFormed(k) && k.choices == [] && LoopSearch.Represents(net, k) && LoopSearch.Complete(net, order)
    ensures forall l :: !IsCycle(DependencyGraph(k), l)
    ensures ModulesIsEarly(k) ==> CanEvaluate(k)
  {
    OnlySymbols(k, net, order);
    OrderIsTopological(k, net, order);
    hide WellFormed, ModulesFirst, DependencyGraph, Acyclic, LoopSearch.Represents, LoopSearch.Complete;
    forall l ensures !IsCycle(DependencyGraph(k), l) { NoCycle(DependencyGraph(k), Symbols(order), l); }
    forall early | ModulesFirst(k, early) ensures CanEvaluate(k) {
      assert Searched(k, Symbols(order), early);
      SearchOrderIsAcyclic(k, Symbols(order), early);
    }
  }
}
