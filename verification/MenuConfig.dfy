/**
  From the finalised menu tree to a configuration: what the symbols and choices take from it makes
  prompts respect dependencies and choice symbols the modes of their choices.
 */
module MenuConfig {
  import opened Expressions
  import opened MenuTree
  import opened MenuDeps
  import opened Layout
  import opened MenuChoices
  import opened Config
  import opened SavedConfig

  /** The prompt conditions of a symbol's nodes, in definition order. */
  function PromptsOf(w: Entries, nodes: seq<NodeId>, s: SymId): seq<Expr> {
    if nodes == [] then []
    else
      var e := w(nodes[|nodes| - 1]);
      PromptsOf(w, nodes[..|nodes| - 1], s)
      + if e.item == Symbol(s) && e.prompt.Some? then [e.prompt.value] else []
  }

  lemma {:induction false} PromptHasNode(w: Entries, nodes: seq<NodeId>, s: SymId, i: nat) returns (n: nat)
    requires i < |PromptsOf(w, nodes, s)|
    ensures n < |nodes| && w(nodes[n]).item == Symbol(s) && w(nodes[n]).prompt == Some(PromptsOf(w, nodes, s)[i])
  {
    var before := nodes[..|nodes| - 1];
    if i < |PromptsOf(w, before, s)| {
      n := PromptHasNode(w, before, s, i);
      assert before[n] == nodes[n];
    } else {
      n := |nodes| - 1;
    }
  }

  /** Before finalising no choice has symbols; types may be known already. */
  ghost predicate Unlinked(given: ChoiceTable) {
    given.owner == map[] && forall c: ChoiceId :: ChoiceOf(given, c).syms == [] && ChoiceOf(given, c).defaults == []
  }

  ghost function AsWritten(ds: seq<Default>): seq<Guarded<Expr>> {
    seq(|ds|, i requires 0 <= i < |ds| => Guarded(ds[i].value, ds[i].cond))
  }

  ghost function RangesAsWritten(rs: seq<Range>): seq<Guarded<(Atom, Atom)>> {
    seq(|rs|, i requires 0 <= i < |rs| => Guarded((rs[i].low, rs[i].high), rs[i].cond))
  }

  ghost function ChoiceDefaultsAsWritten(ds: seq<ChoiceDefault>): seq<Guarded<Expr>> {
    seq(|ds|, i requires 0 <= i < |ds| => Guarded(Leaf(Sym(ds[i].sym)), ds[i].cond))
  }

  /** The configuration takes properties, dependencies and choices from the finalised tree. */
  ghost predicate TakenFrom(k: Kconfig, w: Entries, nodes: seq<NodeId>, cs: ChoiceTable) {
    && (forall s: SymId ::
          && AsWritten(k.Def(s).defaults) == PropsOf(Collected(w, nodes), s).defaults
          && RangesAsWritten(k.Def(s).ranges) == PropsOf(Collected(w, nodes), s).ranges)
    && (forall c: ChoiceId :: ChoiceDefaultsAsWritten(k.Choice(c).defaults) == ChoiceOf(cs, c).defaults)
    && (forall s: SymId :: k.Def(s).prompts == PromptsOf(w, nodes, s))
    && (forall s: SymId :: k.Def(s).directDep == PropsOf(Collected(w, nodes), s).directDep)
    && (forall s: SymId | k.Def(s).defined ::
          && k.Def(s).revDep == RevOf(RevAfter(w, nodes, false), s)
          && k.Def(s).weakRevDep == RevOf(RevAfter(w, nodes, true), s))
    && (forall s: SymId :: k.Def(s).choice == if s in cs.owner then Some(cs.owner[s]) else None)
    && (forall c: ChoiceId :: k.Choice(c).syms == ChoiceOf(cs, c).syms)
  }

  // ----- Prompts respect dependencies -----

  lemma {:induction false} PromptsAreLimited(o: Entries, w: Entries, f: Forest, base: Expr, visibleIf: Expr,
                                             id: NodeId, env: Env)
    requires Inherits(o, w, f, base, visibleIf) && id in Ids(f) && w(id).prompt.Some?
    ensures Value(w(id).prompt.value, env) <= Value(w(id).dep, env)
    decreases f
  {
    hide Inherit, BaseDep, VisibleIf, Value;
    if id == f.id {
      InheritMeaning(o(id), base, visibleIf, env);
    } else if id in Ids(f.kids) {
      PromptsAreLimited(o, w, f.kids, BaseDep(w(f.id)), VisibleIf(w(f.id), visibleIf), id, env);
    } else {
      PromptsAreLimited(o, w, f.rest, base, visibleIf, id, env);
    }
  }

  lemma {:induction false} OrderHasIds(f: Forest, id: NodeId)
    ensures id in Preorder(f) <==> id in Ids(f)
  {
    if f.Node? {
      OrderHasIds(f.kids, id);
      OrderHasIds(f.rest, id);
    }
  }

  /** A tree as the parser leaves it, with a menu at its top. */
  ghost predicate Parsed(o: Entries, top: Forest) {
    top.Node? && top.rest.Nil? && Distinct(top) && o(top.id).item == Menu
  }

  lemma FinalInherits(o: Entries, top: Forest)
    requires Parsed(o, top)
    ensures Inherits(o, Final(o, top), top.kids, BaseDep(o(top.id)), VisibleIf(o(top.id), Y))
    ensures Final(o, top)(top.id) == o(top.id) && InheritsBelow(o, Final(o, top), top, Y)
  {
    HandedInherits(o, top.kids, BaseDep(o(top.id)), VisibleIf(o(top.id), Y));
  }

  lemma SymbolPromptIsLimited(o: Entries, top: Forest, s: SymId, i: nat, env: Env)
    requires Parsed(o, top) && i < |PromptsOf(Final(o, top), Preorder(top), s)|
    ensures var w, nodes := Final(o, top), Preorder(top);
            Value(PromptsOf(w, nodes, s)[i], env) <= Value(PropsOf(Collected(w, nodes), s).directDep, env)
  {
    var w, nodes := Final(o, top), Preorder(top);
    hide Final, Value, Collected, PropsOf, Inherits, BaseDep, VisibleIf, Preorder;
    var n := PromptHasNode(w, nodes, s, i);
    FinalInherits(o, top);
    OrderHasIds(top, nodes[n]);
    PromptsAreLimited(o, w, top.kids, BaseDep(o(top.id)), VisibleIf(o(top.id), Y), nodes[n], env);
    DirectDepMeaning(w, nodes, s, env);
    assert Defines(w, nodes, n, s);
  }

  // ----- Choices and their symbols -----

  lemma {:induction false} SymsOfHas(w: Entries, nodes: seq<NodeId>, n: nat)
    requires n < |nodes| && w(nodes[n]).item.Symbol?
    ensures w(nodes[n]).item.sym in SymsOf(w, nodes)
  {
    if n < |nodes| - 1 {
      SymsOfHas(w, nodes[..|nodes| - 1], n);
    }
  }

  /** No symbol is on the levels of two choices. */
  ghost predicate Unshared(w: Entries, done: seq<Finish>) {
    && (forall x <- done :: w(x.id).item.ChoiceItem?)
    && (forall x <- done, y <- done, s | s in SymsOf(w, x.below) && s in SymsOf(w, y.below) ::
        w(x.id).item == w(y.id).item)
  }

  /** `c` was finished with the symbol on its level. */
  ghost predicate Offers(w: Entries, done: seq<Finish>, c: ChoiceId, s: SymId) {
    exists x <- done :: w(x.id).item == MenuItem.ChoiceItem(c) && s in SymsOf(w, x.below)
  }

  /** A symbol belongs to a choice, both ways, exactly if it was on the level of one of its nodes. */
  lemma {:induction false} ChosenLinks(given: ChoiceTable, w: Entries, done: seq<Finish>, c: ChoiceId, s: SymId)
    requires Unlinked(given) && Unshared(w, done)
    ensures var cs := Chosen(given, w, done);
            && (s in ChoiceOf(cs, c).syms <==> Offers(w, done, c, s))
            && (s in cs.owner && cs.owner[s] == c <==> Offers(w, done, c, s))
  {
    hide SymsOf, FirstType, LendType;
    if done != [] {
      var n := |done| - 1;
      var before, last := done[..n], done[n];
      assert done == before + [last];
      ChosenLinks(given, w, before, c, s);
      ChosenStep(given, w, before, last);
    }
  }

  /** Prompts of choice symbols are all on levels of their choice; there is a warning otherwise. */
  ghost predicate PromptsInside(w: Entries, nodes: seq<NodeId>, done: seq<Finish>) {
    forall n <- nodes, c: ChoiceId | w(n).item.Symbol? && w(n).prompt.Some? && Offers(w, done, c, w(n).item.sym) ::
      exists x <- done :: w(x.id).item == MenuItem.ChoiceItem(c) && n in x.below
  }

  /**
    A configuration taken from the finalised tree has the links, the guards and the bounds on
    prompts that evaluation and the minimal configuration rely on.
   */
  lemma FinalisedConfiguration(k: Kconfig, given: ChoiceTable, o: Entries, top: Forest)
    requires Parsed(o, top) && Unlinked(given)
    requires var w, done := Final(o, top), FinishHead(Final(o, top), top);
             && TakenFrom(k, w, Preorder(top), Chosen(given, w, done))
             && Unshared(w, done) && PromptsInside(w, Preorder(top), done)
    requires forall c: ChoiceId, i :: 0 <= i < |k.Choice(c).defaults| ==>
               k.Choice(c).defaults[i].sym in k.Choice(c).syms
    ensures PromptsRespectDeps(k) && ChoicesLinked(k)
  {
    var w, nodes, done := Final(o, top), Preorder(top), FinishHead(Final(o, top), top);
    var cs := Chosen(given, w, done);
    FinalInherits(o, top);
    HeadGuards(o, w, top, Y);
    hide Final, Preorder, FinishHead, Chosen, Collected, PropsOf, Inherits, InheritsBelow, Value, SymsOf;
    forall s: SymId, i: nat, env: Env | i < |k.Def(s).prompts|
      ensures Value(k.Def(s).prompts[i], env) <= Value(k.Def(s).directDep, env)
    {
      SymbolPromptIsLimited(o, top, s, i, env);
    }
    forall c: ChoiceId, s: SymId ensures s in k.Choice(c).syms <==> k.Def(s).choice == Some(c) {
      ChosenLinks(given, w, done, c, s);
    }
    forall s: SymId, i | k.Def(s).choice.Some? && 0 <= i < |k.Def(s).prompts|
      ensures GuardedBy(k.Def(s).prompts[i], k.Def(s).choice.value)
    {
      ChosenLinks(given, w, done, k.Def(s).choice.value, s);
      MemberIsGuarded(w, nodes, done, k.Def(s).choice.value, s, i);
    }
  }

  lemma MemberIsGuarded(w: Entries, nodes: seq<NodeId>, done: seq<Finish>, c: ChoiceId, s: SymId, i: nat)
    requires GuardsBelow(w, done) && PromptsInside(w, nodes, done) && Offers(w, done, c, s)
    requires i < |PromptsOf(w, nodes, s)|
    ensures GuardedBy(PromptsOf(w, nodes, s)[i], c)
  {
    hide Offers, GuardedBy;
    var n := PromptHasNode(w, nodes, s, i);
    var x :| x in done && w(x.id).item == MenuItem.ChoiceItem(c) && nodes[n] in x.below;
    assert GuardedEntry(w(nodes[n]), c);
  }

  /** What every node of the finalised tree depends on, and when it can be shown. */
  lemma FinalisedMeaning(o: Entries, top: Forest, path: seq<NodeId>, env: Env)
    requires Parsed(o, top) && PathIn(top.kids, path)
    ensures var w, id := Final(o, top), path[|path| - 1];
            && Value(w(id).dep, env) == EnclosingDep(o, path, Value(o(top.id).dep, env), env)
            && (HoldsProps(o(id).item) && o(id).prompt.Some? ==>
                  && w(id).prompt.Some?
                  && Value(w(id).prompt.value, env)
                     == Min(Min(Value(o(id).prompt.value, env), Value(w(id).dep, env)),
                            Min(Value(o(top.id).visibility, env), LeastVisibleIf(o, path, env))))
            && (HoldsProps(o(id).item) ==>
                  Limited(o(id).selects, w(id).selects, w(id).dep) && Limited(o(id).implies, w(id).implies, w(id).dep))
  {
    FinalInherits(o, top);
    var w, e := Final(o, top), o(top.id);
    hide Final, Inherits, Value, EnclosingDep, LeastVisibleIf, Limited;
    PropertyMeaning(o, w, top.kids, BaseDep(e), VisibleIf(e, Y), path);
    DepMeaning(o, w, top.kids, BaseDep(e), VisibleIf(e, Y), path, env);
    PromptMeaning(o, w, top.kids, BaseDep(e), VisibleIf(e, Y), path, env);
    BaseMeaning(e, Y, env);
    YIsTwo(env);
  }

  /** A symbol is selected, or implied, to the largest of min(selector, condition) over all the
      selects, or implies, of the tree. */
  lemma FinalisedReverse(k: Kconfig, given: ChoiceTable, o: Entries, top: Forest, s: SymId, env: Env)
    requires Parsed(o, top) && k.Def(s).defined
    requires var w := Final(o, top);
             TakenFrom(k, w, Preorder(top), Chosen(given, w, FinishHead(w, top)))
    ensures var w, nodes := Final(o, top), Preorder(top);
            && IsLargest(w, nodes, s, false, env, Value(k.Def(s).revDep, env))
            && IsLargest(w, nodes, s, true, env, Value(k.Def(s).weakRevDep, env))
  {
    RevDepMeaning(Final(o, top), Preorder(top), s, false, env);
    RevDepMeaning(Final(o, top), Preorder(top), s, true, env);
    hide IsLargest, Value, RevOf, RevAfter, Final, Preorder;
  }

  /** Wherever it is, a symbol or choice has what was written for it, limited by its dependency. */
  lemma {:induction false} LimitedAt(o: Entries, w: Entries, f: Forest, base: Expr, visibleIf: Expr, id: NodeId)
    requires Inherits(o, w, f, base, visibleIf) && id in Ids(f)
    ensures w(id).item == o(id).item
    ensures HoldsProps(o(id).item) ==>
              Limited(o(id).defaults, w(id).defaults, w(id).dep) && Limited(o(id).ranges, w(id).ranges, w(id).dep)
    decreases f
  {
    hide Value;
    if id == f.id {
      PropertyMeaning(o, w, f, base, visibleIf, [id]);
    } else if id in Ids(f.kids) {
      LimitedAt(o, w, f.kids, BaseDep(w(f.id)), VisibleIf(w(f.id), visibleIf), id);
    } else {
      LimitedAt(o, w, f.rest, base, visibleIf, id);
    }
  }

  /** Element `j` of part `i` is at its place, limited by the dependency of its part. */
  ghost predicate PlacedAt<T>(parts: seq<seq<Guarded<T>>>, deps: seq<Expr>, all: seq<Guarded<T>>, env: Env,
                              i: nat, j: nat)
    requires |parts| == |deps| && i < |parts| && j < |parts[i]|
  {
    var at := Offset(parts, i) + j;
    && at < |all| && all[at].what == parts[i][j].what
    && Value(all[at].cond, env) == Min(Value(parts[i][j].cond, env), Value(deps[i], env))
  }

  /** `all` is what was written in the parts and nothing else, part by part. */
  ghost predicate Placed<T>(parts: seq<seq<Guarded<T>>>, deps: seq<Expr>, all: seq<Guarded<T>>, env: Env)
    requires |parts| == |deps|
  {
    && |all| == Offset(parts, |parts|)
    && forall i, j :: 0 <= i < |parts| && 0 <= j < |parts[i]| ==> PlacedAt(parts, deps, all, env, i, j)
  }

  lemma {:induction false} SameOffsets<T>(a: seq<seq<T>>, b: seq<seq<T>>, i: nat)
    requires |a| == |b| && i <= |a| && forall j :: 0 <= j < |a| ==> |a[j]| == |b[j]|
    ensures Offset(a, i) == Offset(b, i)
  {
    if i > 0 { SameOffsets(a, b, i - 1); }
  }

  lemma LimitedIsPlaced<T>(was: seq<seq<Guarded<T>>>, parts: seq<seq<Guarded<T>>>, deps: seq<Expr>,
                           all: seq<Guarded<T>>, env: Env)
    requires |was| == |parts| == |deps| && InOrder(parts, all)
    requires forall i :: 0 <= i < |was| ==> Limited(was[i], parts[i], deps[i])
    ensures Placed(was, deps, all, env)
  {
    assert forall i :: 0 <= i < |was| ==> |was[i]| == |parts[i]|;
    hide Value, Offset, Limited;
    forall i | 0 <= i <= |parts| ensures Offset(parts, i) == Offset(was, i) { SameOffsets(parts, was, i); }
    assert |all| == Offset(parts, |parts|) == Offset(was, |was|);
    forall i, j | 0 <= i < |was| && 0 <= j < |was[i]| ensures PlacedAt(was, deps, all, env, i, j) {
      assert InPlace(parts, all, i, j);
      LimitedPart(was[i], parts[i], deps[i], j, env);
    }
  }

  lemma LimitedPart<T>(before: seq<Guarded<T>>, after: seq<Guarded<T>>, dep: Expr, i: nat, env: Env)
    requires Limited(before, after, dep) && i < |before|
    ensures after[i].what == before[i].what
    ensures Value(after[i].cond, env) == Min(Value(before[i].cond, env), Value(dep, env))
  {
    assert Value(after[i].cond, env) == Min(Value(before[i].cond, env), Value(dep, env));
  }

  ghost function DepsOf(w: Entries, nodes: seq<NodeId>): seq<Expr> {
    seq(|nodes|, i requires 0 <= i < |nodes| => w(nodes[i]).dep)
  }

  lemma PartsAreLimited(o: Entries, top: Forest, s: SymId)
    requires Parsed(o, top)
    ensures var w, nodes := Final(o, top), Preorder(top);
            forall i :: 0 <= i < |nodes| ==>
              && Limited(Parts(o, nodes, s, DefaultsIn())[i], Parts(w, nodes, s, DefaultsIn())[i], w(nodes[i]).dep)
              && Limited(Parts(o, nodes, s, RangesIn())[i], Parts(w, nodes, s, RangesIn())[i], w(nodes[i]).dep)
  {
    var w, nodes := Final(o, top), Preorder(top);
    FinalInherits(o, top);
    hide Final, Inherits, BaseDep, VisibleIf, Preorder, Value;
    forall i | 0 <= i < |nodes|
      ensures Limited(Parts(o, nodes, s, DefaultsIn())[i], Parts(w, nodes, s, DefaultsIn())[i], w(nodes[i]).dep)
      ensures Limited(Parts(o, nodes, s, RangesIn())[i], Parts(w, nodes, s, RangesIn())[i], w(nodes[i]).dep)
    {
      OrderHasIds(top, nodes[i]);
      if nodes[i] != top.id {
        LimitedAt(o, w, top.kids, BaseDep(o(top.id)), VisibleIf(o(top.id), Y), nodes[i]);
      }
    }
  }

  /** The configuration has the defaults and ranges that were written for the symbol and no others, at
      their places in the order of the tree. */
  lemma FinalisedProperties(k: Kconfig, given: ChoiceTable, o: Entries, top: Forest, s: SymId, env: Env)
    requires Parsed(o, top)
    requires var w := Final(o, top);
             TakenFrom(k, w, Preorder(top), Chosen(given, w, FinishHead(w, top)))
    ensures var w, nodes := Final(o, top), Preorder(top);
            && Placed(Parts(o, nodes, s, DefaultsIn()), DepsOf(w, nodes), AsWritten(k.Def(s).defaults), env)
            && Placed(Parts(o, nodes, s, RangesIn()), DepsOf(w, nodes), RangesAsWritten(k.Def(s).ranges), env)
  {
    var w, nodes := Final(o, top), Preorder(top);
    PartsAreLimited(o, top, s);
    PropertiesInOrder(w, nodes, s);
    hide Final, Preorder, Collected, Chosen, FinishHead, Value, PropsOf, Limited, InOrder, Placed, Offset;
    LimitedIsPlaced(Parts(o, nodes, s, DefaultsIn()), Parts(w, nodes, s, DefaultsIn()), DepsOf(w, nodes),
                    AsWritten(k.Def(s).defaults), env);
    LimitedIsPlaced(Parts(o, nodes, s, RangesIn()), Parts(w, nodes, s, RangesIn()), DepsOf(w, nodes),
                    RangesAsWritten(k.Def(s).ranges), env);
  }

  lemma YIsTwo(env: Env)
    ensures Value(Y, env) == 2
  {
  }
}
