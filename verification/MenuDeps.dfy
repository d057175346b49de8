/**
  Dependency propagation: what a menu node inherits from the nodes around it, what the symbols
  collect from their nodes, and what all that means in terms of values.
 */
module MenuDeps {
  import opened Expressions
  import opened MenuTree
  import opened Layout

  // ----- Inheritance -----

  function Conjoin<T>(props: seq<Guarded<T>>, dep: Expr): seq<Guarded<T>> {
    seq(|props|, i requires 0 <= i < |props| => Guarded(props[i].what, MakeAnd(props[i].cond, dep)))
  }

  predicate HoldsProps(item: MenuItem) {
    item.Symbol? || item.ChoiceItem?
  }

  /** An entry below a node with this dependency and inside menus with this `visible if`. */
  function Inherit(e: Entry, base: Expr, visibleIf: Expr): Entry {
    var dep := MakeAnd(e.dep, base);
    var limit := if HoldsProps(e.item) then MakeAnd(visibleIf, dep) else dep;
    var prompt := if e.prompt.Some? then Some(MakeAnd(e.prompt.value, limit)) else None;
    if HoldsProps(e.item) then
      e.(dep := dep, prompt := prompt, defaults := Conjoin(e.defaults, dep), ranges := Conjoin(e.ranges, dep),
         selects := Conjoin(e.selects, dep), implies := Conjoin(e.implies, dep))
    else e.(dep := dep, prompt := prompt)
  }

  /** What children depend on: the mode of a choice, the dependency of any other node. */
  function BaseDep(e: Entry): Expr {
    if e.item.ChoiceItem? then Mode(e.item.choice) else e.dep
  }

  function VisibleIf(e: Entry, visibleIf: Expr): Expr {
    if e.item == Menu then MakeAnd(visibleIf, e.visibility) else visibleIf
  }

  /** `w` is `o` with everything handed down from a node with this dependency to the level `f`. */
  predicate Inherits(o: Entries, w: Entries, f: Forest, base: Expr, visibleIf: Expr) {
    f.Node? ==>
      && w(f.id) == Inherit(o(f.id), base, visibleIf)
      && Inherits(o, w, f.kids, BaseDep(w(f.id)), VisibleIf(w(f.id), visibleIf))
      && Inherits(o, w, f.rest, base, visibleIf)
  }

  /** The same for the levels below `f` only. */
  predicate InheritsBelow(o: Entries, w: Entries, f: Forest, visibleIf: Expr) {
    f.Node? ==>
      && Inherits(o, w, f.kids, BaseDep(w(f.id)), VisibleIf(w(f.id), visibleIf))
      && InheritsBelow(o, w, f.rest, visibleIf)
  }

  lemma InheritedBelow(o: Entries, w: Entries, f: Forest, base: Expr, visibleIf: Expr)
    requires Inherits(o, w, f, base, visibleIf)
    ensures InheritsBelow(o, w, f, visibleIf)
  {
  }

  /** Everything handed down, as far as the level `f` and what is below it is concerned. */
  ghost function Handed(o: Entries, f: Forest, base: Expr, visibleIf: Expr): Entries {
    if f.Nil? then o
    else
      var head := Inherit(o(f.id), base, visibleIf);
      var below := Handed(o, f.kids, BaseDep(head), VisibleIf(head, visibleIf));
      var after := Handed(o, f.rest, base, visibleIf);
      (i: NodeId) => if i == f.id then head else if i in Ids(f.kids) then below(i) else after(i)
  }

  lemma {:induction false} SameInherits(o: Entries, w: Entries, w': Entries, f: Forest, base: Expr, visibleIf: Expr)
    requires Inherits(o, w, f, base, visibleIf) && forall i <- Ids(f) :: w'(i) == w(i)
    ensures Inherits(o, w', f, base, visibleIf)
  {
    if f.Node? {
      SameInherits(o, w, w', f.kids, BaseDep(w(f.id)), VisibleIf(w(f.id), visibleIf));
      SameInherits(o, w, w', f.rest, base, visibleIf);
    }
  }

  /** Dependencies can be handed down in every tree. */
  lemma {:induction false} HandedInherits(o: Entries, f: Forest, base: Expr, visibleIf: Expr)
    requires Distinct(f)
    ensures Inherits(o, Handed(o, f, base, visibleIf), f, base, visibleIf)
    ensures forall i :: i !in Ids(f) ==> Handed(o, f, base, visibleIf)(i) == o(i)
    decreases f
  {
    hide Inherit, BaseDep, VisibleIf;
    if f.Node? {
      var head := Inherit(o(f.id), base, visibleIf);
      var w := Handed(o, f, base, visibleIf);
      HandedInherits(o, f.kids, BaseDep(head), VisibleIf(head, visibleIf));
      HandedInherits(o, f.rest, base, visibleIf);
      SameInherits(o, Handed(o, f.kids, BaseDep(head), VisibleIf(head, visibleIf)), w, f.kids,
                   BaseDep(head), VisibleIf(head, visibleIf));
      SameInherits(o, Handed(o, f.rest, base, visibleIf), w, f.rest, base, visibleIf);
    }
  }

  /** And it can be done in one way only. */
  lemma {:induction false} InheritsInOneWay(o: Entries, w: Entries, w': Entries, f: Forest, base: Expr, visibleIf: Expr)
    requires Inherits(o, w, f, base, visibleIf) && Inherits(o, w', f, base, visibleIf)
    ensures forall i <- Ids(f) :: w(i) == w'(i)
    decreases f
  {
    hide Inherit, BaseDep, VisibleIf;
    if f.Node? {
      InheritsInOneWay(o, w, w', f.kids, BaseDep(w(f.id)), VisibleIf(w(f.id), visibleIf));
      InheritsInOneWay(o, w, w', f.rest, base, visibleIf);
    }
  }

  /** The contents of a whole tree once everything is handed down from its top node. */
  ghost function Final(o: Entries, top: Forest): Entries
    requires top.Node?
  {
    Handed(o, top.kids, BaseDep(o(top.id)), VisibleIf(o(top.id), Y))
  }

  // ----- What it means -----

  /** A way down from the level `f`: a node of it, a child of that node, and so on. */
  predicate PathIn(f: Forest, path: seq<NodeId>)
    decreases f
  {
    && path != [] && f.Node?
    && ((path[0] == f.id && (|path| == 1 || PathIn(f.kids, path[1..]))) || PathIn(f.rest, path))
  }

  /** The position after the innermost choice that encloses the last node of the path. */
  function Start(o: Entries, path: seq<NodeId>): (i: nat)
    requires path != []
    ensures i < |path|
    ensures i > 0 ==> o(path[i - 1]).item.ChoiceItem?
    ensures forall j :: i <= j < |path| - 1 ==> !o(path[j]).item.ChoiceItem?
  {
    if |path| == 1 then 0
    else
      var k := Start(o, path[1..]);
      if k > 0 then k + 1 else if o(path[0]).item.ChoiceItem? then 1 else 0
  }

  /** The least of the dependencies written on the nodes of the path from `i` on. */
  function LeastDep(o: Entries, path: seq<NodeId>, i: nat, env: Env): Tri
    decreases |path| - i
  {
    if i >= |path| then 2 else Min(Value(o(path[i]).dep, env), LeastDep(o, path, i + 1, env))
  }

  /** The least `visible if` of the menus that enclose the last node of the path. */
  function LeastVisibleIf(o: Entries, path: seq<NodeId>, env: Env): Tri {
    if |path| <= 1 then 2
    else Min(if o(path[0]).item == Menu then Value(o(path[0]).visibility, env)
      else 2, LeastVisibleIf(o, path[1..], env))
  }

  /** The dependency a node ends up with, from the inside of a choice or from outside. */
  function EnclosingDep(o: Entries, path: seq<NodeId>, base: Tri, env: Env): Tri
    requires path != []
  {
    var i := Start(o, path);
    Min(LeastDep(o, path, i, env), if i == 0 then base else env.mode(o(path[i - 1]).item.choice))
  }

  /** The values of an inherited entry. */
  lemma InheritMeaning(e: Entry, base: Expr, visibleIf: Expr, env: Env)
    ensures var r := Inherit(e, base, visibleIf);
            && r.item == e.item && r.visibility == e.visibility && r.prompt.Some? == e.prompt.Some?
            && Value(r.dep, env) == Min(Value(e.dep, env), Value(base, env))
            && (e.prompt.Some? ==>
                  var own := Min(Value(e.prompt.value, env), Value(r.dep, env));
                  Value(r.prompt.value, env) == if HoldsProps(e.item) then Min(own, Value(visibleIf, env)) else own)
  {
  }

  /** What the children of an inherited entry start from. */
  lemma BaseMeaning(e: Entry, visibleIf: Expr, env: Env)
    ensures Value(BaseDep(e), env) == if e.item.ChoiceItem? then env.mode(e.item.choice) else Value(e.dep, env)
    ensures Value(VisibleIf(e, visibleIf), env)
         == Min(Value(visibleIf, env), if e.item == Menu then Value(e.visibility, env) else 2)
  {
  }

  lemma LeastDepTail(o: Entries, path: seq<NodeId>, i: nat, env: Env)
    requires path != []
    ensures LeastDep(o, path[1..], i, env) == LeastDep(o, path, i + 1, env)
    decreases |path| - i
  {
    if i + 1 < |path| {
      LeastDepTail(o, path, i + 1, env);
    }
  }

  /** Every node depends on exactly the least of its own and all enclosing dependencies. */
  lemma {:induction false} DepMeaning(o: Entries, w: Entries, f: Forest, base: Expr, visibleIf: Expr,
                                      path: seq<NodeId>, env: Env)
    requires Inherits(o, w, f, base, visibleIf) && PathIn(f, path)
    ensures Value(w(path[|path| - 1]).dep, env) == EnclosingDep(o, path, Value(base, env), env)
    decreases f
  {
    hide Inherit, BaseDep, VisibleIf, Value, HoldsProps, EnclosingDep;
    if path[0] == f.id && (|path| == 1 || PathIn(f.kids, path[1..])) {
      InheritMeaning(o(f.id), base, visibleIf, env);
      BaseMeaning(w(f.id), visibleIf, env);
      EnclosingStep(o, path, Value(base, env), env);
      if |path| > 1 {
        DepMeaning(o, w, f.kids, BaseDep(w(f.id)), VisibleIf(w(f.id), visibleIf), path[1..], env);
      }
    } else {
      DepMeaning(o, w, f.rest, base, visibleIf, path, env);
    }
  }

  /** One node further down: its own dependency joins in, unless it is a choice. */
  lemma EnclosingStep(o: Entries, path: seq<NodeId>, base: Tri, env: Env)
    requires path != []
    ensures var e := o(path[0]);
            var here := Min(Value(e.dep, env), base);
            EnclosingDep(o, path, base, env) ==
              if |path| == 1 then here
              else EnclosingDep(o, path[1..], if e.item.ChoiceItem? then env.mode(e.item.choice) else here, env)
  {
    hide Value;
    assert LeastDep(o, path, 0, env) == Min(Value(o(path[0]).dep, env), LeastDep(o, path, 1, env));
    if |path| > 1 {
      LeastDepTail(o, path, Start(o, path[1..]), env);
    }
  }

  /** The prompt of a symbol or choice is also limited by all enclosing `visible if`s. */
  lemma {:induction false} PromptMeaning(o: Entries, w: Entries, f: Forest, base: Expr, visibleIf: Expr,
                                         path: seq<NodeId>, env: Env)
    requires Inherits(o, w, f, base, visibleIf) && PathIn(f, path)
    ensures var id := path[|path| - 1];
            && w(id).item == o(id).item && w(id).prompt.Some? == o(id).prompt.Some?
            && (o(id).prompt.Some? ==>
                  var own := Min(Value(o(id).prompt.value, env), Value(w(id).dep, env));
                  var visible := Min(Value(visibleIf, env), LeastVisibleIf(o, path, env));
                  Value(w(id).prompt.value, env) == if HoldsProps(o(id).item) then Min(own, visible) else own)
    decreases f
  {
    hide Inherit, BaseDep, VisibleIf, Value, HoldsProps;
    if path[0] == f.id && (|path| == 1 || PathIn(f.kids, path[1..])) {
      InheritMeaning(o(f.id), base, visibleIf, env);
      BaseMeaning(w(f.id), visibleIf, env);
      if |path| > 1 {
        PromptMeaning(o, w, f.kids, BaseDep(w(f.id)), VisibleIf(w(f.id), visibleIf), path[1..], env);
      }
    } else {
      PromptMeaning(o, w, f.rest, base, visibleIf, path, env);
    }
  }

  /** Every other property of a symbol or choice is limited by the node's dependency. */
  ghost predicate Limited<T>(before: seq<Guarded<T>>, after: seq<Guarded<T>>, dep: Expr) {
    && |after| == |before|
    && forall i, env :: 0 <= i < |after| ==>
         after[i].what == before[i].what
           && Value(after[i].cond, env) == Min(Value(before[i].cond, env), Value(dep, env))
  }

  lemma {:induction false} PropertyMeaning(o: Entries, w: Entries, f: Forest, base: Expr, visibleIf: Expr,
                                           path: seq<NodeId>)
    requires Inherits(o, w, f, base, visibleIf) && PathIn(f, path)
    ensures var id := path[|path| - 1];
            HoldsProps(o(id).item) ==>
              && Limited(o(id).defaults, w(id).defaults, w(id).dep)
              && Limited(o(id).ranges, w(id).ranges, w(id).dep)
              && Limited(o(id).selects, w(id).selects, w(id).dep)
              && Limited(o(id).implies, w(id).implies, w(id).dep)
    decreases f
  {
    if path[0] == f.id && (|path| == 1 || PathIn(f.kids, path[1..])) {
      if |path| > 1 {
        PropertyMeaning(o, w, f.kids, BaseDep(w(f.id)), VisibleIf(w(f.id), visibleIf), path[1..]);
      }
    } else {
      PropertyMeaning(o, w, f.rest, base, visibleIf, path);
    }
  }

  /** Everything inside a choice is bounded by the choice's mode, through any number of ifs. */
  lemma {:induction false} ChoiceGuards(o: Entries, w: Entries, f: Forest, base: Expr, visibleIf: Expr,
                                        path: seq<NodeId>, c: ChoiceId)
    requires Inherits(o, w, f, base, visibleIf) && PathIn(f, path)
    requires if Start(o, path) > 0 then o(path[Start(o, path) - 1]).item == ChoiceItem(c) else GuardedBy(base, c)
    ensures var id := path[|path| - 1];
            GuardedBy(w(id).dep, c) && (w(id).prompt.Some? ==> GuardedBy(w(id).prompt.value, c))
    decreases f
  {
    if path[0] == f.id && (|path| == 1 || PathIn(f.kids, path[1..])) {
      if |path| > 1 {
        ChoiceGuards(o, w, f.kids, BaseDep(w(f.id)), VisibleIf(w(f.id), visibleIf), path[1..], c);
      }
    } else {
      ChoiceGuards(o, w, f.rest, base, visibleIf, path, c);
    }
  }

  // ----- What symbols collect -----

  datatype Props = Props(
    directDep: Expr,
    defaults: seq<Guarded<Expr>>,
    ranges: seq<Guarded<(Atom, Atom)>>,
    selects: seq<Guarded<SymId>>,
    implies: seq<Guarded<SymId>>)

  const NoProps := Props(N, [], [], [], [])

  /** Properties and reverse dependencies of the symbols that have any. */
  datatype Symbols = Symbols(props: map<SymId, Props>, rev: map<SymId, Expr>, weak: map<SymId, Expr>)

  const NoSymbols := Symbols(map[], map[], map[])

  function PropsOf(t: Symbols, s: SymId): Props {
    if s in t.props then t.props[s] else NoProps
  }

  function RevOf(rev: map<SymId, Expr>, s: SymId): Expr {
    if s in rev then rev[s] else N
  }

  /** The reverse dependencies after the symbol's first `n` selects (or implies) are added. */
  function AddRev(rev: map<SymId, Expr>, s: SymId, selects: seq<Guarded<SymId>>, n: nat): map<SymId, Expr>
    requires n <= |selects|
  {
    if n == 0 then rev
    else
      var before := AddRev(rev, s, selects, n - 1);
      var g := selects[n - 1];
      before[g.what := MakeOr(RevOf(before, g.what), MakeAnd(Leaf(Sym(s)), g.cond))]
  }

  function AddProps(t: Symbols, s: SymId, e: Entry): Symbols {
    var p := PropsOf(t, s);
    var p' := Props(MakeOr(p.directDep, e.dep), p.defaults + e.defaults, p.ranges + e.ranges,
                    p.selects + e.selects, p.implies + e.implies);
    Symbols(t.props[s := p'], AddRev(t.rev, s, e.selects, |e.selects|), AddRev(t.weak, s, e.implies, |e.implies|))
  }

  /** The symbols after these nodes were finalised in this order. */
  function Collected(w: Entries, nodes: seq<NodeId>): Symbols {
    if nodes == [] then NoSymbols
    else
      var before := Collected(w, nodes[..|nodes| - 1]);
      var e := w(nodes[|nodes| - 1]);
      if e.item.Symbol? then AddProps(before, e.item.sym, e) else before
  }

  /** `x` is the largest value any select (or imply) of these nodes gives to `target`. */
  ghost predicate IsLargest(w: Entries, nodes: seq<NodeId>, target: SymId, weak: bool, env: Env, x: Tri) {
    && (forall i, k :: Gives(w, nodes, i, k, target, weak) ==> Given(w, nodes[i], k, weak, env) <= x)
    && (x == 0 || exists i, k :: Gives(w, nodes, i, k, target, weak) && Given(w, nodes[i], k, weak, env) == x)
  }

  function Targets(e: Entry, weak: bool): seq<Guarded<SymId>> {
    if weak then e.implies else e.selects
  }

  predicate Gives(w: Entries, nodes: seq<NodeId>, i: int, k: int, target: SymId, weak: bool) {
    && 0 <= i < |nodes| && w(nodes[i]).item.Symbol?
    && 0 <= k < |Targets(w(nodes[i]), weak)| && Targets(w(nodes[i]), weak)[k].what == target
  }

  function Given(w: Entries, id: NodeId, k: int, weak: bool, env: Env): Tri
    requires w(id).item.Symbol? && 0 <= k < |Targets(w(id), weak)|
  {
    Offer(w(id).item.sym, Targets(w(id), weak)[k], env)
  }

  function Offer(s: SymId, g: Guarded<SymId>, env: Env): Tri {
    Min(Value(Leaf(Sym(s)), env), Value(g.cond, env))
  }

  /** `after` is the largest of `before` and what the first `n` selects offer to the target. */
  ghost predicate Raises(s: SymId, selects: seq<Guarded<SymId>>, n: nat, target: SymId, env: Env, before: Tri,
                         after: Tri)
    requires n <= |selects|
  {
    && before <= after
    && (forall k :: 0 <= k < n && selects[k].what == target ==> Offer(s, selects[k], env) <= after)
    && (after == before || exists k :: 0 <= k < n && selects[k].what == target && Offer(s, selects[k], env) == after)
  }

  /** A step of AddRev raises the value of its target, and no other. */
  lemma {:induction false} AddRevMeaning(rev: map<SymId, Expr>, s: SymId, selects: seq<Guarded<SymId>>, n: nat,
                                         target: SymId, env: Env)
    requires n <= |selects|
    ensures Raises(s, selects, n, target, env, Value(RevOf(rev, target), env),
                   Value(RevOf(AddRev(rev, s, selects, n), target), env))
  {
    hide Value;
    if n > 0 {
      AddRevMeaning(rev, s, selects, n - 1, target, env);
      var g := selects[n - 1];
      var middle := Value(RevOf(AddRev(rev, s, selects, n - 1), target), env);
      var after := Value(RevOf(AddRev(rev, s, selects, n), target), env);
      OrAndMeaning(RevOf(AddRev(rev, s, selects, n - 1), target), s, g, env);
      assert after == if g.what == target then Max(middle, Offer(s, g, env)) else middle;
    }
  }

  lemma OrAndMeaning(e: Expr, s: SymId, g: Guarded<SymId>, env: Env)
    ensures Value(MakeOr(e, MakeAnd(Leaf(Sym(s)), g.cond)), env) == Max(Value(e, env), Offer(s, g, env))
  {
  }

  function RevAfter(w: Entries, nodes: seq<NodeId>, weak: bool): map<SymId, Expr> {
    if weak then Collected(w, nodes).weak else Collected(w, nodes).rev
  }

  /** Each reverse dependency is the largest of min(selector, condition) over all its selects. */
  lemma {:induction false} RevDepMeaning(w: Entries, nodes: seq<NodeId>, target: SymId, weak: bool, env: Env)
    ensures IsLargest(w, nodes, target, weak, env, Value(RevOf(RevAfter(w, nodes, weak), target), env))
  {
    if nodes != [] {
      var n := |nodes| - 1;
      var before, e := nodes[..n], w(nodes[n]);
      RevDepMeaning(w, before, target, weak, env);
      var rev := RevAfter(w, before, weak);
      var x, y := Value(RevOf(rev, target), env), Value(RevOf(RevAfter(w, nodes, weak), target), env);
      if e.item.Symbol? {
        AddRevMeaning(rev, e.item.sym, Targets(e, weak), |Targets(e, weak)|, target, env);
      }
      LargestStep(w, nodes, target, weak, env, x, y);
    }
  }

  lemma LargestStep(w: Entries, nodes: seq<NodeId>, target: SymId, weak: bool, env: Env, x: Tri, y: Tri)
    requires nodes != [] && IsLargest(w, nodes[..|nodes| - 1], target, weak, env, x)
    requires var e := w(nodes[|nodes| - 1]);
             if e.item.Symbol? then Raises(e.item.sym, Targets(e, weak), |Targets(e, weak)|, target, env, x, y)
               else x == y
    ensures IsLargest(w, nodes, target, weak, env, y)
  {
    hide Offer, Value, Targets;
    var n := |nodes| - 1;
    var before, e := nodes[..n], w(nodes[n]);
    var t := Targets(e, weak);
    forall i, k | Gives(w, nodes, i, k, target, weak) ensures Given(w, nodes[i], k, weak, env) <= y {
      assert i < n ==> Gives(w, before, i, k, target, weak) && before[i] == nodes[i];
    }
    if y != 0 {
      if y == x {
        var i, k :| Gives(w, before, i, k, target, weak) && Given(w, before[i], k, weak, env) == x;
        assert Gives(w, nodes, i, k, target, weak) && before[i] == nodes[i];
      } else {
        var k :| 0 <= k < |t| && t[k].what == target && Offer(e.item.sym, t[k], env) == y;
        assert Gives(w, nodes, n, k, target, weak) && Given(w, nodes[n], k, weak, env) == y;
      }
    }
  }

  predicate Defines(w: Entries, nodes: seq<NodeId>, i: int, s: SymId) {
    0 <= i < |nodes| && w(nodes[i]).item == Symbol(s)
  }

  /** A symbol's direct dependency is the largest dependency of its definitions. */
  lemma {:induction false} DirectDepMeaning(w: Entries, nodes: seq<NodeId>, s: SymId, env: Env)
    ensures var x := Value(PropsOf(Collected(w, nodes), s).directDep, env);
            && (forall i :: Defines(w, nodes, i, s) ==> Value(w(nodes[i]).dep, env) <= x)
            && (x == 0 || exists i :: Defines(w, nodes, i, s) && Value(w(nodes[i]).dep, env) == x)
  {
    hide AddRev;
    if nodes != [] {
      var n := |nodes| - 1;
      var before, e := nodes[..n], w(nodes[n]);
      DirectDepMeaning(w, before, s, env);
      var x := Value(PropsOf(Collected(w, before), s).directDep, env);
      var y := Value(PropsOf(Collected(w, nodes), s).directDep, env);
      assert y == if e.item == Symbol(s) then Max(x, Value(e.dep, env)) else x;
      hide Collected, PropsOf, Value;
      forall i | Defines(w, nodes, i, s) ensures Value(w(nodes[i]).dep, env) <= y {
        assert i < n ==> Defines(w, before, i, s) && before[i] == nodes[i];
      }
      if y != 0 {
        if y == x {
          var i :| Defines(w, before, i, s) && Value(w(before[i]).dep, env) == x;
          assert Defines(w, nodes, i, s) && before[i] == nodes[i];
        } else {
          assert Defines(w, nodes, n, s) && Value(w(nodes[n]).dep, env) == y;
        }
      }
    }
  }

  // ----- The order of properties -----

  /** What the nodes that define the symbol have, node by node. */
  ghost function Parts<T>(w: Entries, nodes: seq<NodeId>, s: SymId, prop: Entry -> seq<T>): seq<seq<T>> {
    seq(|nodes|, i requires 0 <= i < |nodes| => if w(nodes[i]).item == Symbol(s) then prop(w(nodes[i])) else [])
  }

  lemma PartsStep<T>(w: Entries, nodes: seq<NodeId>, s: SymId, prop: Entry -> seq<T>)
    requires nodes != []
    ensures var n := |nodes| - 1;
            Parts(w, nodes, s, prop) ==
            Parts(w, nodes[..n], s, prop) + [if w(nodes[n]).item == Symbol(s) then prop(w(nodes[n])) else []]
  {
  }

  ghost function DefaultsIn(): Entry -> seq<Guarded<Expr>> { (e: Entry) => e.defaults }
  ghost function RangesIn(): Entry -> seq<Guarded<(Atom, Atom)>> { (e: Entry) => e.ranges }
  ghost function SelectsIn(): Entry -> seq<Guarded<SymId>> { (e: Entry) => e.selects }
  ghost function ImpliesIn(): Entry -> seq<Guarded<SymId>> { (e: Entry) => e.implies }

  /** A symbol has the defaults, ranges, selects and implies of its definitions and no others, those
      of an earlier definition first. */
  lemma {:induction false} PropertiesInOrder(w: Entries, nodes: seq<NodeId>, s: SymId)
    ensures var p := PropsOf(Collected(w, nodes), s);
            && InOrder(Parts(w, nodes, s, DefaultsIn()), p.defaults)
            && InOrder(Parts(w, nodes, s, RangesIn()), p.ranges)
            && InOrder(Parts(w, nodes, s, SelectsIn()), p.selects)
            && InOrder(Parts(w, nodes, s, ImpliesIn()), p.implies)
  {
    hide AddRev, InOrder, Parts;
    if nodes == [] {
      NoParts(w, s, DefaultsIn());
      NoParts(w, s, RangesIn());
      NoParts(w, s, SelectsIn());
      NoParts(w, s, ImpliesIn());
    } else {
      var n := |nodes| - 1;
      var p := PropsOf(Collected(w, nodes[..n]), s);
      PropertiesInOrder(w, nodes[..n], s);
      NextPart(w, nodes, s, DefaultsIn(), p.defaults);
      NextPart(w, nodes, s, RangesIn(), p.ranges);
      NextPart(w, nodes, s, SelectsIn(), p.selects);
      NextPart(w, nodes, s, ImpliesIn(), p.implies);
    }
  }

  lemma NoParts<T>(w: Entries, s: SymId, prop: Entry -> seq<T>)
    ensures InOrder(Parts(w, [], s, prop), [])
  {
  }

  lemma NextPart<T>(w: Entries, nodes: seq<NodeId>, s: SymId, prop: Entry -> seq<T>, all: seq<T>)
    requires nodes != [] && InOrder(Parts(w, nodes[..|nodes| - 1], s, prop), all)
    ensures var e := w(nodes[|nodes| - 1]);
            InOrder(Parts(w, nodes, s, prop), if e.item == Symbol(s) then all + prop(e) else all)
  {
    hide InOrder, Parts;
    var e := w(nodes[|nodes| - 1]);
    var part := if e.item == Symbol(s) then prop(e) else [];
    OneMorePart(Parts(w, nodes[..|nodes| - 1], s, prop), all, part);
    PartsStep(w, nodes, s, prop);
    assert all + [] == all;
  }
}
