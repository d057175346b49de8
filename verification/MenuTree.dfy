/**
  What finalising does to the shape of the menu tree. A forest is a level of the tree: a node,
  the level below it, and the rest of its own level. Finalising moves the entries that depend on
  a symbol below it, lifts the children of nodes that are not shown, and drops the if nodes.
 */
module MenuTree {
  import opened Expressions

  type NodeId = nat

  /** A property and its condition. */
  datatype Guarded<T> = Guarded(what: T, cond: Expr)

  datatype MenuItem = If | Menu | Comment | Symbol(sym: SymId) | ChoiceItem(choice: ChoiceId)

  /** The contents of a menu node; `prompt` is the condition of the prompt, if there is one. */
  datatype Entry = Entry(
    item: MenuItem,
    prompt: Option<Expr>,
    dep: Expr,
    visibility: Expr,
    defaults: seq<Guarded<Expr>>,
    ranges: seq<Guarded<(Atom, Atom)>>,
    selects: seq<Guarded<SymId>>,
    implies: seq<Guarded<SymId>>)

  type Entries = NodeId -> Entry

  datatype Forest = Nil | Node(id: NodeId, kids: Forest, rest: Forest)

  function Size(f: Forest): nat {
    if f.Nil? then 0 else 1 + Size(f.kids) + Size(f.rest)
  }

  function Ids(f: Forest): set<NodeId> {
    if f.Nil? then {} else {f.id} + Ids(f.kids) + Ids(f.rest)
  }

  /** No node occurs twice. */
  predicate Distinct(f: Forest) {
    f.Nil? || (
      && f.id !in Ids(f.kids) && f.id !in Ids(f.rest) && Ids(f.kids) !! Ids(f.rest)
      && Distinct(f.kids) && Distinct(f.rest))
  }

  /** Definition order: a node, what is below it, and then the rest of its level. */
  function Preorder(f: Forest): seq<NodeId> {
    if f.Nil? then [] else [f.id] + Preorder(f.kids) + Preorder(f.rest)
  }

  function Append(f: Forest, g: Forest): Forest {
    if f.Nil? then g else Node(f.id, f.kids, Append(f.rest, g))
  }

  lemma AppendSize(f: Forest, g: Forest)
    ensures Size(Append(f, g)) == Size(f) + Size(g)
  {
  }

  lemma AppendIds(f: Forest, g: Forest)
    ensures Ids(Append(f, g)) == Ids(f) + Ids(g)
  {
  }

  lemma {:induction false} AppendPreorder(f: Forest, g: Forest)
    ensures Preorder(Append(f, g)) == Preorder(f) + Preorder(g)
  {
    if f.Node? {
      AppendPreorder(f.rest, g);
      Regrouped([f.id] + Preorder(f.kids), Preorder(f.rest), Preorder(g));
    }
  }

  lemma Regrouped(a: seq<NodeId>, b: seq<NodeId>, c: seq<NodeId>)
    ensures a + (b + c) == a + b + c
  {
  }

  lemma AppendDistinct(f: Forest, g: Forest)
    ensures Distinct(Append(f, g)) <==> Distinct(f) && Distinct(g) && Ids(f) !! Ids(g)
  {
    if f.Node? {
      AppendIds(f.rest, g);
    }
  }

  lemma AppendTwice(f: Forest, g: Forest, k: Forest)
    ensures Append(Append(f, g), k) == Append(f, Append(g, k))
  {
  }

  // ----- The steps -----

  /** Whether an implicit menu is built on this dependency: a quirk counts `sym != y` as well. */
  predicate ExprDependsOn(e: Expr, s: SymId) {
    match e
    case Leaf(a) => a == Sym(s)
    case Cmp(rel, a, b) =>
      if (rel != Equal && rel != Unequal) || (a != Sym(s) && b != Sym(s)) then false
      else
        var other := if b == Sym(s) then a else b;
        (rel == Equal && other == TriConst(1)) || other == TriConst(2) || (rel == Unequal && other == TriConst(0))
    case And(l, r) => ExprDependsOn(l, s) || ExprDependsOn(r, s)
    case _ => false
  }

  predicate AutoMenuDep(s: SymId, e: Entry) {
    ExprDependsOn(ShownIf(e), s)
  }

  /** What the condition under which an entry is shown is. */
  function ShownIf(e: Entry): Expr {
    if e.prompt.Some? then e.prompt.value else e.dep
  }

  /** Nodes without a prompt are not shown as menus; choices are, all the same. */
  predicate Flattens(e: Entry) {
    e.prompt.None? && !e.item.ChoiceItem?
  }

  /** The level with the children of nodes that are not shown moved behind them. */
  function Flatten(w: Entries, f: Forest): Forest
    decreases Size(f)
  {
    if f.Nil? then Nil
    else if f.kids.Node? && Flattens(w(f.id)) then
      AppendSize(f.kids, f.rest);
      Node(f.id, Nil, Flatten(w, Append(f.kids, f.rest)))
    else Node(f.id, f.kids, Flatten(w, f.rest))
  }

  function RemoveIfs(w: Entries, f: Forest): Forest {
    if f.Nil? then Nil
    else if w(f.id).item == If then RemoveIfs(w, f.rest)
    else Node(f.id, f.kids, RemoveIfs(w, f.rest))
  }

  /** A finished level below a node. */
  function Tidy(w: Entries, f: Forest): Forest {
    RemoveIfs(w, Flatten(w, f))
  }

  /** Finalising the first node; it may take nodes from the rest of its level. */
  function FinalHead(w: Entries, f: Forest): (r: Forest)
    requires f.Node?
    ensures r.Node? && r.id == f.id && Size(r.rest) < Size(f)
    decreases Size(f), 1
  {
    if w(f.id).item.Symbol? then
      var (below, rest) := Absorb(w, w(f.id).item.sym, f.rest);
      Node(f.id, if below.Nil? then Tidy(w, f.kids) else Tidy(w, below), rest)
    else Node(f.id, Tidy(w, FinalLevel(w, f.kids)), f.rest)
  }

  /** The finalised nodes that follow and depend on the symbol, and the rest of the level. */
  function Absorb(w: Entries, s: SymId, f: Forest): (r: (Forest, Forest))
    ensures Size(r.1) <= Size(f)
    decreases Size(f), 2
  {
    if f.Nil? || !AutoMenuDep(s, w(f.id)) then (Nil, f)
    else
      var head := FinalHead(w, f);
      var (below, rest) := Absorb(w, s, head.rest);
      (Node(head.id, head.kids, below), rest)
  }

  function FinalLevel(w: Entries, f: Forest): Forest
    decreases Size(f), 2
  {
    if f.Nil? then Nil
    else
      var head := FinalHead(w, f);
      Node(head.id, head.kids, FinalLevel(w, head.rest))
  }

  // ----- What an implicit menu promises -----

  predicate Compares(e: Expr, rel: Relation, s: SymId, t: Tri) {
    e == Cmp(rel, Sym(s), TriConst(t)) || e == Cmp(rel, TriConst(t), Sym(s))
  }

  /** Some conjunct is one of the forms that are meant to count: s, s = m, s = y and s != n. */
  predicate RequiresSymbol(e: Expr, s: SymId) {
    || e == Leaf(Sym(s))
    || Compares(e, Equal, s, 1) || Compares(e, Equal, s, 2) || Compares(e, Unequal, s, 0)
    || (e.And? && (RequiresSymbol(e.left, s) || RequiresSymbol(e.right, s)))
  }

  /** Some conjunct is s != y. */
  predicate RequiresNotY(e: Expr, s: SymId) {
    || Compares(e, Unequal, s, 2)
    || (e.And? && (RequiresNotY(e.left, s) || RequiresNotY(e.right, s)))
  }

  /** The code counts the forms that are meant to count, and s != y besides. */
  lemma {:induction false} DependsOnIff(e: Expr, s: SymId)
    ensures ExprDependsOn(e, s) <==> RequiresSymbol(e, s) || RequiresNotY(e, s)
  {
    if e.And? {
      DependsOnIff(e.left, s);
      DependsOnIff(e.right, s);
    }
  }

  /** What is meant to count hides an entry while the symbol is n. */
  lemma {:induction false} RequiredSymbolHides(e: Expr, s: SymId, env: Env)
    requires RequiresSymbol(e, s) && IsBoolTristate(env.typ(s)) && env.tri(s) == 0
    ensures Value(e, env) == 0
  {
    if e.And? {
      if RequiresSymbol(e.left, s) { RequiredSymbolHides(e.left, s, env); }
        else { RequiredSymbolHides(e.right, s, env); }
    }
  }

  /** What counts besides does not: such an entry is shown exactly while the symbol is n or m. */
  lemma NotYDoesNotHide(s: SymId, env: Env)
    requires IsBoolTristate(env.typ(s))
    ensures var e := Cmp(Unequal, Sym(s), TriConst(2));
            ExprDependsOn(e, s) && !RequiresSymbol(e, s) && (Value(e, env) == 2 <==> env.tri(s) != 2)
  {
  }

  /** A node of this level. */
  predicate OnLevel(f: Forest, id: NodeId) {
    f.Node? && (f.id == id || OnLevel(f.rest, id))
  }

  /** Exactly the nodes that follow without a gap and depend on the symbol are moved below it. */
  lemma {:induction false} AbsorbedDepend(w: Entries, s: SymId, f: Forest)
    ensures var (below, rest) := Absorb(w, s, f);
            && (forall id :: OnLevel(below, id) ==> AutoMenuDep(s, w(id)))
            && (rest.Node? ==> !AutoMenuDep(s, w(rest.id)))
    decreases Size(f)
  {
    hide AutoMenuDep, FinalHead;
    if f.Node? && AutoMenuDep(s, w(f.id)) {
      AbsorbedDepend(w, s, FinalHead(w, f).rest);
    }
  }

  /** An entry moved below a symbol is hidden while the symbol is n, unless s != y moved it there. */
  lemma AbsorbedIsHidden(w: Entries, s: SymId, f: Forest, id: NodeId, env: Env)
    requires OnLevel(Absorb(w, s, f).0, id) && IsBoolTristate(env.typ(s)) && env.tri(s) == 0
    ensures Value(ShownIf(w(id)), env) == 0 || RequiresNotY(ShownIf(w(id)), s)
  {
    AbsorbedDepend(w, s, f);
    DependsOnIff(ShownIf(w(id)), s);
    if RequiresSymbol(ShownIf(w(id)), s) {
      RequiredSymbolHides(ShownIf(w(id)), s, env);
    }
  }

  // ----- What a finished level shows -----

  /** Nothing on this level that is not shown as a menu has children. */
  predicate NoHiddenMenus(w: Entries, f: Forest) {
    f.Node? ==>
      && (w(f.id).prompt.None? && !w(f.id).item.ChoiceItem? ==> f.kids.Nil?)
      && NoHiddenMenus(w, f.rest)
  }

  /** A node of this level with these children. */
  predicate HasMenu(f: Forest, id: NodeId, kids: Forest) {
    f.Node? && ((f.id == id && f.kids == kids) || HasMenu(f.rest, id, kids))
  }

  lemma {:induction false} FlattenShows(w: Entries, f: Forest)
    ensures NoHiddenMenus(w, Flatten(w, f))
    decreases Size(f)
  {
    if f.Node? {
      if f.kids.Node? && Flattens(w(f.id)) {
        AppendSize(f.kids, f.rest);
        FlattenShows(w, Append(f.kids, f.rest));
      } else {
        FlattenShows(w, f.rest);
      }
    }
  }

  lemma {:induction false} MenuInAppend(f: Forest, g: Forest, id: NodeId, kids: Forest)
    requires HasMenu(g, id, kids)
    ensures HasMenu(Append(f, g), id, kids)
  {
    if f.Node? { MenuInAppend(f.rest, g, id, kids); }
  }

  lemma {:induction false} FlattenKeepsMenus(w: Entries, f: Forest, id: NodeId, kids: Forest)
    requires HasMenu(f, id, kids) && (w(id).prompt.Some? || w(id).item.ChoiceItem?)
    ensures HasMenu(Flatten(w, f), id, kids)
    decreases Size(f)
  {
    if f.kids.Node? && Flattens(w(f.id)) {
      AppendSize(f.kids, f.rest);
      MenuInAppend(f.kids, f.rest, id, kids);
      FlattenKeepsMenus(w, Append(f.kids, f.rest), id, kids);
    } else if !(f.id == id && f.kids == kids) {
      FlattenKeepsMenus(w, f.rest, id, kids);
    }
  }

  lemma {:induction false} RemoveIfsShows(w: Entries, f: Forest)
    requires NoHiddenMenus(w, f)
    ensures NoHiddenMenus(w, RemoveIfs(w, f))
  {
    if f.Node? { RemoveIfsShows(w, f.rest); }
  }

  lemma {:induction false} RemoveIfsKeepsMenus(w: Entries, f: Forest, id: NodeId, kids: Forest)
    requires HasMenu(f, id, kids) && w(id).item != If
    ensures HasMenu(RemoveIfs(w, f), id, kids)
  {
    if !(f.id == id && f.kids == kids) { RemoveIfsKeepsMenus(w, f.rest, id, kids); }
  }

  /** On a finished level only menus that are shown have children, and every menu that is shown has
      those it had. */
  lemma TidyShows(w: Entries, f: Forest, id: NodeId, kids: Forest)
    requires HasMenu(f, id, kids) && (w(id).prompt.Some? || w(id).item.ChoiceItem?) && w(id).item != If
    ensures NoHiddenMenus(w, Tidy(w, f)) && HasMenu(Tidy(w, f), id, kids)
  {
    FlattenShows(w, f);
    FlattenKeepsMenus(w, f, id, kids);
    RemoveIfsShows(w, Flatten(w, f));
    RemoveIfsKeepsMenus(w, Flatten(w, f), id, kids);
  }

  // ----- Order and if nodes -----

  /** The nodes that are not ifs. */
  function Keep(w: Entries, ids: seq<NodeId>): seq<NodeId> {
    if ids == [] then []
    else (if w(ids[0]).item == If then [] else [ids[0]]) + Keep(w, ids[1..])
  }

  lemma {:induction false} KeepAppend(w: Entries, a: seq<NodeId>, b: seq<NodeId>)
    ensures Keep(w, a + b) == Keep(w, a) + Keep(w, b)
  {
    if a == [] {
      assert a + b == b;
    } else {
      assert (a + b)[1..] == a[1..] + b;
      KeepAppend(w, a[1..], b);
    }
  }

  predicate NoIfs(w: Entries, f: Forest) {
    f.Node? ==> w(f.id).item != If && NoIfs(w, f.kids) && NoIfs(w, f.rest)
  }

  /** No ifs below the nodes of this level. */
  predicate NoIfsBelow(w: Entries, f: Forest) {
    f.Node? ==> NoIfs(w, f.kids) && NoIfsBelow(w, f.rest)
  }

  predicate IfsAreLeaves(w: Entries, f: Forest) {
    f.Node? ==> (w(f.id).item == If ==> f.kids.Nil?) && IfsAreLeaves(w, f.rest)
  }

  /** An if node has no prompt. */
  ghost predicate IfsHidden(w: Entries) {
    forall i :: w(i).item == If ==> w(i).prompt.None?
  }

  /** Only finalising gives a symbol children. */
  predicate SymbolsAreLeaves(w: Entries, f: Forest) {
    f.Node? ==>
      && (w(f.id).item.Symbol? ==> f.kids.Nil?)
      && SymbolsAreLeaves(w, f.kids) && SymbolsAreLeaves(w, f.rest)
  }

  predicate SuffixOf(g: Forest, f: Forest) {
    g == f || (f.Node? && SuffixOf(g, f.rest))
  }

  lemma NoIfsAppend(w: Entries, f: Forest, g: Forest)
    requires NoIfs(w, f) && NoIfsBelow(w, g)
    ensures NoIfsBelow(w, Append(f, g))
  {
  }

  lemma {:induction false} FlattenKeeps(w: Entries, f: Forest)
    requires NoIfsBelow(w, f)
    ensures Preorder(Flatten(w, f)) == Preorder(f)
    ensures NoIfsBelow(w, Flatten(w, f))
    decreases Size(f)
  {
    if f.Node? {
      if f.kids.Node? && Flattens(w(f.id)) {
        AppendSize(f.kids, f.rest);
        NoIfsAppend(w, f.kids, f.rest);
        FlattenKeeps(w, Append(f.kids, f.rest));
        AppendPreorder(f.kids, f.rest);
        assert [f.id] + [] + (Preorder(f.kids) + Preorder(f.rest)) == Preorder(f);
      } else {
        FlattenKeeps(w, f.rest);
      }
    }
  }

  lemma FlattenLeaves(w: Entries, f: Forest)
    requires IfsHidden(w)
    ensures IfsAreLeaves(w, Flatten(w, f))
    decreases Size(f)
  {
    if f.Node? {
      if f.kids.Node? && Flattens(w(f.id)) {
        AppendSize(f.kids, f.rest);
        FlattenLeaves(w, Append(f.kids, f.rest));
      } else {
        FlattenLeaves(w, f.rest);
      }
    }
  }

  lemma {:induction false} KeepAll(w: Entries, f: Forest)
    requires NoIfs(w, f)
    ensures Keep(w, Preorder(f)) == Preorder(f)
  {
    if f.Node? {
      KeepAll(w, f.kids);
      KeepAll(w, f.rest);
      KeepNode(w, f);
    }
  }

  lemma KeepNode(w: Entries, f: Forest)
    requires f.Node?
    ensures Keep(w, Preorder(f)) == Keep(w, [f.id]) + Keep(w, Preorder(f.kids)) + Keep(w, Preorder(f.rest))
  {
    KeepAppend(w, [f.id] + Preorder(f.kids), Preorder(f.rest));
    KeepAppend(w, [f.id], Preorder(f.kids));
  }

  lemma KeepNil(w: Entries)
    ensures Preorder(Nil) == [] && Keep(w, Preorder(Nil)) == []
  {
  }

  lemma KeepOne(w: Entries, id: NodeId)
    ensures Keep(w, [id]) == if w(id).item == If then [] else [id]
  {
    assert [id][1..] == [];
  }

  lemma {:induction false} RemoveIfsKeeps(w: Entries, f: Forest)
    requires NoIfsBelow(w, f) && IfsAreLeaves(w, f)
    ensures NoIfs(w, RemoveIfs(w, f))
    ensures Preorder(RemoveIfs(w, f)) == Keep(w, Preorder(f))
  {
    KeepNil(w);
    hide Keep;
    if f.Node? {
      RemoveIfsKeeps(w, f.rest);
      KeepNode(w, f);
      KeepOne(w, f.id);
      KeepAll(w, f.kids);
    }
  }

  /** A tidied level has no ifs left and keeps everything else in order. */
  lemma TidyKeeps(w: Entries, f: Forest)
    requires IfsHidden(w) && NoIfsBelow(w, f)
    ensures NoIfs(w, Tidy(w, f))
    ensures Preorder(Tidy(w, f)) == Keep(w, Preorder(f))
  {
    FlattenKeeps(w, f);
    FlattenLeaves(w, f);
    RemoveIfsKeeps(w, Flatten(w, f));
  }

  lemma SuffixIsLeafy(w: Entries, g: Forest, f: Forest)
    requires SuffixOf(g, f) && SymbolsAreLeaves(w, f)
    ensures SymbolsAreLeaves(w, g)
  {
  }

  lemma SuffixOfSuffix(k: Forest, g: Forest, f: Forest)
    requires SuffixOf(k, g) && SuffixOf(g, f)
    ensures SuffixOf(k, f)
  {
  }

  lemma TidyNothing(w: Entries)
    ensures Tidy(w, Nil) == Nil
  {
  }

  lemma {:induction false} FinalHeadKeeps(w: Entries, f: Forest)
    requires f.Node? && IfsHidden(w) && SymbolsAreLeaves(w, f)
    ensures var h := FinalHead(w, f);
            && NoIfs(w, h.kids) && SuffixOf(h.rest, f.rest)
            && Keep(w, Preorder(f)) == Keep(w, [f.id]) + Preorder(h.kids) + Keep(w, Preorder(h.rest))
    decreases Size(f), 1
  {
    hide Keep, Preorder, Tidy, Absorb, FinalLevel, NoIfs, NoIfsBelow, IfsHidden;
    KeepNode(w, f);
    if w(f.id).item.Symbol? {
      KeepNil(w);
      TidyNothing(w);
      var s := w(f.id).item.sym;
      var (below, rest) := Absorb(w, s, f.rest);
      AbsorbKeeps(w, s, f.rest);
      TidyKeeps(w, below);
      assert FinalHead(w, f).kids == Tidy(w, below);
      assert Keep(w, [f.id]) + [] + (Keep(w, Preorder(below)) + Keep(w, Preorder(rest)))
          == Keep(w, [f.id]) + Keep(w, Preorder(below)) + Keep(w, Preorder(rest));
    } else {
      FinalLevelKeeps(w, f.kids);
      TidyKeeps(w, FinalLevel(w, f.kids));
    }
  }

  lemma {:induction false} AbsorbKeeps(w: Entries, s: SymId, f: Forest)
    requires IfsHidden(w) && SymbolsAreLeaves(w, f)
    ensures var (below, rest) := Absorb(w, s, f);
            && NoIfsBelow(w, below) && SuffixOf(rest, f)
            && Keep(w, Preorder(f)) == Keep(w, Preorder(below)) + Keep(w, Preorder(rest))
    decreases Size(f), 2
  {
    KeepNil(w);
    hide Keep, Preorder, FinalHead, IfsHidden;
    var (below, rest) := Absorb(w, s, f);
    if below.Node? {
      var head := FinalHead(w, f);
      FinalHeadKeeps(w, f);
      SuffixIsLeafy(w, head.rest, f.rest);
      AbsorbKeeps(w, s, head.rest);
      SuffixOfSuffix(rest, head.rest, f.rest);
      KeepNode(w, below);
      KeepAll(w, head.kids);
    }
  }

  lemma {:induction false} FinalLevelKeeps(w: Entries, f: Forest)
    requires IfsHidden(w) && SymbolsAreLeaves(w, f)
    ensures NoIfsBelow(w, FinalLevel(w, f))
    ensures Keep(w, Preorder(FinalLevel(w, f))) == Keep(w, Preorder(f))
    decreases Size(f), 2
  {
    if f.Node? {
      var head := FinalHead(w, f);
      FinalHeadKeeps(w, f);
      SuffixIsLeafy(w, head.rest, f.rest);
      FinalLevelKeeps(w, head.rest);
      KeepNode(w, FinalLevel(w, f));
      KeepAll(w, head.kids);
    }
  }

  /** The finalised tree has no if nodes and lists all other nodes in definition order. */
  lemma FinalisingKeepsOrder(w: Entries, top: Forest)
    requires IfsHidden(w) && SymbolsAreLeaves(w, top)
    requires top.Node? && top.rest.Nil? && w(top.id).item == Menu
    ensures NoIfs(w, FinalHead(w, top))
    ensures Preorder(FinalHead(w, top)) == Keep(w, Preorder(top))
  {
    hide Keep, FinalHead, IfsHidden;
    var h := FinalHead(w, top);
    FinalHeadKeeps(w, top);
    KeepNil(w);
    KeepOne(w, top.id);
    assert Preorder(h) == [h.id] + Preorder(h.kids) + Preorder(h.rest);
  }

  // ----- No node is duplicated -----

  lemma {:induction false} TidyIds(w: Entries, f: Forest)
    requires Distinct(f)
    ensures Distinct(Flatten(w, f)) && Ids(Flatten(w, f)) == Ids(f)
    ensures Distinct(Tidy(w, f)) && Ids(Tidy(w, f)) <= Ids(f)
  {
    FlattenIds(w, f);
    RemoveIfsIds(w, Flatten(w, f));
  }

  lemma {:induction false} FlattenIds(w: Entries, f: Forest)
    requires Distinct(f)
    ensures Distinct(Flatten(w, f)) && Ids(Flatten(w, f)) == Ids(f)
    decreases Size(f)
  {
    if f.Node? {
      if f.kids.Node? && Flattens(w(f.id)) {
        AppendSize(f.kids, f.rest);
        AppendIds(f.kids, f.rest);
        AppendDistinct(f.kids, f.rest);
        FlattenIds(w, Append(f.kids, f.rest));
        assert Ids(Flatten(w, f)) == {f.id} + (Ids(f.kids) + Ids(f.rest));
      } else {
        FlattenIds(w, f.rest);
      }
    }
  }

  lemma RemoveIfsIds(w: Entries, f: Forest)
    requires Distinct(f)
    ensures Distinct(RemoveIfs(w, f)) && Ids(RemoveIfs(w, f)) <= Ids(f)
  {
  }

  lemma {:induction false} FinalHeadIds(w: Entries, f: Forest)
    requires f.Node? && Distinct(f)
    ensures Distinct(FinalHead(w, f)) && Ids(FinalHead(w, f)) <= Ids(f)
    ensures Ids(FinalHead(w, f).rest) <= Ids(f.rest)
    decreases Size(f), 1
  {
    hide Tidy, Absorb, FinalLevel;
    if w(f.id).item.Symbol? {
      var s := w(f.id).item.sym;
      AbsorbIds(w, s, f.rest);
      TidyIds(w, Absorb(w, s, f.rest).0);
      TidyIds(w, f.kids);
    } else {
      FinalLevelIds(w, f.kids);
      TidyIds(w, FinalLevel(w, f.kids));
    }
  }

  lemma {:induction false} AbsorbIds(w: Entries, s: SymId, f: Forest)
    requires Distinct(f)
    ensures var (below, rest) := Absorb(w, s, f);
            && Distinct(below) && Distinct(rest) && Ids(below) !! Ids(rest)
            && Ids(below) <= Ids(f) && Ids(rest) <= Ids(f)
    decreases Size(f), 2
  {
    hide FinalHead;
    if f.Node? && AutoMenuDep(s, w(f.id)) {
      FinalHeadIds(w, f);
      AbsorbIds(w, s, FinalHead(w, f).rest);
    }
  }

  lemma {:induction false} FinalLevelIds(w: Entries, f: Forest)
    requires Distinct(f)
    ensures Distinct(FinalLevel(w, f)) && Ids(FinalLevel(w, f)) <= Ids(f)
    decreases Size(f), 2
  {
    hide FinalHead;
    if f.Node? {
      FinalHeadIds(w, f);
      FinalLevelIds(w, FinalHead(w, f).rest);
    }
  }
}
