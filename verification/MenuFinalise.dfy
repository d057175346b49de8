/**
  Finalising the menu tree: dependencies are handed down to the children of each node, the
  properties of symbol nodes are added to their symbols, and the links are rewritten in place.
 */
module MenuFinalise {
  import opened Expressions
  import opened MenuTree
  import opened MenuLinks
  import opened MenuDeps
  import opened MenuChoices

  type Contents = map<NodeId, Entry>

  ghost predicate Shown(m: Contents, e: Entries, ids: set<NodeId>) {
    forall x <- ids :: x in m && m[x] == e(x)
  }

  ghost predicate SameElsewhere(m: Contents, m': Contents, ids: set<NodeId>) {
    m.Keys == m'.Keys && forall x <- m :: x !in ids ==> m'[x] == m[x]
  }

  /** This level has inherited its dependencies; the levels below it have not. */
  ghost predicate Ready(m: Contents, o: Entries, w: Entries, f: Forest) {
    f.Node? ==> f.id in m && m[f.id] == w(f.id) && Shown(m, o, Ids(f.kids)) && Ready(m, o, w, f.rest)
  }

  /** A level still to be finalised. */
  ghost predicate Pending(m: Contents, o: Entries, w: Entries, visibleIf: Expr, f: Forest) {
    Distinct(f) && SymbolsAreLeaves(w, f) && Ready(m, o, w, f) && InheritsBelow(o, w, f, visibleIf)
  }

  lemma {:induction false} ReadyFrame(m: Contents, m': Contents, o: Entries, w: Entries, f: Forest)
    requires Ready(m, o, w, f) && forall x <- Ids(f) :: x in m ==> x in m' && m'[x] == m[x]
    ensures Ready(m', o, w, f)
  {
    if f.Node? {
      ReadyFrame(m, m', o, w, f.rest);
    }
  }

  lemma ReadyIn(m: Contents, o: Entries, w: Entries, f: Forest)
    requires Ready(m, o, w, f)
    ensures Ids(f) <= m.Keys
  {
  }

  lemma {:induction false} ReadyAppend(m: Contents, o: Entries, w: Entries, f: Forest, g: Forest)
    requires Ready(m, o, w, f) && Ready(m, o, w, g)
    ensures Ready(m, o, w, Append(f, g))
  {
    if f.Node? {
      ReadyAppend(m, o, w, f.rest, g);
    }
  }

  /** The first node of `f` is finalised and heads `g`; what follows it in `g` is still pending. */
  ghost predicate Finalised(h: Heap, h': Heap, m: Contents, m': Contents, o: Entries, w: Entries, visibleIf: Expr,
                            f: Forest, g: Forest, parent: Option<NodeId>)
    requires f.Node? && g.Node?
  {
    && Linked(h', Some(f.id), g, parent, None) && Distinct(g) && Ids(g) <= Ids(f) && g.id == f.id
    && SameOutside(h, h', Ids(f)) && SameElsewhere(m, m', Ids(f))
    && Shown(m', w, Ids(f) - Ids(g.rest)) && Pending(m', o, w, visibleIf, g.rest)
  }

  /** Replacing the second part of a level by what became of it. */
  lemma SplitReplaced(h: Heap, h': Heap, first: Option<NodeId>, done: Forest, p: Option<NodeId>,
                      rem: Forest, g: Forest, q: Option<NodeId>)
    requires rem.Node? && g.Node? && Split(h, first, done, p, Some(rem.id), rem, q)
    requires SameOutside(h, h', Ids(rem)) && g.id == rem.id
    requires Linked(h', Some(g.id), g, q, None) && Distinct(g) && Ids(g) <= Ids(rem)
    ensures Split(h', first, done, p, Some(g.id), g, q)
  {
    hide Linked, Distinct;
    LinkedFirst(h, first, done, p, Some(rem.id));
    LinkedFrame(h, h', first, done, p, Some(rem.id));
  }

  /** After the nodes in `below` were tilted up: they are the children, and `rest` comes next. */
  lemma Tilted(h: Heap, h': Heap, id: NodeId, below: Forest, rest: Forest, p: Option<NodeId>)
    requires id in h && below.Node? && h[id].parent == p && LastId(below) in h
    requires Split(h, h[id].next, below, Some(id), First(rest, None), rest, p)
    requires id !in Ids(below) && id !in Ids(rest)
    requires h' == h[id := h[id].(list := h[id].next, next := First(rest, None))]
                    [LastId(below) := h[LastId(below)].(next := None)]
    ensures Linked(h', Some(id), Node(id, below, rest), p, None)
    ensures SameOutside(h, h', {id} + Ids(below))
  {
    hide Linked, Distinct;
    var last := LastId(below);
    LastIsIn(below);
    LinkedFirst(h, h[id].next, below, Some(id), First(rest, None));
    LinkedFirst(h, First(rest, None), rest, p, None);
    var h1 := h[last := h[last].(next := None)];
    LinkedRetail(h, h[id].next, below, Some(id), First(rest, None), None);
    LinkedFrame(h1, h', h[id].next, below, Some(id), None);
    LinkedFrame(h, h', First(rest, None), rest, p, None);
    LinkedNode(h', id, below, rest, p, None);
  }

  /** While the nodes after the first node of `f` are absorbed: `below` has been, `rem` is left. */
  ghost predicate Absorbing(h: Heap, h': Heap, m: Contents, m': Contents, o: Entries, w: Entries, visibleIf: Expr,
                            f: Forest, parent: Option<NodeId>, below: Forest, rem: Forest)
    requires f.Node?
  {
    && f.id in h && f.id in h' && h'[f.id] == h[f.id]
    && Split(h', h'[f.id].next, below, Some(f.id), First(rem, None), rem, parent)
    && Ids(below) <= Ids(f.rest) && Ids(rem) <= Ids(f.rest) && f.id !in Ids(f.rest)
    && SameOutside(h, h', Ids(f.rest)) && SameElsewhere(m, m', Ids(f.rest))
    && Shown(m', w, Ids(f.rest) - Ids(rem)) && Pending(m', o, w, visibleIf, rem)
  }

  lemma AbsorbStart(h: Heap, m: Contents, o: Entries, w: Entries, visibleIf: Expr, f: Forest, parent: Option<NodeId>)
    requires f.Node? && Linked(h, Some(f.id), f, parent, None) && Pending(m, o, w, visibleIf, f)
    ensures Absorbing(h, h, m, m, o, w, visibleIf, f, parent, Nil, f.rest)
    ensures h[f.id].next == First(f.rest, None) && h[f.id].parent == parent
  {
    LinkedParts(h, f, parent, None);
  }

  lemma AbsorbStep(h: Heap, h1: Heap, h2: Heap, m: Contents, m1: Contents, m2: Contents, o: Entries, w: Entries,
                   visibleIf: Expr, f: Forest, parent: Option<NodeId>, below: Forest, rem: Forest, g: Forest)
    requires f.Node? && rem.Node? && g.Node?
    requires Absorbing(h, h1, m, m1, o, w, visibleIf, f, parent, below, rem)
    requires Finalised(h1, h2, m1, m2, o, w, visibleIf, rem, g, parent)
    ensures g.id in h2
    ensures var h3 := h2[g.id := h2[g.id].(parent := Some(f.id))];
            Absorbing(h, h3, m, m2, o, w, visibleIf, f, parent, Append(below, Single(g)), g.rest)
            && h3[g.id].next == First(g.rest, None)
  {
    NodeIds(g);
    hide Linked, Distinct, Pending, Ids, SameOutside, SameElsewhere, Shown, Split;
    SplitReplaced(h1, h2, h1[f.id].next, below, Some(f.id), rem, g, parent);
    LinkedParts(h2, g, parent, None);
    var h3 := h2[g.id := h2[g.id].(parent := Some(f.id))];
    OnlyTouched(h2, g.id, h3[g.id]);
    SplitStep(h2, h3, h1[f.id].next, below, Some(f.id), g, parent, g.rest);
    SplitIds(h1, h1[f.id].next, below, Some(f.id), rem, parent);
    SingleDistinct(below, g);
    StillShown(m, m1, m2, w, Ids(f.rest), Ids(rem), Ids(g.rest));
    StillOutside(h, h1, h2, Ids(f.rest), Ids(rem), f.id);
    Touched(h, h2, g.id, h3[g.id], Ids(f.rest));
  }

  lemma SplitIds(h: Heap, first: Option<NodeId>, done: Forest, p: Option<NodeId>, rem: Forest, q: Option<NodeId>)
    requires Split(h, first, done, p, First(rem, None), rem, q)
    ensures Distinct(done) && Distinct(rem) && Ids(done) !! Ids(rem)
  {
  }

  lemma StillShown(m: Contents, m1: Contents, m2: Contents, w: Entries, all: set<NodeId>, some: set<NodeId>,
                   less: set<NodeId>)
    requires SameElsewhere(m, m1, all) && SameElsewhere(m1, m2, some) && less <= some <= all
    requires Shown(m1, w, all - some) && Shown(m2, w, some - less)
    ensures SameElsewhere(m, m2, all) && Shown(m2, w, all - less)
  {
  }

  lemma StillOutside(h: Heap, h1: Heap, h2: Heap, all: set<NodeId>, some: set<NodeId>, id: NodeId)
    requires SameOutside(h, h1, all) && SameOutside(h1, h2, some) && some <= all
    requires id in h && id !in all
    ensures SameOutside(h, h2, all) && id in h2 && h2[id] == h[id]
  {
  }

  /** The links once the absorbed nodes, if any, are tilted up. */
  function TiltedLinks(h: Heap, id: NodeId, below: Forest, rem: Forest): Heap
    requires id in h && (below.Node? ==> LastId(below) in h)
  {
    if below.Nil? then h
    else h[id := h[id].(list := h[id].next, next := First(rem, None))]
          [LastId(below) := h[LastId(below)].(next := None)]
  }

  lemma AbsorbEnd(h: Heap, h1: Heap, m: Contents, m': Contents, o: Entries, w: Entries, visibleIf: Expr,
                  f: Forest, parent: Option<NodeId>, below: Forest, rem: Forest)
    requires f.Node? && f.kids.Nil? && Linked(h, Some(f.id), f, parent, None) && Distinct(f)
    requires Shown(m, w, {f.id})
    requires Absorbing(h, h1, m, m', o, w, visibleIf, f, parent, below, rem)
    ensures below.Node? ==> LastId(below) in h1
    ensures Finalised(h, TiltedLinks(h1, f.id, below, rem), m, m', o, w, visibleIf, f, Node(f.id, below, rem), parent)
  {
    hide Linked, Pending;
    LinkedParts(h, f, parent, None);
    NodeIds(f);
    assert Ids(f) == {f.id} + Ids(f.rest);
    assert Distinct(Node(f.id, below, rem)) && Ids(Node(f.id, below, rem)) <= Ids(f);
    LinkedFirst(h1, h1[f.id].next, below, Some(f.id), First(rem, None));
    if below.Nil? {
      LinkedNode(h1, f.id, Nil, rem, parent, None);
    } else {
      LastIsIn(below);
      Tilted(h1, TiltedLinks(h1, f.id, below, rem), f.id, below, rem, parent);
    }
  }

  /** What a step needs to know. */
  lemma AbsorbParts(h: Heap, h': Heap, m: Contents, m': Contents, o: Entries, w: Entries, visibleIf: Expr,
                    f: Forest, parent: Option<NodeId>, below: Forest, rem: Forest, s: SymId)
    requires f.Node? && Absorbing(h, h', m, m', o, w, visibleIf, f, parent, below, rem)
    ensures f.id in h && f.id in h' && (below.Node? ==> LastId(below) != f.id)
    ensures Linked(h', First(rem, None), rem, parent, None) && Pending(m', o, w, visibleIf, rem)
    ensures rem.Node? ==> rem.id in m' && m'[rem.id] == w(rem.id) && rem.id in h'
    ensures rem.Nil? || !AutoMenuDep(s, w(rem.id)) ==> Absorb(w, s, rem) == (Nil, rem)
  {
    hide InheritsBelow, SymbolsAreLeaves;
    if below.Node? {
      LastIsIn(below);
    }
  }

  /** Between two turns of the absorbing loop, with `cur` the last node absorbed. */
  ghost predicate Turn(h: Heap, h': Heap, m: Contents, m': Contents, o: Entries, w: Entries, visibleIf: Expr,
                       f: Forest, parent: Option<NodeId>, below: Forest, rem: Forest, s: SymId, cur: NodeId)
    requires f.Node?
  {
    && Absorbing(h, h', m, m', o, w, visibleIf, f, parent, below, rem)
    && Absorb(w, s, f.rest) == (Append(below, Absorb(w, s, rem).0), Absorb(w, s, rem).1)
    && (rem.Nil? || !AutoMenuDep(s, w(rem.id)) ==> Absorb(w, s, rem) == (Nil, rem))
    && (if below.Nil? then cur == f.id else cur == LastId(below) != f.id)
    && Waits(h', m', w, rem, cur) && f.id in h'
  }

  /** The next node of the level, if any, has its final contents. */
  ghost predicate Waits(h: Heap, m: Contents, w: Entries, rem: Forest, cur: NodeId) {
    && cur in h && h[cur].next == First(rem, None)
    && (rem.Node? ==> rem.id in m && m[rem.id] == w(rem.id))
  }

  lemma TurnStart(h: Heap, m: Contents, o: Entries, w: Entries, visibleIf: Expr, f: Forest, parent: Option<NodeId>,
                  s: SymId)
    requires f.Node? && Linked(h, Some(f.id), f, parent, None) && Pending(m, o, w, visibleIf, f)
    ensures Turn(h, h, m, m, o, w, visibleIf, f, parent, Nil, f.rest, s, f.id) && Waits(h, m, w, f.rest, f.id)
  {
    hide Absorbing, Linked, Pending, Absorb;
    AbsorbStart(h, m, o, w, visibleIf, f, parent);
    AbsorbParts(h, h, m, m, o, w, visibleIf, f, parent, Nil, f.rest, s);
  }

  lemma TurnNext(h: Heap, h': Heap, m: Contents, m': Contents, o: Entries, w: Entries, visibleIf: Expr,
                 f: Forest, parent: Option<NodeId>, below: Forest, rem: Forest, s: SymId, cur: NodeId)
    requires f.Node? && rem.Node? && Turn(h, h', m, m', o, w, visibleIf, f, parent, below, rem, s, cur)
    ensures Linked(h', Some(rem.id), rem, parent, None) && Pending(m', o, w, visibleIf, rem)
    ensures cur in h' && h'[cur].next == Some(rem.id)
  {
    hide Absorbing, Absorb, Linked, Pending;
    AbsorbParts(h, h', m, m', o, w, visibleIf, f, parent, below, rem, s);
  }

  lemma TurnStep(h: Heap, h1: Heap, h2: Heap, m: Contents, m1: Contents, m2: Contents, o: Entries, w: Entries,
                 visibleIf: Expr, f: Forest, parent: Option<NodeId>, below: Forest, rem: Forest, s: SymId, cur: NodeId)
    requires f.Node? && rem.Node? && Turn(h, h1, m, m1, o, w, visibleIf, f, parent, below, rem, s, cur)
    requires AutoMenuDep(s, w(rem.id))
    requires Finalised(h1, h2, m1, m2, o, w, visibleIf, rem, FinalHead(w, rem), parent)
    ensures rem.id in h2
    ensures var g, h3 := FinalHead(w, rem), h2[rem.id := h2[rem.id].(parent := Some(f.id))];
            && Turn(h, h3, m, m2, o, w, visibleIf, f, parent, Append(below, Single(g)), g.rest, s, rem.id)
            && Waits(h3, m2, w, g.rest, rem.id)
  {
    var g := FinalHead(w, rem);
    AbsorbSpec(w, s, f.rest, below, rem);
    LastAppended(below, g);
    hide Absorbing, Finalised, Pending, Linked, Absorb, FinalHead, AutoMenuDep, LastId, Append;
    AbsorbStep(h, h1, h2, m, m1, m2, o, w, visibleIf, f, parent, below, rem, g);
    var h3 := h2[rem.id := h2[rem.id].(parent := Some(f.id))];
    AbsorbParts(h, h3, m, m2, o, w, visibleIf, f, parent, Append(below, Single(g)), g.rest, s);
  }

  lemma TurnEnd(h: Heap, h': Heap, m: Contents, m': Contents, o: Entries, w: Entries, visibleIf: Expr,
                f: Forest, parent: Option<NodeId>, below: Forest, rem: Forest, s: SymId, cur: NodeId)
    requires f.Node? && Linked(h, Some(f.id), f, parent, None) && Pending(m, o, w, visibleIf, f)
    requires Turn(h, h', m, m', o, w, visibleIf, f, parent, below, rem, s, cur)
    requires w(f.id).item == Symbol(s) && (rem.Nil? || !AutoMenuDep(s, w(rem.id)))
    ensures Absorb(w, s, f.rest) == (below, rem)
    ensures f.id in h' && cur in h' && h'[cur].next == First(rem, None)
    ensures if below.Nil? then cur == f.id else cur == LastId(below) != f.id
    ensures Finalised(h, TiltedLinks(h', f.id, below, rem), m, m', o, w, visibleIf, f, Node(f.id, below, rem), parent)
  {
    PendingParts(m, o, w, visibleIf, f);
    assert Shown(m, w, {f.id});
    hide Absorbing, Finalised, Linked, Distinct, Pending, Absorb, AutoMenuDep;
    AppendNothing(below);
    AbsorbEnd(h, h', m, m', o, w, visibleIf, f, parent, below, rem);
  }

  lemma LastAppended(f: Forest, g: Forest)
    requires g.Node?
    ensures Append(f, Single(g)).Node? && LastId(Append(f, Single(g))) == g.id
  {
  }

  lemma PendingParts(m: Contents, o: Entries, w: Entries, visibleIf: Expr, f: Forest)
    requires f.Node? && Pending(m, o, w, visibleIf, f)
    ensures f.id in m && m[f.id] == w(f.id) && Distinct(f) && (w(f.id).item.Symbol? ==> f.kids.Nil?)
  {
  }

  lemma AbsorbSpec(w: Entries, s: SymId, all: Forest, below: Forest, rem: Forest)
    requires rem.Node? && AutoMenuDep(s, w(rem.id))
    requires Absorb(w, s, all) == (Append(below, Absorb(w, s, rem).0), Absorb(w, s, rem).1)
    ensures var g := FinalHead(w, rem);
            Absorb(w, s, all) == (Append(Append(below, Single(g)), Absorb(w, s, g.rest).0), Absorb(w, s, g.rest).1)
  {
    var g := FinalHead(w, rem);
    AppendTwice(below, Single(g), Absorb(w, s, g.rest).0);
  }

  /** While the level `f` below `p` is finalised: `done` is, `rem` is not. */
  ghost predicate Levelling(h: Heap, h': Heap, m: Contents, m': Contents, o: Entries, w: Entries, visibleIf: Expr,
                            f: Forest, p: Option<NodeId>, done: Forest, rem: Forest)
  {
    && Split(h', First(f, None), done, p, First(rem, None), rem, p)
    && Ids(done) <= Ids(f) && Ids(rem) <= Ids(f)
    && SameOutside(h, h', Ids(f)) && SameElsewhere(m, m', Ids(f))
    && Shown(m', w, Ids(f) - Ids(rem)) && Pending(m', o, w, visibleIf, rem)
    && Append(done, FinalLevel(w, rem)) == FinalLevel(w, f)
  }

  lemma LevelStart(h: Heap, m: Contents, o: Entries, w: Entries, visibleIf: Expr, f: Forest, p: Option<NodeId>)
    requires Linked(h, First(f, None), f, p, None) && Pending(m, o, w, visibleIf, f)
    ensures Levelling(h, h, m, m, o, w, visibleIf, f, p, Nil, f)
  {
  }

  lemma LevelNext(h: Heap, h': Heap, m: Contents, m': Contents, o: Entries, w: Entries, visibleIf: Expr,
                  f: Forest, p: Option<NodeId>, done: Forest, rem: Forest)
    requires rem.Node? && Levelling(h, h', m, m', o, w, visibleIf, f, p, done, rem)
    ensures Linked(h', Some(rem.id), rem, p, None) && Pending(m', o, w, visibleIf, rem)
  {
  }

  lemma LevelStep(h: Heap, h1: Heap, h2: Heap, m: Contents, m1: Contents, m2: Contents, o: Entries, w: Entries,
                  visibleIf: Expr, f: Forest, p: Option<NodeId>, done: Forest, rem: Forest)
    requires rem.Node? && Levelling(h, h1, m, m1, o, w, visibleIf, f, p, done, rem)
    requires Finalised(h1, h2, m1, m2, o, w, visibleIf, rem, FinalHead(w, rem), p)
    ensures rem.id in h2 && h2[rem.id].next == First(FinalHead(w, rem).rest, None)
    ensures var g := FinalHead(w, rem);
            Levelling(h, h2, m, m2, o, w, visibleIf, f, p, Append(done, Single(g)), g.rest)
  {
    var g := FinalHead(w, rem);
    AppendTwice(done, Single(g), FinalLevel(w, g.rest));
    NodeIds(g);
    hide Linked, Distinct, Pending, Ids, SameOutside, SameElsewhere, Shown, Split, FinalHead;
    SplitReplaced(h1, h2, First(f, None), done, p, rem, g, p);
    LinkedParts(h2, g, p, None);
    Untouched(h2, {g.id});
    SplitStep(h2, h2, First(f, None), done, p, g, p, g.rest);
    SplitIds(h1, First(f, None), done, p, rem, p);
    SingleDistinct(done, g);
    StillShown(m, m1, m2, w, Ids(f), Ids(rem), Ids(g.rest));
    OutsideTwice(h, h1, h2, Ids(f), Ids(rem));
  }

  lemma OutsideTwice(h: Heap, h1: Heap, h2: Heap, all: set<NodeId>, some: set<NodeId>)
    requires SameOutside(h, h1, all) && SameOutside(h1, h2, some) && some <= all
    ensures SameOutside(h, h2, all)
  {
  }

  lemma LevelEnd(h: Heap, h': Heap, m: Contents, m': Contents, o: Entries, w: Entries, visibleIf: Expr,
                 f: Forest, p: Option<NodeId>, done: Forest)
    requires Levelling(h, h', m, m', o, w, visibleIf, f, p, done, Nil)
    ensures Linked(h', First(f, None), FinalLevel(w, f), p, None)
    ensures Distinct(FinalLevel(w, f)) && Ids(FinalLevel(w, f)) <= Ids(f)
    ensures SameOutside(h, h', Ids(f)) && SameElsewhere(m, m', Ids(f)) && Shown(m', w, Ids(f))
  {
    hide Linked, Distinct;
    AppendNothing(done);
    assert Ids(f) - Ids(Nil) == Ids(f);
  }

  /** A node whose children are finalised; the rest of its level is as it was. */
  lemma ChildrenFinalised(h: Heap, h': Heap, m: Contents, m1: Contents, m2: Contents, o: Entries, w: Entries,
                          visibleIf: Expr, f: Forest, kids: Forest, p: Option<NodeId>)
    requires f.Node? && Linked(h, Some(f.id), f, p, None) && Pending(m, o, w, visibleIf, f)
    requires f.id in h && f.id in h' && h'[f.id] == h[f.id] && Linked(h', h[f.id].list, kids, Some(f.id), None)
    requires SameOutside(h, h', Ids(f.kids)) && Distinct(kids) && Ids(kids) <= Ids(f.kids)
    requires SameElsewhere(m, m1, Ids(f.kids)) && SameElsewhere(m1, m2, Ids(f.kids)) && Shown(m2, w, Ids(f.kids))
    ensures Finalised(h, h', m, m2, o, w, visibleIf, f, Node(f.id, kids, f.rest), p)
  {
    LinkedParts(h, f, p, None);
    PendingFrame(m, m1, m2, o, w, visibleIf, f);
    assert Distinct(Node(f.id, kids, f.rest));
    NodeIds(f);
    hide Linked, Distinct, Pending;
    LinkedFrame(h, h', h[f.id].next, f.rest, p, None);
    LinkedNode(h', f.id, kids, f.rest, p, None);
    OutsideTwice(h, h, h', Ids(f), Ids(f.kids));
  }

  lemma PendingFrame(m: Contents, m1: Contents, m2: Contents, o: Entries, w: Entries, visibleIf: Expr, f: Forest)
    requires f.Node? && Pending(m, o, w, visibleIf, f)
    requires SameElsewhere(m, m1, Ids(f.kids)) && SameElsewhere(m1, m2, Ids(f.kids)) && Shown(m2, w, Ids(f.kids))
    ensures Pending(m2, o, w, visibleIf, f.rest) && SameElsewhere(m, m2, Ids(f))
    ensures Shown(m2, w, Ids(f) - Ids(f.rest))
  {
    hide Inherits;
    ReadyIn(m, o, w, f.rest);
    ReadyFrame(m, m2, o, w, f.rest);
  }

  lemma TidyFinalised(h: Heap, h1: Heap, h2: Heap, m: Contents, m': Contents, o: Entries, w: Entries,
                      visibleIf: Expr, f: Forest, g: Forest, p: Option<NodeId>)
    requires f.Node? && g.Node? && Finalised(h, h1, m, m', o, w, visibleIf, f, g, p)
    requires g.id in h1 && g.id in h2 && h2[g.id] == h1[g.id].(list := h2[g.id].list)
    requires Linked(h2, h2[g.id].list, Tidy(w, g.kids), Some(g.id), None)
    requires SameOutside(h1, h2, Ids(g.kids) + {g.id})
    ensures Finalised(h, h2, m, m', o, w, visibleIf, f, Node(g.id, Tidy(w, g.kids), g.rest), p)
  {
    TidyIds(w, g.kids);
    assert Distinct(Node(g.id, Tidy(w, g.kids), g.rest));
    hide Linked, Distinct, Pending, Tidy;
    LinkedParts(h1, g, p, None);
    LinkedFrame(h1, h2, h1[g.id].next, g.rest, p, None);
    LinkedNode(h2, g.id, Tidy(w, g.kids), g.rest, p, None);
    OutsideTwice(h, h1, h2, Ids(f), Ids(g.kids) + {g.id});
  }

  lemma PreorderNil()
    ensures Preorder(Nil) == []
  {
  }

  lemma PendingBelow(m: Contents, o: Entries, w: Entries, visibleIf: Expr, f: Forest)
    requires f.Node? && Pending(m, o, w, visibleIf, f)
    ensures f.id in m && m[f.id] == w(f.id) && Distinct(f)
    ensures Shown(m, o, Ids(f.kids)) && SymbolsAreLeaves(w, f.kids)
    ensures Inherits(o, w, f.kids, BaseDep(w(f.id)), VisibleIf(w(f.id), visibleIf))
  {
  }

  lemma PendingNow(m: Contents, o: Entries, w: Entries, visibleIf: Expr, f: Forest, base: Expr)
    requires Distinct(f) && SymbolsAreLeaves(w, f) && Ready(m, o, w, f) && Inherits(o, w, f, base, visibleIf)
    ensures Pending(m, o, w, visibleIf, f)
  {
    InheritedBelow(o, w, f, base, visibleIf);
  }

  lemma NothingBelow(h: Heap, m: Contents, o: Entries, w: Entries, visibleIf: Expr, f: Forest, p: Option<NodeId>)
    requires f.Node? && f.kids.Nil? && Linked(h, Some(f.id), f, p, None) && Pending(m, o, w, visibleIf, f)
    ensures Finalised(h, h, m, m, o, w, visibleIf, f, Node(f.id, FinalLevel(w, f.kids), f.rest), p)
  {
    assert Node(f.id, FinalLevel(w, f.kids), f.rest) == f;
  }

  lemma FinalisedParts(h: Heap, h': Heap, m: Contents, m': Contents, o: Entries, w: Entries, visibleIf: Expr,
                       f: Forest, g: Forest, p: Option<NodeId>)
    requires f.Node? && g.Node? && Finalised(h, h', m, m', o, w, visibleIf, f, g, p)
    ensures g.id in h' && Linked(h', h'[g.id].list, g.kids, Some(g.id), None)
    ensures Distinct(g.kids) && g.id !in Ids(g.kids) && Shown(m', w, Ids(g.kids))
  {
    hide Linked, Pending;
    LinkedParts(h', g, p, None);
  }

  /** The first node with its new children, before the level of the children is tidied. */
  function Grown(w: Entries, f: Forest): (g: Forest)
    requires f.Node?
    ensures g.Node? && g.id == f.id
  {
    if w(f.id).item.Symbol? then
      var (below, rest) := Absorb(w, w(f.id).item.sym, f.rest);
      Node(f.id, below, rest)
    else Node(f.id, FinalLevel(w, f.kids), f.rest)
  }

  lemma GrownIs(w: Entries, f: Forest)
    requires f.Node?
    ensures w(f.id).item.Symbol? ==>
              Grown(w, f) == Node(f.id, Absorb(w, w(f.id).item.sym, f.rest).0, Absorb(w, w(f.id).item.sym, f.rest).1)
    ensures !w(f.id).item.Symbol? ==> Grown(w, f) == Node(f.id, FinalLevel(w, f.kids), f.rest)
  {
  }

  lemma NoMembersYet(w: Entries, f: Forest)
    ensures [] + LevelIds(f) == LevelIds(f) && SymsOf(w, []) == []
    ensures forall ids: seq<NodeId> :: ids + LevelIds(Nil) == ids
  {
  }

  lemma MemberStep(w: Entries, ids: seq<NodeId>, f: Forest)
    requires f.Node?
    ensures ids + LevelIds(f) == ids + [f.id] + LevelIds(f.rest)
    ensures SymsOf(w, ids + [f.id]) == SymsOf(w, ids) + if w(f.id).item.Symbol? then [w(f.id).item.sym] else []
  {
    assert (ids + [f.id])[..|ids|] == ids;
  }

  lemma LendNone(types: map<SymId, Type>, syms: seq<SymId>, t: Type)
    ensures LendType(types, syms[..0], t) == types
  {
  }

  lemma LendStep(types: map<SymId, Type>, syms: seq<SymId>, i: nat, t: Type)
    requires i < |syms|
    ensures var r, s := LendType(types, syms[..i], t), syms[i];
            LendType(types, syms[..i + 1], t) == if TypeOf(r, s) == Unknown then r[s := t] else r
  {
    var r, s := LendType(types, syms[..i], t), syms[i];
    assert syms[..i + 1] == syms[..i] + [s];
    var all := LendType(types, syms[..i + 1], t);
    assert all.Keys == r.Keys + {s};
    assert forall x <- r :: x != s ==> all[x] == r[x];
  }

  lemma FinishNext(w: Entries, s: SymId, f: Forest, before: seq<Finish>)
    requires f.Node? && AutoMenuDep(s, w(f.id))
    ensures before + FinishAbsorbed(w, s, f) == before + FinishHead(w, f) + FinishAbsorbed(w, s, FinalHead(w, f).rest)
  {
    Regrouped3(before, FinishHead(w, f), FinishAbsorbed(w, s, FinalHead(w, f).rest));
  }

  lemma FinishNextOnLevel(w: Entries, f: Forest, before: seq<Finish>)
    requires f.Node?
    ensures before + FinishLevel(w, f) == before + FinishHead(w, f) + FinishLevel(w, FinalHead(w, f).rest)
  {
    Regrouped3(before, FinishHead(w, f), FinishLevel(w, FinalHead(w, f).rest));
  }

  lemma Regrouped3(a: seq<Finish>, b: seq<Finish>, c: seq<Finish>)
    ensures a + (b + c) == a + b + c
  {
  }

  lemma NoneFinished(w: Entries, s: SymId, f: Forest, before: seq<Finish>)
    requires f.Nil? || !AutoMenuDep(s, w(f.id))
    ensures before + FinishAbsorbed(w, s, f) == before
  {
  }

  lemma NoneFinishedOnLevel(w: Entries, before: seq<Finish>)
    ensures before + FinishLevel(w, Nil) == before
  {
  }

  lemma FinalisedEntry(h: Heap, h': Heap, m: Contents, m': Contents, o: Entries, w: Entries, visibleIf: Expr,
                       f: Forest, g: Forest, p: Option<NodeId>)
    requires f.Node? && g.Node? && Finalised(h, h', m, m', o, w, visibleIf, f, g, p)
    ensures f.id in m' && m'[f.id] == w(f.id) && g.id == f.id
  {
    hide Linked, Pending;
    NodeIds(f);
    LinkedParts(h', g, p, None);
  }

  lemma BegunNode(begun: seq<NodeId>, f: Forest)
    requires f.Node?
    ensures begun + Preorder(f) == begun + [f.id] + Preorder(f.kids) + Preorder(f.rest)
    ensures f.kids.Nil? ==> begun + Preorder(f) == begun + [f.id] + Preorder(f.rest)
  {
    var k, r := Preorder(f.kids), Preorder(f.rest);
    assert Preorder(f) == [f.id] + k + r && (f.kids.Nil? ==> k == []);
    hide Preorder;
    assert begun + ([f.id] + k + r) == begun + [f.id] + k + r;
    assert k == [] ==> begun + [f.id] + k == begun + [f.id];
  }

  lemma FinalHeadIs(w: Entries, f: Forest)
    requires f.Node? && (w(f.id).item.Symbol? ==> f.kids.Nil?)
    ensures FinalHead(w, f) == Node(f.id, Tidy(w, Grown(w, f).kids), Grown(w, f).rest)
  {
  }

  /** The entries before `rem` have inherited from their parent. */
  ghost predicate Propagating(m: Contents, m': Contents, o: Entries, w: Entries, f: Forest, done: Forest, rem: Forest,
                              base: Expr, visibleIf: Expr)
  {
    && Append(done, rem) == f && Distinct(rem) && Ids(done) !! Ids(rem) && Ids(rem) <= Ids(f)
    && Ready(m', o, w, done) && Shown(m', o, Ids(rem)) && Inherits(o, w, rem, base, visibleIf)
    && SameElsewhere(m, m', Ids(f))
  }

  lemma PropagateStart(m: Contents, o: Entries, w: Entries, f: Forest, base: Expr, visibleIf: Expr)
    requires Distinct(f) && Shown(m, o, Ids(f)) && Inherits(o, w, f, base, visibleIf)
    ensures Propagating(m, m, o, w, f, Nil, f, base, visibleIf)
  {
  }

  lemma PropagateStep(m: Contents, m': Contents, o: Entries, w: Entries, f: Forest, done: Forest, rem: Forest,
                      base: Expr, visibleIf: Expr)
    requires rem.Node? && Propagating(m, m', o, w, f, done, rem, base, visibleIf)
    ensures rem.id in m' && Distinct(rem)
    ensures var m2 := m'[rem.id := Inherit(m'[rem.id], base, visibleIf)];
            Propagating(m, m2, o, w, f, Append(done, Single(rem)), rem.rest, base, visibleIf)
  {
    hide Inherit;
    var m2 := m'[rem.id := Inherit(m'[rem.id], base, visibleIf)];
    ReadyFrame(m', m2, o, w, done);
    ReadyAppend(m2, o, w, done, Single(rem));
    SingleAppends(done, rem);
    AppendIds(done, Single(rem));
  }

  lemma PropagateEnd(m: Contents, m': Contents, o: Entries, w: Entries, f: Forest, done: Forest,
                     base: Expr, visibleIf: Expr)
    requires Propagating(m, m', o, w, f, done, Nil, base, visibleIf)
    ensures Ready(m', o, w, f) && SameElsewhere(m, m', Ids(f))
  {
    AppendNothing(done);
  }

  lemma CollectedStep(w: Entries, nodes: seq<NodeId>, id: NodeId)
    ensures Collected(w, nodes + [id])
         == if w(id).item.Symbol? then AddProps(Collected(w, nodes), w(id).item.sym, w(id)) else Collected(w, nodes)
  {
    assert (nodes + [id])[..|nodes|] == nodes;
  }

  class MenuNodes {
    var links: Heap
    var entries: Contents
    var symbols: Symbols

    /** Choices start with the types they were given. */
    var choices: ChoiceTable
    ghost const given: ChoiceTable

    /** The nodes whose finalising has begun, and the choice nodes that are finished, in order. */
    ghost var begun: seq<NodeId>
    ghost var finished: seq<Finish>

    /** Symbols and choices hold what these nodes gave them. */
    ghost predicate Accounted(w: Entries)
      reads this
    {
      symbols == Collected(w, begun) && choices == Chosen(given, w, finished)
    }

    /** The loop in _flatten that gives a node's children its parent and finds the last of them. */
    method Reparent(first: NodeId, parent: Option<NodeId>, ghost f: Forest, ghost was: Option<NodeId>)
      returns (last: NodeId)
      requires f.Node? && first == f.id && Distinct(f) && Linked(links, Some(first), f, was, None)
      modifies this`links
      ensures Linked(links, Some(first), f, parent, None) && last == LastId(f)
      ensures SameOutside(old(links), links, Ids(f))
    {
      hide Linked, Distinct;
      last := first;
      ghost var done, rem := Nil, f;
      StartSplit(links, f, was, parent);
      while true
        invariant rem.Node? && last == rem.id && LastId(rem) == LastId(f)
        invariant Split(links, Some(first), done, parent, Some(last), rem, was)
        invariant Append(done, rem) == f && Ids(rem) <= Ids(f)
        invariant SameOutside(old(links), links, Ids(f))
        decreases Size(rem)
      {
        ghost var h := links;
        LinkedParts(h, rem, was, None);
        links := links[last := links[last].(parent := parent)];
        SplitStep(h, links, Some(first), done, parent, rem, was, rem.rest);
        SingleAppends(done, rem);
        done, rem := Append(done, Single(rem)), rem.rest;
        if links[last].next.None? {
          AppendNothing(done);
          break;
        }
        last := links[last].next.value;
      }
    }

    /** _flatten */
    method FlattenLevel(first: NodeId, ghost w: Entries, ghost f: Forest, ghost parent: Option<NodeId>)
      requires f.Node? && first == f.id && Distinct(f) && Linked(links, Some(first), f, parent, None)
      requires Shown(entries, w, Ids(f))
      modifies this`links
      ensures Linked(links, Some(first), Flatten(w, f), parent, None)
      ensures SameOutside(old(links), links, Ids(f))
    {
      hide Linked, Distinct, Flatten;
      var node := Some(first);
      ghost var done, rem := Nil, f;
      StartSplit(links, f, parent, parent);
      assert Append(Nil, Flatten(w, f)) == Flatten(w, f);
      while node.Some?
        invariant node == First(rem, None)
        invariant Split(links, Some(first), done, parent, node, rem, parent)
        invariant Append(done, Flatten(w, rem)) == Flatten(w, f) && Ids(rem) <= Ids(f)
        invariant SameOutside(old(links), links, Ids(f))
        decreases Size(rem)
      {
        var id := node.value;
        ghost var h := links;
        LinkedParts(h, rem, parent, None);
        FlattenStep(w, done, rem);
        if links[id].list.Some? && entries[id].prompt.None? && !entries[id].item.ChoiceItem? {
          var last := Reparent(links[id].list.value, links[id].parent, rem.kids, Some(id));
          ghost var h1 := links;
          LastIsIn(rem.kids);
          links := links[last := links[last].(next := links[id].next)];
          links := links[id := links[id].(next := links[id].list)];
          links := links[id := links[id].(list := None)];
          SplicedStep(h, h1, links, Some(first), done, rem, parent);
          rem := Node(id, Nil, Append(rem.kids, rem.rest));
          LinkedParts(links, rem, parent, None);
        }
        SplitStep(links, links, Some(first), done, parent, rem, parent, rem.rest);
        done, rem := Append(done, Single(rem)), rem.rest;
        node := links[id].next;
      }
      FlattenEnd(w, done);
    }

    /** The loops in _remove_ifs that skip if nodes. */
    method SkipIfs(first: Option<NodeId>, ghost w: Entries, ghost f: Forest, ghost parent: Option<NodeId>)
      returns (cur: Option<NodeId>, ghost rem: Forest)
      requires Distinct(f) && Linked(links, first, f, parent, None) && Shown(entries, w, Ids(f))
      ensures cur == First(rem, None) && Distinct(rem) && Ids(rem) <= Ids(f) && Size(rem) <= Size(f)
      ensures Linked(links, cur, rem, parent, None)
      ensures RemoveIfs(w, rem) == RemoveIfs(w, f) && (rem.Node? ==> w(rem.id).item != If)
    {
      hide Linked, Distinct;
      cur, rem := first, f;
      LinkedFirst(links, cur, rem, parent, None);
      while cur.Some? && entries[cur.value].item == If
        invariant cur == First(rem, None) && Distinct(rem) && Ids(rem) <= Ids(f) && Size(rem) <= Size(f)
        invariant Linked(links, cur, rem, parent, None)
        invariant RemoveIfs(w, rem) == RemoveIfs(w, f)
        decreases Size(rem)
      {
        LinkedParts(links, rem, parent, None);
        cur, rem := links[cur.value].next, rem.rest;
      }
    }

    /** _remove_ifs */
    method RemoveIfNodes(node: NodeId, ghost w: Entries, ghost f: Forest)
      requires node in links && Distinct(f) && node !in Ids(f) && Linked(links, links[node].list, f, Some(node), None)
      requires Shown(entries, w, Ids(f))
      modifies this`links
      ensures node in links && Linked(links, links[node].list, RemoveIfs(w, f), Some(node), None)
      ensures links[node] == old(links)[node].(list := links[node].list)
      ensures SameOutside(old(links), links, Ids(f) + {node})
    {
      RemoveStart(w, f);
      hide Linked, Distinct, Append, RemoveIfs, Ids, SameOutside;
      ghost var h, area := links, Ids(f) + {node};
      var cur, rem := SkipIfs(links[node].list, w, f, Some(node));
      var first := cur;
      Untouched(h, area);
      Touched(h, h, node, h[node].(list := cur), area);
      links := links[node := links[node].(list := cur)];
      ListMoved(h, node, rem, links);
      ghost var done := Nil;
      EmptySplit(links, cur, rem, Some(node));
      while cur.Some?
        invariant cur == First(rem, None) && (rem.Node? ==> w(rem.id).item != If)
        invariant Split(links, first, done, Some(node), cur, rem, Some(node))
        invariant Append(done, RemoveIfs(w, rem)) == RemoveIfs(w, f) && Ids(rem) <= Ids(f)
        invariant node in links && links[node] == old(links)[node].(list := first)
        invariant SameOutside(old(links), links, area)
        decreases Size(rem)
      {
        ghost var before := links;
        LinkedParts(before, rem, Some(node), None);
        NodeIds(rem);
        var next, rem' := SkipIfs(links[cur.value].next, w, rem.rest, Some(node));
        links := links[cur.value := links[cur.value].(next := next)];
        OnlyTouched(before, cur.value, links[cur.value]);
        Touched(old(links), before, cur.value, links[cur.value], area);
        SplitStep(before, links, first, done, Some(node), rem, Some(node), rem');
        RemoveStep(w, done, rem, rem');
        done, rem := Append(done, Single(rem)), rem';
        cur := next;
      }
      AppendNothing(done);
    }

    /** _propagate_deps */
    method PropagateDeps(id: NodeId, visibleIf: Expr, ghost o: Entries, ghost w: Entries, ghost f: Forest)
      requires id in links && id in entries && Distinct(f) && id !in Ids(f)
      requires Linked(links, links[id].list, f, Some(id), None) && Shown(entries, o, Ids(f))
      requires Inherits(o, w, f, BaseDep(entries[id]), visibleIf)
      modifies this`entries
      ensures Ready(entries, o, w, f) && SameElsewhere(old(entries), entries, Ids(f))
    {
      hide Linked, Distinct, Propagating, BaseDep, Inherit;
      var base := BaseDep(entries[id]);
      var cur := links[id].list;
      ghost var done, rem := Nil, f;
      LinkedFirst(links, cur, f, Some(id), None);
      PropagateStart(entries, o, w, f, base, visibleIf);
      while cur.Some?
        invariant cur == First(rem, None) && Linked(links, cur, rem, Some(id), None)
        invariant Propagating(old(entries), entries, o, w, f, done, rem, base, visibleIf)
        decreases Size(rem)
      {
        PropagateStep(old(entries), entries, o, w, f, done, rem, base, visibleIf);
        LinkedParts(links, rem, Some(id), None);
        entries := entries[cur.value := Inherit(entries[cur.value], base, visibleIf)];
        done, rem := Append(done, Single(rem)), rem.rest;
        cur := links[cur.value].next;
      }
      PropagateEnd(old(entries), entries, o, w, f, done, base, visibleIf);
    }

    /** The two loops of _add_props_to_sym. */
    static method AddReverse(rev: map<SymId, Expr>, s: SymId, selects: seq<Guarded<SymId>>)
      returns (r: map<SymId, Expr>)
      ensures r == AddRev(rev, s, selects, |selects|)
    {
      r := rev;
      for i := 0 to |selects|
        invariant r == AddRev(rev, s, selects, i)
      {
        var g := selects[i];
        r := r[g.what := MakeOr(RevOf(r, g.what), MakeAnd(Leaf(Sym(s)), g.cond))];
      }
    }

    /** _add_props_to_sym */
    method AddPropsToSym(id: NodeId)
      requires id in entries && entries[id].item.Symbol?
      modifies this`symbols
      ensures symbols == AddProps(old(symbols), entries[id].item.sym, entries[id])
    {
      var e := entries[id];
      var s := e.item.sym;
      var p := PropsOf(symbols, s);
      p := p.(directDep := MakeOr(p.directDep, e.dep));
      p := p.(defaults := p.defaults + e.defaults, ranges := p.ranges + e.ranges);
      p := p.(selects := p.selects + e.selects, implies := p.implies + e.implies);
      var rev := AddReverse(symbols.rev, s, e.selects);
      var weak := AddReverse(symbols.weak, s, e.implies);
      symbols := Symbols(symbols.props[s := p], rev, weak);
    }

    /** The end of _finalize_node: the finished level below a node is flattened and cleared of ifs. */
    method TidyBelow(id: NodeId, ghost w: Entries, ghost f: Forest)
      requires id in links && Distinct(f) && id !in Ids(f) && Linked(links, links[id].list, f, Some(id), None)
      requires Shown(entries, w, Ids(f))
      modifies this`links
      ensures id in links && Linked(links, links[id].list, Tidy(w, f), Some(id), None)
      ensures links[id] == old(links)[id].(list := links[id].list)
      ensures SameOutside(old(links), links, Ids(f) + {id})
    {
      TidyNothing(w);
      TidyIds(w, f);
      hide Linked, Distinct, Flatten, RemoveIfs, Ids;
      LinkedFirst(links, links[id].list, f, Some(id), None);
      if links[id].list.Some? {
        FlattenLevel(links[id].list.value, w, f, Some(id));
        RemoveIfNodes(id, w, Flatten(w, f));
      }
    }

    /** The loop of _finalize_node that builds an implicit menu below a symbol. */
    method AbsorbNext(id: NodeId, visibleIf: Expr, ghost o: Entries, ghost w: Entries, ghost f: Forest,
                      ghost parent: Option<NodeId>)
      requires f.Node? && f.id == id && Linked(links, Some(id), f, parent, None)
      requires Pending(entries, o, w, visibleIf, f) && w(id).item.Symbol?
      requires Accounted(w)
      modifies this
      ensures Accounted(w)
      ensures var (below, rest) := Absorb(w, w(id).item.sym, f.rest);
              && Finalised(old(links), links, old(entries), entries, o, w, visibleIf, f, Node(id, below, rest), parent)
              && begun + Preorder(rest) == old(begun) + Preorder(f.rest)
              && (forall x :: OnLevel(below, x) ==> AutoMenuDep(w(id).item.sym, w(x)))
      ensures finished == old(finished) + FinishAbsorbed(w, w(id).item.sym, f.rest)
      decreases Size(f), 1
    {
      hide Turn, Finalised, Pending, Linked, Absorb, FinalHead, Preorder, AutoMenuDep, TiltedLinks, LastId, Chosen,
           Collected, FinishAbsorbed, FinishHead, OnLevel;
      PendingParts(entries, o, w, visibleIf, f);
      var s := entries[id].item.sym;
      var cur := id;
      ghost var below, rem := Nil, f.rest;
      TurnStart(links, entries, o, w, visibleIf, f, parent, s);
      AbsorbedDepend(w, s, f.rest);
      while links[cur].next.Some? && AutoMenuDep(s, entries[links[cur].next.value])
        invariant Turn(old(links), links, old(entries), entries, o, w, visibleIf, f, parent, below, rem, s, cur)
        invariant Waits(links, entries, w, rem, cur)
        invariant begun + Preorder(rem) == old(begun) + Preorder(f.rest)
        invariant finished + FinishAbsorbed(w, s, rem) == old(finished) + FinishAbsorbed(w, s, f.rest)
        invariant Accounted(w)
        decreases Size(rem)
      {
        ghost var g, before := FinalHead(w, rem), finished;
        FinishNext(w, s, rem, before);
        cur := AbsorbOne(id, cur, visibleIf, o, w, f, parent, old(links), old(entries), below, rem, s);
        below, rem := Append(below, Single(g)), g.rest;
      }
      TurnEnd(old(links), links, old(entries), entries, o, w, visibleIf, f, parent, below, rem, s, cur);
      NoneFinished(w, s, rem, finished);
      TiltUp(id, cur, below, rem);
    }

    /** One turn of that loop. */
    method AbsorbOne(id: NodeId, last: NodeId, visibleIf: Expr, ghost o: Entries, ghost w: Entries, ghost f: Forest,
                     ghost parent: Option<NodeId>, ghost h: Heap, ghost m: Contents, ghost below: Forest,
                     ghost rem: Forest, ghost s: SymId)
      returns (cur: NodeId)
      requires f.Node? && f.id == id && rem.Node?
      requires Turn(h, links, m, entries, o, w, visibleIf, f, parent, below, rem, s, last)
      requires AutoMenuDep(s, w(rem.id)) && Accounted(w)
      modifies this
      ensures var g := FinalHead(w, rem);
              && Turn(h, links, m, entries, o, w, visibleIf, f, parent, Append(below, Single(g)), g.rest, s, cur)
              && Waits(links, entries, w, g.rest, cur)
              && begun + Preorder(g.rest) == old(begun) + Preorder(rem)
      ensures Accounted(w) && finished == old(finished) + FinishHead(w, rem)
      decreases Size(rem), 4
    {
      hide Turn, Waits, Finalised, Pending, Linked, FinalHead, Preorder, Collected, AutoMenuDep, Append, Size;
      hide Chosen, FinishHead;
      TurnNext(h, links, m, entries, o, w, visibleIf, f, parent, below, rem, s, last);
      ghost var h1, m1 := links, entries;
      cur := links[last].next.value;
      FinaliseNode(cur, visibleIf, o, w, rem, parent);
      TurnStep(h, h1, links, m, m1, entries, o, w, visibleIf, f, parent, below, rem, s, last);
      links := links[cur := links[cur].(parent := Some(id))];
    }

    method TiltUp(id: NodeId, cur: NodeId, ghost below: Forest, ghost rem: Forest)
      requires id in links && cur in links && links[cur].next == First(rem, None)
      requires cur == (if below.Nil? then id else LastId(below)) && (below.Node? ==> cur != id)
      modifies this`links
      ensures links == TiltedLinks(old(links), id, below, rem)
    {
      if cur != id {
        links := links[id := links[id].(list := links[id].next)];
        links := links[id := links[id].(next := links[cur].next)];
        links := links[cur := links[cur].(next := None)];
      }
    }

    /** The loop of _finalize_node over the children of a menu, choice or if. */
    method FinaliseChildren(id: NodeId, visibleIf: Expr, ghost o: Entries, ghost w: Entries, ghost f: Forest)
      requires id in links && id !in Ids(f) && Linked(links, links[id].list, f, Some(id), None)
      requires Pending(entries, o, w, visibleIf, f)
      requires Accounted(w)
      modifies this
      ensures Accounted(w)
      ensures id in links && links[id] == old(links)[id]
      ensures Linked(links, links[id].list, FinalLevel(w, f), Some(id), None)
      ensures Distinct(FinalLevel(w, f)) && Ids(FinalLevel(w, f)) <= Ids(f)
      ensures SameOutside(old(links), links, Ids(f)) && SameElsewhere(old(entries), entries, Ids(f))
      ensures Shown(entries, w, Ids(f)) && begun == old(begun) + Preorder(f)
      ensures finished == old(finished) + FinishLevel(w, f)
      decreases Size(f), 4
    {
      hide Levelling, Finalised, Pending, Linked, FinalHead, FinalLevel, Accounted, Distinct, Ids, Preorder;
      hide FinishLevel, FinishHead;
      LinkedFirst(links, links[id].list, f, Some(id), None);
      LevelStart(links, entries, o, w, visibleIf, f, Some(id));
      var cur := links[id].list;
      ghost var done, rem := Nil, f;
      while cur.Some?
        invariant cur == First(rem, None)
        invariant Levelling(old(links), links, old(entries), entries, o, w, visibleIf, f, Some(id), done, rem)
        invariant Size(rem) <= Size(f)
        invariant begun + Preorder(rem) == old(begun) + Preorder(f)
        invariant finished + FinishLevel(w, rem) == old(finished) + FinishLevel(w, f)
        invariant Accounted(w)
        decreases Size(rem)
      {
        ghost var h, m, g := links, entries, FinalHead(w, rem);
        LevelNext(old(links), h, old(entries), m, o, w, visibleIf, f, Some(id), done, rem);
        FinishNextOnLevel(w, rem, finished);
        FinaliseNode(cur.value, visibleIf, o, w, rem, Some(id));
        LevelStep(old(links), h, links, old(entries), m, entries, o, w, visibleIf, f, Some(id), done, rem);
        cur := links[cur.value].next;
        done, rem := Append(done, Single(g)), g.rest;
      }
      LevelEnd(old(links), links, old(entries), entries, o, w, visibleIf, f, Some(id), done);
      PreorderNil();
      NoneFinishedOnLevel(w, finished);
    }

    method FinaliseBelow(id: NodeId, visibleIf: Expr, ghost o: Entries, ghost w: Entries, ghost f: Forest,
                         ghost parent: Option<NodeId>)
      requires f.Node? && f.id == id && Linked(links, Some(id), f, parent, None)
      requires Pending(entries, o, w, visibleIf, f)
      requires Accounted(w)
      modifies this
      ensures Accounted(w) && begun == old(begun) + Preorder(f.kids)
      ensures finished == old(finished) + FinishLevel(w, f.kids)
      ensures Finalised(old(links), links, old(entries), entries, o, w, visibleIf, f,
                        Node(id, FinalLevel(w, f.kids), f.rest), parent)
      decreases Size(f), 1
    {
      PendingBelow(entries, o, w, visibleIf, f);
      LinkedParts(links, f, parent, None);
      hide Finalised, Pending, Linked, FinalLevel, Accounted, Distinct, Inherits, VisibleIf, BaseDep, Ready, Ids;
      hide FinishLevel;
      ghost var h, m := links, entries;
      if links[id].list.Some? {
        var inner := VisibleIf(entries[id], visibleIf);
        PropagateDeps(id, inner, o, w, f.kids);
        ghost var m1 := entries;
        PendingNow(m1, o, w, inner, f.kids, BaseDep(w(id)));
        FinaliseChildren(id, inner, o, w, f.kids);
        ChildrenFinalised(h, links, m, m1, entries, o, w, visibleIf, f, FinalLevel(w, f.kids), parent);
      } else {
        NothingBelow(h, m, o, w, visibleIf, f, parent);
        PreorderNil();
        NoneFinishedOnLevel(w, finished);
      }
    }

    /** All of _finalize_node but its last step. */
    method FinaliseAround(id: NodeId, visibleIf: Expr, ghost o: Entries, ghost w: Entries, ghost f: Forest,
                          ghost parent: Option<NodeId>)
      requires f.Node? && f.id == id && Linked(links, Some(id), f, parent, None)
      requires Pending(entries, o, w, visibleIf, f)
      requires Accounted(w)
      modifies this
      ensures Accounted(w)
      ensures Finalised(old(links), links, old(entries), entries, o, w, visibleIf, f, Grown(w, f), parent)
      ensures begun + Preorder(Grown(w, f).rest) == old(begun) + Preorder(f)
      ensures finished == old(finished) + FinishInside(w, f)
      decreases Size(f), 2
    {
      PendingParts(entries, o, w, visibleIf, f);
      CollectedStep(w, begun, id);
      BegunNode(begun, f);
      GrownIs(w, f);
      hide Finalised, Pending, Linked, Absorb, FinalLevel, Collected, AddProps, Preorder, Distinct, Grown;
      hide Chosen, FinishLevel, FinishAbsorbed, OnLevel;
      begun := begun + [id];
      if entries[id].item.Symbol? {
        AddPropsToSym(id);
        AbsorbNext(id, visibleIf, o, w, f, parent);
      } else {
        FinaliseBelow(id, visibleIf, o, w, f, parent);
      }
    }

    /** _finalize_node */
    method FinaliseNode(id: NodeId, visibleIf: Expr, ghost o: Entries, ghost w: Entries, ghost f: Forest,
                        ghost parent: Option<NodeId>)
      requires f.Node? && f.id == id && Linked(links, Some(id), f, parent, None)
      requires Pending(entries, o, w, visibleIf, f)
      requires Accounted(w)
      modifies this
      ensures Accounted(w)
      ensures Finalised(old(links), links, old(entries), entries, o, w, visibleIf, f, FinalHead(w, f), parent)
      ensures begun + Preorder(FinalHead(w, f).rest) == old(begun) + Preorder(f)
      ensures finished == old(finished) + FinishHead(w, f)
      decreases Size(f), 3
    {
      PendingParts(entries, o, w, visibleIf, f);
      FinalHeadIs(w, f);
      hide Finalised, Pending, Linked, Grown, FinalHead, Collected, Distinct, Tidy, Preorder;
      hide Accounted, FinishInside, FinishOf;
      ghost var h, m, g := links, entries, Grown(w, f);
      FinaliseAround(id, visibleIf, o, w, f, parent);
      ghost var h1 := links;
      FinalisedParts(h, h1, m, entries, o, w, visibleIf, f, g, parent);
      TidyBelow(id, w, g.kids);
      TidyFinalised(h, h1, links, m, entries, o, w, visibleIf, f, g, parent);
      FinalisedParts(h, links, m, entries, o, w, visibleIf, f, FinalHead(w, f), parent);
      FinalisedEntry(h, links, m, entries, o, w, visibleIf, f, FinalHead(w, f), parent);
      Regrouped3(old(finished), FinishInside(w, f), FinishOf(w, FinalHead(w, f)));
      FinishNode(id, w, FinalHead(w, f));
    }

    method FinishNode(id: NodeId, ghost w: Entries, ghost g: Forest)
      requires g.Node? && g.id == id && id in links && id in entries && entries[id] == w(id) && Accounted(w)
      requires Linked(links, links[id].list, g.kids, Some(id), None) && Distinct(g.kids)
               && Shown(entries, w, Ids(g.kids))
      modifies this`choices, this`finished
      ensures Accounted(w) && finished == old(finished) + FinishOf(w, g)
    {
      hide Linked, Distinct, Collected, Chosen, FinishChoice, LevelIds, Shown;
      if entries[id].item.ChoiceItem? {
        FinaliseChoice(id, w, g.kids);
        ChosenStep(given, w, finished, Finish(id, LevelIds(g.kids)));
        finished := finished + [Finish(id, LevelIds(g.kids))];
      } else {
        assert finished + [] == finished;
      }
    }

    /** The end of _finalize_node for a choice, with _finalize_choice. */
    method FinaliseChoice(id: NodeId, ghost w: Entries, ghost f: Forest)
      requires id in links && id in entries && entries[id].item.ChoiceItem?
      requires Linked(links, links[id].list, f, Some(id), None) && Distinct(f) && Shown(entries, w, Ids(f))
      modifies this`choices
      ensures choices == FinishChoice(old(choices), entries[id].item.choice, entries[id], SymsOf(w, LevelIds(f)))
    {
      var e, c := entries[id], entries[id].item.choice;
      var p := ChoiceOf(choices, c);
      var members := MembersBelow(id, w, f);
      var owner := TakeOver(choices.owner, members, c);
      var syms := p.syms + members;
      var typ := p.typ;
      if typ == Unknown {
        typ := FindType(choices.types, syms);
      }
      var types := LendTypes(choices.types, syms, typ);
      choices := ChoiceTable(
        choices.props[c := ChoiceProps(MakeOr(p.directDep, e.dep), p.defaults + e.defaults, syms, typ)], owner, types);
    }

    /** The symbols whose nodes are on the level below the choice's node. */
    method MembersBelow(id: NodeId, ghost w: Entries, ghost f: Forest) returns (members: seq<SymId>)
      requires id in links && Linked(links, links[id].list, f, Some(id), None) && Distinct(f)
      requires Shown(entries, w, Ids(f))
      ensures members == SymsOf(w, LevelIds(f))
    {
      NoMembersYet(w, f);
      hide Linked, Distinct, SymsOf, LevelIds;
      members := [];
      var cur := links[id].list;
      ghost var rem, ids := f, [];
      LinkedFirst(links, cur, f, Some(id), None);
      while cur.Some?
        invariant cur == First(rem, None) && Linked(links, cur, rem, Some(id), None) && Distinct(rem)
        invariant Ids(rem) <= Ids(f) && ids + LevelIds(rem) == LevelIds(f) && members == SymsOf(w, ids)
        decreases Size(rem)
      {
        LinkedParts(links, rem, Some(id), None);
        var item := entries[cur.value].item;
        if item.Symbol? {
          members := members + [item.sym];
        }
        MemberStep(w, ids, rem);
        ids, rem := ids + [rem.id], rem.rest;
        cur := links[cur.value].next;
      }
    }

    static method TakeOver(owner: map<SymId, ChoiceId>, members: seq<SymId>, c: ChoiceId)
      returns (r: map<SymId, ChoiceId>)
      ensures r == Own(owner, members, c)
    {
      r := owner;
      for i := 0 to |members|
        invariant r == Own(owner, members[..i], c)
      {
        r := r[members[i] := c];
        assert members[..i + 1] == members[..i] + [members[i]];
      }
      assert members[..|members|] == members;
    }

    static method FindType(types: map<SymId, Type>, syms: seq<SymId>) returns (t: Type)
      ensures t == FirstType(types, syms)
    {
      assert syms[0..] == syms;
      for i := 0 to |syms|
        invariant FirstType(types, syms) == FirstType(types, syms[i..])
      {
        assert syms[i..][1..] == syms[i + 1..];
        if TypeOf(types, syms[i]) != Unknown {
          return TypeOf(types, syms[i]);
        }
      }
      return Unknown;
    }

    static method LendTypes(types: map<SymId, Type>, syms: seq<SymId>, t: Type) returns (r: map<SymId, Type>)
      ensures r == LendType(types, syms, t)
    {
      LendNone(types, syms, t);
      hide LendType;
      r := types;
      for i := 0 to |syms|
        invariant r == LendType(types, syms[..i], t)
      {
        LendStep(types, syms, i, t);
        if TypeOf(r, syms[i]) == Unknown {
          r := r[syms[i] := t];
        }
      }
      assert syms[..|syms|] == syms;
    }

    /** Finalising a whole tree: links, contents, symbols and the order of the visits. */
    method FinaliseTree(top: NodeId, ghost o: Entries, ghost f: Forest)
      requires f.Node? && f.id == top && f.rest.Nil? && Distinct(f) && Linked(links, Some(top), f, None, None)
      requires o(top).item == Menu && SymbolsAreLeaves(o, f) && IfsHidden(o)
      requires Shown(entries, o, Ids(f)) && symbols == NoSymbols && begun == [] && choices == given && finished == []
      modifies this
      ensures var w, g := Final(o, f), FinalHead(Final(o, f), f);
              && Linked(links, Some(top), g, None, None)
              && NoIfs(w, g) && Preorder(g) == Keep(w, Preorder(f))
              && Shown(entries, w, Ids(f))
              && begun == Preorder(f) && symbols == Collected(w, Preorder(f))
              && finished == FinishHead(w, f) && choices == Chosen(given, w, FinishHead(w, f))
    {
      ghost var w := Final(o, f);
      TopPending(entries, o, f);
      PreorderNil();
      TopHead(w, f);
      FinalisingKeepsOrder(w, f);
      CollectedNone(w, given);
      hide Pending, Final, Collected, Chosen, FinishHead, Preorder, FinalHead, Linked, Ids, IfsHidden, Shown;
      hide NoIfs, Keep, Distinct;
      hide Finalised, SymbolsAreLeaves;
      FinaliseNode(top, Y, o, w, f, None);
      assert begun + [] == begun && [] + Preorder(f) == Preorder(f) && [] + FinishHead(w, f) == FinishHead(w, f);
      TopFinalised(old(links), links, old(entries), entries, o, w, f);
    }

    /** The inner loop of node_iter: the next node after the enclosing ones. */
    method Climb(start: NodeId, ghost above: seq<Frame>)
      returns (next: Option<NodeId>, ghost kids: Forest, ghost rest: Forest, ghost left: seq<Frame>)
      requires start in links && Under(links, links[start].parent, above)
      ensures next.None? ==> Up(above) == []
      ensures next.Some? ==>
                At(links, next.value, kids, rest, left) && [next.value] + Left(kids, rest, left) == Up(above)
    {
      var node := start;
      kids, rest, left := Nil, Nil, above;
      while links[node].parent.Some?
        invariant node in links && Under(links, links[node].parent, left) && Up(left) == Up(above)
        decreases |left|
      {
        node := links[node].parent.value;
        ghost var f := left[0].rest;
        LinkedFirst(links, links[node].next, f, links[node].parent, None);
        left := left[1..];
        if links[node].next.Some? {
          LinkedHead(links, links[node].next, f, links[node].parent);
          NodeOrder(f);
          kids, rest := f.kids, f.rest;
          Regroup([f.id], Preorder(kids), Preorder(rest), [], Up(left));
          return links[node].next, kids, rest, left;
        }
        assert Up(left) == [] + Up(left);
      }
      next := None;
    }

    /** node_iter: every node but the top one, by following the links. */
    method NodeIter(top: NodeId, ghost f: Forest) returns (ids: seq<NodeId>)
      requires f.Node? && f.id == top && f.rest.Nil? && Linked(links, Some(top), f, None, None)
      ensures [top] + ids == Preorder(f)
    {
      PreorderNil();
      NodeOrder(f);
      LinkedHead(links, Some(top), f, None);
      assert At(links, top, f.kids, Nil, []);
      assert Left(f.kids, Nil, []) == Preorder(f.kids) && Up([]) == [];
      hide Linked, Preorder, At, Up;
      var node := top;
      ids := [];
      ghost var kids, rest, above: seq<Frame> := f.kids, Nil, [];
      assert [] + Left(kids, rest, above) == Preorder(f.kids);
      while true
        invariant At(links, node, kids, rest, above)
        invariant ids + Left(kids, rest, above) == Preorder(f.kids)
        decreases |Left(kids, rest, above)|
      {
        AtParts(links, node, kids, rest, above);
        if links[node].list.Some? {
          EnterList(links, node, kids, rest, above);
          Passed(ids, kids.id, Left(kids.kids, kids.rest, [Frame(node, rest)] + above));
          above := [Frame(node, rest)] + above;
          node := links[node].list.value;
          kids, rest := kids.kids, kids.rest;
        } else if links[node].next.Some? {
          EnterNext(links, node, rest, above);
          Passed(ids, rest.id, Left(rest.kids, rest.rest, above));
          node := links[node].next.value;
          kids, rest := rest.kids, rest.rest;
        } else {
          assert Left(kids, rest, above) == Up(above);
          var next, kids', rest', above' := Climb(node, above);
          if next.None? {
            return;
          }
          Passed(ids, next.value, Left(kids', rest', above'));
          node := next.value;
          kids, rest, above := kids', rest', above';
        }
        ids := ids + [node];
      }
    }
  }

  lemma AtParts(h: Heap, node: NodeId, kids: Forest, rest: Forest, above: seq<Frame>)
    requires At(h, node, kids, rest, above)
    ensures node in h && Under(h, h[node].parent, above)
    ensures h[node].list == First(kids, None) && h[node].next == First(rest, None)
  {
    LinkedFirst(h, h[node].list, kids, Some(node), None);
    LinkedFirst(h, h[node].next, rest, h[node].parent, None);
  }

  lemma Passed(ids: seq<NodeId>, id: NodeId, left: seq<NodeId>)
    ensures ids + ([id] + left) == ids + [id] + left && |left| < |[id] + left|
  {
  }

  lemma CollectedNone(w: Entries, given: ChoiceTable)
    ensures Collected(w, []) == NoSymbols && Chosen(given, w, []) == given
  {
  }

  lemma TopPending(m: Contents, o: Entries, f: Forest)
    requires f.Node? && f.rest.Nil? && Distinct(f) && Shown(m, o, Ids(f))
    requires SymbolsAreLeaves(o, f) && IfsHidden(o)
    ensures Pending(m, o, Final(o, f), Y, f) && Final(o, f)(f.id) == o(f.id)
    ensures IfsHidden(Final(o, f)) && SymbolsAreLeaves(Final(o, f), f)
  {
    var w := Final(o, f);
    HandedInherits(o, f.kids, BaseDep(o(f.id)), VisibleIf(o(f.id), Y));
    HandedItems(o, f.kids, BaseDep(o(f.id)), VisibleIf(o(f.id), Y));
    SameLeaves(o, w, f);
  }

  lemma {:induction false} HandedItems(o: Entries, f: Forest, base: Expr, visibleIf: Expr)
    ensures var w := Handed(o, f, base, visibleIf);
            forall i :: w(i).item == o(i).item && (w(i).prompt.None? <==> o(i).prompt.None?)
    decreases f
  {
    if f.Node? {
      var head := Inherit(o(f.id), base, visibleIf);
      HandedItems(o, f.kids, BaseDep(head), VisibleIf(head, visibleIf));
      HandedItems(o, f.rest, base, visibleIf);
    }
  }

  lemma {:induction false} SameLeaves(o: Entries, w: Entries, f: Forest)
    requires SymbolsAreLeaves(o, f) && forall i :: w(i).item == o(i).item
    ensures SymbolsAreLeaves(w, f)
  {
    if f.Node? {
      SameLeaves(o, w, f.kids);
      SameLeaves(o, w, f.rest);
    }
  }

  lemma TopHead(w: Entries, f: Forest)
    requires f.Node? && f.rest.Nil? && !w(f.id).item.Symbol?
    ensures FinalHead(w, f).rest == Nil
  {
  }

  lemma TopFinalised(h: Heap, h': Heap, m: Contents, m': Contents, o: Entries, w: Entries, f: Forest)
    requires f.Node? && f.rest.Nil? && FinalHead(w, f).rest.Nil?
    requires Finalised(h, h', m, m', o, w, Y, f, FinalHead(w, f), None)
    ensures Linked(h', Some(f.id), FinalHead(w, f), None, None) && Shown(m', w, Ids(f))
  {
    hide Linked, FinalHead, Distinct, Pending;
    assert Ids(f) - Ids(Nil) == Ids(f);
  }
}
