/**
  The menu tree as the parser builds it and finalising rewrites it: nodes linked by `next`,
  `list` (the first child) and `parent`.
 */
module MenuLinks {
  import opened Expressions
  import opened MenuTree

  datatype Link = Link(next: Option<NodeId>, list: Option<NodeId>, parent: Option<NodeId>)

  type Heap = map<NodeId, Link>

  /** The links from `first` on are those of the level `f` below `parent`, and lead to `tail`. */
  predicate Linked(h: Heap, first: Option<NodeId>, f: Forest, parent: Option<NodeId>, tail: Option<NodeId>)
    decreases f
  {
    match f
    case Nil => first == tail
    case Node(id, kids, rest) =>
      && first == Some(id) && id in h && h[id].parent == parent
      && Linked(h, h[id].list, kids, Some(id), None)
      && Linked(h, h[id].next, rest, parent, tail)
  }

  ghost predicate SameOutside(h: Heap, h': Heap, ids: set<NodeId>) {
    h.Keys == h'.Keys && forall x <- h :: x !in ids ==> h'[x] == h[x]
  }

  function First(f: Forest, tail: Option<NodeId>): Option<NodeId> {
    if f.Nil? then tail else Some(f.id)
  }

  function LastId(f: Forest): NodeId
    requires f.Node?
  {
    if f.rest.Nil? then f.id else LastId(f.rest)
  }

  lemma {:induction false} LinkedFirst(h: Heap, first: Option<NodeId>, f: Forest, p: Option<NodeId>, t: Option<NodeId>)
    requires Linked(h, first, f, p, t)
    ensures first == First(f, t) && Ids(f) <= h.Keys
    decreases f
  {
    if f.Node? {
      LinkedFirst(h, h[f.id].list, f.kids, Some(f.id), None);
      LinkedFirst(h, h[f.id].next, f.rest, p, t);
    }
  }

  lemma {:induction false} LinkedFrame(h: Heap, h': Heap, first: Option<NodeId>, f: Forest, p: Option<NodeId>,
                                       t: Option<NodeId>)
    requires Linked(h, first, f, p, t)
    requires forall x <- Ids(f) :: x in h && x in h' && h'[x] == h[x]
    ensures Linked(h', first, f, p, t)
    decreases f
  {
    if f.Node? {
      LinkedFrame(h, h', h[f.id].list, f.kids, Some(f.id), None);
      LinkedFrame(h, h', h[f.id].next, f.rest, p, t);
    }
  }

  lemma {:induction false} LinkedAppend(h: Heap, first: Option<NodeId>, f: Forest, g: Forest, p: Option<NodeId>,
                                        t: Option<NodeId>)
    requires Linked(h, first, f, p, First(g, t)) && Linked(h, First(g, t), g, p, t)
    ensures Linked(h, first, Append(f, g), p, t)
    decreases f
  {
    if f.Node? {
      LinkedAppend(h, h[f.id].next, f.rest, g, p, t);
    }
  }

  lemma LastIsIn(f: Forest)
    requires f.Node?
    ensures LastId(f) in Ids(f)
  {
  }

  /** Pointing the last node of a level elsewhere. */
  lemma {:induction false} LinkedRetail(h: Heap, first: Option<NodeId>, f: Forest, p: Option<NodeId>,
                                        t: Option<NodeId>, t': Option<NodeId>)
    requires f.Node? && Distinct(f) && Linked(h, first, f, p, t) && LastId(f) in h
    ensures Linked(h[LastId(f) := h[LastId(f)].(next := t')], first, f, p, t')
    decreases f
  {
    var last := LastId(f);
    var h' := h[last := h[last].(next := t')];
    LinkedFirst(h, first, f, p, t);
    if f.rest.Node? {
      LastIsIn(f.rest);
      LinkedRetail(h, h[f.id].next, f.rest, p, t, t');
    }
    LinkedFrame(h, h', h[f.id].list, f.kids, Some(f.id), None);
  }

  /** The links after a node's children, already given its parent, are moved behind it. */
  lemma Spliced(h: Heap, h1: Heap, h': Heap, f: Forest, p: Option<NodeId>, t: Option<NodeId>)
    requires f.Node? && f.kids.Node? && Distinct(f) && Linked(h, Some(f.id), f, p, t)
    requires Linked(h1, Some(f.kids.id), f.kids, p, None) && SameOutside(h, h1, Ids(f.kids))
    requires LastId(f.kids) in h1 && f.id in h1
    requires h' == h1[LastId(f.kids) := h1[LastId(f.kids)].(next := h1[f.id].next)]
                     [f.id := h1[f.id].(next := h1[f.id].list, list := None)]
    ensures Linked(h', Some(f.id), Node(f.id, Nil, Append(f.kids, f.rest)), p, t)
    ensures SameOutside(h, h', Ids(f))
  {
    hide Linked, Distinct;
    SplicedParts(h, f, p, t);
    var last, next := LastId(f.kids), h1[f.id].next;
    var h2 := h1[last := h1[last].(next := next)];
    LastIsIn(f.kids);
    LinkedRetail(h1, Some(f.kids.id), f.kids, p, None, next);
    LinkedFrame(h2, h', Some(f.kids.id), f.kids, p, next);
    LinkedFrame(h, h', next, f.rest, p, t);
    LinkedAppend(h', Some(f.kids.id), f.kids, f.rest, p, t);
    LinkedNode(h', f.id, Nil, Append(f.kids, f.rest), p, t);
  }

  lemma SplicedParts(h: Heap, f: Forest, p: Option<NodeId>, t: Option<NodeId>)
    requires f.Node? && f.kids.Node? && Distinct(f) && Linked(h, Some(f.id), f, p, t)
    ensures Ids(f) <= h.Keys && h[f.id].list == Some(f.kids.id) && h[f.id].parent == p
    ensures Linked(h, h[f.id].next, f.rest, p, t) && h[f.id].next == First(f.rest, t)
    ensures f.id !in Ids(f.kids) && f.id !in Ids(f.rest) && Ids(f.kids) !! Ids(f.rest)
    ensures Distinct(f.kids)
  {
    LinkedFirst(h, Some(f.id), f, p, t);
    LinkedFirst(h, h[f.id].next, f.rest, p, t);
  }

  lemma LinkedNode(h: Heap, id: NodeId, kids: Forest, rest: Forest, p: Option<NodeId>, t: Option<NodeId>)
    requires id in h && h[id].parent == p
    requires Linked(h, h[id].list, kids, Some(id), None) || (kids == Nil && h[id].list == None)
    requires Linked(h, h[id].next, rest, p, t)
    ensures Linked(h, Some(id), Node(id, kids, rest), p, t)
  {
  }

  /** The first node of a level on its own. */
  function Single(f: Forest): Forest
    requires f.Node?
  {
    Node(f.id, f.kids, Nil)
  }

  lemma SingleAppends(done: Forest, f: Forest)
    requires f.Node?
    ensures Append(Append(done, Single(f)), f.rest) == Append(done, f)
  {
    AppendTwice(done, Single(f), f.rest);
    assert Append(Single(f), f.rest) == f;
  }

  /** Moving on to the next node: what was done before it now includes it. */
  lemma Advance(h: Heap, first: Option<NodeId>, done: Forest, f: Forest, p: Option<NodeId>)
    requires f.Node? && Linked(h, first, done, p, Some(f.id))
    requires f.id in h && h[f.id].parent == p && Linked(h, h[f.id].list, f.kids, Some(f.id), None)
    ensures Linked(h, first, Append(done, Single(f)), p, h[f.id].next)
  {
    LinkedNode(h, f.id, f.kids, Nil, p, h[f.id].next);
    LinkedAppend(h, first, done, Single(f), p, h[f.id].next);
  }

  /** A level in two parts, of which the second starts at `cur`. */
  ghost predicate Split(h: Heap, first: Option<NodeId>, done: Forest, p: Option<NodeId>,
                        cur: Option<NodeId>, rem: Forest, q: Option<NodeId>)
  {
    && Linked(h, first, done, p, cur) && Linked(h, cur, rem, q, None)
    && Distinct(done) && Distinct(rem) && Ids(done) !! Ids(rem)
  }

  lemma SingleDistinct(done: Forest, f: Forest)
    requires f.Node? && Distinct(done) && Distinct(f) && Ids(done) !! Ids(f)
    ensures Distinct(Append(done, Single(f))) && Ids(Append(done, Single(f))) == Ids(done) + {f.id} + Ids(f.kids)
    ensures Ids(Append(done, Single(f))) !! Ids(f.rest) && Distinct(f.rest)
  {
    AppendDistinct(done, Single(f));
    AppendIds(done, Single(f));
  }

  /** A step that changes the node at `cur` only. */
  lemma SplitStep(h: Heap, h': Heap, first: Option<NodeId>, done: Forest, p: Option<NodeId>,
                  rem: Forest, q: Option<NodeId>, rem': Forest)
    requires rem.Node? && Split(h, first, done, p, Some(rem.id), rem, q)
    requires SameOutside(h, h', {rem.id}) && rem.id in h'
    requires h'[rem.id].parent == p && h'[rem.id].list == h[rem.id].list
    requires Linked(h, h'[rem.id].next, rem', q, None) && Distinct(rem') && Ids(rem') <= Ids(rem.rest)
    ensures Split(h', first, Append(done, Single(rem)), p, h'[rem.id].next, rem', q)
  {
    hide Linked, Distinct;
    LinkedParts(h, rem, q, None);
    LinkedFirst(h, first, done, p, Some(rem.id));
    LinkedFirst(h, h'[rem.id].next, rem', q, None);
    LinkedFrame(h, h', first, done, p, Some(rem.id));
    LinkedFrame(h, h', h[rem.id].list, rem.kids, Some(rem.id), None);
    LinkedFrame(h, h', h'[rem.id].next, rem', q, None);
    Advance(h', first, done, rem, p);
    SingleDistinct(done, rem);
  }

  lemma LinkedParts(h: Heap, f: Forest, p: Option<NodeId>, t: Option<NodeId>)
    requires f.Node? && Distinct(f) && Linked(h, Some(f.id), f, p, t)
    ensures Ids(f) <= h.Keys && h[f.id].parent == p
    ensures Linked(h, h[f.id].list, f.kids, Some(f.id), None) && h[f.id].list == First(f.kids, None)
    ensures Linked(h, h[f.id].next, f.rest, p, t) && h[f.id].next == First(f.rest, t)
    ensures f.id !in Ids(f.kids) && f.id !in Ids(f.rest) && Ids(f.kids) !! Ids(f.rest)
    ensures Distinct(f.kids) && Distinct(f.rest)
  {
    LinkedFirst(h, Some(f.id), f, p, t);
    LinkedFirst(h, h[f.id].list, f.kids, Some(f.id), None);
    LinkedFirst(h, h[f.id].next, f.rest, p, t);
  }

  lemma NodeIds(f: Forest)
    requires f.Node?
    ensures f.id in Ids(f) && Ids(f.kids) <= Ids(f) && Ids(f.rest) <= Ids(f) && Size(f.rest) < Size(f)
  {
  }

  lemma Untouched(h: Heap, ids: set<NodeId>)
    ensures SameOutside(h, h, ids)
  {
  }

  lemma Touched(h: Heap, h': Heap, id: NodeId, link: Link, ids: set<NodeId>)
    requires SameOutside(h, h', ids) && id in ids && id in h'
    ensures SameOutside(h, h'[id := link], ids)
  {
  }

  lemma OnlyTouched(h: Heap, id: NodeId, link: Link)
    requires id in h
    ensures SameOutside(h, h[id := link], {id})
  {
  }

  lemma ListMoved(h: Heap, node: NodeId, f: Forest, h': Heap)
    requires node in h && node !in Ids(f) && h' == h[node := h[node].(list := First(f, None))]
    requires Linked(h, First(f, None), f, Some(node), None)
    ensures Linked(h', First(f, None), f, Some(node), None)
  {
    LinkedFirst(h, First(f, None), f, Some(node), None);
    LinkedFrame(h, h', First(f, None), f, Some(node), None);
  }

  lemma AppendNothing(f: Forest)
    ensures Append(f, Nil) == f
  {
  }

  lemma StartSplit(h: Heap, f: Forest, q: Option<NodeId>, p: Option<NodeId>)
    requires f.Node? && Distinct(f) && Linked(h, Some(f.id), f, q, None)
    ensures Split(h, Some(f.id), Nil, p, Some(f.id), f, q)
    ensures Append(Nil, f) == f
  {
  }

  lemma EmptySplit(h: Heap, first: Option<NodeId>, f: Forest, p: Option<NodeId>)
    requires Distinct(f) && Linked(h, first, f, p, None)
    ensures Split(h, first, Nil, p, first, f, p)
  {
  }

  lemma RemoveStart(w: Entries, f: Forest)
    ensures Append(Nil, RemoveIfs(w, f)) == RemoveIfs(w, f) && RemoveIfs(w, Nil) == Nil
  {
  }

  lemma RemoveStep(w: Entries, done: Forest, f: Forest, next: Forest)
    requires f.Node? && w(f.id).item != If && RemoveIfs(w, next) == RemoveIfs(w, f.rest)
    ensures Append(Append(done, Single(f)), RemoveIfs(w, next)) == Append(done, RemoveIfs(w, f))
  {
    AppendTwice(done, Single(f), RemoveIfs(w, next));
  }

  /** What flattening makes of the next node and of the level after it. */
  lemma FlattenStep(w: Entries, done: Forest, f: Forest)
    requires f.Node?
    ensures var g := if f.kids.Node? && Flattens(w(f.id)) then Node(f.id, Nil, Append(f.kids, f.rest)) else f;
            Append(Append(done, Single(g)), Flatten(w, g.rest)) == Append(done, Flatten(w, f))
            && Size(g.rest) < Size(f) && Ids(g) == Ids(f)
  {
    var g := if f.kids.Node? && Flattens(w(f.id)) then Node(f.id, Nil, Append(f.kids, f.rest)) else f;
    AppendTwice(done, Single(g), Flatten(w, g.rest));
    AppendSize(f.kids, f.rest);
    AppendIds(f.kids, f.rest);
  }

  lemma FlattenEnd(w: Entries, done: Forest)
    ensures Append(done, Flatten(w, Nil)) == done
  {
    AppendNothing(done);
  }

  lemma SplicedStep(h: Heap, h1: Heap, h': Heap, first: Option<NodeId>, done: Forest, f: Forest, p: Option<NodeId>)
    requires f.Node? && f.kids.Node? && Split(h, first, done, p, Some(f.id), f, p)
    requires Linked(h1, Some(f.kids.id), f.kids, p, None) && SameOutside(h, h1, Ids(f.kids))
    requires LastId(f.kids) in h1 && f.id in h1
    requires h' == h1[LastId(f.kids) := h1[LastId(f.kids)].(next := h1[f.id].next)]
                     [f.id := h1[f.id].(next := h1[f.id].list, list := None)]
    ensures Split(h', first, done, p, Some(f.id), Node(f.id, Nil, Append(f.kids, f.rest)), p)
    ensures SameOutside(h, h', Ids(f))
  {
    AppendDistinct(f.kids, f.rest);
    AppendIds(f.kids, f.rest);
    var g := Node(f.id, Nil, Append(f.kids, f.rest));
    assert Ids(g) == {f.id} + Ids(Append(f.kids, f.rest));
    assert Ids(f) == {f.id} + (Ids(f.kids) + Ids(f.rest));
    assert Distinct(g);
    hide Linked, Distinct, Append, Ids;
    Spliced(h, h1, h', f, p, None);
    LinkedFirst(h, first, done, p, Some(f.id));
    LinkedFrame(h, h', first, done, p, Some(f.id));
  }

  // ----- Walking the links -----

  /** An enclosing node, and what follows it on its level. */
  datatype Frame = Frame(id: NodeId, rest: Forest)

  /** What follows all the enclosing nodes, from the inside out. */
  function Up(above: seq<Frame>): seq<NodeId> {
    if above == [] then [] else Preorder(above[0].rest) + Up(above[1..])
  }

  /** The nodes below, beside and above the current one that come after it. */
  function Left(kids: Forest, rest: Forest, above: seq<Frame>): seq<NodeId> {
    Preorder(kids) + Preorder(rest) + Up(above)
  }

  ghost predicate Under(h: Heap, parent: Option<NodeId>, above: seq<Frame>)
    decreases |above|
  {
    if above == [] then parent == None
    else
      var id := above[0].id;
      && parent == Some(id) && id in h
      && Linked(h, h[id].next, above[0].rest, h[id].parent, None)
      && Under(h, h[id].parent, above[1..])
  }

  ghost predicate At(h: Heap, node: NodeId, kids: Forest, rest: Forest, above: seq<Frame>) {
    && node in h && Under(h, h[node].parent, above)
    && Linked(h, h[node].list, kids, Some(node), None)
    && Linked(h, h[node].next, rest, h[node].parent, None)
  }

  lemma EnterList(h: Heap, node: NodeId, kids: Forest, rest: Forest, above: seq<Frame>)
    requires At(h, node, kids, rest, above) && kids.Node?
    ensures At(h, kids.id, kids.kids, kids.rest, [Frame(node, rest)] + above)
    ensures [kids.id] + Left(kids.kids, kids.rest, [Frame(node, rest)] + above) == Left(kids, rest, above)
  {
    var inner := [Frame(node, rest)] + above;
    assert inner[1..] == above;
    assert Up(inner) == Preorder(rest) + Up(above);
    hide Linked, Preorder, Up;
    LinkedHead(h, h[node].list, kids, Some(node));
    NodeOrder(kids);
    Regroup([kids.id], Preorder(kids.kids), Preorder(kids.rest), Preorder(rest), Up(above));
  }

  lemma EnterNext(h: Heap, node: NodeId, rest: Forest, above: seq<Frame>)
    requires At(h, node, Nil, rest, above) && rest.Node?
    ensures At(h, rest.id, rest.kids, rest.rest, above)
    ensures [rest.id] + Left(rest.kids, rest.rest, above) == Left(Nil, rest, above)
  {
    LinkedHead(h, h[node].next, rest, h[node].parent);
    NodeOrder(rest);
    assert Preorder(Nil) == [];
    hide Linked, Preorder, Up;
    Regroup([rest.id], Preorder(rest.kids), Preorder(rest.rest), [], Up(above));
  }

  lemma LinkedHead(h: Heap, first: Option<NodeId>, f: Forest, p: Option<NodeId>)
    requires f.Node? && Linked(h, first, f, p, None)
    ensures first == Some(f.id) && f.id in h && h[f.id].parent == p
    ensures Linked(h, h[f.id].list, f.kids, Some(f.id), None) && Linked(h, h[f.id].next, f.rest, p, None)
  {
  }

  lemma NodeOrder(f: Forest)
    requires f.Node?
    ensures Preorder(f) == [f.id] + Preorder(f.kids) + Preorder(f.rest)
  {
  }

  lemma Regroup(a: seq<NodeId>, b: seq<NodeId>, c: seq<NodeId>, d: seq<NodeId>, e: seq<NodeId>)
    ensures a + (b + c + (d + e)) == a + b + c + d + e
    ensures a + (b + c + e) == a + b + c + e
  {
  }
}
