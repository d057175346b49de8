/**
  What choices collect while the menu tree is finalised: their properties, the symbols on the
  finished level below each of their nodes, and the types that choices and symbols lend each other.
 */
module MenuChoices {
  import opened Expressions
  import opened MenuTree
  import opened MenuDeps
  import opened Layout

  // ----- The order in which choice nodes are finished -----

  /** A finished choice node, and the finished level below it. */
  datatype Finish = Finish(id: NodeId, below: seq<NodeId>)

  function LevelIds(f: Forest): seq<NodeId> {
    if f.Nil? then [] else [f.id] + LevelIds(f.rest)
  }

  function FinishOf(w: Entries, head: Forest): seq<Finish>
    requires head.Node?
  {
    if w(head.id).item.ChoiceItem? then [Finish(head.id, LevelIds(head.kids))] else []
  }

  /** The choices finished while the first node is; a choice comes after those inside it. */
  function FinishHead(w: Entries, f: Forest): seq<Finish>
    requires f.Node?
    decreases Size(f), 1
  {
    FinishInside(w, f) + FinishOf(w, FinalHead(w, f))
  }

  function FinishInside(w: Entries, f: Forest): seq<Finish>
    requires f.Node?
    decreases Size(f), 0
  {
    if w(f.id).item.Symbol? then FinishAbsorbed(w, w(f.id).item.sym, f.rest) else FinishLevel(w, f.kids)
  }

  function FinishAbsorbed(w: Entries, s: SymId, f: Forest): seq<Finish>
    decreases Size(f), 2
  {
    if f.Nil? || !AutoMenuDep(s, w(f.id)) then []
    else FinishHead(w, f) + FinishAbsorbed(w, s, FinalHead(w, f).rest)
  }

  function FinishLevel(w: Entries, f: Forest): seq<Finish>
    decreases Size(f), 2
  {
    if f.Nil? then [] else FinishHead(w, f) + FinishLevel(w, FinalHead(w, f).rest)
  }

  // ----- What choices collect -----

  datatype ChoiceProps = ChoiceProps(directDep: Expr, defaults: seq<Guarded<Expr>>, syms: seq<SymId>, typ: Type)

  /** `owner` is the choice of a symbol, `types` the types of symbols as far as they are known. */
  datatype ChoiceTable = ChoiceTable(
    props: map<ChoiceId, ChoiceProps>,
    owner: map<SymId, ChoiceId>,
    types: map<SymId, Type>)

  function ChoiceOf(cs: ChoiceTable, c: ChoiceId): ChoiceProps {
    if c in cs.props then cs.props[c] else ChoiceProps(N, [], [], Unknown)
  }

  function TypeOf(types: map<SymId, Type>, s: SymId): Type {
    if s in types then types[s] else Unknown
  }

  /** The symbols of a level, in order. */
  function SymsOf(w: Entries, nodes: seq<NodeId>): seq<SymId> {
    if nodes == [] then []
    else
      var last := w(nodes[|nodes| - 1]).item;
      SymsOf(w, nodes[..|nodes| - 1]) + if last.Symbol? then [last.sym] else []
  }

  /** The first type that is known. */
  function FirstType(types: map<SymId, Type>, syms: seq<SymId>): Type {
    if syms == [] then Unknown
    else if TypeOf(types, syms[0]) != Unknown then TypeOf(types, syms[0])
    else FirstType(types, syms[1..])
  }

  function LendType(types: map<SymId, Type>, syms: seq<SymId>, t: Type): map<SymId, Type> {
    map s | s in types.Keys + (set x | x in syms) ::
      if s in syms && TypeOf(types, s) == Unknown then t else TypeOf(types, s)
  }

  function Own(owner: map<SymId, ChoiceId>, syms: seq<SymId>, c: ChoiceId): map<SymId, ChoiceId> {
    map s | s in owner.Keys + (set x | x in syms) :: if s in syms then c else owner[s]
  }

  /** The end of _finalize_node for a choice, with _finalize_choice. */
  function FinishChoice(cs: ChoiceTable, c: ChoiceId, e: Entry, members: seq<SymId>): ChoiceTable {
    var p := ChoiceOf(cs, c);
    var syms := p.syms + members;
    var typ := if p.typ != Unknown then p.typ else FirstType(cs.types, syms);
    ChoiceTable(
      cs.props[c := ChoiceProps(MakeOr(p.directDep, e.dep), p.defaults + e.defaults, syms, typ)],
      Own(cs.owner, members, c),
      LendType(cs.types, syms, typ))
  }

  /** The choices after these nodes were finished in this order. */
  function Chosen(cs: ChoiceTable, w: Entries, done: seq<Finish>): ChoiceTable {
    if done == [] then cs
    else
      var last := done[|done| - 1];
      var e := w(last.id);
      var before := Chosen(cs, w, done[..|done| - 1]);
      if e.item.ChoiceItem? then FinishChoice(before, e.item.choice, e, SymsOf(w, last.below)) else before
  }

  lemma ChosenStep(cs: ChoiceTable, w: Entries, done: seq<Finish>, last: Finish)
    requires w(last.id).item.ChoiceItem?
    ensures Chosen(cs, w, done + [last])
         == FinishChoice(Chosen(cs, w, done), w(last.id).item.choice, w(last.id), SymsOf(w, last.below))
  {
    assert (done + [last])[..|done|] == done;
  }

  /** The first symbol whose type is known has this type. */
  ghost predicate FirstKnown(types: map<SymId, Type>, syms: seq<SymId>, t: Type) {
    exists i :: 0 <= i < |syms| && TypeOf(types, syms[i]) == t != Unknown
                && forall j :: 0 <= j < i ==> TypeOf(types, syms[j]) == Unknown
  }

  lemma {:induction false} FirstTypeMeaning(types: map<SymId, Type>, syms: seq<SymId>)
    ensures var t := FirstType(types, syms);
            if t != Unknown then FirstKnown(types, syms, t)
            else forall i :: 0 <= i < |syms| ==> TypeOf(types, syms[i]) == Unknown
  {
    if syms != [] {
      FirstTypeMeaning(types, syms[1..]);
      assert forall i :: 1 <= i < |syms| ==> syms[i] == syms[1..][i - 1];
      var t := FirstType(types, syms);
      if TypeOf(types, syms[0]) == Unknown && t != Unknown {
        var i :| 0 <= i < |syms[1..]| && TypeOf(types, syms[1..][i]) == t
                 && forall j :: 0 <= j < i ==> TypeOf(types, syms[1..][j]) == Unknown;
        assert TypeOf(types, syms[i + 1]) == t;
      }
    }
  }

  /** A choice without a type gets that of its first symbol that has one, and lends it to the symbols
      that have none; types that were known stay. */
  lemma TypesAreLent(cs: ChoiceTable, c: ChoiceId, e: Entry, members: seq<SymId>)
    ensures var after := FinishChoice(cs, c, e, members);
            var p, q := ChoiceOf(cs, c), ChoiceOf(after, c);
            && (p.typ != Unknown ==> q.typ == p.typ)
            && (p.typ == Unknown ==>
                  if q.typ != Unknown then FirstKnown(cs.types, q.syms, q.typ)
                  else forall i :: 0 <= i < |q.syms| ==> TypeOf(cs.types, q.syms[i]) == Unknown)
            && (forall s :: TypeOf(after.types, s) ==
                  if TypeOf(cs.types, s) == Unknown && s in q.syms then q.typ else TypeOf(cs.types, s))
  {
    FirstTypeMeaning(cs.types, ChoiceOf(cs, c).syms + members);
  }

  // ----- Everything on the level below a choice is bounded by its mode -----

  /** Nodes of this level, and those below them that are not inside another choice. */
  predicate GuardedDown(w: Entries, f: Forest, c: ChoiceId) {
    f.Node? ==>
      && GuardedEntry(w(f.id), c)
      && (!w(f.id).item.ChoiceItem? ==> GuardedDown(w, f.kids, c))
      && GuardedDown(w, f.rest, c)
  }

  predicate GuardedEntry(e: Entry, c: ChoiceId) {
    GuardedBy(e.dep, c) && (e.prompt.Some? ==> GuardedBy(e.prompt.value, c))
  }

  lemma InheritGuards(e: Entry, base: Expr, visibleIf: Expr, c: ChoiceId)
    requires GuardedBy(base, c)
    ensures GuardedEntry(Inherit(e, base, visibleIf), c)
  {
    var dep := MakeAnd(e.dep, base);
    MakeAndKeepsGuard(e.dep, base, c);
    MakeAndKeepsGuard(visibleIf, dep, c);
    if e.prompt.Some? {
      MakeAndKeepsGuard(e.prompt.value, MakeAnd(visibleIf, dep), c);
      MakeAndKeepsGuard(e.prompt.value, dep, c);
    }
    hide MakeAnd, GuardedBy;
  }

  lemma {:induction false} InheritedGuards(o: Entries, w: Entries, f: Forest, base: Expr, visibleIf: Expr, c: ChoiceId)
    requires Inherits(o, w, f, base, visibleIf) && GuardedBy(base, c)
    ensures GuardedDown(w, f, c)
    decreases f
  {
    hide GuardedBy, Inherit, VisibleIf;
    if f.Node? {
      InheritGuards(o(f.id), base, visibleIf, c);
      if !w(f.id).item.ChoiceItem? {
        InheritedGuards(o, w, f.kids, BaseDep(w(f.id)), VisibleIf(w(f.id), visibleIf), c);
      }
      InheritedGuards(o, w, f.rest, base, visibleIf, c);
    }
  }

  lemma GuardedAppend(w: Entries, f: Forest, g: Forest, c: ChoiceId)
    requires GuardedDown(w, f, c) && GuardedDown(w, g, c)
    ensures GuardedDown(w, Append(f, g), c)
  {
  }

  lemma {:induction false} GuardedTidy(w: Entries, f: Forest, c: ChoiceId)
    requires GuardedDown(w, f, c)
    ensures GuardedDown(w, Flatten(w, f), c) && GuardedDown(w, Tidy(w, f), c)
    decreases Size(f)
  {
    GuardedFlatten(w, f, c);
    GuardedRemoveIfs(w, Flatten(w, f), c);
  }

  lemma {:induction false} GuardedFlatten(w: Entries, f: Forest, c: ChoiceId)
    requires GuardedDown(w, f, c)
    ensures GuardedDown(w, Flatten(w, f), c)
    decreases Size(f)
  {
    hide GuardedEntry;
    if f.Node? {
      if f.kids.Node? && Flattens(w(f.id)) {
        AppendSize(f.kids, f.rest);
        GuardedAppend(w, f.kids, f.rest, c);
        GuardedFlatten(w, Append(f.kids, f.rest), c);
      } else {
        GuardedFlatten(w, f.rest, c);
      }
    }
  }

  lemma GuardedRemoveIfs(w: Entries, f: Forest, c: ChoiceId)
    requires GuardedDown(w, f, c)
    ensures GuardedDown(w, RemoveIfs(w, f), c)
  {
  }

  lemma {:induction false} GuardedHead(w: Entries, f: Forest, c: ChoiceId)
    requires f.Node? && GuardedDown(w, f, c)
    ensures GuardedDown(w, FinalHead(w, f), c)
    decreases Size(f), 1
  {
    hide GuardedEntry, Tidy;
    if w(f.id).item.Symbol? {
      var s := w(f.id).item.sym;
      GuardedAbsorb(w, s, f.rest, c);
      GuardedTidy(w, Absorb(w, s, f.rest).0, c);
      GuardedTidy(w, f.kids, c);
    } else if !w(f.id).item.ChoiceItem? {
      GuardedLevel(w, f.kids, c);
      GuardedTidy(w, FinalLevel(w, f.kids), c);
    }
  }

  lemma {:induction false} GuardedAbsorb(w: Entries, s: SymId, f: Forest, c: ChoiceId)
    requires GuardedDown(w, f, c)
    ensures GuardedDown(w, Absorb(w, s, f).0, c) && GuardedDown(w, Absorb(w, s, f).1, c)
    decreases Size(f), 2
  {
    hide GuardedEntry, FinalHead;
    if f.Node? && AutoMenuDep(s, w(f.id)) {
      GuardedHead(w, f, c);
      GuardedAbsorb(w, s, FinalHead(w, f).rest, c);
    }
  }

  lemma {:induction false} GuardedLevel(w: Entries, f: Forest, c: ChoiceId)
    requires GuardedDown(w, f, c)
    ensures GuardedDown(w, FinalLevel(w, f), c)
    decreases Size(f), 2
  {
    hide GuardedEntry, FinalHead;
    if f.Node? {
      GuardedHead(w, f, c);
      GuardedLevel(w, FinalHead(w, f).rest, c);
    }
  }

  lemma {:induction false} GuardedIds(w: Entries, f: Forest, c: ChoiceId)
    requires GuardedDown(w, f, c)
    ensures forall id <- LevelIds(f) :: GuardedEntry(w(id), c)
  {
    hide GuardedEntry;
    if f.Node? {
      GuardedIds(w, f.rest, c);
    }
  }

  /** Every finished choice is one, and bounds all on the level below it. */
  ghost predicate GuardsBelow(w: Entries, done: seq<Finish>) {
    forall x <- done :: w(x.id).item.ChoiceItem? && forall id <- x.below :: GuardedEntry(w(id), w(x.id).item.choice)
  }

  lemma {:induction false} HeadGuards(o: Entries, w: Entries, f: Forest, visibleIf: Expr)
    requires f.Node? && InheritsBelow(o, w, f, visibleIf)
    ensures GuardsBelow(w, FinishHead(w, f)) && InheritsBelow(o, w, FinalHead(w, f).rest, visibleIf)
    decreases Size(f), 1
  {
    hide GuardedEntry, Inherits, VisibleIf, Tidy;
    if w(f.id).item.Symbol? {
      AbsorbedGuards(o, w, w(f.id).item.sym, f.rest, visibleIf);
    } else {
      var inner := VisibleIf(w(f.id), visibleIf);
      InheritedBelow(o, w, f.kids, BaseDep(w(f.id)), inner);
      LevelGuards(o, w, f.kids, inner);
      if w(f.id).item.ChoiceItem? {
        var c := w(f.id).item.choice;
        InheritedGuards(o, w, f.kids, Mode(c), inner, c);
        GuardedLevel(w, f.kids, c);
        GuardedTidy(w, FinalLevel(w, f.kids), c);
        GuardedIds(w, FinalHead(w, f).kids, c);
      }
    }
  }

  lemma {:induction false} AbsorbedGuards(o: Entries, w: Entries, s: SymId, f: Forest, visibleIf: Expr)
    requires InheritsBelow(o, w, f, visibleIf)
    ensures GuardsBelow(w, FinishAbsorbed(w, s, f)) && InheritsBelow(o, w, Absorb(w, s, f).1, visibleIf)
    decreases Size(f), 2
  {
    hide GuardedEntry, Inherits, FinalHead, FinishHead, InheritsBelow;
    if f.Node? && AutoMenuDep(s, w(f.id)) {
      HeadGuards(o, w, f, visibleIf);
      AbsorbedGuards(o, w, s, FinalHead(w, f).rest, visibleIf);
    }
  }

  lemma {:induction false} LevelGuards(o: Entries, w: Entries, f: Forest, visibleIf: Expr)
    requires InheritsBelow(o, w, f, visibleIf)
    ensures GuardsBelow(w, FinishLevel(w, f))
    decreases Size(f), 2
  {
    hide GuardedEntry, Inherits, FinalHead, FinishHead, InheritsBelow;
    if f.Node? {
      HeadGuards(o, w, f, visibleIf);
      LevelGuards(o, w, FinalHead(w, f).rest, visibleIf);
    }
  }

  // ----- The order of defaults and symbols -----

  /** What the finished nodes of the choice have, node by node. */
  ghost function ChoiceParts<T>(w: Entries, done: seq<Finish>, c: ChoiceId, prop: Finish -> seq<T>): seq<seq<T>> {
    seq(|done|, i requires 0 <= i < |done| => if w(done[i].id).item == ChoiceItem(c) then prop(done[i]) else [])
  }

  ghost function ChoiceDefaultsIn(w: Entries): Finish -> seq<Guarded<Expr>> { (x: Finish) => w(x.id).defaults }
  ghost function SymsBelow(w: Entries): Finish -> seq<SymId> { (x: Finish) => SymsOf(w, x.below) }

  lemma NextChoicePart<T>(w: Entries, done: seq<Finish>, c: ChoiceId, prop: Finish -> seq<T>, all: seq<T>)
    requires done != [] && InOrder(ChoiceParts(w, done[..|done| - 1], c, prop), all)
    ensures var x := done[|done| - 1];
            InOrder(ChoiceParts(w, done, c, prop), if w(x.id).item == ChoiceItem(c) then all + prop(x) else all)
  {
    var n := |done| - 1;
    var part := if w(done[n].id).item == ChoiceItem(c) then prop(done[n]) else [];
    assert ChoiceParts(w, done, c, prop) == ChoiceParts(w, done[..n], c, prop) + [part];
    hide InOrder, ChoiceParts;
    OneMorePart(ChoiceParts(w, done[..n], c, prop), all, part);
    assert all + [] == all;
  }

  /** A choice has the defaults of its nodes and the symbols on their levels and no others, those of a
      node that was finished earlier first. */
  lemma {:induction false} ChoiceInOrder(given: ChoiceTable, w: Entries, done: seq<Finish>, c: ChoiceId)
    requires ChoiceOf(given, c).defaults == [] && ChoiceOf(given, c).syms == []
    ensures var p := ChoiceOf(Chosen(given, w, done), c);
            && InOrder(ChoiceParts(w, done, c, ChoiceDefaultsIn(w)), p.defaults)
            && InOrder(ChoiceParts(w, done, c, SymsBelow(w)), p.syms)
  {
    hide InOrder, FirstType, LendType, Own;
    if done == [] {
      NoChoiceParts(w, c, ChoiceDefaultsIn(w));
      NoChoiceParts(w, c, SymsBelow(w));
    } else {
      var n := |done| - 1;
      var p := ChoiceOf(Chosen(given, w, done[..n]), c);
      ChoiceInOrder(given, w, done[..n], c);
      NextChoicePart(w, done, c, ChoiceDefaultsIn(w), p.defaults);
      NextChoicePart(w, done, c, SymsBelow(w), p.syms);
    }
  }

  lemma NoChoiceParts<T>(w: Entries, c: ChoiceId, prop: Finish -> seq<T>)
    ensures InOrder(ChoiceParts(w, [], c, prop), [])
  {
  }

  /** The symbols of a level are those of its nodes, in order. */
  lemma {:induction false} SymsInOrder(w: Entries, nodes: seq<NodeId>)
    ensures InOrder(SymParts(w, nodes), SymsOf(w, nodes))
  {
    if nodes != [] {
      var n := |nodes| - 1;
      SymsInOrder(w, nodes[..n]);
      var part := if w(nodes[n]).item.Symbol? then [w(nodes[n]).item.sym] else [];
      OneMorePart(SymParts(w, nodes[..n]), SymsOf(w, nodes[..n]), part);
      assert SymParts(w, nodes) == SymParts(w, nodes[..n]) + [part];
    }
  }

  ghost function SymParts(w: Entries, nodes: seq<NodeId>): seq<seq<SymId>> {
    seq(|nodes|, i requires 0 <= i < |nodes| => if w(nodes[i]).item.Symbol? then [w(nodes[i]).item.sym] else [])
  }
}
