/**
 The values cached on symbols and choices, the dependency edges along which they are
 invalidated, and why it is safe to stop an invalidation at items without a cached
 visibility.

 A cached value is *forced*: every valuation that agrees with the cache on the item's
 dependencies gives the rule that same value, whatever the uncached dependencies are. This
 covers values calculated with short-circuiting, where some dependencies were never read.
 */
module Caching {
  import opened Expressions
  import opened Config
  import opened Locality
  import opened Evaluation

  // ----- Dependencies -----

  function ItemsIn(e: Expr): set<Item> {
    (set s | s in SymsIn(e) :: SymItem(s)) + (set c | c in ChoicesIn(e) :: ChoiceItem(c))
  }

  function PromptItems(es: seq<Expr>): set<Item> {
    set i, x | 0 <= i < |es| && x in ItemsIn(es[i]) :: x
  }

  function DefaultItems(ds: seq<Default>): set<Item> {
    set i, x | 0 <= i < |ds| && x in ItemsIn(ds[i].value) + ItemsIn(ds[i].cond) :: x
  }

  function RangeItems(rs: seq<Range>): set<Item> {
    set i, x | 0 <= i < |rs| && x in ItemsIn(Leaf(rs[i].low)) + ItemsIn(Leaf(rs[i].high)) + ItemsIn(rs[i].cond) :: x
  }

  function ChoiceDefaultItems(ds: seq<ChoiceDefault>): set<Item> {
    set i, x | 0 <= i < |ds| && x in ItemsIn(ds[i].cond) :: x
  }

  function MemberItems(syms: seq<SymId>): set<Item> {
    set i | 0 <= i < |syms| :: SymItem(syms[i])
  }

  /** The items that have `i` in `_dependents`, from `_build_dep` and `_add_choice_deps`. */
  function DependsOn(k: Kconfig, i: Item): set<Item> {
    match i
    case SymItem(s) =>
      var d := k.Def(s);
      if !d.defined then {}
      else
        PromptItems(d.prompts) + DefaultItems(d.defaults) + ItemsIn(d.revDep) + ItemsIn(d.weakRevDep)
        + RangeItems(d.ranges) + ItemsIn(d.directDep)
    case ChoiceItem(c) =>
      var ch := k.Choice(c);
      PromptItems(ch.prompts) + ChoiceDefaultItems(ch.defaults) + MemberItems(ch.syms)
  }

  /** What the values of `i` may be calculated from: its dependencies, itself, and MODULES,
      which has no edges but whose invalidation invalidates everything. */
  function Near(k: Kconfig, i: Item): set<Item> {
    DependsOn(k, i) + {i, SymItem(k.modules)}
  }

  // ----- Caches -----

  /** `write` holds `_write_to_conf`, which is set along with a value and never cleared. */
  datatype Cache = Cache(
    vis: map<Item, Tri>,
    tri: map<SymId, Tri>,
    str: map<SymId, string>,
    sel: map<ChoiceId, Option<SymId>>,
    assignable: map<Item, set<Tri>>,
    write: map<SymId, bool>)
  {
    function Write(s: SymId): bool { s in write && write[s] }
  }

  const EmptyCache := Cache(map[], map[], map[], map[], map[], map[])

  ghost predicate Agrees(v: Valuation, c: Cache, near: set<Item>) {
    && (forall i | i in near && i in c.vis :: v.vis(i) == c.vis[i])
    && (forall s | SymItem(s) in near && s in c.tri :: v.tri(s) == c.tri[s])
    && (forall s | SymItem(s) in near && s in c.str :: v.str(s) == c.str[s])
    && (forall x | ChoiceItem(x) in near && x in c.sel :: v.sel(x) == c.sel[x])
  }

  /** `b` caches everything that `a` does. */
  ghost predicate Extends(a: Cache, b: Cache) {
    && (forall i | i in a.vis :: i in b.vis && b.vis[i] == a.vis[i])
    && (forall s | s in a.tri :: s in b.tri && b.tri[s] == a.tri[s])
    && (forall s | s in a.str :: s in b.str && b.str[s] == a.str[s])
    && (forall x | x in a.sel :: x in b.sel && b.sel[x] == a.sel[x])
  }

  lemma AgreesWithLess(v: Valuation, a: Cache, b: Cache, near: set<Item>)
    requires Extends(a, b) && Agrees(v, b, near)
    ensures Agrees(v, a, near)
  {
  }

  ghost predicate VisForced(k: Kconfig, u: User, c: Cache, i: Item, r: Tri) {
    forall v | Agrees(v, c, Near(k, i)) :: VisRule(k, u, v, i) == r
  }

  ghost predicate TriForced(k: Kconfig, u: User, c: Cache, s: SymId, r: Tri, write: bool) {
    forall v | Agrees(v, c, Near(k, SymItem(s))) ::
      TriRule(k, u, v, s).val == r && (IsBoolTristate(k.Def(s).typ) ==> TriRule(k, u, v, s).write == write)
  }

  ghost predicate StrForced(k: Kconfig, u: User, c: Cache, s: SymId, r: string, write: bool) {
    forall v | Agrees(v, c, Near(k, SymItem(s))) ::
      StrRule(k, u, v, s).val == r && (k.Def(s).typ != Unknown ==> StrRule(k, u, v, s).write == write)
  }

  ghost predicate SelForced(k: Kconfig, u: User, c: Cache, x: ChoiceId, r: Option<SymId>) {
    forall v | Agrees(v, c, Near(k, ChoiceItem(x))) :: SelRule(k, u, v, x) == r
  }

  ghost predicate AssignableForced(k: Kconfig, u: User, c: Cache, i: Item, r: set<Tri>) {
    forall v | Agrees(v, c, Near(k, i)) :: AssignableRule(k, u, v, i) == r
  }

  /** `_cached_vis` doubles as a flag: it is set whenever another value that is not constant
      is cached. */
  ghost predicate VisIsFlag(k: Kconfig, c: Cache) {
    && (forall s | s in c.tri && IsBoolTristate(k.Def(s).typ) :: SymItem(s) in c.vis)
    && (forall s | s in c.str && k.Def(s).typ != Unknown :: SymItem(s) in c.vis)
    && (forall s | s in c.str && IsBoolTristate(k.Def(s).typ) :: s in c.tri)
    && (forall x | x in c.sel :: ChoiceItem(x) in c.vis)
    && (forall s | SymItem(s) in c.assignable && IsBoolTristate(k.Def(s).typ) :: SymItem(s) in c.vis)
    && (forall x | ChoiceItem(x) in c.assignable :: ChoiceItem(x) in c.vis)
  }

  ghost predicate CacheOk(k: Kconfig, u: User, c: Cache) {
    && VisIsFlag(k, c)
    && (forall i | i in c.vis :: VisForced(k, u, c, i, c.vis[i]))
    && (forall s | s in c.tri :: TriForced(k, u, c, s, c.tri[s], c.Write(s)))
    && (forall s | s in c.str :: StrForced(k, u, c, s, c.str[s], c.Write(s)))
    && (forall x | x in c.sel :: SelForced(k, u, c, x, c.sel[x]))
    && (forall i | i in c.assignable :: AssignableForced(k, u, c, i, c.assignable[i]))
  }

  // ----- A sound cache holds the values of plain evaluation -----

  function OverlayVis(v: Valuation, c: Cache, i: Item): Tri { if i in c.vis then c.vis[i] else v.vis(i) }
  function OverlayTri(v: Valuation, c: Cache, s: SymId): Tri { if s in c.tri then c.tri[s] else v.tri(s) }

  /** `v`, with cached values where there are any. */
  function Overlay(v: Valuation, c: Cache): (r: Valuation)
    ensures forall near :: Agrees(r, c, near)
  {
    Valuation(
      (i: Item) => OverlayVis(v, c, i),
      (s: SymId) => OverlayTri(v, c, s),
      (s: SymId) => if s in c.str then c.str[s] else v.str(s),
      (x: ChoiceId) => if x in c.sel then c.sel[x] else v.sel(x))
  }

  /** Cached values ranked below `bound` are those of `v`. */
  ghost predicate CoherentBelow(rank: Rank, bound: nat, c: Cache, v: Valuation) {
    && (forall i | i in c.vis && rank(VisOf(i)) < bound :: c.vis[i] == v.vis(i))
    && (forall s | s in c.tri && rank(TriOf(s)) < bound :: c.tri[s] == v.tri(s))
    && (forall s | s in c.str && rank(StrOf(s)) < bound :: c.str[s] == v.str(s))
    && (forall x | x in c.sel && rank(SelOf(x)) < bound :: c.sel[x] == v.sel(x))
  }

  lemma VisCoherent(k: Kconfig, u: User, rank: Rank, c: Cache, v: Valuation, i: Item)
    requires Acyclic(k, rank) && Solves(k, u, v) && AgreeBelow(rank, rank(VisOf(i)), v, Overlay(v, c))
    requires i in c.vis && VisForced(k, u, c, i, c.vis[i])
    ensures c.vis[i] == v.vis(i)
  {
    VisCongruent(k, u, rank, v, Overlay(v, c), i);
  }

  lemma TriCoherent(k: Kconfig, u: User, rank: Rank, c: Cache, v: Valuation, s: SymId)
    requires Acyclic(k, rank) && Solves(k, u, v) && AgreeBelow(rank, rank(TriOf(s)), v, Overlay(v, c))
    requires s in c.tri && TriForced(k, u, c, s, c.tri[s], c.Write(s))
    ensures c.tri[s] == v.tri(s)
  {
    TriCongruent(k, u, rank, v, Overlay(v, c), s);
  }

  lemma StrCoherent(k: Kconfig, u: User, rank: Rank, c: Cache, v: Valuation, s: SymId)
    requires Acyclic(k, rank) && Solves(k, u, v) && AgreeBelow(rank, rank(StrOf(s)), v, Overlay(v, c))
    requires s in c.str && StrForced(k, u, c, s, c.str[s], c.Write(s))
    ensures c.str[s] == v.str(s)
  {
    StrCongruent(k, u, rank, v, Overlay(v, c), s);
  }

  lemma SelCoherent(k: Kconfig, u: User, rank: Rank, c: Cache, v: Valuation, x: ChoiceId)
    requires WellFormed(k) && UserOk(k, u)
    requires Acyclic(k, rank) && Solves(k, u, v) && AgreeBelow(rank, rank(SelOf(x)), v, Overlay(v, c))
    requires x in c.sel && SelForced(k, u, c, x, c.sel[x])
    ensures c.sel[x] == v.sel(x)
  {
    SelCongruent(k, u, rank, v, Overlay(v, c), x);
  }

  lemma CoherentMeansAgree(rank: Rank, bound: nat, c: Cache, v: Valuation)
    requires CoherentBelow(rank, bound, c, v)
    ensures forall b: nat | b <= bound :: AgreeBelow(rank, b, v, Overlay(v, c))
  {
  }

  lemma {:induction false} CoherentUpTo(k: Kconfig, u: User, rank: Rank, c: Cache, v: Valuation, bound: nat)
    requires WellFormed(k) && UserOk(k, u) && Acyclic(k, rank) && CacheOk(k, u, c) && Solves(k, u, v)
    ensures CoherentBelow(rank, bound, c, v)
  {
    hide VisForced, TriForced, StrForced, SelForced, AssignableForced, Solves, Acyclic, WellFormed, UserOk;
    if bound > 0 {
      CoherentUpTo(k, u, rank, c, v, bound - 1);
      CoherentMeansAgree(rank, bound - 1, c, v);
      forall i | i in c.vis && rank(VisOf(i)) < bound ensures c.vis[i] == v.vis(i) { VisCoherent(k, u, rank, c, v, i); }
      forall s | s in c.tri && rank(TriOf(s)) < bound ensures c.tri[s] == v.tri(s) { TriCoherent(k, u, rank, c, v, s); }
      forall s | s in c.str && rank(StrOf(s)) < bound ensures c.str[s] == v.str(s) { StrCoherent(k, u, rank, c, v, s); }
      forall x | x in c.sel && rank(SelOf(x)) < bound ensures c.sel[x] == v.sel(x) { SelCoherent(k, u, rank, c, v, x); }
    }
  }

  /** Everything cached, including `_write_to_conf` and the assignable values, is what plain
      evaluation gives. */
  ghost predicate Coherent(k: Kconfig, u: User, rank: Rank, c: Cache) {
    var v := Evaluate(k, u, rank);
    && (forall i | i in c.vis :: c.vis[i] == v.vis(i))
    && (forall s | s in c.tri :: c.tri[s] == v.tri(s))
    && (forall s | s in c.str :: c.str[s] == v.str(s))
    && (forall x | x in c.sel :: c.sel[x] == v.sel(x))
    && (forall i | i in c.assignable :: c.assignable[i] == AssignableRule(k, u, v, i))
    && (forall s | s in c.str && k.Def(s).typ != Unknown :: c.Write(s) == StrRule(k, u, v, s).write)
  }

  lemma CachedValuesAgree(k: Kconfig, u: User, rank: Rank, c: Cache, v: Valuation)
    requires WellFormed(k) && UserOk(k, u) && Acyclic(k, rank) && CacheOk(k, u, c) && Solves(k, u, v)
    ensures forall near :: Agrees(v, c, near)
  {
    hide CacheOk, Solves, Acyclic, WellFormed, UserOk;
    forall i | i in c.vis ensures c.vis[i] == v.vis(i) { CoherentUpTo(k, u, rank, c, v, rank(VisOf(i)) + 1); }
    forall s | s in c.tri ensures c.tri[s] == v.tri(s) { CoherentUpTo(k, u, rank, c, v, rank(TriOf(s)) + 1); }
    forall s | s in c.str ensures c.str[s] == v.str(s) { CoherentUpTo(k, u, rank, c, v, rank(StrOf(s)) + 1); }
    forall x | x in c.sel ensures c.sel[x] == v.sel(x) { CoherentUpTo(k, u, rank, c, v, rank(SelOf(x)) + 1); }
  }

  lemma CacheIsCoherent(k: Kconfig, u: User, rank: Rank, c: Cache)
    requires WellFormed(k) && UserOk(k, u) && Acyclic(k, rank) && CacheOk(k, u, c)
    ensures Coherent(k, u, rank, c)
  {
    hide Solves, Acyclic, WellFormed, UserOk, SelForced, VisForced, TriForced, Evaluate;
    var v := Evaluate(k, u, rank);
    EvaluateSolves(k, u, rank);
    CachedValuesAgree(k, u, rank, c, v);
    forall i | i in c.vis ensures c.vis[i] == v.vis(i) { assert Agrees(v, c, {i}); }
    forall s | s in c.tri ensures c.tri[s] == v.tri(s) { assert Agrees(v, c, {SymItem(s)}); }
    forall s | s in c.str ensures c.str[s] == v.str(s) { assert Agrees(v, c, {SymItem(s)}); }
    forall x | x in c.sel ensures c.sel[x] == v.sel(x) { assert Agrees(v, c, {ChoiceItem(x)}); }
  }

  // ----- Adding to a cache -----

  lemma VisStaysForced(k: Kconfig, u: User, a: Cache, b: Cache, i: Item, r: Tri)
    requires Extends(a, b) && VisForced(k, u, a, i, r)
    ensures VisForced(k, u, b, i, r)
  {
    hide VisRule, Near;
    forall v | Agrees(v, b, Near(k, i)) ensures VisRule(k, u, v, i) == r { AgreesWithLess(v, a, b, Near(k, i)); }
  }

  lemma TriStaysForced(k: Kconfig, u: User, a: Cache, b: Cache, s: SymId, r: Tri, write: bool)
    requires Extends(a, b) && TriForced(k, u, a, s, r, write)
    ensures TriForced(k, u, b, s, r, write)
  {
    hide TriRule, Near;
    forall v | Agrees(v, b, Near(k, SymItem(s)))
      ensures TriRule(k, u, v, s).val == r && (IsBoolTristate(k.Def(s).typ) ==> TriRule(k, u, v, s).write == write)
    {
      AgreesWithLess(v, a, b, Near(k, SymItem(s)));
    }
  }

  lemma StrStaysForced(k: Kconfig, u: User, a: Cache, b: Cache, s: SymId, r: string, write: bool)
    requires Extends(a, b) && StrForced(k, u, a, s, r, write)
    ensures StrForced(k, u, b, s, r, write)
  {
    hide StrRule, Near;
    forall v | Agrees(v, b, Near(k, SymItem(s)))
      ensures StrRule(k, u, v, s).val == r && (k.Def(s).typ != Unknown ==> StrRule(k, u, v, s).write == write)
    {
      AgreesWithLess(v, a, b, Near(k, SymItem(s)));
    }
  }

  lemma SelStaysForced(k: Kconfig, u: User, a: Cache, b: Cache, x: ChoiceId, r: Option<SymId>)
    requires Extends(a, b) && SelForced(k, u, a, x, r)
    ensures SelForced(k, u, b, x, r)
  {
    hide SelRule, Near;
    forall v | Agrees(v, b, Near(k, ChoiceItem(x))) ensures SelRule(k, u, v, x) == r {
      AgreesWithLess(v, a, b, Near(k, ChoiceItem(x)));
    }
  }

  lemma AssignableStaysForced(k: Kconfig, u: User, a: Cache, b: Cache, i: Item, r: set<Tri>)
    requires Extends(a, b) && AssignableForced(k, u, a, i, r)
    ensures AssignableForced(k, u, b, i, r)
  {
    hide AssignableRule, Near;
    forall v | Agrees(v, b, Near(k, i)) ensures AssignableRule(k, u, v, i) == r { AgreesWithLess(v, a, b, Near(k, i)); }
  }

  /** A cache that grows stays sound if what is new is forced. */
  lemma GrowCache(k: Kconfig, u: User, a: Cache, b: Cache)
    requires CacheOk(k, u, a) && Extends(a, b) && VisIsFlag(k, b)
    requires forall i | i in b.vis && i !in a.vis :: VisForced(k, u, a, i, b.vis[i])
    requires forall s | s in b.tri && s !in a.tri :: TriForced(k, u, a, s, b.tri[s], b.Write(s))
    requires forall s | s in b.str && s !in a.str :: StrForced(k, u, a, s, b.str[s], b.Write(s))
    requires forall x | x in b.sel && x !in a.sel :: SelForced(k, u, a, x, b.sel[x])
    requires forall i | i in b.assignable ::
               if i in a.assignable then b.assignable[i] == a.assignable[i]
                 else AssignableForced(k, u, a, i, b.assignable[i])
    requires forall s | s in a.tri && IsBoolTristate(k.Def(s).typ) :: b.Write(s) == a.Write(s)
    requires forall s | s in a.str && k.Def(s).typ != Unknown :: b.Write(s) == a.Write(s)
    ensures CacheOk(k, u, b)
  {
    hide VisForced, SelForced, AssignableForced, Extends, VisIsFlag;
    forall i | i in b.vis ensures VisForced(k, u, b, i, b.vis[i]) {
      if i in a.vis { SameVis(a, b, i); }
      VisStaysForced(k, u, a, b, i, b.vis[i]);
    }
    forall s | s in b.tri ensures TriForced(k, u, b, s, b.tri[s], b.Write(s)) {
      if s in a.tri { SameTri(a, b, s); TriFlagIrrelevant(k, u, a, s, b.tri[s], a.Write(s), b.Write(s)); }
      TriStaysForced(k, u, a, b, s, b.tri[s], b.Write(s));
    }
    forall s | s in b.str ensures StrForced(k, u, b, s, b.str[s], b.Write(s)) {
      if s in a.str { SameStr(a, b, s); StrFlagIrrelevant(k, u, a, s, b.str[s], a.Write(s), b.Write(s)); }
      StrStaysForced(k, u, a, b, s, b.str[s], b.Write(s));
    }
    forall x | x in b.sel ensures SelForced(k, u, b, x, b.sel[x]) {
      if x in a.sel { SameSel(a, b, x); }
      SelStaysForced(k, u, a, b, x, b.sel[x]);
    }
    forall i | i in b.assignable ensures AssignableForced(k, u, b, i, b.assignable[i]) {
      AssignableStaysForced(k, u, a, b, i, b.assignable[i]);
    }
  }

  lemma SameVis(a: Cache, b: Cache, i: Item) requires Extends(a,
                b) && i in a.vis ensures i in b.vis && b.vis[i] == a.vis[i] {}
  lemma SameTri(a: Cache, b: Cache, s: SymId) requires Extends(a,
                b) && s in a.tri ensures s in b.tri && b.tri[s] == a.tri[s] {}
  lemma SameStr(a: Cache, b: Cache, s: SymId) requires Extends(a,
                b) && s in a.str ensures s in b.str && b.str[s] == a.str[s] {}
  lemma SameSel(a: Cache, b: Cache, x: ChoiceId) requires Extends(a,
                b) && x in a.sel ensures x in b.sel && b.sel[x] == a.sel[x] {}

  lemma TriFlagIrrelevant(k: Kconfig, u: User, c: Cache, s: SymId, r: Tri, w: bool, w': bool)
    requires TriForced(k, u, c, s, r, w) && (IsBoolTristate(k.Def(s).typ) ==> w == w')
    ensures TriForced(k, u, c, s, r, w')
  {
    hide TriRule, Near, Agrees;
  }

  lemma StrFlagIrrelevant(k: Kconfig, u: User, c: Cache, s: SymId, r: string, w: bool, w': bool)
    requires StrForced(k, u, c, s, r, w) && (k.Def(s).typ != Unknown ==> w == w')
    ensures StrForced(k, u, c, s, r, w')
  {
    hide StrRule, Near, Agrees;
  }
}
