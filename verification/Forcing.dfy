/**
 Steps of the cached calculation: how the value of each part of a rule becomes forced by
 what the cache holds once its operands have been calculated.
 */
module Forcing {
  import opened Expressions
  import opened Config
  import opened Locality
  import opened Evaluation
  import opened Caching
  import opened Invalidation

  // ----- Expressions -----

  ghost predicate ValueForced(k: Kconfig, u: User, c: Cache, near: set<Item>, e: Expr, r: Tri) {
    forall v | Agrees(v, c, near) :: Value(e, EnvOf(k, u, v)) == r
  }

  ghost predicate ModeForced(k: Kconfig, u: User, c: Cache, near: set<Item>, x: ChoiceId, r: Tri) {
    forall v | Agrees(v, c, near) :: ModeRule(k, u, v, x) == r
  }

  ghost predicate TextForced(k: Kconfig, u: User, c: Cache, near: set<Item>, a: Atom, t: string) {
    forall v | Agrees(v, c, near) :: AtomStr(a, EnvOf(k, u, v)) == t
  }

  ghost predicate NumForced(k: Kconfig, u: User, c: Cache, near: set<Item>, a: Atom, n: Option<int>) {
    forall v | Agrees(v, c, near) :: AtomNum(a, EnvOf(k, u, v)) == n
  }

  lemma ValueStays(k: Kconfig, u: User, c: Cache, c': Cache, near: set<Item>, e: Expr, r: Tri)
    requires Extends(c, c') && ValueForced(k, u, c, near, e, r)
    ensures ValueForced(k, u, c', near, e, r)
  {
    hide Value, EnvOf;
    forall v | Agrees(v, c', near) ensures Value(e, EnvOf(k, u, v)) == r { AgreesWithLess(v, c, c', near); }
  }

  lemma ModeStays(k: Kconfig, u: User, c: Cache, c': Cache, near: set<Item>, x: ChoiceId, r: Tri)
    requires Extends(c, c') && ModeForced(k, u, c, near, x, r)
    ensures ModeForced(k, u, c', near, x, r)
  {
    hide ModeRule;
    forall v | Agrees(v, c', near) ensures ModeRule(k, u, v, x) == r { AgreesWithLess(v, c, c', near); }
  }

  lemma TextStays(k: Kconfig, u: User, c: Cache, c': Cache, near: set<Item>, a: Atom, t: string)
    requires Extends(c, c') && TextForced(k, u, c, near, a, t)
    ensures TextForced(k, u, c', near, a, t)
  {
    hide AtomStr, EnvOf;
    forall v | Agrees(v, c', near) ensures AtomStr(a, EnvOf(k, u, v)) == t { AgreesWithLess(v, c, c', near); }
  }

  lemma NumStays(k: Kconfig, u: User, c: Cache, c': Cache, near: set<Item>, a: Atom, n: Option<int>)
    requires Extends(c, c') && NumForced(k, u, c, near, a, n)
    ensures NumForced(k, u, c', near, a, n)
  {
    hide AtomNum, EnvOf;
    forall v | Agrees(v, c', near) ensures AtomNum(a, EnvOf(k, u, v)) == n { AgreesWithLess(v, c, c', near); }
  }

  lemma ExtendsItself(c: Cache)
    ensures Extends(c, c)
  {
  }

  lemma ExtendsTransitive(a: Cache, b: Cache, c: Cache)
    requires Extends(a, b) && Extends(b, c)
    ensures Extends(a, c)
  {
  }

  /** Once an operand decides, the other one need not have been calculated. */
  lemma AndForced(k: Kconfig, u: User, c: Cache, near: set<Item>, e: Expr, l: Tri, r: Tri)
    requires e.And? && ValueForced(k, u, c, near, e.left, l)
    requires l == 0 || ValueForced(k, u, c, near, e.right, r)
    ensures ValueForced(k, u, c, near, e, if l == 0 then 0 else Min(l, r))
  {
    hide Agrees, EnvOf;
  }

  lemma OrForced(k: Kconfig, u: User, c: Cache, near: set<Item>, e: Expr, l: Tri, r: Tri)
    requires e.Or? && ValueForced(k, u, c, near, e.left, l)
    requires l == 2 || ValueForced(k, u, c, near, e.right, r)
    ensures ValueForced(k, u, c, near, e, if l == 2 then 2 else Max(l, r))
  {
    hide Agrees, EnvOf;
  }

  // ----- Visibility -----

  ghost predicate MaxForced(k: Kconfig, u: User, c: Cache, near: set<Item>, es: seq<Expr>, r: Tri) {
    forall v | Agrees(v, c, near) :: MaxValue(es, EnvOf(k, u, v)) == r
  }

  lemma MaxExtends(k: Kconfig, u: User, c: Cache, c': Cache, near: set<Item>, es: seq<Expr>, i: nat, r: Tri, x: Tri)
    requires Extends(c, c') && i < |es| && MaxForced(k, u, c, near, es[..i], r) && ValueForced(k, u, c', near, es[i], x)
    ensures MaxForced(k, u, c', near, es[..i + 1], Max(r, x))
  {
    hide Value, EnvOf;
    assert es[..i + 1][..i] == es[..i] && es[..i + 1][i] == es[i];
    forall v | Agrees(v, c', near) ensures MaxValue(es[..i + 1], EnvOf(k, u, v)) == Max(r, x) {
      AgreesWithLess(v, c, c', near);
    }
  }

  lemma MaxStays(k: Kconfig, u: User, c: Cache, c': Cache, near: set<Item>, es: seq<Expr>, r: Tri)
    requires Extends(c, c') && MaxForced(k, u, c, near, es, r)
    ensures MaxForced(k, u, c', near, es, r)
  {
    hide MaxValue, EnvOf;
    forall v | Agrees(v, c', near) ensures MaxValue(es, EnvOf(k, u, v)) == r { AgreesWithLess(v, c, c', near); }
  }

  /** A visible choice symbol mentions its choice, so that it is among the dependents. */
  lemma VisibleMentionsChoice(k: Kconfig, u: User, c: Cache, s: SymId, r: Tri)
    requires WellFormed(k) && k.Def(s).choice.Some?
    requires MaxForced(k, u, c, Near(k, SymItem(s)), k.Def(s).prompts, r) && r != 0
    ensures ChoiceItem(k.Def(s).choice.value) in DependsOn(k, SymItem(s))
  {
    var d := k.Def(s);
    var x := d.choice.value;
    var v := Overlay(Nothing(), c);
    assert Agrees(v, c, Near(k, SymItem(s)));
    if forall i | 0 <= i < |d.prompts| :: x !in ChoicesIn(d.prompts[i]) {
      UnmentionedChoiceHides(k, EnvOf(k, u, v), d.prompts, x);
      assert false;
    }
    var i :| 0 <= i < |d.prompts| && x in ChoicesIn(d.prompts[i]);
    assert ChoiceItem(x) in ItemsIn(d.prompts[i]);
    assert d.defined;
  }

  const ZERO: Tri := 0

  function Nothing(): Valuation {
    Valuation((i: Item) => ZERO, (s: SymId) => ZERO, (s: SymId) => "", (c: ChoiceId) => None)
  }

  // ----- Defaults -----

  /** The first `i` defaults are inactive. */
  ghost predicate DefaultsSkipped(k: Kconfig, u: User, c: Cache, near: set<Item>, ds: seq<Default>, i: nat)
    requires i <= |ds|
  {
    forall v | Agrees(v, c, near) :: ActiveDefault(ds, EnvOf(k, u, v)) == ActiveDefault(ds[i..], EnvOf(k, u, v))
  }

  ghost predicate DefaultForced(k: Kconfig, u: User, c: Cache, near: set<Item>, ds: seq<Default>, r: Option<Default>) {
    forall v | Agrees(v, c, near) :: ActiveDefault(ds, EnvOf(k, u, v)) == r
  }

  lemma DefaultStep(k: Kconfig, u: User, c: Cache, c': Cache, near: set<Item>, ds: seq<Default>, i: nat, x: Tri)
    requires i < |ds| && Extends(c, c') && DefaultsSkipped(k, u, c, near, ds, i)
             && ValueForced(k, u, c', near, ds[i].cond, x)
    ensures if x == 0 then DefaultsSkipped(k, u, c', near, ds, i + 1)
            else DefaultForced(k, u, c', near, ds, Some(ds[i]))
  {
    hide Value, EnvOf;
    assert ds[i..][1..] == ds[i + 1..] && ds[i..][0] == ds[i];
    forall v | Agrees(v, c', near)
      ensures x == 0 ==> ActiveDefault(ds, EnvOf(k, u, v)) == ActiveDefault(ds[i + 1..], EnvOf(k, u, v))
      ensures x != 0 ==> ActiveDefault(ds, EnvOf(k, u, v)) == Some(ds[i])
    {
      AgreesWithLess(v, c, c', near);
    }
  }

  lemma DefaultStays(k: Kconfig, u: User, c: Cache, c': Cache, near: set<Item>, ds: seq<Default>, r: Option<Default>)
    requires Extends(c, c') && DefaultForced(k, u, c, near, ds, r)
    ensures DefaultForced(k, u, c', near, ds, r)
  {
    hide ActiveDefault, EnvOf;
    forall v | Agrees(v, c', near) ensures ActiveDefault(ds, EnvOf(k, u, v)) == r { AgreesWithLess(v, c, c', near); }
  }

  // ----- Ranges -----

  ghost predicate RangesSkipped(k: Kconfig, u: User, c: Cache, near: set<Item>, rs: seq<Range>, i: nat)
    requires i <= |rs|
  {
    forall v | Agrees(v, c, near) :: ActiveRange(rs, EnvOf(k, u, v)) == ActiveRange(rs[i..], EnvOf(k, u, v))
  }

  ghost predicate RangeForced(k: Kconfig, u: User, c: Cache, near: set<Item>, rs: seq<Range>, r: Option<Range>) {
    forall v | Agrees(v, c, near) :: ActiveRange(rs, EnvOf(k, u, v)) == r
  }

  lemma RangeStep(k: Kconfig, u: User, c: Cache, c': Cache, near: set<Item>, rs: seq<Range>, i: nat, x: Tri)
    requires i < |rs| && Extends(c, c') && RangesSkipped(k, u, c, near, rs, i)
             && ValueForced(k, u, c', near, rs[i].cond, x)
    ensures if x == 0 then RangesSkipped(k, u, c', near, rs, i + 1) else RangeForced(k, u, c', near, rs, Some(rs[i]))
  {
    hide Value, EnvOf;
    assert rs[i..][1..] == rs[i + 1..] && rs[i..][0] == rs[i];
    forall v | Agrees(v, c', near)
      ensures x == 0 ==> ActiveRange(rs, EnvOf(k, u, v)) == ActiveRange(rs[i + 1..], EnvOf(k, u, v))
      ensures x != 0 ==> ActiveRange(rs, EnvOf(k, u, v)) == Some(rs[i])
    {
      AgreesWithLess(v, c, c', near);
    }
  }

  lemma RangeStays(k: Kconfig, u: User, c: Cache, c': Cache, near: set<Item>, rs: seq<Range>, r: Option<Range>)
    requires Extends(c, c') && RangeForced(k, u, c, near, rs, r)
    ensures RangeForced(k, u, c', near, rs, r)
  {
    hide ActiveRange, EnvOf;
    forall v | Agrees(v, c', near) ensures ActiveRange(rs, EnvOf(k, u, v)) == r { AgreesWithLess(v, c, c', near); }
  }

  // ----- Adding to the cache -----

  /** Two forced results are the same. */
  lemma VisForcedOnce(k: Kconfig, u: User, c: Cache, i: Item, r: Tri, r': Tri)
    requires VisForced(k, u, c, i, r) && VisForced(k, u, c, i, r')
    ensures r == r'
  {
    hide VisRule;
    assert Agrees(Overlay(Nothing(), c), c, Near(k, i));
  }

  lemma TriForcedOnce(k: Kconfig, u: User, c: Cache, s: SymId, r: Tri, w: bool, r': Tri, w': bool)
    requires TriForced(k, u, c, s, r, w) && TriForced(k, u, c, s, r', w')
    ensures r == r' && (IsBoolTristate(k.Def(s).typ) ==> w == w')
  {
    hide TriRule;
    assert Agrees(Overlay(Nothing(), c), c, Near(k, SymItem(s)));
  }

  lemma StrForcedOnce(k: Kconfig, u: User, c: Cache, s: SymId, r: string, w: bool, r': string, w': bool)
    requires StrForced(k, u, c, s, r, w) && StrForced(k, u, c, s, r', w')
    ensures r == r' && (k.Def(s).typ != Unknown ==> w == w')
  {
    hide StrRule;
    assert Agrees(Overlay(Nothing(), c), c, Near(k, SymItem(s)));
  }

  lemma SelForcedOnce(k: Kconfig, u: User, c: Cache, x: ChoiceId, r: Option<SymId>, r': Option<SymId>)
    requires SelForced(k, u, c, x, r) && SelForced(k, u, c, x, r')
    ensures r == r'
  {
    hide SelRule;
    assert Agrees(Overlay(Nothing(), c), c, Near(k, ChoiceItem(x)));
  }

  lemma AddVis(k: Kconfig, u: User, c: Cache, i: Item, r: Tri)
    requires CacheOk(k, u, c) && VisForced(k, u, c, i, r)
    ensures CacheOk(k, u, c.(vis := c.vis[i := r])) && Extends(c, c.(vis := c.vis[i := r]))
  {
    hide VisForced, TriForced, StrForced, SelForced, AssignableForced;
    if i in c.vis { VisForcedOnce(k, u, c, i, r, c.vis[i]); }
    GrowCache(k, u, c, c.(vis := c.vis[i := r]));
  }

  lemma CachedTriIs(k: Kconfig, u: User, c: Cache, s: SymId, r: Tri, w: bool)
    requires CacheOk(k, u, c) && TriForced(k, u, c, s, r, w)
    ensures VisIsFlag(k, c) && (s in c.tri ==> c.tri[s] == r && (IsBoolTristate(k.Def(s).typ) ==> c.Write(s) == w))
  {
    hide VisForced, TriForced, StrForced, SelForced, AssignableForced;
    if s in c.tri { TriForcedOnce(k, u, c, s, r, w, c.tri[s], c.Write(s)); }
  }

  lemma CachedStrIs(k: Kconfig, u: User, c: Cache, s: SymId, r: string, w: bool)
    requires CacheOk(k, u, c) && StrForced(k, u, c, s, r, w)
    ensures VisIsFlag(k, c) && (s in c.str ==> c.str[s] == r && (k.Def(s).typ != Unknown ==> c.Write(s) == w))
  {
    hide VisForced, TriForced, StrForced, SelForced, AssignableForced;
    if s in c.str { StrForcedOnce(k, u, c, s, r, w, c.str[s], c.Write(s)); }
  }

  lemma TriFlags(k: Kconfig, c: Cache, s: SymId, r: Tri, w: bool)
    requires VisIsFlag(k, c) && (IsBoolTristate(k.Def(s).typ) ==> SymItem(s) in c.vis)
    ensures VisIsFlag(k, c.(tri := c.tri[s := r], write := c.write[s := w]))
    ensures s in c.str && IsBoolTristate(k.Def(s).typ) ==> s in c.tri
  {
  }

  lemma StrFlags(k: Kconfig, c: Cache, s: SymId, r: string, w: bool)
    requires VisIsFlag(k, c) && (k.Def(s).typ != Unknown ==> SymItem(s) in c.vis)
    requires IsBoolTristate(k.Def(s).typ) ==> s in c.tri
    ensures VisIsFlag(k, c.(str := c.str[s := r], write := c.write[s := w]))
  {
  }

  lemma AddTri(k: Kconfig, u: User, c: Cache, s: SymId, r: Tri, w: bool)
    requires CacheOk(k, u, c) && TriForced(k, u, c, s, r, w)
    requires IsBoolTristate(k.Def(s).typ) ==> SymItem(s) in c.vis
    requires !IsBoolTristate(k.Def(s).typ) ==> w == c.Write(s)
    ensures CacheOk(k, u, c.(tri := c.tri[s := r], write := c.write[s := w]))
            && Extends(c, c.(tri := c.tri[s := r], write := c.write[s := w]))
  {
    hide CacheOk, VisForced, TriForced, StrForced, SelForced, AssignableForced, VisIsFlag, IsBoolTristate;
    CachedTriIs(k, u, c, s, r, w);
    TriFlags(k, c, s, r, w);
    GrowCache(k, u, c, c.(tri := c.tri[s := r], write := c.write[s := w]));
  }

  lemma AddStr(k: Kconfig, u: User, c: Cache, s: SymId, r: string, w: bool)
    requires CacheOk(k, u, c) && StrForced(k, u, c, s, r, w)
    requires k.Def(s).typ != Unknown ==> SymItem(s) in c.vis
    requires IsBoolTristate(k.Def(s).typ) ==> s in c.tri && w == c.Write(s)
    ensures CacheOk(k, u, c.(str := c.str[s := r], write := c.write[s := w]))
            && Extends(c, c.(str := c.str[s := r], write := c.write[s := w]))
  {
    hide CacheOk, VisForced, TriForced, StrForced, SelForced, AssignableForced, VisIsFlag, IsBoolTristate;
    CachedStrIs(k, u, c, s, r, w);
    StrFlags(k, c, s, r, w);
    GrowCache(k, u, c, c.(str := c.str[s := r], write := c.write[s := w]));
  }

  lemma AddSel(k: Kconfig, u: User, c: Cache, x: ChoiceId, r: Option<SymId>)
    requires CacheOk(k, u, c) && SelForced(k, u, c, x, r) && ChoiceItem(x) in c.vis
    ensures CacheOk(k, u, c.(sel := c.sel[x := r])) && Extends(c, c.(sel := c.sel[x := r]))
  {
    hide VisForced, TriForced, StrForced, SelForced, AssignableForced;
    if x in c.sel { SelForcedOnce(k, u, c, x, r, c.sel[x]); }
    GrowCache(k, u, c, c.(sel := c.sel[x := r]));
  }

  lemma AddAssignable(k: Kconfig, u: User, c: Cache, i: Item, r: set<Tri>)
    requires CacheOk(k, u, c) && AssignableForced(k, u, c, i, r) && i !in c.assignable
    requires i in c.vis || (i.SymItem? && !IsBoolTristate(k.Def(i.sym).typ))
    ensures CacheOk(k, u, c.(assignable := c.assignable[i := r])) && Extends(c, c.(assignable := c.assignable[i := r]))
  {
    hide VisForced, TriForced, StrForced, SelForced, AssignableForced;
    GrowCache(k, u, c, c.(assignable := c.assignable[i := r]));
  }
}
