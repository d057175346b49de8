/**
 The cached evaluator. Every value is calculated on demand and remembered; setting a value
 invalidates the symbol or choice and, along the dependency edges, everything cached that
 may depend on it.
 */
module Engine {
  import opened Expressions
  import opened Config
  import opened Evaluation
  import opened Caching
  import opened Invalidation
  import opened Forcing
  import opened Assignments

  class Kconf {
    const k: Kconfig
    ghost const rank: Rank
    var user: User
    var wasSet: set<Item>
    var cache: Cache

    ghost predicate Valid()
      reads this
    {
      WellFormed(k) && Acyclic(k, rank) && UserOk(k, user) && CacheOk(k, user, cache)
    }

    constructor (config: Kconfig, ghost order: Rank)
      requires WellFormed(config) && Acyclic(config, order)
      ensures Valid() && k == config && rank == order && user == NoUser && wasSet == {} && cache == EmptyCache
    {
      k, rank := config, order;
      user, wasSet, cache := NoUser, {}, EmptyCache;
    }

    // ----- Expressions -----

    method ModeValue(x: ChoiceId, ghost bound: nat, ghost near: set<Item>) returns (r: Tri)
      requires Valid() && ModeBelow(k, rank, bound, x) && {ChoiceItem(x), SymItem(k.modules)} <= near
      modifies this`cache
      ensures Valid() && Extends(old(cache), cache)
      ensures ModeForced(k, user, cache, near, x, r) && ChoiceItem(x) in cache.vis
      decreases bound, 0
    {
      hide WellFormed, Acyclic, UserOk, CacheOk;
      var floor: Tri := if k.Choice(x).optional then 0 else 1;
      var wanted := if x in user.mode then Max(floor, user.mode[x]) else floor;
      var vis := Visibility(ChoiceItem(x));
      r := Min(wanted, vis);
      if r == 1 {
        var typ := k.Choice(x).typ;
        if typ == Tristate {
          ghost var before := cache;
          var modules := TriValue(k.modules);
          ExtendsTransitive(old(cache), before, cache);
          if modules == 0 { typ := Bool; }
        }
        if typ == Bool { r := 2; }
      }
    }

    method AtomText(a: Atom, ghost bound: nat, ghost near: set<Item>) returns (t: string)
      requires Valid() && AtomBelow(rank, bound, a) && (a.Sym? ==> SymItem(a.id) in near)
      modifies this`cache
      ensures Valid() && Extends(old(cache), cache)
      ensures TextForced(k, user, cache, near, a, t)
      decreases bound, 0
    {
      hide WellFormed, Acyclic, UserOk, CacheOk;
      match a
      case TriConst(v) => t := TriStr(v);
      case Quoted(name) => t := name;
      case Sym(s) => t := StrValue(s);
    }

    method AtomNumber(a: Atom, ghost bound: nat, ghost near: set<Item>) returns (n: Option<int>)
      requires Valid() && AtomBelow(rank, bound, a) && (a.Sym? ==> SymItem(a.id) in near)
      modifies this`cache
      ensures Valid() && Extends(old(cache), cache)
      ensures NumForced(k, user, cache, near, a, n)
      decreases bound, 1
    {
      hide WellFormed, Acyclic, UserOk, CacheOk, ParseInt;
      var typ := match a case TriConst(_) => Tristate case Quoted(_) => Unknown case Sym(s) => k.Def(s).typ;
      if IsBoolTristate(typ) {
        match a
        case TriConst(v) => n := Some(v);
        case Sym(s) => var v := TriValue(s); n := Some(v);
      } else {
        var t := AtomText(a, bound, near);
        n := ParseInt(t, TypeToBase(typ));
      }
    }

    method CompareAtoms(a: Atom, b: Atom, ghost bound: nat, ghost near: set<Item>) returns (comp: int)
      requires Valid() && AtomBelow(rank, bound, a) && AtomBelow(rank, bound, b)
      requires (a.Sym? ==> SymItem(a.id) in near) && (b.Sym? ==> SymItem(b.id) in near)
      modifies this`cache
      ensures Valid() && Extends(old(cache), cache)
      ensures forall v | Agrees(v, cache, near) :: Compare(a, b, EnvOf(k, user, v)) == comp
      decreases bound, 2
    {
      hide WellFormed, Acyclic, UserOk, CacheOk, AtomNum, StrCmp, Agrees, AtomStr;
      var aType := match a case TriConst(_) => Tristate case Quoted(_) => Unknown case Sym(s) => k.Def(s).typ;
      var bType := match b case TriConst(_) => Tristate case Quoted(_) => Unknown case Sym(s) => k.Def(s).typ;
      ghost var c0 := cache;
      if !(aType == Str && bType == Str) {
        var x := AtomNumber(a, bound, near);
        if x.Some? {
          ghost var c1 := cache;
          var y := AtomNumber(b, bound, near);
          NumStays(k, user, c1, cache, near, a, x);
          ExtendsTransitive(c0, c1, cache);
          if y.Some? {
            comp := x.value - y.value;
            return;
          }
          ghost var c2 := cache;
          comp := CompareTexts(a, b, bound, near);
          NumStays(k, user, c2, cache, near, b, y);
          ExtendsTransitive(c0, c2, cache);
        } else {
          ghost var c1 := cache;
          comp := CompareTexts(a, b, bound, near);
          NumStays(k, user, c1, cache, near, a, x);
          ExtendsTransitive(c0, c1, cache);
        }
      } else {
        comp := CompareTexts(a, b, bound, near);
      }
    }

    method CompareTexts(a: Atom, b: Atom, ghost bound: nat, ghost near: set<Item>) returns (comp: int)
      requires Valid() && AtomBelow(rank, bound, a) && AtomBelow(rank, bound, b)
      requires (a.Sym? ==> SymItem(a.id) in near) && (b.Sym? ==> SymItem(b.id) in near)
      modifies this`cache
      ensures Valid() && Extends(old(cache), cache)
      ensures forall v | Agrees(v, cache, near) ::
                StrCmp(AtomStr(a, EnvOf(k, user, v)), AtomStr(b, EnvOf(k, user, v))) == comp
      decreases bound, 1
    {
      hide WellFormed, Acyclic, UserOk, CacheOk, StrCmp, Agrees, AtomStr, EnvOf;
      ghost var c0 := cache;
      var s := AtomText(a, bound, near);
      ghost var c1 := cache;
      var t := AtomText(b, bound, near);
      TextStays(k, user, c1, cache, near, a, s);
      ExtendsTransitive(c0, c1, cache);
      comp := StrCmp(s, t);
    }

    /** `expr_value`, with its short-circuiting. */
    method ExprValue(e: Expr, ghost bound: nat, ghost near: set<Item>) returns (r: Tri)
      requires Valid() && ExprBelow(k, rank, bound, e) && ItemsIn(e) <= near && SymItem(k.modules) in near
      modifies this`cache
      ensures Valid() && Extends(old(cache), cache)
      ensures ValueForced(k, user, cache, near, e, r)
      decreases bound, 3, e
    {
      hide WellFormed, Acyclic, UserOk, CacheOk, Compare;
      ghost var c0 := cache;
      match e
      case Leaf(a) =>
        match a {
          case TriConst(v) => r := v;
          case Quoted(_) => r := 0;
          case Sym(s) =>
            assert SymItem(s) in ItemsIn(e);
            r := TriValue(s);
        }
      case Mode(x) =>
        assert ChoiceItem(x) in ItemsIn(e);
        r := ModeValue(x, bound, near);
      case And(l, r') =>
        OperandItems(e, near);
        var v := ExprValue(l, bound, near);
        if v == 0 {
          r := 0;
          AndForced(k, user, cache, near, e, v, 0);
        } else {
          ghost var c1 := cache;
          var w := ExprValue(r', bound, near);
          ValueStays(k, user, c1, cache, near, l, v);
          ExtendsTransitive(c0, c1, cache);
          AndForced(k, user, cache, near, e, v, w);
          r := Min(v, w);
        }
      case Or(l, r') =>
        OperandItems(e, near);
        var v := ExprValue(l, bound, near);
        if v == 2 {
          r := 2;
          OrForced(k, user, cache, near, e, v, 0);
        } else {
          ghost var c1 := cache;
          var w := ExprValue(r', bound, near);
          ValueStays(k, user, c1, cache, near, l, v);
          ExtendsTransitive(c0, c1, cache);
          OrForced(k, user, cache, near, e, v, w);
          r := Max(v, w);
        }
      case Not(x) =>
        OperandItems(e, near);
        var v := ExprValue(x, bound, near);
        r := 2 - v;
      case Cmp(rel, a, b) =>
        assert a.Sym? ==> SymItem(a.id) in ItemsIn(e);
        assert b.Sym? ==> SymItem(b.id) in ItemsIn(e);
        var comp := CompareAtoms(a, b, bound, near);
        r := if Holds(rel, comp) then 2 else 0;
    }

    // ----- Visibility -----

    method PromptValue(es: seq<Expr>, ghost bound: nat, ghost near: set<Item>) returns (r: Tri)
      requires Valid() && AllBelow(k, rank, bound, es) && PromptItems(es) <= near && SymItem(k.modules) in near
      modifies this`cache
      ensures Valid() && Extends(old(cache), cache)
      ensures MaxForced(k, user, cache, near, es, r)
      decreases bound, 4
    {
      hide WellFormed, Acyclic, UserOk, CacheOk, ExprBelow, ItemsIn;
      r := 0;
      var i := 0;
      while i < |es|
        invariant 0 <= i <= |es| && Valid() && Extends(old(cache), cache)
        invariant MaxForced(k, user, cache, near, es[..i], r)
      {
        ghost var before := cache;
        PromptInItems(es, i);
        var v := ExprValue(es[i], bound, near);
        MaxExtends(k, user, before, cache, near, es, i, r, v);
        ExtendsTransitive(old(cache), before, cache);
        r := Max(r, v);
        i := i + 1;
      }
      assert es[..i] == es;
    }

    /** `Symbol.type` */
    method CurrentType(s: SymId, ghost bound: nat, ghost near: set<Item>) returns (t: Type)
      requires Valid() && ModulesBelow(k, rank, bound, k.Def(s).typ) && SymItem(k.modules) in near
      requires k.Def(s).choice.Some? ==>
                 ModeBelow(k, rank, bound, k.Def(s).choice.value) && ChoiceItem(k.Def(s).choice.value) in near
      modifies this`cache
      ensures Valid() && Extends(old(cache), cache)
      ensures TypeForced(k, user, cache, near, s, t)
      decreases bound, 1
    {
      hide WellFormed, Acyclic, UserOk, CacheOk, ModeRule;
      ghost var c0 := cache;
      t := k.Def(s).typ;
      if t == Tristate {
        if k.Def(s).choice.Some? {
          var mode := ModeValue(k.Def(s).choice.value, bound, near);
          if mode == 2 { return Bool; }
          ghost var c1 := cache;
          var modules := TriValue(k.modules);
          ModeStays(k, user, c1, cache, near, k.Def(s).choice.value, mode);
          ExtendsTransitive(c0, c1, cache);
          if modules == 0 { t := Bool; }
        } else {
          var modules := TriValue(k.modules);
          if modules == 0 { t := Bool; }
        }
      }
    }

    method ChoiceVisibility(x: ChoiceId) returns (r: Tri)
      requires Valid()
      modifies this`cache
      ensures Valid() && Extends(old(cache), cache) && VisForced(k, user, cache, ChoiceItem(x), r)
      decreases rank(VisOf(ChoiceItem(x))), 5
    {
      ghost var bound, near := rank(VisOf(ChoiceItem(x))), Near(k, ChoiceItem(x));
      assert ChoiceVisBelow(k, rank, bound, x);
      hide WellFormed, Acyclic, UserOk, CacheOk, MaxValue, EnvOf;
      ghost var c0 := cache;
      var vis := PromptValue(k.Choice(x).prompts, bound, near);
      r := vis;
      if vis == 1 {
        var typ := k.Choice(x).typ;
        if typ == Tristate {
          ghost var c1 := cache;
          var modules := TriValue(k.modules);
          MaxStays(k, user, c1, cache, near, k.Choice(x).prompts, vis);
          ExtendsTransitive(c0, c1, cache);
          if modules == 0 { typ := Bool; }
        }
        if typ != Tristate { r := 2; }
      }
    }

    method SymVisibility(s: SymId) returns (r: Tri)
      requires Valid()
      modifies this`cache
      ensures Valid() && Extends(old(cache), cache) && VisForced(k, user, cache, SymItem(s), r)
      decreases rank(VisOf(SymItem(s))), 5
    {
      hide WellFormed, Acyclic, UserOk, CacheOk, MaxForced, ModeForced, TypeForced, VisForced, Near, Extends;
      hide ModeBelow, AllBelow;
      ghost var bound, near := rank(VisOf(SymItem(s))), Near(k, SymItem(s));
      var d := k.Def(s);
      SymVisReads(k, rank, s);
      ghost var c0 := cache;
      var vis := PromptValue(d.prompts, bound, near);
      ghost var c1 := cache;
      if d.choice.Some? && vis != 0 { VisibleMentionsChoice(k, user, cache, s, vis); DependsIsNear(k, SymItem(s)); }
      var mode: Tri := 0;
      if d.choice.Some?
        && ((k.Choice(d.choice.value).typ == Tristate && d.typ != Tristate) || (d.typ == Tristate && vis == 1)) {
        mode := ModeValue(d.choice.value, bound, near + {ChoiceItem(d.choice.value)});
        MaxStays(k, user, c1, cache, near, d.prompts, vis);
        ExtendsTransitive(c0, c1, cache);
        assert vis != 0 ==> near + {ChoiceItem(d.choice.value)} == near;
      }
      ghost var c2 := cache;
      var typ := d.typ;
      if vis == 1 && !(d.choice.Some? && d.typ == Tristate && mode == 2) {
        typ := CurrentType(s, bound, near);
        MaxStays(k, user, c2, cache, near, d.prompts, vis);
        if d.choice.Some? && d.typ == Tristate { ModeStays(k, user, c2, cache, near, d.choice.value, mode); }
        if d.choice.Some? && k.Choice(d.choice.value).typ == Tristate && d.typ != Tristate {
          ModeStays(k, user, c2, cache, near, d.choice.value, mode);
        }
        ExtendsTransitive(c0, c2, cache);
      }
      r := SymVisFrom(k, d, vis, mode, typ);
      SymVisCombine(k, user, cache, s, vis, mode, typ);
    }

    method Visibility(i: Item) returns (r: Tri)
      requires Valid()
      modifies this`cache
      ensures Valid() && Extends(old(cache), cache) && i in cache.vis && cache.vis[i] == r
      decreases rank(VisOf(i)), 6
    {
      hide WellFormed, Acyclic, UserOk, CacheOk, VisForced;
      if i in cache.vis { return cache.vis[i]; }
      match i {
        case SymItem(s) => r := SymVisibility(s);
        case ChoiceItem(x) => r := ChoiceVisibility(x);
      }
      AddVis(k, user, cache, i, r);
      cache := cache.(vis := cache.vis[i := r]);
    }

    // ----- Tristate values -----

    /** The active default and the value of its condition. */
    method FindDefault(ds: seq<Default>, ghost bound: nat, ghost near: set<Item>) returns (r: Option<Default>, x: Tri)
      requires Valid() && DefaultsBelow(k, rank, bound, ds) && DefaultItems(ds) <= near && SymItem(k.modules) in near
      modifies this`cache
      ensures Valid() && Extends(old(cache), cache)
      ensures DefaultForced(k, user, cache, near, ds, r)
      ensures r.Some? ==> r.value in ds && ValueForced(k, user, cache, near, r.value.cond, x)
      decreases bound, 4
    {
      hide WellFormed, Acyclic, UserOk, CacheOk, ExprBelow, ItemsIn;
      r, x := None, 0;
      var i := 0;
      while i < |ds|
        invariant 0 <= i <= |ds| && Valid() && Extends(old(cache), cache)
        invariant DefaultsSkipped(k, user, cache, near, ds, i)
      {
        ghost var before := cache;
        DefaultInItems(ds, i);
        x := ExprValue(ds[i].cond, bound, near);
        DefaultStep(k, user, before, cache, near, ds, i, x);
        ExtendsTransitive(old(cache), before, cache);
        if x != 0 { return Some(ds[i]), x; }
        i := i + 1;
      }
    }

    method DefaultTriValue(s: SymId, visible: bool, ghost bound: nat, ghost near: set<Item>) returns (r: TriResult)
      requires Valid() && SymValueBelow(k, rank, bound, s) && SymItem(k.modules) in near
      requires DefaultItems(k.Def(s).defaults) + ItemsIn(k.Def(s).weakRevDep) + ItemsIn(k.Def(s).directDep) <= near
      modifies this`cache
      ensures Valid() && Extends(old(cache), cache)
      ensures forall v | Agrees(v, cache, near) :: DefaultTri(k.Def(s), EnvOf(k, user, v), visible) == r
      decreases bound, 5
    {
      hide WellFormed, Acyclic, UserOk, CacheOk, ExprBelow, ItemsIn, Value, EnvOf, ActiveDefault, Agrees, Extends;
      var d := k.Def(s);
      ghost var c0 := cache;
      var dflt, x := FindDefault(d.defaults, bound, near);
      ghost var c1 := cache;
      var val: Tri := 0;
      if dflt.Some? {
        DefaultInItemsOf(d.defaults, dflt.value);
        var y := ExprValue(dflt.value.value, bound, near);
        DefaultStays(k, user, c1, cache, near, d.defaults, dflt);
        ValueStays(k, user, c1, cache, near, dflt.value.cond, x);
        ExtendsTransitive(c0, c1, cache);
        val := Min(y, x);
      }
      assert forall v | Agrees(v, cache, near) :: DefaultPart(d, EnvOf(k, user, v)) == val;
      ghost var c2 := cache;
      var weak := ExprValue(d.weakRevDep, bound, near);
      DefaultPartStays(k, user, c2, cache, near, d, val);
      ExtendsTransitive(c0, c2, cache);
      ghost var c3 := cache;
      if weak != 0 {
        var direct := ExprValue(d.directDep, bound, near);
        DefaultPartStays(k, user, c3, cache, near, d, val);
        ValueStays(k, user, c3, cache, near, d.weakRevDep, weak);
        ExtendsTransitive(c0, c3, cache);
        if direct != 0 { return TriResult(Max(weak, val), true); }
      }
      r := TriResult(val, visible || val != 0);
    }

    method SelectTri(s: SymId, base: TriResult, ghost bound: nat, ghost near: set<Item>) returns (r: TriResult)
      requires Valid() && SymValueBelow(k, rank, bound, s) && k.Def(s).choice.None? && SymItem(k.modules) in near
      requires ItemsIn(k.Def(s).revDep) + ItemsIn(k.Def(s).weakRevDep) <= near
      modifies this`cache
      ensures Valid() && Extends(old(cache), cache)
      ensures forall v | Agrees(v, cache, near) ::
                Select(k.Def(s), SymType(k, user, v, s), EnvOf(k, user, v), base) == r
      decreases bound, 5
    {
      hide WellFormed, Acyclic, UserOk, CacheOk, ExprBelow, ItemsIn, Value, EnvOf, Agrees, Extends, SymType;
      var d := k.Def(s);
      ghost var c0 := cache;
      var rev := ExprValue(d.revDep, bound, near);
      var val := Max(rev, base.val);
      if val == 1 {
        ghost var c1 := cache;
        var typ := CurrentType(s, bound, near);
        ValueStays(k, user, c1, cache, near, d.revDep, rev);
        ExtendsTransitive(c0, c1, cache);
        if typ == Bool {
          val := 2;
        } else {
          ghost var c2 := cache;
          var weak := ExprValue(d.weakRevDep, bound, near);
          ValueStays(k, user, c2, cache, near, d.revDep, rev);
          TypeStays(k, user, c2, cache, near, s, typ);
          ExtendsTransitive(c0, c2, cache);
          if weak == 2 { val := 2; }
        }
      }
      r := TriResult(val, base.write || rev != 0);
    }

    method PlainTri(s: SymId) returns (r: TriResult)
      requires Valid() && k.Def(s).choice.None? && IsBoolTristate(k.Def(s).typ)
      modifies this`cache
      ensures Valid() && Extends(old(cache), cache) && SymItem(s) in cache.vis
      ensures TriForced(k, user, cache, s, r.val, r.write)
      decreases rank(TriOf(s)), 6
    {
      hide WellFormed, Acyclic, UserOk, CacheOk, SymValueBelow, EnvOf, SymType, Select, DefaultTri, DependsOn;
      hide TriForced, Near;
      ghost var bound, near := rank(TriOf(s)), Near(k, SymItem(s));
      var d := k.Def(s);
      SymValueReads(k, rank, s);
      ValueItemsNear(k, s);
      ghost var c0 := cache;
      var vis := Visibility(SymItem(s));
      ghost var c1 := cache;
      var base: TriResult;
      if vis != 0 && s in user.value && user.value[s].UserTri? {
        base := TriResult(Min(user.value[s].tri, vis), true);
        r := SelectTri(s, base, bound, near);
        ExtendsTransitive(c0, c1, cache);
      } else {
        base := DefaultTriValue(s, vis != 0, bound, near);
        ghost var c2 := cache;
        r := SelectTri(s, base, bound, near);
        DefaultTriStays(k, user, c2, cache, near, d, vis != 0, base);
        ExtendsTransitive(c1, c2, cache);
        ExtendsTransitive(c0, c1, cache);
      }
      PlainTriCombine(k, user, cache, s, base, r);
    }

    method ChoiceTri(s: SymId) returns (r: TriResult)
      requires Valid() && k.Def(s).choice.Some? && IsBoolTristate(k.Def(s).typ)
      modifies this`cache
      ensures Valid() && Extends(old(cache), cache) && SymItem(s) in cache.vis
      ensures TriForced(k, user, cache, s, r.val, r.write)
      decreases rank(TriOf(s)), 6
    {
      hide WellFormed, Acyclic, UserOk, CacheOk, DependsOn, TriForced, Near;
      SymValueReads(k, rank, s);
      ghost var c0 := cache;
      var vis := Visibility(SymItem(s));
      DependsIsNear(k, SymItem(s));
      if vis == 2 {
        ghost var c1 := cache;
        VisibleCachedMentionsChoice(k, user, cache, s);
        var sel := Selection(k.Def(s).choice.value);
        ExtendsTransitive(c0, c1, cache);
        r := TriResult(if sel == Some(s) then 2 else 0, true);
      } else {
        var chosen := vis != 0 && s in user.value && user.value[s].UserTri? && user.value[s].tri != 0;
        r := TriResult(if chosen then 1 else 0, vis != 0);
      }
      ChoiceTriCombine(k, user, cache, s, r);
    }

    method TriValue(s: SymId) returns (r: Tri)
      requires Valid()
      modifies this`cache
      ensures Valid() && Extends(old(cache), cache) && s in cache.tri && cache.tri[s] == r
      ensures IsBoolTristate(k.Def(s).typ) ==> SymItem(s) in cache.vis
      decreases rank(TriOf(s)), 7
    {
      hide WellFormed, Acyclic, UserOk, CacheOk, TriForced;
      if s in cache.tri {
        CacheHasFlags(k, user, cache);
        return cache.tri[s];
      }
      ghost var c0 := cache;
      var res := TriResult(0, cache.Write(s));
      if IsBoolTristate(k.Def(s).typ) {
        if k.Def(s).choice.None? { res := PlainTri(s); } else { res := ChoiceTri(s); }
      } else {
        NonBoolIsN(k, user, cache, s);
      }
      ghost var c1 := cache;
      AddTri(k, user, cache, s, res.val, res.write);
      cache := cache.(tri := cache.tri[s := res.val], write := cache.write[s := res.write]);
      ExtendsTransitive(c0, c1, cache);
      r := res.val;
    }

    // ----- String values -----

    method FindRange(rs: seq<Range>, ghost bound: nat, ghost near: set<Item>) returns (r: Option<Range>)
      requires Valid() && RangesBelow(k, rank, bound, rs) && RangeItems(rs) <= near && SymItem(k.modules) in near
      modifies this`cache
      ensures Valid() && Extends(old(cache), cache)
      ensures RangeForced(k, user, cache, near, rs, r) && (r.Some? ==> r.value in rs)
      decreases bound, 4
    {
      hide WellFormed, Acyclic, UserOk, CacheOk, ExprBelow, ItemsIn;
      var i := 0;
      while i < |rs|
        invariant 0 <= i <= |rs| && Valid() && Extends(old(cache), cache)
        invariant RangesSkipped(k, user, cache, near, rs, i)
      {
        ghost var before := cache;
        RangeInItems(rs, i);
        var x := ExprValue(rs[i].cond, bound, near);
        RangeStep(k, user, before, cache, near, rs, i, x);
        ExtendsTransitive(old(cache), before, cache);
        if x != 0 { return Some(rs[i]); }
        i := i + 1;
      }
      r := None;
    }

    method DefaultTextValue(s: SymId, ghost bound: nat, ghost near: set<Item>)
      returns (dflt: Option<Default>, text: string)
      requires Valid() && SymValueBelow(k, rank, bound, s) && DefaultItems(k.Def(s).defaults) <= near
               && SymItem(k.modules) in near
      modifies this`cache
      ensures Valid() && Extends(old(cache), cache)
      ensures DefaultTextForced(k, user, cache, near, k.Def(s), dflt, text)
      decreases bound, 5
    {
      hide WellFormed, Acyclic, UserOk, CacheOk, ExprBelow, ItemsIn, EnvOf, ActiveDefault, Agrees, Extends;
      var d := k.Def(s);
      ghost var c0 := cache;
      var x;
      dflt, x := FindDefault(d.defaults, bound, near);
      text := "";
      if dflt.Some? && dflt.value.value.Leaf? {
        ghost var c1 := cache;
        DefaultInItemsOf(d.defaults, dflt.value);
        LeafItems(dflt.value.value.atom);
        text := AtomText(dflt.value.value.atom, bound, near);
        DefaultStays(k, user, c1, cache, near, d.defaults, dflt);
        ExtendsTransitive(c0, c1, cache);
      }
    }

    method RangeBounds(r: Range, s: SymId, ghost bound: nat, ghost near: set<Item>) returns (low: string, high: string)
      requires Valid() && SymValueBelow(k, rank, bound, s) && r in k.Def(s).ranges
               && RangeItems(k.Def(s).ranges) <= near
      modifies this`cache
      ensures Valid() && Extends(old(cache), cache)
      ensures TextForced(k, user, cache, near, r.low, low) && TextForced(k, user, cache, near, r.high, high)
      decreases bound, 5
    {
      hide WellFormed, Acyclic, UserOk, CacheOk, ExprBelow, ItemsIn, EnvOf, Agrees, Extends, TextForced;
      ghost var i :| 0 <= i < |k.Def(s).ranges| && k.Def(s).ranges[i] == r;
      RangeInItems(k.Def(s).ranges, i);
      LeafItems(r.low);
      LeafItems(r.high);
      ghost var c0 := cache;
      low := AtomText(r.low, bound, near);
      ghost var c1 := cache;
      high := AtomText(r.high, bound, near);
      TextStays(k, user, c1, cache, near, r.low, low);
      ExtendsTransitive(c0, c1, cache);
    }

    /** The value of a visible or invisible int or hex symbol. */
    method NumValue(s: SymId, vis: Tri, ghost bound: nat, ghost near: set<Item>) returns (r: StrResult)
      requires Valid() && SymValueBelow(k, rank, bound, s) && SymItem(k.modules) in near
      requires DefaultItems(k.Def(s).defaults) <= near && RangeItems(k.Def(s).ranges) <= near
      modifies this`cache
      ensures Valid() && Extends(old(cache), cache)
      ensures forall v | Agrees(v, cache, near) :: NumFrom(k.Def(s), EnvOf(k, user, v), vis != 0, user.StrOf(s)) == r
      decreases bound, 6
    {
      hide WellFormed, Acyclic, UserOk, CacheOk, SymValueBelow, EnvOf, Agrees, Extends, ParseInt, FormatInt;
      hide TextForced, RangeForced, DefaultTextForced, DefaultItems, RangeItems, NumFrom, NumTakesEffect;
      hide DefaultNum;
      var d := k.Def(s);
      var base := TypeToBase(d.typ);
      SymValueParts(k, rank, bound, s);
      ghost var c0 := cache;
      var rng := FindRange(d.ranges, bound, near);
      var low, high := "", "";
      if rng.Some? {
        ghost var c1 := cache;
        low, high := RangeBounds(rng.value, s, bound, near);
        RangeStays(k, user, c1, cache, near, d.ranges, rng);
        ExtendsTransitive(c0, c1, cache);
      }
      if vis != 0 && user.StrOf(s).Some? {
        var n := ParseInt(user.StrOf(s).value, base);
        if n.Some? && (rng.Some? ==> Number(low, base) <= n.value <= Number(high, base)) {
          r := StrResult(user.StrOf(s).value, true);
          UserNumCombine(k, user, cache, near, s, rng, low, high);
          return;
        }
      }
      ghost var c2 := cache;
      var dflt, text := DefaultTextValue(s, bound, near);
      RangeStays(k, user, c2, cache, near, d.ranges, rng);
      if rng.Some? {
        TextStays(k, user, c2, cache, near, rng.value.low, low);
        TextStays(k, user, c2, cache, near, rng.value.high, high);
      }
      ExtendsTransitive(c0, c2, cache);
      var val := text;
      if rng.Some? && Number(text, base) < Number(low, base) {
        val := FormatInt(Number(low, base), d.typ);
      } else if rng.Some? && Number(text, base) > Number(high, base) {
        val := FormatInt(Number(high, base), d.typ);
      }
      r := StrResult(val, vis != 0 || dflt.Some?);
      DefaultNumCombine(k, user, cache, near, s, vis != 0, rng, low, high, dflt, text, r);
    }

    /** The value of an int, hex or string symbol. */
    method TextValue(s: SymId) returns (r: StrResult)
      requires Valid() && !IsBoolTristate(k.Def(s).typ) && k.Def(s).typ != Unknown
      modifies this`cache
      ensures Valid() && Extends(old(cache), cache) && SymItem(s) in cache.vis
      ensures StrForced(k, user, cache, s, r.val, r.write)
      decreases rank(StrOf(s)), 7
    {
      hide WellFormed, Acyclic, UserOk, CacheOk, SymValueBelow, EnvOf, DependsOn, NumFrom, Near, StrForced;
      hide DefaultTextForced;
      ghost var bound, near := rank(StrOf(s)), Near(k, SymItem(s));
      var d := k.Def(s);
      SymValueReads(k, rank, s);
      ValueItemsNear(k, s);
      ghost var c0 := cache;
      var vis := Visibility(SymItem(s));
      ghost var c1 := cache;
      if d.typ == Str {
        if vis != 0 && user.StrOf(s).Some? {
          r := StrResult(user.StrOf(s).value, true);
        } else {
          var dflt, text := DefaultTextValue(s, bound, near);
          ExtendsTransitive(c0, c1, cache);
          r := if dflt.Some? then StrResult(text, true) else StrResult("", vis != 0);
          DefaultStrCombine(k, user, cache, near, s, vis != 0, dflt, text);
        }
      } else {
        r := NumValue(s, vis, bound, near);
        ExtendsTransitive(c0, c1, cache);
      }
      TextCombine(k, user, cache, s, r);
      r := StrResult(r.val, r.write && !d.auto);
    }

    method StrValue(s: SymId) returns (r: string)
      requires Valid()
      modifies this`cache
      ensures Valid() && Extends(old(cache), cache) && s in cache.str && cache.str[s] == r
      decreases rank(StrOf(s)), 8
    {
      hide WellFormed, Acyclic, UserOk, CacheOk, StrForced;
      if s in cache.str { return cache.str[s]; }
      ghost var c0 := cache;
      var d := k.Def(s);
      var res := StrResult(d.name, cache.Write(s));
      if IsBoolTristate(d.typ) {
        SymValueReads(k, rank, s);
        var t := TriValue(s);
        res := StrResult(TriStr(t), cache.Write(s));
        BoolStrForced(k, user, cache, s);
      } else if d.typ == Unknown {
        UnknownStrForced(k, user, cache, s);
      } else {
        res := TextValue(s);
      }
      ghost var c1 := cache;
      AddStr(k, user, cache, s, res.val, res.write);
      cache := cache.(str := cache.str[s := res.val], write := cache.write[s := res.write]);
      ExtendsTransitive(c0, c1, cache);
      r := res.val;
    }

    // ----- Selections -----

    method SelectionDefault(x: ChoiceId) returns (r: Option<SymId>)
      requires Valid()
      modifies this`cache
      ensures Valid() && Extends(old(cache), cache)
      ensures forall v | Agrees(v, cache, Near(k, ChoiceItem(x))) :: SelectionFromDefaults(k, user, v, x) == r
      decreases rank(SelOf(x)), 5
    {
      hide WellFormed, Acyclic, UserOk, CacheOk, SelectionBelow, ExprBelow, ItemsIn, EnvOf, Near, Agrees;
      hide Extends, ValueForced, DefaultSelection, FirstVisible;
      ghost var bound, near := rank(SelOf(x)), Near(k, ChoiceItem(x));
      SelectionReads(k, rank, x);
      var ds, syms := k.Choice(x).defaults, k.Choice(x).syms;
      var i := 0;
      NoDefaultsSkipped(k, user, cache, near, ds);
      ExtendsItself(cache);
      while i < |ds|
        invariant 0 <= i <= |ds| && Valid() && Extends(old(cache), cache)
        invariant SelectionsSkipped(k, user, cache, near, ds, i)
      {
        ghost var c1 := cache;
        SelectionRead(k, rank, x, i);
        var cond := ExprValue(ds[i].cond, bound, near);
        ghost var c2 := cache;
        ExtendsTransitive(old(cache), c1, c2);
        var vis: Tri := 0;
        if cond != 0 {
          vis := Visibility(SymItem(ds[i].sym));
          ValueStays(k, user, c2, cache, near, ds[i].cond, cond);
          ExtendsTransitive(c1, c2, cache);
          ExtendsTransitive(old(cache), c1, cache);
        }
        SelectionStep(k, user, c1, cache, near, ds, i, cond, vis);
        if cond != 0 && vis != 0 {
          DefaultSelected(k, user, cache, near, x, ds[i].sym);
          return Some(ds[i].sym);
        }
        i := i + 1;
      }
      ghost var c3 := cache;
      NothingSelected(k, user, cache, near, ds);
      ExtendsItself(cache);
      i := 0;
      while i < |syms|
        invariant 0 <= i <= |syms| && Valid() && Extends(old(cache), cache) && Extends(c3, cache)
        invariant HiddenUpTo(k, cache, near, syms, i)
      {
        ghost var c4 := cache;
        MemberRead(k, rank, x, i);
        var vis := Visibility(SymItem(syms[i]));
        ExtendsTransitive(old(cache), c4, cache);
        ExtendsTransitive(c3, c4, cache);
        HiddenStep(k, c4, cache, near, syms, i, vis);
        if vis != 0 {
          FirstSelected(k, user, c3, cache, near, x, Some(syms[i]));
          return Some(syms[i]);
        }
        i := i + 1;
      }
      HiddenAll(k, cache, near, syms);
      FirstSelected(k, user, c3, cache, near, x, None);
      r := None;
    }

    method CalculateSelection(x: ChoiceId) returns (r: Option<SymId>)
      requires Valid()
      modifies this`cache
      ensures Valid() && Extends(old(cache), cache) && ChoiceItem(x) in cache.vis
      ensures SelForced(k, user, cache, x, r)
      decreases rank(SelOf(x)), 6
    {
      hide WellFormed, Acyclic, UserOk, CacheOk, ModeRule, SelectionFromDefaults, DependsOn, ModeBelow;
      ghost var near := Near(k, ChoiceItem(x));
      SelectionReads(k, rank, x);
      ghost var c0 := cache;
      var mode := ModeValue(x, rank(SelOf(x)), near);
      if mode != 2 { return None; }
      ghost var c1 := cache;
      if x in user.selection {
        var s := user.selection[x];
        UserSelectionRead(k, user, rank, x);
        var vis := Visibility(SymItem(s));
        ModeStays(k, user, c1, cache, near, x, mode);
        ExtendsTransitive(c0, c1, cache);
        if vis != 0 { return Some(s); }
      }
      ghost var c2 := cache;
      r := SelectionDefault(x);
      ModeStays(k, user, c2, cache, near, x, mode);
      ExtendsTransitive(c0, c2, cache);
    }

    method Selection(x: ChoiceId) returns (r: Option<SymId>)
      requires Valid()
      modifies this`cache
      ensures Valid() && Extends(old(cache), cache) && x in cache.sel && cache.sel[x] == r
      decreases rank(SelOf(x)), 7
    {
      hide WellFormed, Acyclic, UserOk, CacheOk, SelForced;
      if x in cache.sel { return cache.sel[x]; }
      ghost var c0 := cache;
      r := CalculateSelection(x);
      ghost var c1 := cache;
      AddSel(k, user, cache, x, r);
      cache := cache.(sel := cache.sel[x := r]);
      ExtendsTransitive(c0, c1, cache);
    }

    // ----- Assignable values -----

    method SymAssignableValues(s: SymId) returns (r: set<Tri>)
      requires Valid()
      modifies this`cache
      ensures Valid() && AssignableForced(k, user, cache, SymItem(s), r)
      ensures IsBoolTristate(k.Def(s).typ) ==> SymItem(s) in cache.vis
    {
      hide WellFormed, Acyclic, UserOk, CacheOk, SymValueBelow, Near, AssignableForced, ValueForced;
      hide TypeForced, ItemsIn, DefaultItems, RangeItems;
      var d := k.Def(s);
      if !IsBoolTristate(d.typ) {
        NotAssignable(k, user, cache, s);
        return {};
      }
      ghost var bound, near := rank(TriOf(s)), Near(k, SymItem(s));
      SymValueReads(k, rank, s);
      SymValueExprs(k, rank, bound, s);
      ValueItemsNear(k, s);
      var vis := Visibility(SymItem(s));
      if vis == 0 || (vis == 2 && d.choice.Some?) {
        r := if vis == 0 then {} else {2};
        AssignableCombine(k, user, cache, s, 0, Bool, 0);
        return;
      }
      ghost var c1 := cache;
      var rev := ExprValue(d.revDep, bound, near);
      if rev == 2 {
        AssignableCombine(k, user, cache, s, rev, Bool, 0);
        return {2};
      }
      var typ := Tristate;
      if vis == 2 {
        ghost var c2 := cache;
        typ := CurrentType(s, bound, near);
        ValueStays(k, user, c2, cache, near, d.revDep, rev);
        if typ == Bool {
          AssignableCombine(k, user, cache, s, rev, typ, 0);
          return if rev == 0 then {0, 2} else {2};
        }
      } else if rev == 1 {
        AssignableCombine(k, user, cache, s, rev, Tristate, 0);
        return {1};
      }
      ghost var c3 := cache;
      var weak := ExprValue(d.weakRevDep, bound, near);
      ValueStays(k, user, c3, cache, near, d.revDep, rev);
      if vis == 2 { TypeStays(k, user, c3, cache, near, s, typ); }
      AssignableCombine(k, user, cache, s, rev, typ, weak);
      r := AssignableFrom(d, vis, rev, typ, weak);
    }

    method ChoiceAssignableValues(x: ChoiceId) returns (r: set<Tri>)
      requires Valid()
      modifies this`cache
      ensures Valid() && AssignableForced(k, user, cache, ChoiceItem(x), r) && ChoiceItem(x) in cache.vis
    {
      hide WellFormed, Acyclic, UserOk, CacheOk, DependsOn;
      var vis := Visibility(ChoiceItem(x));
      if vis == 0 { return {}; }
      if vis == 1 { return if k.Choice(x).optional then {0, 1} else {1}; }
      var typ := k.Choice(x).typ;
      if typ == Tristate {
        ghost var c1 := cache;
        var modules := TriValue(k.modules);
        if modules == 0 { typ := Bool; }
      }
      if !k.Choice(x).optional {
        r := if typ == Bool then {2} else {1, 2};
      } else {
        r := if typ == Bool then {0, 2} else {0, 1, 2};
      }
    }

    method Assignable(i: Item) returns (r: set<Tri>)
      requires Valid()
      modifies this`cache
      ensures Valid() && i in cache.assignable && cache.assignable[i] == r
    {
      hide WellFormed, Acyclic, UserOk, CacheOk, AssignableForced;
      if i in cache.assignable { return cache.assignable[i]; }
      match i {
        case SymItem(s) => r := SymAssignableValues(s);
        case ChoiceItem(x) => r := ChoiceAssignableValues(x);
      }
      if i !in cache.assignable {
        AddAssignable(k, user, cache, i, r);
      } else {
        AssignableForcedOnce(k, user, cache, i, r);
      }
      cache := cache.(assignable := cache.assignable[i := r]);
    }

    // ----- Invalidation -----

    /** Invalidates `i` and, through items that have cached values, all that may depend on it. */
    method RecInvalidate(i: Item) returns (ghost gone: set<Item>)
      modifies this`cache
      ensures cache == Drop(old(cache), gone) && i in gone && Closed(k, old(cache), gone)
      decreases |cache.vis|, if i in cache.vis then 0 else 1
    {
      hide DependsOn, Drop, Closed, Spreading, CachedItems, Dependents;
      if i == SymItem(k.modules) {
        var all := CachedItems(k, cache) + {i};
        AllClosed(k, cache, all);
        cache := Drop(cache, all);
        return all;
      }
      gone := {i};
      cache := Drop(cache, {i});
      DropShrinks(old(cache), {i}, i);
      var todo := Dependents(k, i);
      DependentsComplete(k, i);
      SpreadStart(k, old(cache), i, todo);
      while todo != {}
        invariant cache == Drop(old(cache), gone) && i in gone
        invariant Spreading(k, old(cache), gone, i, todo)
        decreases todo
      {
        var d :| d in todo;
        if d in cache.vis {
          DropShrinks(old(cache), gone, i);
          ghost var more := RecInvalidate(d);
          SpreadMore(k, old(cache), gone, i, todo, d, more);
          DropTwice(old(cache), gone, more);
          gone := gone + more;
        } else {
          SpreadSkip(k, old(cache), gone, i, todo, d);
        }
        todo := todo - {d};
      }
      SpreadEnd(k, old(cache), gone, i);
    }

    // ----- Setting values -----

    method InvalidateIfHasPrompt(s: SymId, ghost u: User)
      requires WellFormed(k) && Acyclic(k, rank) && UserOk(k, u) && UserOk(k, user) && CacheOk(k, u, cache)
      requires u.mode == user.mode && u.selection == user.selection && forall t | t != s ::
                 u.TriOf(t) == user.TriOf(t) && u.StrOf(t) == user.StrOf(t)
      modifies this`cache
      ensures Valid()
    {
      hide WellFormed, Acyclic, CacheOk, Closed, UserOk, Drop;
      ghost var c := cache;
      if k.Def(s).prompts != [] {
        ghost var gone := RecInvalidate(SymItem(s));
        DropIsSound(k, u, user, c, gone);
      } else {
        PromptlessIsHidden(k, u, c, s);
        NothingDropped(k, c);
        DropIsSound(k, u, user, c, {});
      }
    }

    method SetSymValue(s: SymId, x: UserValue) returns (ok: bool)
      requires Valid()
      modifies this
      ensures Valid() && State(user, wasSet) == SetSym(k, State(old(user), old(wasSet)), s, x)
      ensures ok == Accepts(k, old(user), s, x)
    {
      hide WellFormed, Acyclic, CacheOk, UserOk, Closed, Covered, Drop, ValidFor;
      ghost var u, c := user, cache;
      var d := k.Def(s);
      if s in user.value && user.value[s] == x && d.choice.None? {
        wasSet := wasSet + {SymItem(s)};
        return true;
      }
      if !ValidFor(d.typ, x) { return false; }
      WellFormedLinks(k);
      SetKeepsUserOk(k, State(u, wasSet), s, x);
      user := user.(value := user.value[s := x]);
      wasSet := wasSet + {SymItem(s)};
      if d.choice.Some? && x == UserTri(2) {
        user := user.(selection := user.selection[d.choice.value := s]);
        wasSet := wasSet + {ChoiceItem(d.choice.value)};
        ghost var gone := RecInvalidate(ChoiceItem(d.choice.value));
        SelectionCovered(k, u, user, c, gone, s);
        DropIsSound(k, u, user, c, gone);
      } else {
        InvalidateIfHasPrompt(s, u);
      }
      return true;
    }

    method UnsetSymValue(s: SymId)
      requires Valid()
      modifies this`user, this`cache
      ensures Valid() && user == UnsetSym(old(user), s)
    {
      hide WellFormed, Acyclic, CacheOk;
      ghost var u := user;
      if s in user.value {
        user := user.(value := user.value - {s});
        InvalidateIfHasPrompt(s, u);
      } else {
        assert user.value - {s} == user.value;
      }
    }

    method SetChoiceMode(x: ChoiceId, m: Tri) returns (ok: bool)
      requires Valid()
      modifies this
      ensures Valid() && State(user, wasSet) == SetMode(k, State(old(user), old(wasSet)), x, m)
      ensures ok == (old(user).ModeOf(x) == Some(m) || ValidMode(k.Choice(x).typ, m))
    {
      hide WellFormed, Acyclic, CacheOk, Closed, Drop;
      ghost var u, c := user, cache;
      if x in user.mode && user.mode[x] == m {
        wasSet := wasSet + {ChoiceItem(x)};
        return true;
      }
      if !ValidMode(k.Choice(x).typ, m) { return false; }
      user := user.(mode := user.mode[x := m]);
      wasSet := wasSet + {ChoiceItem(x)};
      ghost var gone := RecInvalidate(ChoiceItem(x));
      DropIsSound(k, u, user, c, gone);
      return true;
    }

    method UnsetChoiceValue(x: ChoiceId)
      requires Valid()
      modifies this`user, this`cache
      ensures Valid() && user == UnsetChoice(old(user), x)
    {
      hide WellFormed, Acyclic, CacheOk, Closed, Drop;
      ghost var u, c := user, cache;
      if x in user.mode || x in user.selection {
        user := user.(mode := user.mode - {x}, selection := user.selection - {x});
        ghost var gone := RecInvalidate(ChoiceItem(x));
        DropIsSound(k, u, user, c, gone);
      } else {
        assert user.mode - {x} == user.mode && user.selection - {x} == user.selection;
      }
    }
  }

  lemma OperandItems(e: Expr, near: set<Item>)
    requires ItemsIn(e) <= near
    ensures (e.And? || e.Or?) ==> ItemsIn(e.left) <= near && ItemsIn(e.right) <= near
    ensures e.Not? ==> ItemsIn(e.operand) <= near
  {
    if e.And? || e.Or? {
      assert ItemsIn(e) == ItemsIn(e.left) + ItemsIn(e.right);
    }
    if e.Not? {
      assert ItemsIn(e) == ItemsIn(e.operand);
    }
  }

  lemma PromptInItems(es: seq<Expr>, i: nat)
    requires i < |es|
    ensures ItemsIn(es[i]) <= PromptItems(es)
  {
  }

  lemma DefaultInItems(ds: seq<Default>, i: nat)
    requires i < |ds|
    ensures ItemsIn(ds[i].value) <= DefaultItems(ds) && ItemsIn(ds[i].cond) <= DefaultItems(ds)
  {
    assert ItemsIn(ds[i].value) + ItemsIn(ds[i].cond) <= DefaultItems(ds);
  }

  lemma DefaultInItemsOf(ds: seq<Default>, d: Default)
    requires d in ds
    ensures ItemsIn(d.value) <= DefaultItems(ds) && ItemsIn(d.cond) <= DefaultItems(ds)
  {
    var i :| 0 <= i < |ds| && ds[i] == d;
    DefaultInItems(ds, i);
  }

  lemma RangeInItems(rs: seq<Range>, i: nat)
    requires i < |rs|
    ensures ItemsIn(Leaf(rs[i].low)) <= RangeItems(rs) && ItemsIn(Leaf(rs[i].high)) <= RangeItems(rs)
            && ItemsIn(rs[i].cond) <= RangeItems(rs)
  {
    var r := rs[i];
    assert ItemsIn(Leaf(r.low)) + ItemsIn(Leaf(r.high)) + ItemsIn(r.cond) <= RangeItems(rs);
  }

  lemma ValueItemsNear(k: Kconfig, s: SymId)
    requires k.Def(s).defined
    ensures DefaultItems(k.Def(s).defaults) <= Near(k, SymItem(s))
    ensures ItemsIn(k.Def(s).weakRevDep) + ItemsIn(k.Def(s).directDep) <= Near(k, SymItem(s))
    ensures ItemsIn(k.Def(s).revDep) + ItemsIn(k.Def(s).weakRevDep) <= Near(k, SymItem(s))
    ensures RangeItems(k.Def(s).ranges) <= Near(k, SymItem(s))
    ensures SymItem(s) in Near(k, SymItem(s)) && SymItem(k.modules) in Near(k, SymItem(s))
  {
  }

  /** The part of a value that comes from the active default. */
  function DefaultPart(d: SymDef, env: Env): Tri {
    var dflt := ActiveDefault(d.defaults, env);
    if dflt.Some? then Min(Value(dflt.value.value, env), Value(dflt.value.cond, env)) else 0
  }

  lemma DefaultPartStays(k: Kconfig, u: User, c: Cache, c': Cache, near: set<Item>, d: SymDef, r: Tri)
    requires Extends(c, c') && forall v | Agrees(v, c, near) :: DefaultPart(d, EnvOf(k, u, v)) == r
    ensures forall v | Agrees(v, c', near) :: DefaultPart(d, EnvOf(k, u, v)) == r
  {
    hide DefaultPart, EnvOf;
    forall v | Agrees(v, c', near) ensures DefaultPart(d, EnvOf(k, u, v)) == r { AgreesWithLess(v, c, c', near); }
  }

  lemma DefaultTriStays(k: Kconfig, u: User, c: Cache, c': Cache, near: set<Item>, d: SymDef, visible: bool,
                        r: TriResult)
    requires Extends(c, c') && forall v | Agrees(v, c, near) :: DefaultTri(d, EnvOf(k, u, v), visible) == r
    ensures forall v | Agrees(v, c', near) :: DefaultTri(d, EnvOf(k, u, v), visible) == r
  {
    hide DefaultTri, EnvOf;
    forall v | Agrees(v, c', near) ensures DefaultTri(d, EnvOf(k, u, v), visible) == r {
      AgreesWithLess(v, c, c', near);
    }
  }

  ghost predicate TypeForced(k: Kconfig, u: User, c: Cache, near: set<Item>, s: SymId, t: Type) {
    forall v | Agrees(v, c, near) :: SymType(k, u, v, s) == t
  }

  lemma TypeStays(k: Kconfig, u: User, c: Cache, c': Cache, near: set<Item>, s: SymId, t: Type)
    requires Extends(c, c') && TypeForced(k, u, c, near, s, t)
    ensures TypeForced(k, u, c', near, s, t)
  {
    hide SymType;
    forall v | Agrees(v, c', near) ensures SymType(k, u, v, s) == t { AgreesWithLess(v, c, c', near); }
  }

  // ----- What the rules of a symbol read -----

  lemma SymVisReads(k: Kconfig, rank: Rank, s: SymId)
    requires WellFormed(k) && Acyclic(k, rank)
    ensures var b, d := rank(VisOf(SymItem(s))), k.Def(s);
            && AllBelow(k, rank, b, d.prompts) && ModulesBelow(k, rank, b, d.typ)
            && (d.choice.Some? ==> ModeBelow(k, rank, b, d.choice.value))
            && PromptItems(d.prompts) <= Near(k, SymItem(s)) && SymItem(k.modules) in Near(k, SymItem(s))
  {
    assert SymVisBelow(k, rank, rank(VisOf(SymItem(s))), s);
    assert k.Def(s).defined || UndefinedIsEmpty(k.Def(s));
  }

  lemma SymValueReads(k: Kconfig, rank: Rank, s: SymId)
    requires WellFormed(k) && Acyclic(k, rank) && k.Def(s).typ != Unknown
    ensures SymValueBelow(k, rank, rank(TriOf(s)), s) && SymValueBelow(k, rank, rank(StrOf(s)), s)
            && rank(TriOf(s)) < rank(StrOf(s))
    ensures rank(VisOf(SymItem(s))) < rank(TriOf(s)) && rank(VisOf(SymItem(s))) < rank(StrOf(s)) && k.Def(s).defined
    ensures k.Def(s).choice.Some? ==> rank(SelOf(k.Def(s).choice.value)) < rank(TriOf(s))
  {
    assert k.Def(s).defined || UndefinedIsEmpty(k.Def(s));
  }

  lemma CacheHasFlags(k: Kconfig, u: User, c: Cache)
    requires CacheOk(k, u, c)
    ensures VisIsFlag(k, c)
  {
  }

  /** The visibility of a symbol from the value of its prompts, the mode of its choice and
      its current type. */
  function SymVisFrom(k: Kconfig, d: SymDef, vis: Tri, mode: Tri, typ: Type): Tri {
    if vis == 0 then 0
    else if d.choice.Some? && k.Choice(d.choice.value).typ == Tristate && d.typ != Tristate && mode != 2 then 0
    else if d.choice.Some? && d.typ == Tristate && vis == 1 && mode == 2 then 0
    else if vis == 1 && typ != Tristate then 2
    else vis
  }

  lemma SymVisCombine(k: Kconfig, u: User, c: Cache, s: SymId, vis: Tri, mode: Tri, typ: Type)
    requires MaxForced(k, u, c, Near(k, SymItem(s)), k.Def(s).prompts, vis)
    requires var d := k.Def(s);
             vis != 0 && d.choice.Some?
               && ((k.Choice(d.choice.value).typ == Tristate && d.typ != Tristate) || (d.typ == Tristate && vis == 1))
             ==> ModeForced(k, u, c, Near(k, SymItem(s)), d.choice.value, mode)
    requires vis == 1 && !(k.Def(s).choice.Some? && k.Def(s).typ == Tristate && mode == 2)
             ==> TypeForced(k, u, c, Near(k, SymItem(s)), s, typ)
    ensures VisForced(k, u, c, SymItem(s), SymVisFrom(k, k.Def(s), vis, mode, typ))
  {
    hide MaxValue, EnvOf, ModeRule, SymType, Agrees, Near;
  }

  lemma PlainTriCombine(k: Kconfig, u: User, c: Cache, s: SymId, base: TriResult, r: TriResult)
    requires k.Def(s).choice.None? && IsBoolTristate(k.Def(s).typ) && SymItem(s) in c.vis
    requires var vis := c.vis[SymItem(s)];
             if vis != 0 && u.TriOf(s).Some? then base == TriResult(Min(u.TriOf(s).value, vis), true)
             else forall v | Agrees(v, c, Near(k, SymItem(s))) :: DefaultTri(k.Def(s), EnvOf(k, u, v), vis != 0) == base
    requires forall v | Agrees(v, c, Near(k, SymItem(s))) ::
               Select(k.Def(s), SymType(k, u, v, s), EnvOf(k, u, v), base) == r
    ensures TriForced(k, u, c, s, r.val, r.write)
  {
    hide EnvOf, SymType, Select, DefaultTri, DependsOn;
  }

  lemma ChoiceTriCombine(k: Kconfig, u: User, c: Cache, s: SymId, r: TriResult)
    requires k.Def(s).choice.Some? && IsBoolTristate(k.Def(s).typ) && SymItem(s) in c.vis
    requires var vis, x := c.vis[SymItem(s)], k.Def(s).choice.value;
             if vis == 2 then ChoiceItem(x) in Near(k, SymItem(s)) && x in c.sel
               && r == TriResult(if c.sel[x] == Some(s) then 2 else 0, true)
             else r == TriResult(if vis != 0 && u.TriOf(s).Some? && u.TriOf(s).value != 0 then 1 else 0, vis != 0)
    ensures TriForced(k, u, c, s, r.val, r.write)
  {
    hide DependsOn;
  }

  lemma NonBoolIsN(k: Kconfig, u: User, c: Cache, s: SymId)
    requires !IsBoolTristate(k.Def(s).typ)
    ensures TriForced(k, u, c, s, 0, c.Write(s))
  {
  }

  lemma VisibleCachedMentionsChoice(k: Kconfig, u: User, c: Cache, s: SymId)
    requires WellFormed(k) && CacheOk(k, u, c) && k.Def(s).choice.Some?
    requires SymItem(s) in c.vis && c.vis[SymItem(s)] != 0
    ensures ChoiceItem(k.Def(s).choice.value) in DependsOn(k, SymItem(s))
  {
    var d := k.Def(s);
    var x := d.choice.value;
    var v := Overlay(Nothing(), c);
    assert VisForced(k, u, c, SymItem(s), c.vis[SymItem(s)]);
    assert Agrees(v, c, Near(k, SymItem(s)));
    if forall i | 0 <= i < |d.prompts| :: x !in ChoicesIn(d.prompts[i]) {
      UnmentionedChoiceHides(k, EnvOf(k, u, v), d.prompts, x);
      assert false;
    }
    var i :| 0 <= i < |d.prompts| && x in ChoicesIn(d.prompts[i]);
    assert ChoiceItem(x) in ItemsIn(d.prompts[i]);
    assert d.defined;
  }

  // ----- String values -----

  lemma LeafItems(a: Atom)
    ensures a.Sym? ==> SymItem(a.id) in ItemsIn(Leaf(a))
  {
  }

  lemma SymValueParts(k: Kconfig, rank: Rank, bound: nat, s: SymId)
    requires SymValueBelow(k, rank, bound, s)
    ensures RangesBelow(k, rank, bound, k.Def(s).ranges)
  {
  }

  ghost predicate DefaultTextForced(k: Kconfig, u: User, c: Cache, near: set<Item>, d: SymDef, dflt: Option<Default>,
                                    text: string)
  {
    && (dflt.None? ==> text == "")
    && forall v | Agrees(v, c, near) ::
         ActiveDefault(d.defaults, EnvOf(k, u, v)) == dflt
           && (dflt.Some? ==> DefaultText(dflt.value.value, EnvOf(k, u, v)) == text)
  }

  /** The value of an int or hex symbol, given its visibility and user value. */
  function NumFrom(d: SymDef, env: Env, visible: bool, user: Option<string>): StrResult {
    if visible && user.Some? && NumTakesEffect(d, env, user.value) then StrResult(user.value, true)
    else DefaultNum(d, env, visible)
  }

  ghost predicate BoundsForced(k: Kconfig, u: User, c: Cache, near: set<Item>, d: SymDef, rng: Option<Range>,
                               low: string, high: string)
  {
    && RangeForced(k, u, c, near, d.ranges, rng)
    && (rng.Some? ==> TextForced(k, u, c, near, rng.value.low, low) && TextForced(k, u, c, near, rng.value.high, high))
  }

  lemma UserNumCombine(k: Kconfig, u: User, c: Cache, near: set<Item>, s: SymId, rng: Option<Range>, low: string,
                       high: string)
    requires BoundsForced(k, u, c, near, k.Def(s), rng, low, high) && u.StrOf(s).Some?
    requires var base := TypeToBase(k.Def(s).typ);
             var n := ParseInt(u.StrOf(s).value, base);
             n.Some? && (rng.Some? ==> Number(low, base) <= n.value <= Number(high, base))
    ensures forall v | Agrees(v, c, near) ::
              NumFrom(k.Def(s), EnvOf(k, u, v), true, u.StrOf(s)) == StrResult(u.StrOf(s).value, true)
  {
    hide EnvOf, Agrees, ParseInt, DefaultNum, AtomStr, ActiveRange;
  }

  lemma DefaultNumCombine(k: Kconfig, u: User, c: Cache, near: set<Item>, s: SymId, visible: bool,
                          rng: Option<Range>, low: string, high: string, dflt: Option<Default>, text: string,
                          r: StrResult)
    requires BoundsForced(k, u, c, near, k.Def(s), rng, low, high)
    requires DefaultTextForced(k, u, c, near, k.Def(s), dflt, text)
    requires var base := TypeToBase(k.Def(s).typ);
             && (visible && u.StrOf(s).Some? ==>
                  var n := ParseInt(u.StrOf(s).value, base);
                  !(n.Some? && (rng.Some? ==> Number(low, base) <= n.value <= Number(high, base))))
             && r == StrResult(
                  if rng.Some? && Number(text, base) < Number(low, base) then FormatInt(Number(low, base), k.Def(s).typ)
                  else if rng.Some?
                    && Number(text, base) > Number(high, base) then FormatInt(Number(high, base), k.Def(s).typ)
                  else text,
                  visible || dflt.Some?)
    ensures forall v | Agrees(v, c, near) :: NumFrom(k.Def(s), EnvOf(k, u, v), visible, u.StrOf(s)) == r
  {
    hide EnvOf, Agrees, ParseInt, FormatInt, AtomStr, ActiveRange, ActiveDefault;
    forall v | Agrees(v, c, near) ensures NumFrom(k.Def(s), EnvOf(k, u, v), visible, u.StrOf(s)) == r {
      assert ActiveRange(k.Def(s).ranges, EnvOf(k, u, v)) == rng;
      assert ActiveDefault(k.Def(s).defaults, EnvOf(k, u, v)) == dflt;
      assert DefaultNum(k.Def(s), EnvOf(k, u, v), visible) == r;
    }
  }

  lemma DefaultStrCombine(k: Kconfig, u: User, c: Cache, near: set<Item>, s: SymId, visible: bool,
                          dflt: Option<Default>, text: string)
    requires DefaultTextForced(k, u, c, near, k.Def(s), dflt, text)
    ensures forall v | Agrees(v, c, near) ::
              DefaultStr(k.Def(s), EnvOf(k, u, v), visible) == if dflt.Some? then StrResult(text, true)
                else StrResult("", visible)
  {
    hide EnvOf, Agrees, ActiveDefault;
  }

  lemma TextCombine(k: Kconfig, u: User, c: Cache, s: SymId, r: StrResult)
    requires SymItem(s) in c.vis && !IsBoolTristate(k.Def(s).typ) && k.Def(s).typ != Unknown
    requires var d, visible, near := k.Def(s), c.vis[SymItem(s)] != 0, Near(k, SymItem(s));
             if d.typ != Str then forall v | Agrees(v, c, near) :: NumFrom(d, EnvOf(k, u, v), visible, u.StrOf(s)) == r
             else if visible && u.StrOf(s).Some? then r == StrResult(u.StrOf(s).value, true)
             else forall v | Agrees(v, c, near) :: DefaultStr(d, EnvOf(k, u, v), visible) == r
    ensures StrForced(k, u, c, s, r.val, r.write && !k.Def(s).auto)
  {
    hide EnvOf, NumTakesEffect, DefaultNum, DefaultStr, DependsOn;
  }

  lemma BoolStrForced(k: Kconfig, u: User, c: Cache, s: SymId)
    requires CacheOk(k, u, c) && IsBoolTristate(k.Def(s).typ) && s in c.tri
    ensures StrForced(k, u, c, s, TriStr(c.tri[s]), c.Write(s))
  {
    assert TriForced(k, u, c, s, c.tri[s], c.Write(s));
    hide CacheOk, TriRule, DependsOn, EnvOf;
  }

  lemma UnknownStrForced(k: Kconfig, u: User, c: Cache, s: SymId)
    requires k.Def(s).typ == Unknown
    ensures StrForced(k, u, c, s, k.Def(s).name, c.Write(s))
  {
  }

  // ----- Selections -----

  lemma SelectionReads(k: Kconfig, rank: Rank, x: ChoiceId)
    requires Acyclic(k, rank)
    ensures SelectionBelow(k, rank, rank(SelOf(x)), x) && ModeBelow(k, rank, rank(SelOf(x)), x)
    ensures ChoiceItem(x) in Near(k, ChoiceItem(x)) && SymItem(k.modules) in Near(k, ChoiceItem(x))
  {
  }

  lemma SelectionRead(k: Kconfig, rank: Rank, x: ChoiceId, i: nat)
    requires WellFormed(k) && Acyclic(k, rank) && i < |k.Choice(x).defaults|
    ensures ExprBelow(k, rank, rank(SelOf(x)), k.Choice(x).defaults[i].cond)
            && ItemsIn(k.Choice(x).defaults[i].cond) <= Near(k, ChoiceItem(x))
    ensures rank(VisOf(SymItem(k.Choice(x).defaults[i].sym))) < rank(SelOf(x))
            && SymItem(k.Choice(x).defaults[i].sym) in Near(k, ChoiceItem(x))
  {
    assert SelectionBelow(k, rank, rank(SelOf(x)), x);
    var s := k.Choice(x).defaults[i].sym;
    var j :| 0 <= j < |k.Choice(x).syms| && k.Choice(x).syms[j] == s;
    assert ItemsIn(k.Choice(x).defaults[i].cond) <= ChoiceDefaultItems(k.Choice(x).defaults);
    assert SymItem(k.Choice(x).syms[j]) in MemberItems(k.Choice(x).syms);
  }

  lemma MemberRead(k: Kconfig, rank: Rank, x: ChoiceId, i: nat)
    requires Acyclic(k, rank) && i < |k.Choice(x).syms|
    ensures rank(VisOf(SymItem(k.Choice(x).syms[i]))) < rank(SelOf(x))
            && SymItem(k.Choice(x).syms[i]) in Near(k, ChoiceItem(x))
  {
    assert SelectionBelow(k, rank, rank(SelOf(x)), x);
    assert SymItem(k.Choice(x).syms[i]) in MemberItems(k.Choice(x).syms);
  }

  lemma UserSelectionRead(k: Kconfig, u: User, rank: Rank, x: ChoiceId)
    requires Acyclic(k, rank) && UserOk(k, u) && x in u.selection
    ensures rank(VisOf(SymItem(u.selection[x]))) < rank(SelOf(x)) && SymItem(u.selection[x]) in Near(k, ChoiceItem(x))
  {
    var i :| 0 <= i < |k.Choice(x).syms| && k.Choice(x).syms[i] == u.selection[x];
    MemberRead(k, rank, x, i);
  }

  ghost predicate SelectionsSkipped(k: Kconfig, u: User, c: Cache, near: set<Item>, ds: seq<ChoiceDefault>, i: nat)
    requires i <= |ds|
  {
    forall v | Agrees(v, c, near) ::
        DefaultSelection(ds, EnvOf(k, u, v), v) == DefaultSelection(ds[i..], EnvOf(k, u, v), v)
  }

  lemma NoDefaultsSkipped(k: Kconfig, u: User, c: Cache, near: set<Item>, ds: seq<ChoiceDefault>)
    ensures SelectionsSkipped(k, u, c, near, ds, 0)
  {
    assert ds[0..] == ds;
  }

  lemma SelectionStep(k: Kconfig, u: User, c: Cache, c': Cache, near: set<Item>, ds: seq<ChoiceDefault>, i: nat,
                      cond: Tri, vis: Tri)
    requires i < |ds| && Extends(c, c') && SelectionsSkipped(k, u, c, near, ds, i) && SymItem(ds[i].sym) in near
    requires ValueForced(k, u, c', near, ds[i].cond, cond)
    requires cond != 0 ==> SymItem(ds[i].sym) in c'.vis && c'.vis[SymItem(ds[i].sym)] == vis
    ensures if cond != 0 && vis != 0 then forall v | Agrees(v, c', near) ::
              DefaultSelection(ds, EnvOf(k, u, v), v) == Some(ds[i].sym)
            else SelectionsSkipped(k, u, c', near, ds, i + 1)
  {
    hide Value, EnvOf;
    assert ds[i..][1..] == ds[i + 1..] && ds[i..][0] == ds[i];
    forall v | Agrees(v, c', near)
      ensures if cond != 0 && vis != 0 then DefaultSelection(ds, EnvOf(k, u, v), v) == Some(ds[i].sym)
              else DefaultSelection(ds, EnvOf(k, u, v), v) == DefaultSelection(ds[i + 1..], EnvOf(k, u, v), v)
    {
      AgreesWithLess(v, c, c', near);
    }
  }

  lemma NothingSelected(k: Kconfig, u: User, c: Cache, near: set<Item>, ds: seq<ChoiceDefault>)
    requires SelectionsSkipped(k, u, c, near, ds, |ds|)
    ensures forall v | Agrees(v, c, near) :: DefaultSelection(ds, EnvOf(k, u, v), v) == None
  {
    hide Value, EnvOf, Agrees;
    assert ds[|ds|..] == [];
  }

  lemma DefaultSelected(k: Kconfig, u: User, c: Cache, near: set<Item>, x: ChoiceId, s: SymId)
    requires forall v | Agrees(v, c, near) :: DefaultSelection(k.Choice(x).defaults, EnvOf(k, u, v), v) == Some(s)
    ensures forall v | Agrees(v, c, near) :: SelectionFromDefaults(k, u, v, x) == Some(s)
  {
    hide DefaultSelection, EnvOf, Agrees;
  }

  ghost predicate HiddenUpTo(k: Kconfig, c: Cache, near: set<Item>, syms: seq<SymId>, i: nat)
    requires i <= |syms|
  {
    forall v | Agrees(v, c, near) :: FirstVisible(syms, v) == FirstVisible(syms[i..], v)
  }

  lemma HiddenStep(k: Kconfig, c: Cache, c': Cache, near: set<Item>, syms: seq<SymId>, i: nat, vis: Tri)
    requires i < |syms| && Extends(c, c') && HiddenUpTo(k, c, near, syms, i)
    requires SymItem(syms[i]) in near && SymItem(syms[i]) in c'.vis && c'.vis[SymItem(syms[i])] == vis
    ensures if vis == 0 then HiddenUpTo(k, c', near, syms, i + 1) else forall v | Agrees(v, c', near) ::
              FirstVisible(syms, v) == Some(syms[i])
  {
    assert syms[i..][1..] == syms[i + 1..] && syms[i..][0] == syms[i];
    forall v | Agrees(v, c', near)
      ensures if vis == 0 then FirstVisible(syms, v) == FirstVisible(syms[i + 1..], v)
              else FirstVisible(syms, v) == Some(syms[i])
    {
      AgreesWithLess(v, c, c', near);
    }
  }

  lemma HiddenAll(k: Kconfig, c: Cache, near: set<Item>, syms: seq<SymId>)
    requires HiddenUpTo(k, c, near, syms, |syms|)
    ensures forall v | Agrees(v, c, near) :: FirstVisible(syms, v) == None
  {
    assert syms[|syms|..] == [];
  }

  lemma FirstSelected(k: Kconfig, u: User, c: Cache, c': Cache, near: set<Item>, x: ChoiceId, r: Option<SymId>)
    requires Extends(c, c') && forall v | Agrees(v, c, near) ::
               DefaultSelection(k.Choice(x).defaults, EnvOf(k, u, v), v) == None
    requires forall v | Agrees(v, c', near) :: FirstVisible(k.Choice(x).syms, v) == r
    ensures forall v | Agrees(v, c', near) :: SelectionFromDefaults(k, u, v, x) == r
  {
    hide DefaultSelection, FirstVisible, EnvOf;
    forall v | Agrees(v, c', near) ensures SelectionFromDefaults(k, u, v, x) == r { AgreesWithLess(v, c, c', near); }
  }

  // ----- Assignable values -----

  lemma SymValueExprs(k: Kconfig, rank: Rank, bound: nat, s: SymId)
    requires SymValueBelow(k, rank, bound, s)
    ensures ExprBelow(k, rank, bound, k.Def(s).revDep) && ExprBelow(k, rank, bound, k.Def(s).weakRevDep)
    ensures ModulesBelow(k, rank, bound, k.Def(s).typ)
    ensures k.Def(s).choice.Some? ==> ModeBelow(k, rank, bound, k.Def(s).choice.value)
  {
  }

  lemma NotAssignable(k: Kconfig, u: User, c: Cache, s: SymId)
    requires !IsBoolTristate(k.Def(s).typ)
    ensures AssignableForced(k, u, c, SymItem(s), {})
  {
  }

  /** The assignable values of a visible symbol from its reverse dependencies and type. */
  function AssignableFrom(d: SymDef, vis: Tri, rev: Tri, typ: Type, weak: Tri): set<Tri> {
    if vis == 0 then {}
    else if vis == 2 && d.choice.Some? then {2}
    else if rev == 2 then {2}
    else if vis == 2 then
      if typ == Bool || weak == 2 then (if rev == 0 then {0, 2} else {2})
      else (if rev == 0 then {0, 1, 2} else {1, 2})
    else if rev == 0 then (if weak != 2 then {0, 1} else {0, 2})
    else {1}
  }

  lemma AssignableCombine(k: Kconfig, u: User, c: Cache, s: SymId, rev: Tri, typ: Type, weak: Tri)
    requires IsBoolTristate(k.Def(s).typ) && SymItem(s) in c.vis
    requires var d, vis, near := k.Def(s), c.vis[SymItem(s)], Near(k, SymItem(s));
             !(vis == 0 || (vis == 2 && d.choice.Some?)) ==>
               && ValueForced(k, u, c, near, d.revDep, rev)
               && (vis == 2 && rev != 2 ==> TypeForced(k, u, c, near, s, typ))
               && (rev != 2 && !(vis == 2 && typ == Bool) && !(vis == 1 && rev == 1) ==>
                   ValueForced(k, u, c, near, d.weakRevDep, weak))
    ensures AssignableForced(k, u, c, SymItem(s), AssignableFrom(k.Def(s), c.vis[SymItem(s)], rev, typ, weak))
  {
    hide EnvOf, SymType, Value, DependsOn;
  }

  lemma AssignableForcedOnce(k: Kconfig, u: User, c: Cache, i: Item, r: set<Tri>)
    requires CacheOk(k, u, c) && AssignableForced(k, u, c, i, r) && i in c.assignable
    ensures c.assignable[i] == r && c.assignable[i := r] == c.assignable
  {
    assert AssignableForced(k, u, c, i, c.assignable[i]);
    hide AssignableRule;
    assert Agrees(Overlay(Nothing(), c), c, Near(k, i));
  }

  // ----- Invalidation -----

  function AllItems(k: Kconfig): set<Item> {
    (set s | 0 <= s < |k.syms| :: SymItem(s)) + (set x | 0 <= x < |k.choices| :: ChoiceItem(x))
  }

  /** `_dependents` */
  function Dependents(k: Kconfig, i: Item): set<Item> {
    set d | d in AllItems(k) && i in DependsOn(k, d)
  }

  lemma DependentsComplete(k: Kconfig, i: Item)
    ensures forall d | i in DependsOn(k, d) :: d in Dependents(k, i)
  {
    forall d | i in DependsOn(k, d) ensures d in AllItems(k) {
      match d
      case SymItem(s) => assert s < |k.syms|;
      case ChoiceItem(x) => assert x < |k.choices|;
    }
  }

  /** Everything that `_invalidate_all` clears: defined symbols and choices. */
  function CachedItems(k: Kconfig, c: Cache): set<Item> {
    var cached := c.vis.Keys + (set s | s in c.tri :: SymItem(s)) + (set s | s in c.str :: SymItem(s))
      + (set x | x in c.sel :: ChoiceItem(x)) + c.assignable.Keys;
    set i | i in cached && (i.ChoiceItem? || k.Def(i.sym).defined)
  }

  /** `gone` is closed but for the edges from `i` to the items in `todo`. */
  ghost predicate Spreading(k: Kconfig, c: Cache, gone: set<Item>, i: Item, todo: set<Item>) {
    && (forall x, j | x in gone && x in DependsOn(k, j) && j in c.vis :: j in gone || (x == i && j in todo))
    && (SymItem(k.modules) in gone ==> forall j | j in c.vis :: j in gone || Inert(k, j))
  }

  lemma SpreadStart(k: Kconfig, c: Cache, i: Item, todo: set<Item>)
    requires i != SymItem(k.modules) && forall d | i in DependsOn(k, d) :: d in todo
    ensures Spreading(k, c, {i}, i, todo)
  {
    hide DependsOn;
  }

  lemma SpreadSkip(k: Kconfig, c: Cache, gone: set<Item>, i: Item, todo: set<Item>, d: Item)
    requires Spreading(k, c, gone, i, todo) && d !in Drop(c, gone).vis
    ensures Spreading(k, c, gone, i, todo - {d})
  {
    hide DependsOn;
  }

  lemma SpreadMore(k: Kconfig, c: Cache, gone: set<Item>, i: Item, todo: set<Item>, d: Item, more: set<Item>)
    requires Spreading(k, c, gone, i, todo) && Closed(k, Drop(c, gone), more) && d in more
    ensures Spreading(k, c, gone + more, i, todo - {d})
  {
    hide DependsOn;
  }

  lemma SpreadEnd(k: Kconfig, c: Cache, gone: set<Item>, i: Item)
    requires Spreading(k, c, gone, i, {})
    ensures Closed(k, c, gone)
  {
    hide DependsOn;
  }

  lemma AllClosed(k: Kconfig, c: Cache, all: set<Item>)
    requires CachedItems(k, c) <= all
    ensures Closed(k, c, all)
  {
    forall j | j in c.vis ensures j in all || Inert(k, j) {
      assert j in CachedItems(k, c) || Inert(k, j);
    }
  }

  lemma DropTwice(c: Cache, a: set<Item>, b: set<Item>)
    ensures Drop(Drop(c, a), b) == Drop(c, a + b)
  {
  }

  lemma DropShrinks(c: Cache, gone: set<Item>, i: Item)
    requires i in gone
    ensures |Drop(c, gone).vis| <= |c.vis| && (i in c.vis ==> |Drop(c, gone).vis| < |c.vis|)
  {
    var a, b := Drop(c, gone).vis.Keys, c.vis.Keys;
    assert a <= b - {i};
    SubsetSize(a, b - {i});
  }

  lemma {:induction false} SubsetSize<T>(a: set<T>, b: set<T>)
    requires a <= b
    ensures |a| <= |b|
  {
    if a != {} {
      var x :| x in a;
      SubsetSize(a - {x}, b - {x});
    }
  }

  lemma NothingDropped(k: Kconfig, c: Cache)
    ensures Drop(c, {}) == c && Closed(k, c, {})
  {
  }

  lemma PromptlessIsHidden(k: Kconfig, u: User, c: Cache, s: SymId)
    requires CacheOk(k, u, c) && k.Def(s).prompts == []
    ensures SymItem(s) in c.vis ==> c.vis[SymItem(s)] == 0
  {
    if SymItem(s) in c.vis {
      assert VisForced(k, u, c, SymItem(s), c.vis[SymItem(s)]);
      assert Agrees(Overlay(Nothing(), c), c, Near(k, SymItem(s)));
    }
  }

  lemma WellFormedLinks(k: Kconfig)
    requires WellFormed(k)
    ensures ChoicesLinked(k)
  {
  }

  /** Dropping the choice also drops the symbol that was selected, if it is visible. */
  lemma SelectionCovered(k: Kconfig, u: User, u': User, c: Cache, gone: set<Item>, s: SymId)
    requires WellFormed(k) && CacheOk(k, u, c) && k.Def(s).choice.Some?
    requires Closed(k, c, gone) && ChoiceItem(k.Def(s).choice.value) in gone
    requires u' == u.(value := u.value[s := UserTri(2)], selection := u.selection[k.Def(s).choice.value := s])
    ensures Covered(k, u, u', c, gone)
  {
    if SymItem(s) in c.vis && c.vis[SymItem(s)] != 0 {
      VisibleCachedMentionsChoice(k, u, c, s);
      assert SymItem(s) in gone;
    }
    hide CacheOk, WellFormed;
    assert forall t | t != s :: u.TriOf(t) == u'.TriOf(t) && u.StrOf(t) == u'.StrOf(t);
  }
}
