/**
 Why `_rec_invalidate` may stop at items without a cached visibility: dropping a set of
 items that is closed under the edges to *cached* dependents keeps every remaining cached
 value forced, for the changed user values too.
 */
module Invalidation {
  import opened Expressions
  import opened Config
  import opened Locality
  import opened Caching

  /** `_invalidate` on every item in `gone`. */
  function Drop(c: Cache, gone: set<Item>): Cache {
    Cache(
      map i | i in c.vis && i !in gone :: c.vis[i],
      map s | s in c.tri && SymItem(s) !in gone :: c.tri[s],
      map s | s in c.str && SymItem(s) !in gone :: c.str[s],
      map x | x in c.sel && ChoiceItem(x) !in gone :: c.sel[x],
      map i | i in c.assignable && i !in gone :: c.assignable[i],
      c.write)
  }

  /** Undefined symbols never change value. */
  predicate Inert(k: Kconfig, i: Item) { i.SymItem? && !k.Def(i.sym).defined }

  /** No cached item outside `gone` depends on one inside. */
  ghost predicate Closed(k: Kconfig, c: Cache, gone: set<Item>) {
    && (forall j, x | j in c.vis && x in gone && x in DependsOn(k, j) :: j in gone)
    && (SymItem(k.modules) in gone ==> forall j | j in c.vis :: j in gone || Inert(k, j))
  }

  /** Every difference between two user states is at an item that is dropped, or is a user
      value that its symbol, being invisible or not calculated, does not use. */
  ghost predicate Covered(k: Kconfig, u: User, u': User, c: Cache, gone: set<Item>) {
    && (forall s: SymId | u.TriOf(s) != u'.TriOf(s) || u.StrOf(s) != u'.StrOf(s) ::
          SymItem(s) in gone || SymItem(s) !in c.vis || c.vis[SymItem(s)] == 0)
    && (forall x: ChoiceId | u.ModeOf(x) != u'.ModeOf(x) || u.SelectionOf(x) != u'.SelectionOf(x) ::
        ChoiceItem(x) in gone)
  }

  ghost predicate SameModes(u: User, u': User, near: set<Item>) {
    forall x | ChoiceItem(x) in near :: u.ModeOf(x) == u'.ModeOf(x)
  }

  lemma NearIsKept(k: Kconfig, c: Cache, gone: set<Item>, j: Item)
    requires Closed(k, c, gone) && j in c.vis && j !in gone && !Inert(k, j)
    ensures Near(k, j) !! gone
  {
  }

  lemma KeptAgree(v: Valuation, c: Cache, gone: set<Item>, near: set<Item>)
    requires Agrees(v, Drop(c, gone), near) && near !! gone
    ensures Agrees(v, c, near)
  {
  }

  lemma SameModesSameOn(k: Kconfig, u: User, u': User, v: Valuation, near: set<Item>, e: Expr)
    requires SameModes(u, u', near) && ItemsIn(e) <= near
    ensures SameOn(e, EnvOf(k, u, v), EnvOf(k, u', v))
  {
    forall x | x in ChoicesIn(e) ensures ModeRule(k, u, v, x) == ModeRule(k, u', v, x) {
      assert ChoiceItem(x) in ItemsIn(e);
    }
  }

  lemma SameModesSameOnAll(k: Kconfig, u: User, u': User, v: Valuation, near: set<Item>, es: seq<Expr>)
    requires SameModes(u, u', near) && PromptItems(es) <= near
    ensures SameOnAll(es, EnvOf(k, u, v), EnvOf(k, u', v))
  {
    forall i | 0 <= i < |es| ensures SameOn(es[i], EnvOf(k, u, v), EnvOf(k, u', v)) {
      assert ItemsIn(es[i]) <= PromptItems(es);
      SameModesSameOn(k, u, u', v, near, es[i]);
    }
  }

  // ----- Visibility -----

  lemma {:induction false} UnmentionedChoiceHides(k: Kconfig, env: Env, es: seq<Expr>, x: ChoiceId)
    requires forall i | 0 <= i < |es| :: GuardedBy(es[i], x) && x !in ChoicesIn(es[i])
    ensures MaxValue(es, env) == 0
  {
    if es != [] {
      GuardMentionsOrZero(es[|es| - 1], x, env);
      UnmentionedChoiceHides(k, env, es[..|es| - 1], x);
    }
  }

  lemma SymVisKept(k: Kconfig, u: User, u': User, v: Valuation, s: SymId)
    requires WellFormed(k) && (k.Def(s).defined ==> SameModes(u, u', DependsOn(k, SymItem(s))))
    ensures VisRule(k, u, v, SymItem(s)) == VisRule(k, u', v, SymItem(s))
  {
    var d := k.Def(s);
    if d.defined {
      SameModesSameOnAll(k, u, u', v, DependsOn(k, SymItem(s)), d.prompts);
      if d.choice.Some? && ChoiceItem(d.choice.value) !in DependsOn(k, SymItem(s)) {
        forall i | 0 <= i < |d.prompts| ensures d.choice.value !in ChoicesIn(d.prompts[i]) {
          assert ChoiceItem(d.choice.value) !in PromptItems(d.prompts);
          assert d.choice.value in ChoicesIn(d.prompts[i]) ==> ChoiceItem(d.choice.value) in ItemsIn(d.prompts[i]);
        }
        UnmentionedChoiceHides(k, EnvOf(k, u, v), d.prompts, d.choice.value);
      }
      SymVisLocal(k, u, v, u', v, s);
    }
  }

  lemma ChoiceVisKept(k: Kconfig, u: User, u': User, v: Valuation, x: ChoiceId)
    requires SameModes(u, u', DependsOn(k, ChoiceItem(x)))
    ensures VisRule(k, u, v, ChoiceItem(x)) == VisRule(k, u', v, ChoiceItem(x))
  {
    SameModesSameOnAll(k, u, u', v, DependsOn(k, ChoiceItem(x)), k.Choice(x).prompts);
    ChoiceVisLocal(k, u, v, u', v, x);
  }

  // ----- Values -----

  lemma DefaultsKept(k: Kconfig, u: User, u': User, v: Valuation, near: set<Item>, d: SymDef)
    requires SameModes(u, u', near) && DefaultItems(d.defaults) <= near && RangeItems(d.ranges) <= near
    ensures SameOnDefaults(d.defaults, EnvOf(k, u, v), EnvOf(k, u', v))
    ensures SameOnRanges(d.ranges, EnvOf(k, u, v), EnvOf(k, u', v))
  {
    forall i | 0 <= i < |d.defaults|
      ensures SameOn(d.defaults[i].value, EnvOf(k, u, v), EnvOf(k, u', v))
              && SameOn(d.defaults[i].cond, EnvOf(k, u, v), EnvOf(k, u', v))
    {
      assert ItemsIn(d.defaults[i].value) + ItemsIn(d.defaults[i].cond) <= DefaultItems(d.defaults);
      SameModesSameOn(k, u, u', v, near, d.defaults[i].value);
      SameModesSameOn(k, u, u', v, near, d.defaults[i].cond);
    }
    forall i | 0 <= i < |d.ranges| ensures SameOn(d.ranges[i].cond, EnvOf(k, u, v), EnvOf(k, u', v)) {
      var r := d.ranges[i];
      assert ItemsIn(Leaf(r.low)) + ItemsIn(Leaf(r.high)) + ItemsIn(r.cond) <= RangeItems(d.ranges);
      SameModesSameOn(k, u, u', v, near, d.ranges[i].cond);
    }
  }

  ghost predicate SameOrUnused(u: User, u': User, v: Valuation, s: SymId) {
    v.vis(SymItem(s)) != 0 ==> u.TriOf(s) == u'.TriOf(s) && u.StrOf(s) == u'.StrOf(s)
  }

  lemma ValueReadsKept(k: Kconfig, u: User, u': User, v: Valuation, s: SymId)
    requires k.Def(s).defined && SameModes(u, u', DependsOn(k, SymItem(s))) && SameOrUnused(u, u', v, s)
    ensures SameValueReads(k, u, v, u', v, s) && SameTextReads(k, u, v, u', v, s)
    ensures SameOn(k.Def(s).revDep, EnvOf(k, u, v), EnvOf(k, u', v))
            && SameOn(k.Def(s).weakRevDep, EnvOf(k, u, v), EnvOf(k, u', v))
  {
    var near := DependsOn(k, SymItem(s));
    var d := k.Def(s);
    DefaultsKept(k, u, u', v, near, d);
    SameModesSameOn(k, u, u', v, near, d.revDep);
    SameModesSameOn(k, u, u', v, near, d.weakRevDep);
    SameModesSameOn(k, u, u', v, near, d.directDep);
  }

  lemma SelKept(k: Kconfig, u: User, u': User, v: Valuation, x: ChoiceId)
    requires WellFormed(k) && UserOk(k, u) && SameModes(u, u', DependsOn(k, ChoiceItem(x)))
    requires u.ModeOf(x) == u'.ModeOf(x) && u.SelectionOf(x) == u'.SelectionOf(x)
    ensures SelRule(k, u, v, x) == SelRule(k, u', v, x)
  {
    var near := DependsOn(k, ChoiceItem(x));
    var ds := k.Choice(x).defaults;
    forall i | 0 <= i < |ds| ensures SameOn(ds[i].cond, EnvOf(k, u, v), EnvOf(k, u', v)) {
      assert ItemsIn(ds[i].cond) <= ChoiceDefaultItems(ds);
      SameModesSameOn(k, u, u', v, near, ds[i].cond);
    }
    SelLocal(k, u, v, u', v, x);
  }

  // ----- What is left in the cache stays forced -----

  lemma KeptModes(k: Kconfig, u: User, u': User, c: Cache, gone: set<Item>, near: set<Item>)
    requires Covered(k, u, u', c, gone) && near !! gone
    ensures SameModes(u, u', near)
  {
  }

  lemma VisStays(k: Kconfig, u: User, u': User, c: Cache, gone: set<Item>, i: Item)
    requires WellFormed(k) && Closed(k, c, gone) && Covered(k, u, u', c, gone)
    requires i in c.vis && i !in gone && VisForced(k, u, c, i, c.vis[i])
    ensures VisForced(k, u', Drop(c, gone), i, c.vis[i])
  {
    hide Closed, Covered, WellFormed, VisRule, Drop, Agrees, Near;
    forall v | Agrees(v, Drop(c, gone), Near(k, i)) ensures VisRule(k, u', v, i) == c.vis[i] {
      if Inert(k, i) {
        UndefinedIsInvisible(k, u, Overlay(v, c), i.sym);
        UndefinedIsInvisible(k, u', v, i.sym);
      } else {
        NearIsKept(k, c, gone, i);
        KeptAgree(v, c, gone, Near(k, i));
        DependsIsNear(k, i);
        KeptModes(k, u, u', c, gone, DependsOn(k, i));
        match i
        case SymItem(s) => SymVisKept(k, u, u', v, s);
        case ChoiceItem(x) => ChoiceVisKept(k, u, u', v, x);
      }
    }
  }

  lemma DependsIsNear(k: Kconfig, i: Item)
    ensures DependsOn(k, i) <= Near(k, i) && i in Near(k, i)
  {
  }

  lemma UndefinedIsInvisible(k: Kconfig, u: User, v: Valuation, s: SymId)
    requires WellFormed(k) && !k.Def(s).defined
    ensures VisRule(k, u, v, SymItem(s)) == 0
  {
    assert UndefinedIsEmpty(k.Def(s));
  }

  /** The shared part of the remaining cases: a kept valuation agreed with the whole cache,
      and the user states differ in nothing that item `i` reads. */
  lemma KeptReads(k: Kconfig, u: User, u': User, c: Cache, gone: set<Item>, i: Item, v: Valuation)
    requires Closed(k, c, gone) && Covered(k, u, u', c, gone)
    requires i in c.vis && i !in gone && !Inert(k, i) && Agrees(v, Drop(c, gone), Near(k, i))
    ensures Agrees(v, c, Near(k, i)) && SameModes(u, u', DependsOn(k, i))
    ensures i.SymItem? ==> SameOrUnused(u, u', v, i.sym)
    ensures i.ChoiceItem? ==>
              u.ModeOf(i.choice) == u'.ModeOf(i.choice) && u.SelectionOf(i.choice) == u'.SelectionOf(i.choice)
  {
    NearIsKept(k, c, gone, i);
    KeptAgree(v, c, gone, Near(k, i));
    KeptModes(k, u, u', c, gone, DependsOn(k, i));
  }

  lemma TriStays(k: Kconfig, u: User, u': User, c: Cache, gone: set<Item>, s: SymId)
    requires WellFormed(k) && Closed(k, c, gone) && Covered(k, u, u', c, gone) && VisIsFlag(k, c)
    requires s in c.tri && SymItem(s) !in gone && TriForced(k, u, c, s, c.tri[s], c.Write(s))
    ensures TriForced(k, u', Drop(c, gone), s, c.tri[s], c.Write(s))
  {
    hide Closed, Covered, DependsOn, Near, Agrees, Drop, SameValueReads, SameTextReads;
    forall v | Agrees(v, Drop(c, gone), Near(k, SymItem(s)))
      ensures TriRule(k, u', v, s).val == c.tri[s]
      ensures IsBoolTristate(k.Def(s).typ) ==> TriRule(k, u', v, s).write == c.Write(s)
    {
      if IsBoolTristate(k.Def(s).typ) {
        KeptReads(k, u, u', c, gone, SymItem(s), v);
        ValueReadsKept(k, u, u', v, s);
        TriLocal(k, u, v, u', v, s);
      } else {
        assert Agrees(Overlay(v, c), c, Near(k, SymItem(s)));
      }
    }
  }

  lemma StrStays(k: Kconfig, u: User, u': User, c: Cache, gone: set<Item>, s: SymId)
    requires WellFormed(k) && Closed(k, c, gone) && Covered(k, u, u', c, gone) && VisIsFlag(k, c)
    requires s in c.str && SymItem(s) !in gone && StrForced(k, u, c, s, c.str[s], c.Write(s))
    ensures StrForced(k, u', Drop(c, gone), s, c.str[s], c.Write(s))
  {
    hide Closed, Covered, DependsOn, Near, Agrees, Drop, SameValueReads, SameTextReads, DefaultNum;
    hide DefaultStr, NumTakesEffect;
    forall v | Agrees(v, Drop(c, gone), Near(k, SymItem(s)))
      ensures StrRule(k, u', v, s).val == c.str[s]
      ensures k.Def(s).typ != Unknown ==> StrRule(k, u', v, s).write == c.Write(s)
    {
      if k.Def(s).typ != Unknown {
        KeptReads(k, u, u', c, gone, SymItem(s), v);
        ValueReadsKept(k, u, u', v, s);
        if IsBoolTristate(k.Def(s).typ) { TriLocal(k, u, v, u', v, s); } else { TextLocal(k, u, v, u', v, s); }
      } else {
        assert Agrees(Overlay(v, c), c, Near(k, SymItem(s)));
      }
    }
  }

  lemma SelStays(k: Kconfig, u: User, u': User, c: Cache, gone: set<Item>, x: ChoiceId)
    requires WellFormed(k) && UserOk(k, u) && Closed(k, c, gone) && Covered(k, u, u', c, gone) && VisIsFlag(k, c)
    requires x in c.sel && ChoiceItem(x) !in gone && SelForced(k, u, c, x, c.sel[x])
    ensures SelForced(k, u', Drop(c, gone), x, c.sel[x])
  {
    hide Closed, Covered, DependsOn, Near, Agrees, Drop, SelRule, WellFormed, UserOk;
    forall v | Agrees(v, Drop(c, gone), Near(k, ChoiceItem(x))) ensures SelRule(k, u', v, x) == c.sel[x] {
      KeptReads(k, u, u', c, gone, ChoiceItem(x), v);
      SelKept(k, u, u', v, x);
    }
  }

  lemma AssignableStays(k: Kconfig, u: User, u': User, c: Cache, gone: set<Item>, i: Item)
    requires WellFormed(k) && Closed(k, c, gone) && Covered(k, u, u', c, gone) && VisIsFlag(k, c)
    requires i in c.assignable && i !in gone && AssignableForced(k, u, c, i, c.assignable[i])
    ensures AssignableForced(k, u', Drop(c, gone), i, c.assignable[i])
  {
    hide Closed, Covered, DependsOn, Near, Agrees, Drop, SameValueReads, SameTextReads;
    forall v | Agrees(v, Drop(c, gone), Near(k, i)) ensures AssignableRule(k, u', v, i) == c.assignable[i] {
      if i.SymItem? && !IsBoolTristate(k.Def(i.sym).typ) {
        assert Agrees(Overlay(v, c), c, Near(k, i));
      } else {
        KeptReads(k, u, u', c, gone, i, v);
        match i
        case SymItem(s) => ValueReadsKept(k, u, u', v, s); SymAssignableLocal(k, u, v, u', v, s);
        case ChoiceItem(_) =>
      }
    }
  }

  /** Pruned invalidation is sound. */
  lemma DropIsSound(k: Kconfig, u: User, u': User, c: Cache, gone: set<Item>)
    requires WellFormed(k) && UserOk(k, u) && CacheOk(k, u, c)
    requires Closed(k, c, gone) && Covered(k, u, u', c, gone)
    ensures CacheOk(k, u', Drop(c, gone))
  {
    hide WellFormed, UserOk, Closed, Covered, VisForced, TriForced, StrForced, SelForced, AssignableForced;
    var r := Drop(c, gone);
    forall i | i in r.vis ensures VisForced(k, u', r, i, r.vis[i]) { VisStays(k, u, u', c, gone, i); }
    forall s | s in r.tri ensures TriForced(k, u', r, s, r.tri[s], r.Write(s)) { TriStays(k, u, u', c, gone, s); }
    forall s | s in r.str ensures StrForced(k, u', r, s, r.str[s], r.Write(s)) { StrStays(k, u, u', c, gone, s); }
    forall x | x in r.sel ensures SelForced(k, u', r, x, r.sel[x]) { SelStays(k, u, u', c, gone, x); }
    forall i | i in r.assignable ensures AssignableForced(k, u', r, i, r.assignable[i]) {
      AssignableStays(k, u, u', c, gone, i);
    }
  }
}
