/**
 What the visibilities, modes, selections and values of a solved configuration are, told by
 positions and cases instead of by the rules.
 */
module Meaning {
  import opened Expressions
  import opened Config
  import opened Evaluation
  import opened Choices
  import opened Numbers

  /** At `i` is the first element for which `p` holds. */
  ghost predicate FirstAt<T(!new)>(s: seq<T>, p: T -> bool, i: nat) {
    i < |s| && p(s[i]) && forall j :: 0 <= j < i ==> !p(s[j])
  }

  lemma FirstAtShift<T(!new)>(s: seq<T>, p: T -> bool, i: nat)
    requires s != [] && !p(s[0])
    ensures FirstAt(s[1..], p, i) <==> FirstAt(s, p, i + 1)
  {
    if FirstAt(s[1..], p, i) {
      assert forall j :: 1 <= j < i + 1 ==> s[j] == s[1..][j - 1];
    }
    if FirstAt(s, p, i + 1) {
      assert forall j :: 0 <= j < i ==> s[1..][j] == s[j + 1];
    }
  }

  // ----- What the rules read -----

  /** Expressions see the values of the solution, and symbols as the types they were given. */
  lemma ContextMeaning(k: Kconfig, u: User, v: Valuation, s: SymId)
    ensures var env := EnvOf(k, u, v);
            env.tri(s) == v.tri(s) && env.str(s) == v.str(s) && env.typ(s) == k.Def(s).typ
  {
  }

  /** The user has given the symbol a tristate value, or a text. */
  ghost predicate TriSet(u: User, s: SymId) {
    s in u.value && u.value[s].UserTri?
  }

  ghost predicate TextSet(u: User, s: SymId) {
    s in u.value && u.value[s].UserStr?
  }

  // ----- Types in effect -----

  /** Without modules a tristate counts as a bool. */
  ghost predicate Triple(k: Kconfig, v: Valuation, t: Type) {
    t == Tristate && v.tri(k.modules) != 0
  }

  // ----- Modes -----

  /** A choice has no mode exactly if it is hidden, or optional and not wanted. It is in y mode
      exactly if the user wants that of a choice that is visible as y, or it can only be n or y. */
  lemma ModeMeaning(k: Kconfig, u: User, v: Valuation, c: ChoiceId)
    requires IsBoolTristate(k.Choice(c).typ)
    ensures var mode, vis := EnvOf(k, u, v).mode(c), v.vis(ChoiceItem(c));
            && (mode == 0 <==> vis == 0 || (k.Choice(c).optional && (c in u.mode ==> u.mode[c] == 0)))
            && (mode == 2 <==>
                  mode != 0 && ((vis == 2 && c in u.mode && u.mode[c] == 2) || !Triple(k, v, k.Choice(c).typ)))
  {
  }

  // ----- Visibility -----

  /** Some prompt has at least this value. */
  ghost predicate Prompted(es: seq<Expr>, env: Env, t: Tri) {
    exists i :: 0 <= i < |es| && Value(es[i], env) >= t
  }

  lemma {:induction false} MaxValueMeaning(es: seq<Expr>, env: Env, t: Tri)
    requires t > 0
    ensures MaxValue(es, env) >= t <==> Prompted(es, env, t)
  {
    hide Value;
    if es != [] {
      var n := |es| - 1;
      MaxValueMeaning(es[..n], env, t);
      if Prompted(es[..n], env, t) {
        var i :| 0 <= i < n && Value(es[..n][i], env) >= t;
        assert Value(es[i], env) >= t;
      }
      if Prompted(es, env, t) {
        var i :| 0 <= i < |es| && Value(es[i], env) >= t;
        assert i < n ==> Value(es[..n][i], env) >= t;
      }
    }
  }

  /** A choice, or a symbol outside choices, is visible as its best prompt says, and as y instead of m
      if it cannot be m. */
  ghost predicate VisibleAs(k: Kconfig, v: Valuation, es: seq<Expr>, t: Type, env: Env, vis: Tri) {
    && (vis != 0 <==> Prompted(es, env, 1))
    && (vis == 2 <==> Prompted(es, env, 2) || (Prompted(es, env, 1) && !Triple(k, v, t)))
  }

  lemma ChoiceVisibilityMeaning(k: Kconfig, u: User, v: Valuation, c: ChoiceId)
    requires Solves(k, u, v)
    ensures VisibleAs(k, v, k.Choice(c).prompts, k.Choice(c).typ, EnvOf(k, u, v), v.vis(ChoiceItem(c)))
  {
    assert v.vis(ChoiceItem(c)) == VisRule(k, u, v, ChoiceItem(c));
    MaxValueMeaning(k.Choice(c).prompts, EnvOf(k, u, v), 1);
    MaxValueMeaning(k.Choice(c).prompts, EnvOf(k, u, v), 2);
    hide Solves, Prompted, EnvOf;
  }

  lemma SymbolVisibilityMeaning(k: Kconfig, u: User, v: Valuation, s: SymId)
    requires Solves(k, u, v) && k.Def(s).choice.None?
    ensures VisibleAs(k, v, k.Def(s).prompts, k.Def(s).typ, EnvOf(k, u, v), v.vis(SymItem(s)))
  {
    assert v.vis(SymItem(s)) == VisRule(k, u, v, SymItem(s));
    MaxValueMeaning(k.Def(s).prompts, EnvOf(k, u, v), 1);
    MaxValueMeaning(k.Def(s).prompts, EnvOf(k, u, v), 2);
    hide Solves, Prompted, EnvOf;
  }

  /** In a choice a symbol with a prompt is hidden as well if the choice is tristate, the symbol is not,
      and the choice is not in y mode; and if the symbol can only be m while the choice is in y mode. */
  lemma MemberVisibilityMeaning(k: Kconfig, u: User, v: Valuation, s: SymId, c: ChoiceId)
    requires Solves(k, u, v) && k.Def(s).choice == Some(c)
    ensures var es, t, env, vis := k.Def(s).prompts, k.Def(s).typ, EnvOf(k, u, v), v.vis(SymItem(s));
            && (vis != 0 <==>
                 && Prompted(es, env, 1)
                 && !(k.Choice(c).typ == Tristate && t != Tristate && env.mode(c) != 2)
                 && !(t == Tristate && env.mode(c) == 2 && !Prompted(es, env, 2)))
            && (vis == 2 <==> vis != 0 && (Prompted(es, env, 2) || env.mode(c) == 2 || !Triple(k, v, t)))
  {
    assert v.vis(SymItem(s)) == VisRule(k, u, v, SymItem(s));
    MaxValueMeaning(k.Def(s).prompts, EnvOf(k, u, v), 1);
    MaxValueMeaning(k.Def(s).prompts, EnvOf(k, u, v), 2);
    hide Solves, Prompted, ModeRule;
  }

  // ----- Selections -----

  ghost predicate UserPicks(u: User, v: Valuation, c: ChoiceId, s: SymId) {
    c in u.selection && u.selection[c] == s && v.vis(SymItem(s)) != 0
  }

  ghost function Applies(v: Valuation, env: Env): ChoiceDefault -> bool {
    (d: ChoiceDefault) => Value(d.cond, env) != 0 && v.vis(SymItem(d.sym)) != 0
  }

  ghost function Shows(v: Valuation): SymId -> bool {
    (s: SymId) => v.vis(SymItem(s)) != 0
  }

  /** The first default with a true condition and a visible symbol is for `s`. */
  ghost predicate DefaultPicks(ds: seq<ChoiceDefault>, env: Env, v: Valuation, s: SymId) {
    exists i: nat :: FirstAt(ds, Applies(v, env), i) && ds[i].sym == s
  }

  /** The first visible symbol is `s`. */
  ghost predicate FirstShown(syms: seq<SymId>, v: Valuation, s: SymId) {
    exists i: nat :: FirstAt(syms, Shows(v), i) && syms[i] == s
  }

  lemma {:induction false} DefaultSelectionMeaning(ds: seq<ChoiceDefault>, env: Env, v: Valuation, s: SymId)
    ensures DefaultSelection(ds, env, v) == Some(s) <==> DefaultPicks(ds, env, v, s)
  {
    hide Value;
    if ds != [] {
      var p := Applies(v, env);
      if p(ds[0]) {
        assert FirstAt(ds, p, 0);
      } else {
        DefaultSelectionMeaning(ds[1..], env, v, s);
        if DefaultPicks(ds[1..], env, v, s) {
          var i: nat :| FirstAt(ds[1..], p, i) && ds[1..][i].sym == s;
          FirstAtShift(ds, p, i);
        }
        if DefaultPicks(ds, env, v, s) {
          var i: nat :| FirstAt(ds, p, i) && ds[i].sym == s;
          FirstAtShift(ds, p, i - 1);
        }
      }
    }
  }

  lemma {:induction false} FirstVisibleMeaning(syms: seq<SymId>, v: Valuation, s: SymId)
    ensures FirstVisible(syms, v) == Some(s) <==> FirstShown(syms, v, s)
  {
    if syms != [] {
      var p := Shows(v);
      if p(syms[0]) {
        assert FirstAt(syms, p, 0);
      } else {
        FirstVisibleMeaning(syms[1..], v, s);
        if FirstShown(syms[1..], v, s) {
          var i: nat :| FirstAt(syms[1..], p, i) && syms[1..][i] == s;
          FirstAtShift(syms, p, i);
        }
        if FirstShown(syms, v, s) {
          var i: nat :| FirstAt(syms, p, i) && syms[i] == s;
          FirstAtShift(syms, p, i - 1);
        }
      }
    }
  }

  /** Without a visible user selection: the first default that applies, else the first visible symbol. */
  ghost predicate PickedByDefault(k: Kconfig, u: User, v: Valuation, c: ChoiceId, s: SymId) {
    var ds, env := k.Choice(c).defaults, EnvOf(k, u, v);
    || DefaultPicks(ds, env, v, s)
    || ((forall t :: !DefaultPicks(ds, env, v, t)) && FirstShown(k.Choice(c).syms, v, s))
  }

  lemma DefaultsMeaning(k: Kconfig, u: User, v: Valuation, c: ChoiceId, s: SymId)
    ensures SelectionFromDefaults(k, u, v, c) == Some(s) <==> PickedByDefault(k, u, v, c, s)
  {
    forall t { DefaultSelectionMeaning(k.Choice(c).defaults, EnvOf(k, u, v), v, t); }
    FirstVisibleMeaning(k.Choice(c).syms, v, s);
    hide DefaultPicks, FirstShown, DefaultSelection, FirstVisible, EnvOf;
  }

  /** A symbol is selected exactly if the choice is in y mode and the user picked it and it is visible,
      or no visible symbol was picked and it is the one that defaults and order give. */
  lemma SelectionMeaning(k: Kconfig, u: User, v: Valuation, c: ChoiceId, s: SymId)
    requires Solves(k, u, v)
    ensures v.sel(c) == Some(s) <==>
              && EnvOf(k, u, v).mode(c) == 2
              && (|| UserPicks(u, v, c, s)
                  || ((forall t :: !UserPicks(u, v, c, t)) && PickedByDefault(k, u, v, c, s)))
  {
    assert v.sel(c) == SelRule(k, u, v, c);
    DefaultsMeaning(k, u, v, c, s);
    hide Solves, PickedByDefault, SelectionFromDefaults, ModeRule;
    if c in u.selection && v.vis(SymItem(u.selection[c])) != 0 {
      assert UserPicks(u, v, c, u.selection[c]);
    }
  }

  /** The user's visible selection is y, and the other symbols of the choice are n. */
  lemma UserSelectionIsY(k: Kconfig, u: User, v: Valuation, c: ChoiceId, s: SymId)
    requires WellFormed(k) && ChoicesTyped(k) && UserOk(k, u) && Solves(k, u, v)
    requires EnvOf(k, u, v).mode(c) == 2 && UserPicks(u, v, c, s)
    ensures v.sel(c) == Some(s) && v.tri(s) == 2 && forall t | t in k.Choice(c).syms && t != s :: v.tri(t) == 0
  {
    SelectionMeaning(k, u, v, c, s);
    ChoiceIsExclusive(k, u, v, c);
    assert s in k.Choice(c).syms;
    hide Solves, ModeRule, WellFormed, ChoicesTyped, UserOk, PickedByDefault;
  }

  /** What symbols of a choice are: y is the selected one, m those set to m or y in m mode. */
  lemma MemberMeaning(k: Kconfig, u: User, v: Valuation, s: SymId, c: ChoiceId)
    requires Solves(k, u, v) && k.Def(s).choice == Some(c) && IsBoolTristate(k.Def(s).typ)
    ensures v.tri(s) == 2 <==> v.vis(SymItem(s)) == 2 && v.sel(c) == Some(s)
    ensures v.tri(s) == 1 <==> v.vis(SymItem(s)) == 1 && TriSet(u, s) && u.value[s].tri != 0
    ensures StrRule(k, u, v, s).write <==> v.vis(SymItem(s)) != 0
  {
    assert v.tri(s) == TriRule(k, u, v, s).val;
    hide Solves, EnvOf, SymType, DefaultTri, Select;
  }

  // ----- Defaults -----

  ghost function Active(env: Env): Default -> bool {
    (d: Default) => Value(d.cond, env) != 0
  }

  ghost function ActiveBounds(env: Env): Range -> bool {
    (r: Range) => Value(r.cond, env) != 0
  }

  ghost predicate NoneActive(ds: seq<Default>, env: Env) {
    forall i :: 0 <= i < |ds| ==> !Active(env)(ds[i])
  }

  ghost predicate NoBoundsActive(rs: seq<Range>, env: Env) {
    forall i :: 0 <= i < |rs| ==> !ActiveBounds(env)(rs[i])
  }

  lemma {:induction false} ActiveDefaultMeaning(ds: seq<Default>, env: Env)
    ensures ActiveDefault(ds, env).None? <==> NoneActive(ds, env)
    ensures ActiveDefault(ds, env).Some? <==>
              exists i: nat :: FirstAt(ds, Active(env), i) && ActiveDefault(ds, env) == Some(ds[i])
  {
    hide Value;
    if ds != [] {
      var p := Active(env);
      if p(ds[0]) {
        assert FirstAt(ds, p, 0);
      } else {
        ActiveDefaultMeaning(ds[1..], env);
        if ActiveDefault(ds[1..], env).Some? {
          var i: nat :| FirstAt(ds[1..], p, i) && ActiveDefault(ds[1..], env) == Some(ds[1..][i]);
          FirstAtShift(ds, p, i);
          assert !NoneActive(ds, env) by { assert p(ds[i + 1]); }
        } else {
          assert forall i :: 1 <= i < |ds| ==> ds[i] == ds[1..][i - 1];
        }
      }
    }
  }

  lemma {:induction false} ActiveRangeMeaning(rs: seq<Range>, env: Env)
    ensures ActiveRange(rs, env).None? <==> NoBoundsActive(rs, env)
    ensures ActiveRange(rs, env).Some? <==>
              exists i: nat :: FirstAt(rs, ActiveBounds(env), i) && ActiveRange(rs, env) == Some(rs[i])
  {
    hide Value;
    if rs != [] {
      var p := ActiveBounds(env);
      if p(rs[0]) {
        assert FirstAt(rs, p, 0);
      } else {
        ActiveRangeMeaning(rs[1..], env);
        if ActiveRange(rs[1..], env).Some? {
          var i: nat :| FirstAt(rs[1..], p, i) && ActiveRange(rs[1..], env) == Some(rs[1..][i]);
          FirstAtShift(rs, p, i);
          assert !NoBoundsActive(rs, env) by { assert p(rs[i + 1]); }
        } else {
          assert forall i :: 1 <= i < |rs| ==> rs[i] == rs[1..][i - 1];
        }
      }
    }
  }

  lemma FirstIsUnique<T(!new)>(s: seq<T>, p: T -> bool, i: nat, j: nat)
    requires FirstAt(s, p, i) && FirstAt(s, p, j)
    ensures i == j
  {
  }

  // ----- Bools and tristates outside choices -----

  /** The user has set the symbol, and it is visible. */
  ghost predicate SetByUser(u: User, v: Valuation, s: SymId) {
    v.vis(SymItem(s)) != 0 && TriSet(u, s)
  }

  /** The first default with a true condition gives the smaller of its value and condition. */
  ghost predicate GivenByDefault(ds: seq<Default>, env: Env, t: Tri) {
    exists i: nat :: FirstAt(ds, Active(env), i) && t == Min(Value(ds[i].value, env), Value(ds[i].cond, env))
  }

  /** Something raises the symbol to `t`: the user, up to the visibility; or, if the user has not set
      it, its default, or an imply while its direct dependencies are met; or a select. */
  ghost predicate RaisedTo(k: Kconfig, u: User, v: Valuation, s: SymId, t: Tri) {
    var d, env := k.Def(s), EnvOf(k, u, v);
    || (SetByUser(u, v, s) && t == Min(u.value[s].tri, v.vis(SymItem(s))))
    || (!SetByUser(u, v, s) && GivenByDefault(d.defaults, env, t))
    || (!SetByUser(u, v, s) && Value(d.directDep, env) != 0 && t == Value(d.weakRevDep, env))
    || t == Value(d.revDep, env)
  }

  lemma DefaultTriMeaning(ds: seq<Default>, env: Env, t: Tri)
    ensures GivenByDefault(ds, env, t) <==>
              var d := ActiveDefault(ds, env);
              d.Some? && t == Min(Value(d.value.value, env), Value(d.value.cond, env))
  {
    ActiveDefaultMeaning(ds, env);
    hide ActiveDefault, Value, Min, NoneActive;
    if GivenByDefault(ds, env, t) {
      var i: nat :| FirstAt(ds, Active(env), i) && t == Min(Value(ds[i].value, env), Value(ds[i].cond, env));
      assert !NoneActive(ds, env) by { IsActive(ds, env, i); }
      var j: nat :| FirstAt(ds, Active(env), j) && ActiveDefault(ds, env) == Some(ds[j]);
      FirstIsUnique(ds, Active(env), i, j);
    }
  }

  lemma IsActive(ds: seq<Default>, env: Env, i: nat)
    requires FirstAt(ds, Active(env), i)
    ensures !NoneActive(ds, env)
  {
  }

  /** A bool or tristate is as high as something raises it, and y instead of m if it cannot be m or is
      implied to y. It is written if it is visible or raised. */
  lemma TriMeaning(k: Kconfig, u: User, v: Valuation, s: SymId)
    requires Solves(k, u, v) && k.Def(s).choice.None? && IsBoolTristate(k.Def(s).typ)
    ensures v.tri(s) == 0 <==> !RaisedTo(k, u, v, s, 1) && !RaisedTo(k, u, v, s, 2)
    ensures v.tri(s) == 2 <==>
              || RaisedTo(k, u, v, s, 2)
              || (RaisedTo(k, u, v, s, 1)
                  && (!Triple(k, v, k.Def(s).typ) || Value(k.Def(s).weakRevDep, EnvOf(k, u, v)) == 2))
    ensures StrRule(k, u, v, s).write <==>
              v.vis(SymItem(s)) != 0 || RaisedTo(k, u, v, s, 1) || RaisedTo(k, u, v, s, 2)
  {
    assert v.tri(s) == TriRule(k, u, v, s).val;
    var d, env := k.Def(s), EnvOf(k, u, v);
    forall t: Tri { DefaultTriMeaning(d.defaults, env, t); }
    hide Solves, GivenByDefault, ActiveDefault, Value, EnvOf;
  }

  /** An imply does nothing while the direct dependencies are n. */
  lemma UnmetImplyIsIgnored(k: Kconfig, u: User, v: Valuation, s: SymId)
    requires Solves(k, u, v) && k.Def(s).choice.None? && IsBoolTristate(k.Def(s).typ)
    requires !SetByUser(u, v, s) && NoneActive(k.Def(s).defaults, EnvOf(k, u, v))
    requires Value(k.Def(s).directDep, EnvOf(k, u, v)) == 0 && Value(k.Def(s).revDep, EnvOf(k, u, v)) == 0
    ensures v.tri(s) == 0 && (StrRule(k, u, v, s).write <==> v.vis(SymItem(s)) != 0)
  {
    TriMeaning(k, u, v, s);
    assert forall t: Tri :: !GivenByDefault(k.Def(s).defaults, EnvOf(k, u, v), t) by {
      forall t: Tri { NothingGiven(k.Def(s).defaults, EnvOf(k, u, v), t); }
    }
    hide Solves, GivenByDefault, Value, EnvOf;
  }

  lemma NothingGiven(ds: seq<Default>, env: Env, t: Tri)
    requires NoneActive(ds, env)
    ensures !GivenByDefault(ds, env, t)
  {
  }

  // ----- Strings -----

  /** The first default with a true condition is this operand. */
  ghost predicate DefaultIs(ds: seq<Default>, env: Env, a: Atom) {
    exists i: nat :: FirstAt(ds, Active(env), i) && ds[i].value == Leaf(a)
  }

  /** The text that the defaults give. */
  ghost predicate DefaultTextIs(ds: seq<Default>, env: Env, text: string) {
    (exists a :: DefaultIs(ds, env, a) && HasText(a, env, text)) || (NoneActive(ds, env) && text == "")
  }

  lemma DefaultIsActive(ds: seq<Default>, env: Env, a: Atom)
    requires DefaultIs(ds, env, a)
    ensures ActiveDefault(ds, env).Some? && ActiveDefault(ds, env).value.value == Leaf(a) && !NoneActive(ds, env)
  {
    ActiveDefaultMeaning(ds, env);
    var i: nat :| FirstAt(ds, Active(env), i) && ds[i].value == Leaf(a);
    IsActive(ds, env, i);
    hide ActiveDefault, NoneActive;
    var j: nat :| FirstAt(ds, Active(env), j) && ActiveDefault(ds, env) == Some(ds[j]);
    FirstIsUnique(ds, Active(env), i, j);
  }

  lemma DefaultTextMeaning(ds: seq<Default>, env: Env, text: string)
    requires DefaultTextIs(ds, env, text)
    ensures var d := ActiveDefault(ds, env);
            text == if d.Some? then DefaultText(d.value.value, env) else ""
    ensures ActiveDefault(ds, env).Some? <==> !NoneActive(ds, env)
  {
    ActiveDefaultMeaning(ds, env);
    hide ActiveDefault, NoneActive, DefaultIs;
    if exists a :: DefaultIs(ds, env, a) && HasText(a, env, text) {
      var a :| DefaultIs(ds, env, a) && HasText(a, env, text);
      DefaultIsActive(ds, env, a);
      TextIs(a, env, text);
    }
  }

  /** A visible string has the text the user gave it; else the text of its first default with a true
      condition, which for a constant is the constant; else none. */
  lemma StringMeaning(k: Kconfig, u: User, v: Valuation, s: SymId, text: string)
    requires Solves(k, u, v) && k.Def(s).typ == Str
    requires if v.vis(SymItem(s)) != 0 && TextSet(u, s) then u.value[s].str == text
             else DefaultTextIs(k.Def(s).defaults, EnvOf(k, u, v), text)
    ensures v.str(s) == text
    ensures StrRule(k, u, v, s).write <==>
              !k.Def(s).auto && (v.vis(SymItem(s)) != 0 || !NoneActive(k.Def(s).defaults, EnvOf(k, u, v)))
  {
    assert v.str(s) == StrRule(k, u, v, s).val;
    var ds, env := k.Def(s).defaults, EnvOf(k, u, v);
    if !(v.vis(SymItem(s)) != 0 && TextSet(u, s)) { DefaultTextMeaning(ds, env, text); }
    hide Solves, DefaultTextIs, NoneActive, ActiveDefault, EnvOf, DefaultText;
  }

  /** In particular a string with a constant default. */
  lemma ConstantDefault(k: Kconfig, u: User, v: Valuation, s: SymId, text: string)
    requires Solves(k, u, v) && k.Def(s).typ == Str && !(v.vis(SymItem(s)) != 0 && TextSet(u, s))
    requires DefaultIs(k.Def(s).defaults, EnvOf(k, u, v), Quoted(text))
    ensures v.str(s) == text
  {
    assert HasText(Quoted(text), EnvOf(k, u, v), text);
    StringMeaning(k, u, v, s, text);
  }

  // ----- Numbers -----

  /** The number a text counts as: the one it denotes, or 0. */
  ghost predicate CountsAs(text: string, base: nat, n: int) {
    Denotes(text, base, n) || (n == 0 && forall m :: !Denotes(text, base, m))
  }

  ghost predicate BoundIs(a: Atom, env: Env, base: nat, n: int) {
    exists text :: HasText(a, env, text) && CountsAs(text, base, n)
  }

  /** The first range with a true condition has these bounds. */
  ghost predicate Bounded(rs: seq<Range>, env: Env, base: nat, low: int, high: int) {
    exists i: nat :: FirstAt(rs, ActiveBounds(env), i) && BoundIs(rs[i].low, env, base, low)
                     && BoundIs(rs[i].high, env, base, high)
  }

  ghost predicate Within(rs: seq<Range>, env: Env, base: nat, n: int) {
    NoBoundsActive(rs, env) || exists low, high :: Bounded(rs, env, base, low, high) && low <= n <= high
  }

  lemma CountsAsNumber(text: string, base: nat, n: int)
    requires (base == 10 || base == 16) && CountsAs(text, base, n)
    ensures Number(text, base) == n
  {
    ParseIntMeaning(text, base, n);
    forall m { ParseIntMeaning(text, base, m); }
    hide ParseInt, Denotes;
  }

  lemma BoundIsNumber(a: Atom, env: Env, base: nat, n: int)
    requires (base == 10 || base == 16) && BoundIs(a, env, base, n)
    ensures Number(AtomStr(a, env), base) == n
  {
    hide CountsAs, HasText, Number;
    var text :| HasText(a, env, text) && CountsAs(text, base, n);
    TextIs(a, env, text);
    CountsAsNumber(text, base, n);
  }

  lemma NumberCounts(text: string, base: nat)
    requires base == 10 || base == 16
    ensures CountsAs(text, base, Number(text, base))
  {
    forall m { ParseIntMeaning(text, base, m); }
    hide ParseInt, Denotes;
  }

  lemma BoundExists(a: Atom, env: Env, base: nat)
    requires base == 10 || base == 16
    ensures BoundIs(a, env, base, Number(AtomStr(a, env), base))
  {
    hide CountsAs, Number;
    AtomMeaning(a, env, 0);
    NumberCounts(AtomStr(a, env), base);
  }

  /** The active range has the bounds that the first one with a true condition has. */
  lemma BoundedMeaning(rs: seq<Range>, env: Env, base: nat, low: int, high: int)
    requires base == 10 || base == 16
    ensures Bounded(rs, env, base, low, high) <==>
              var r := ActiveRange(rs, env);
              && r.Some? && low == Number(AtomStr(r.value.low, env), base)
              && high == Number(AtomStr(r.value.high, env), base)
    ensures ActiveRange(rs, env).None? <==> NoBoundsActive(rs, env)
  {
    ActiveRangeMeaning(rs, env);
    hide ActiveRange, BoundIs, Number, AtomStr, NoBoundsActive, ActiveBounds;
    if Bounded(rs, env, base, low, high) {
      var i: nat :| FirstAt(rs, ActiveBounds(env), i) && BoundIs(rs[i].low, env, base, low)
                    && BoundIs(rs[i].high, env, base, high);
      assert !NoBoundsActive(rs, env) by { AreActive(rs, env, i); }
      var j: nat :| FirstAt(rs, ActiveBounds(env), j) && ActiveRange(rs, env) == Some(rs[j]);
      FirstIsUnique(rs, ActiveBounds(env), i, j);
      BoundIsNumber(rs[i].low, env, base, low);
      BoundIsNumber(rs[i].high, env, base, high);
    }
    if ActiveRange(rs, env).Some? {
      var j: nat :| FirstAt(rs, ActiveBounds(env), j) && ActiveRange(rs, env) == Some(rs[j]);
      BoundExists(rs[j].low, env, base);
      BoundExists(rs[j].high, env, base);
    }
  }

  lemma AreActive(rs: seq<Range>, env: Env, i: nat)
    requires FirstAt(rs, ActiveBounds(env), i)
    ensures !NoBoundsActive(rs, env)
  {
  }

  lemma WithinMeaning(rs: seq<Range>, env: Env, base: nat, n: int)
    requires base == 10 || base == 16
    ensures Within(rs, env, base, n) <==> InRange(n, ActiveRange(rs, env), base, env)
  {
    forall low, high { BoundedMeaning(rs, env, base, low, high); }
    BoundedMeaning(rs, env, base, 0, 0);
    hide Bounded, ActiveRange, Number, AtomStr, NoBoundsActive;
    var r := ActiveRange(rs, env);
    if r.Some? {
      assert Bounded(rs, env, base, Number(AtomStr(r.value.low, env), base), Number(AtomStr(r.value.high, env), base));
    }
  }

  ghost function BaseOf(t: Type): nat {
    if t == Int then 10 else 16
  }

  /** The user has set a visible int or hex symbol to a number in its range. */
  ghost predicate NumberSetByUser(k: Kconfig, u: User, v: Valuation, s: SymId) {
    var base := BaseOf(k.Def(s).typ);
    && v.vis(SymItem(s)) != 0 && TextSet(u, s)
    && exists n :: Denotes(u.value[s].str, base, n) && Within(k.Def(s).ranges, EnvOf(k, u, v), base, n)
  }

  lemma TakesEffectMeaning(k: Kconfig, u: User, v: Valuation, s: SymId)
    requires (k.Def(s).typ == Int || k.Def(s).typ == Hex)
    ensures NumberSetByUser(k, u, v, s) <==>
              && v.vis(SymItem(s)) != 0 && u.StrOf(s).Some?
              && NumTakesEffect(k.Def(s), EnvOf(k, u, v), u.StrOf(s).value)
  {
    hide ParseInt, Denotes, Within, InRange, EnvOf;
    var base := TypeToBase(k.Def(s).typ);
    assert base == BaseOf(k.Def(s).typ);
    if v.vis(SymItem(s)) != 0 && TextSet(u, s) {
      var text, rs, env := u.value[s].str, k.Def(s).ranges, EnvOf(k, u, v);
      if NumberSetByUser(k, u, v, s) {
        var n :| Denotes(text, base, n) && Within(rs, env, base, n);
        ParseIntMeaning(text, base, n);
        WithinMeaning(rs, env, base, n);
      }
      if NumTakesEffect(k.Def(s), env, text) {
        var n := ParseInt(text, base).value;
        ParseIntMeaning(text, base, n);
        WithinMeaning(rs, env, base, n);
        assert Denotes(text, base, n) && Within(rs, env, base, n);
      }
    }
  }

  /** A number that the user set, in range, is kept as it was written. */
  lemma UserNumberMeaning(k: Kconfig, u: User, v: Valuation, s: SymId)
    requires Solves(k, u, v) && (k.Def(s).typ == Int || k.Def(s).typ == Hex) && NumberSetByUser(k, u, v, s)
    ensures v.str(s) == u.value[s].str && (StrRule(k, u, v, s).write <==> !k.Def(s).auto)
  {
    assert v.str(s) == StrRule(k, u, v, s).val;
    TakesEffectMeaning(k, u, v, s);
    hide Solves, NumTakesEffect, EnvOf, NumberSetByUser, DefaultNum;
  }

  /** Without one, the text of the defaults is kept if the number it counts as is in range; else the
      value reads as the bound that was passed. */
  lemma DefaultNumberMeaning(k: Kconfig, u: User, v: Valuation, s: SymId, text: string, n: int)
    requires Solves(k, u, v) && (k.Def(s).typ == Int || k.Def(s).typ == Hex) && !NumberSetByUser(k, u, v, s)
    requires DefaultTextIs(k.Def(s).defaults, EnvOf(k, u, v), text) && CountsAs(text, BaseOf(k.Def(s).typ), n)
    ensures var rs, env, base := k.Def(s).ranges, EnvOf(k, u, v), BaseOf(k.Def(s).typ);
            && (Within(rs, env, base, n) ==> v.str(s) == text)
            && (forall low, high | Bounded(rs, env, base, low, high) ::
                  && (n < low ==> Denotes(v.str(s), base, low))
                  && (low <= n && high < n ==> Denotes(v.str(s), base, high)))
    ensures StrRule(k, u, v, s).write <==>
              !k.Def(s).auto && (v.vis(SymItem(s)) != 0 || !NoneActive(k.Def(s).defaults, EnvOf(k, u, v)))
  {
    assert v.str(s) == StrRule(k, u, v, s).val;
    TakesEffectMeaning(k, u, v, s);
    var d, env, base := k.Def(s), EnvOf(k, u, v), TypeToBase(k.Def(s).typ);
    ClampMeaning(d, env, v.vis(SymItem(s)) != 0, text, n);
    hide Solves, NumTakesEffect, EnvOf, NumberSetByUser, DefaultNum, Within, Bounded, Denotes, CountsAs, DefaultTextIs,
         NoneActive;
  }

  lemma ClampMeaning(d: SymDef, env: Env, visible: bool, text: string, n: int)
    requires d.typ == Int || d.typ == Hex
    requires DefaultTextIs(d.defaults, env, text) && CountsAs(text, BaseOf(d.typ), n)
    ensures var base, r := BaseOf(d.typ), DefaultNum(d, env, visible);
            && (Within(d.ranges, env, base, n) ==> r.val == text)
            && (forall low, high | Bounded(d.ranges, env, base, low, high) ::
                  && (n < low ==> Denotes(r.val, base, low))
                  && (low <= n && high < n ==> Denotes(r.val, base, high)))
            && (r.write <==> visible || !NoneActive(d.defaults, env))
  {
    var base := TypeToBase(d.typ);
    DefaultTextMeaning(d.defaults, env, text);
    CountsAsNumber(text, base, n);
    WithinMeaning(d.ranges, env, base, n);
    hide DefaultTextIs, CountsAs, ActiveDefault, ActiveRange, DefaultText, Within, Denotes, NoneActive, Number, Bounded;
    hide ParseInt, FormatInt, AtomStr;
    forall low, high | Bounded(d.ranges, env, base, low, high)
      ensures n < low ==> Denotes(DefaultNum(d, env, visible).val, base, low)
      ensures low <= n && high < n ==> Denotes(DefaultNum(d, env, visible).val, base, high)
    {
      BoundedMeaning(d.ranges, env, base, low, high);
      FormatDenotes(low, d.typ);
      FormatDenotes(high, d.typ);
    }
  }

  lemma FormatDenotes(n: int, t: Type)
    requires t == Int || t == Hex
    ensures Denotes(FormatInt(n, t), TypeToBase(t), n)
  {
    FormatReads(n, t);
    ParseIntMeaning(FormatInt(n, t), TypeToBase(t), n);
  }

  // ----- Other texts -----

  /** A bool or tristate reads n, m or y, and an undefined symbol reads as its name. */
  lemma OtherTexts(k: Kconfig, u: User, v: Valuation, s: SymId)
    requires Solves(k, u, v)
    ensures IsBoolTristate(k.Def(s).typ) ==> v.str(s) == [['n'], ['m'], ['y']][v.tri(s)]
    ensures k.Def(s).typ == Unknown ==> v.str(s) == k.Def(s).name
    ensures !IsBoolTristate(k.Def(s).typ) ==> v.tri(s) == 0
  {
    assert v.str(s) == StrRule(k, u, v, s).val && v.tri(s) == TriRule(k, u, v, s).val;
  }

  // ----- What can be set -----

  /** The values that set_value accepts: n and y for a bool, n, m and y for a tristate, any text for a
      string, and a number for an int or, unless it is negative, a hex symbol. */
  lemma AcceptedValues(t: Type, x: UserValue)
    ensures ValidFor(t, x) <==>
              match x
              case UserTri(v) => t == Tristate || (t == Bool && (v == 0 || v == 2))
              case UserStr(text) =>
                || t == Str
                || (t == Int && exists n :: Denotes(text, 10, n))
                || (t == Hex && exists n :: n >= 0 && Denotes(text, 16, n))
  {
    hide ParseInt, Denotes;
    if x.UserStr? {
      forall n { ParseIntMeaning(x.str, 10, n); }
      forall n { ParseIntMeaning(x.str, 16, n); }
      if ParseInt(x.str, 10).Some? { ParseIntMeaning(x.str, 10, ParseInt(x.str, 10).value); }
      if ParseInt(x.str, 16).Some? { ParseIntMeaning(x.str, 16, ParseInt(x.str, 16).value); }
    }
  }
}
