/**
 Incremental builds: `sync_deps` touches the files of the symbols whose value differs from
 the one that the previous run left in auto.conf.
 */
module SyncDeps {
  import opened Expressions
  import opened Config
  import opened Evaluation
  import opened ConfigText
  import opened Assignments
  import opened ConfigFile
  import opened Numbers

  // ----- auto.conf -----

  /** n values do not get written to auto.conf. */
  function NotN(k: Kconfig, v: Valuation): SymId -> bool {
    (s: SymId) => !(IsBoolTristate(k.Def(s).typ) && v.tri(s) == 0)
  }

  /** `_old_vals_contents` */
  function AutoConf(k: Kconfig, u: User, v: Valuation, order: seq<SymId>): seq<Line> {
    WrittenLines(k, u, v, NotN(k, v), order)
  }

  /** The value in one line of auto.conf. */
  function OldValue(k: Kconfig, s: SymId, val: string): Option<string> {
    if k.Def(s).typ != Str then Some(val)
    else match Literal(val)
      case None => None
      case Some(body) => Some(Unescape(body))
  }

  /** `known` is the names in the symbol table; a line for any other name has no old value. */
  function WithLine(k: Kconfig, known: set<SymId>, prev: map<SymId, string>, l: Line): map<SymId, string> {
    if l.SetLine? && l.sym in known && OldValue(k, l.sym, l.val).Some?
    then prev[l.sym := OldValue(k, l.sym, l.val).value] else prev
  }

  function OldValues(k: Kconfig, known: set<SymId>, ls: seq<Line>): map<SymId, string> {
    if ls == [] then map[] else WithLine(k, known, OldValues(k, known, ls[..|ls| - 1]), ls[|ls| - 1])
  }

  /** The names that no longer exist. */
  function Gone(known: set<SymId>, ls: seq<Line>): set<SymId> {
    set l | l in ls && l.SetLine? && l.sym !in known :: l.sym
  }

  /** `_load_old_vals`; the files of names that no longer exist are touched right away. */
  method LoadOldValues(k: Kconfig, known: set<SymId>, ls: seq<Line>)
    returns (prev: map<SymId, string>, touched: set<SymId>)
    ensures prev == OldValues(k, known, ls) && touched == Gone(known, ls)
  {
    hide OldValue;
    prev, touched := map[], {};
    for i := 0 to |ls|
      invariant prev == OldValues(k, known, ls[..i]) && touched == Gone(known, ls[..i])
    {
      assert ls[..i + 1][..i] == ls[..i] && ls[..i + 1] == ls[..i] + [ls[i]];
      if ls[i].SetLine? && ls[i].sym !in known {
        touched := touched + {ls[i].sym};
      }
      prev := WithLine(k, known, prev, ls[i]);
    }
    assert ls[..|ls|] == ls;
  }

  /** What the build sees of a symbol: its value, unless it is n or not written. */
  function Visible(k: Kconfig, u: User, v: Valuation, s: SymId): Option<string> {
    if NotN(k, v)(s) && StrRule(k, u, v, s).write then Some(v.str(s)) else None
  }

  lemma AutoConfLine(k: Kconfig, u: User, v: Valuation, s: SymId)
    requires Solves(k, u, v) && Visible(k, u, v, s).Some?
    ensures ConfigLine(k, u, v, s).Some? && ConfigLine(k, u, v, s).value.SetLine?
            && ConfigLine(k, u, v, s).value.sym == s
    ensures OldValue(k, s, ConfigLine(k, u, v, s).value.val) == Visible(k, u, v, s)
  {
    assert v.str(s) == StrRule(k, u, v, s).val;
    if IsBoolTristate(k.Def(s).typ) {
      assert TriStr(v.tri(s))[0] != 'n';
    } else if k.Def(s).typ == Str {
      LiteralRoundTrip(v.str(s));
    }
  }

  /** Reading auto.conf back gives what the build saw. */
  lemma {:induction false} AutoConfRoundTrip(k: Kconfig, u: User, v: Valuation, known: set<SymId>, order: seq<SymId>,
                                             s: SymId)
    requires Solves(k, u, v) && forall t <- order :: t in known
    ensures var prev := OldValues(k, known, AutoConf(k, u, v, order));
            (if s in prev then Some(prev[s]) else None) == if s in order then Visible(k, u, v, s) else None
  {
    hide Solves, ConfigLine, StrRule, OldValue;
    if order != [] {
      var init, last := order[..|order| - 1], order[|order| - 1];
      var before, all := AutoConf(k, u, v, init), AutoConf(k, u, v, order);
      assert order == init + [last];
      AutoConfRoundTrip(k, u, v, known, init, s);
      if NotN(k, v)(last) && ConfigLine(k, u, v, last).Some? {
        assert all == before + [ConfigLine(k, u, v, last).value];
        assert all[..|all| - 1] == before;
        LineIsVisible(k, u, v, last);
        AutoConfLine(k, u, v, last);
      } else {
        assert all == before;
        NoLineIsInvisible(k, u, v, last);
      }
    }
  }

  lemma LineIsVisible(k: Kconfig, u: User, v: Valuation, s: SymId)
    requires NotN(k, v)(s) && ConfigLine(k, u, v, s).Some?
    ensures Visible(k, u, v, s).Some?
  {
    hide StrRule;
  }

  lemma NoLineIsInvisible(k: Kconfig, u: User, v: Valuation, s: SymId)
    requires !(NotN(k, v)(s) && ConfigLine(k, u, v, s).Some?)
    ensures Visible(k, u, v, s).None?
  {
    hide StrRule;
  }

  // ----- Touched files -----

  /** Does `sync_deps` touch the file of `s`? */
  predicate Touches(k: Kconfig, u: User, v: Valuation, prev: map<SymId, string>, s: SymId) {
    if StrRule(k, u, v, s).write then
      && !(s !in prev && IsBoolTristate(k.Def(s).typ) && v.str(s) == "n")
      && !(s in prev && v.str(s) == prev[s])
    else s in prev
  }

  /** `sync_deps` */
  method SyncDeps(k: Kconfig, known: set<SymId>, u: User, v: Valuation, autoConf: seq<Line>, order: seq<SymId>)
    returns (touched: set<SymId>)
    ensures forall s :: s in touched <==>
              s in Gone(known, autoConf) || (s in order && Touches(k, u, v, OldValues(k, known, autoConf), s))
  {
    var prev, gone := LoadOldValues(k, known, autoConf);
    touched := gone;
    for i := 0 to |order|
      invariant forall s :: s in touched <==> s in gone || (s in order[..i] && Touches(k, u, v, prev, s))
    {
      if Touches(k, u, v, prev, order[i]) { touched := touched + {order[i]}; }
      assert order[..i + 1] == order[..i] + [order[i]];
    }
    assert order[..|order|] == order;
  }

  lemma NIsInvisible(k: Kconfig, u: User, v: Valuation, s: SymId)
    requires Solves(k, u, v) && StrRule(k, u, v, s).write
    ensures Visible(k, u, v, s).None? <==> IsBoolTristate(k.Def(s).typ) && v.str(s) == "n"
  {
    assert v.str(s) == StrRule(k, u, v, s).val;
    if IsBoolTristate(k.Def(s).typ) { assert TriStr(v.tri(s))[0] == 'n' <==> v.tri(s) == 0; }
  }

  /** A symbol is touched exactly if what the build sees of it has changed. */
  lemma TouchedIffChanged(k: Kconfig, known: set<SymId>, u: User, v: Valuation, u': User, v': Valuation,
                          order: seq<SymId>, s: SymId)
    requires Solves(k, u, v) && Solves(k, u', v') && s in order && forall t <- order :: t in known
    ensures Touches(k, u', v', OldValues(k, known, AutoConf(k, u, v, order)), s) <==>
              Visible(k, u, v, s) != Visible(k, u', v', s)
  {
    hide Solves, StrRule;
    AutoConfRoundTrip(k, u, v, known, order, s);
    if StrRule(k, u', v', s).write { NIsInvisible(k, u', v', s); }
    if StrRule(k, u, v, s).write { NIsInvisible(k, u, v, s); }
    hide AutoConf, OldValues;
    var prev := OldValues(k, known, AutoConf(k, u, v, order));
    assert s in prev && IsBoolTristate(k.Def(s).typ) ==> prev[s] != "n";
  }

  /** A symbol that the build saw and that the next run does not know any more is touched then. */
  lemma {:induction false} RemovedIsTouched(k: Kconfig, u: User, v: Valuation, order: seq<SymId>, known: set<SymId>,
                                            s: SymId)
    requires Solves(k, u, v) && s in order && s !in known
    ensures s in Gone(known, AutoConf(k, u, v, order)) <==> Visible(k, u, v, s).Some?
  {
    hide Solves, StrRule, OldValue, Visible;
    AutoConfNames(k, u, v, order, s);
  }

  lemma {:induction false} AutoConfNames(k: Kconfig, u: User, v: Valuation, order: seq<SymId>, s: SymId)
    requires Solves(k, u, v)
    ensures (exists l <- AutoConf(k, u, v, order) :: l.SetLine? && l.sym == s) <==>
              s in order && Visible(k, u, v, s).Some?
  {
    hide Solves, ConfigLine, StrRule, OldValue;
    if order != [] {
      var init, last := order[..|order| - 1], order[|order| - 1];
      var before, all := AutoConf(k, u, v, init), AutoConf(k, u, v, order);
      assert order == init + [last];
      AutoConfNames(k, u, v, init, s);
      if NotN(k, v)(last) && ConfigLine(k, u, v, last).Some? {
        assert all == before + [ConfigLine(k, u, v, last).value];
        LineIsVisible(k, u, v, last);
        AutoConfLine(k, u, v, last);
      } else {
        assert all == before;
        NoLineIsInvisible(k, u, v, last);
      }
    }
  }

  // ----- The generated header -----

  function MacroText(name: string, body: string): string {
    "#define " + name + " " + body + "\n"
  }

  /** The text that `_autoconf_contents` generates for a symbol. */
  function HeaderText(k: Kconfig, u: User, v: Valuation, s: SymId, prefix: string): string {
    var t, name, val := k.Def(s).typ, prefix + k.Def(s).name, v.str(s);
    if !StrRule(k, u, v, s).write then ""
    else if IsBoolTristate(t) then
      if val == "y" then MacroText(name, "1")
      else if val == "m" then MacroText(name + "_MODULE", "1")
      else ""
    else if t == Str then MacroText(name, Quote(val))
    else MacroText(name, if t == Hex && !HasHexPrefix(val) then "0x" + val else val)
  }

  /** A macro definition. */
  ghost predicate DefinesAs(text: string, name: string, body: string) {
    text == "#define " + name + " " + body + "\n"
  }

  /** `body` is the number that `val` is in base 16, as C writes it. */
  ghost predicate SameHex(val: string, body: string) {
    forall n: nat | Unsigned(val, 16, n) :: Unsigned(body, 0, n)
  }

  ghost predicate ShownInHeader(t: Type, tri: Tri, text: string, name: string, val: string) {
    match t
    case Bool => DefinesAs(text, if tri == 1 then name + "_MODULE" else name, "1")
    case Tristate => DefinesAs(text, if tri == 1 then name + "_MODULE" else name, "1")
    case Str => DefinesAs(text, name, Quote(val))
    case Hex => exists body :: DefinesAs(text, name, body) && SameHex(val, body)
    case _ => DefinesAs(text, name, val)
  }

  /** What a C compiler sees is what the build sees: y as 1, m as 1 under another name, a string as its
      literal, and a number as itself, a hex number with its prefix. Anything else is not defined. */
  lemma HeaderMeaning(k: Kconfig, u: User, v: Valuation, s: SymId, prefix: string)
    requires Solves(k, u, v) && k.Def(s).typ != Unknown
    ensures var text, seen := HeaderText(k, u, v, s, prefix), Visible(k, u, v, s);
            if seen.None? then text == ""
            else ShownInHeader(k.Def(s).typ, v.tri(s), text, prefix + k.Def(s).name, seen.value)
  {
    var val, name := v.str(s), prefix + k.Def(s).name;
    assert IsBoolTristate(k.Def(s).typ) ==> val == TriStr(v.tri(s)) by {
      assert v.str(s) == StrRule(k, u, v, s).val;
    }
    hide Solves, StrRule, SameHex, Quote, MacroText, DefinesAs;
    forall name, body ensures DefinesAs(MacroText(name, body), name, body) { MacroIsDefined(name, body); }
    if k.Def(s).typ == Hex { HexIsSame(val); }
    assert TriStr(0) != TriStr(1) && TriStr(1) != TriStr(2) && TriStr(0) != TriStr(2);
  }

  lemma MacroIsDefined(name: string, body: string)
    ensures DefinesAs(MacroText(name, body), name, body)
  {
  }

  lemma HexIsSame(val: string)
    ensures SameHex(val, if HasHexPrefix(val) then val else "0x" + val)
  {
    forall n: nat | Unsigned(val, 16, n) ensures Unsigned(if HasHexPrefix(val) then val else "0x" + val, 0, n) {
      PrefixKeepsNumber(val, n);
    }
  }

  lemma PrefixKeepsNumber(val: string, n: nat)
    requires Unsigned(val, 16, n)
    ensures Unsigned(if HasHexPrefix(val) then val else "0x" + val, 0, n)
  {
    if HasHexPrefix(val) {
      NoNumeral(val, 16, 1);
    } else {
      assert ("0x" + val)[2..] == val;
    }
  }

  lemma HeaderShowsVisible(k: Kconfig, u: User, v: Valuation, u': User, v': Valuation, s: SymId, prefix: string)
    requires Solves(k, u, v) && Solves(k, u', v') && Visible(k, u, v, s) == Visible(k, u', v', s)
    ensures HeaderText(k, u, v, s, prefix) == HeaderText(k, u', v', s, prefix)
  {
    hide Solves, StrRule;
    if StrRule(k, u', v', s).write { NIsInvisible(k, u', v', s); }
    if StrRule(k, u, v, s).write { NIsInvisible(k, u, v, s); }
  }

  /** Across two runs, every symbol whose generated header text changed is touched. */
  lemma ChangedHeaderIsTouched(k: Kconfig, known: set<SymId>, u: User, v: Valuation, u': User, v': Valuation,
                               order: seq<SymId>, s: SymId, prefix: string)
    requires Solves(k, u, v) && Solves(k, u', v') && s in order && forall t <- order :: t in known
    requires HeaderText(k, u, v, s, prefix) != HeaderText(k, u', v', s, prefix)
    ensures Touches(k, u', v', OldValues(k, known, AutoConf(k, u, v, order)), s)
  {
    hide Solves, StrRule, HeaderText, Touches, Visible;
    TouchedIffChanged(k, known, u, v, u', v', order, s);
    if Visible(k, u, v, s) == Visible(k, u', v', s) { HeaderShowsVisible(k, u, v, u', v', s, prefix); }
  }
}
