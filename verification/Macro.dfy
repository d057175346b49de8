/**
  Expansion of preprocessor macros. The specification reads the text once, from left to right,
  and never looks at an expansion again. The class is the code: it splices each expansion into
  the string it is scanning, carries indices, and counts the expansions in progress of each
  variable. Functions and environment variables are given by the table.
 */
module Macro {
  import opened Expressions

  /** A function's least and greatest number of arguments, and its result or its error. */
  datatype Function = Function(least: nat, most: Option<nat>, call: seq<string> -> Option<string>)

  datatype Table = Table(
    variables: map<string, string>,
    functions: map<string, Function>,
    environment: map<string, string>)

  type Counts = map<string, nat>

  /** A variable may call itself this often with arguments before it counts as stuck. */
  const DEEPEST := 100

  ghost predicate Counting(t: Table, counts: Counts) {
    counts.Keys == t.variables.Keys
  }

  function NoneYet(t: Table): Counts {
    map v | v in t.variables :: 0
  }

  /** The expansions still allowed: those numbered from the current count up to the deepest. */
  ghost function Budget(t: Table, counts: Counts): set<(string, nat)>
    requires Counting(t, counts)
  {
    set v, k | v in t.variables && 0 <= k <= DEEPEST && counts[v] <= k :: (v, k)
  }

  lemma BudgetFalls(t: Table, counts: Counts, v: string)
    requires Counting(t, counts) && v in t.variables && counts[v] <= DEEPEST
    ensures Budget(t, counts[v := counts[v] + 1]) < Budget(t, counts)
  {
    assert (v, counts[v]) in Budget(t, counts);
    assert (v, counts[v]) !in Budget(t, counts[v := counts[v] + 1]);
  }

  // ----- What expansion means -----

  predicate Opens(text: string) {
    |text| >= 2 && text[0] == '$' && text[1] == '('
  }

  /** $(1), $(2) and so on; negative indices count from the end. */
  function Argument(args: seq<string>, index: string): Option<string> {
    match ParseInt(index, 10)
    case None => None
    case Some(k) =>
      if 0 <= k < |args| then Some(args[k])
      else if -|args| <= k < 0 then Some(args[|args| + k])
      else None
  }

  predicate MayExpand(count: nat, args: seq<string>) {
    if |args| == 1 then count == 0 else count <= DEEPEST
  }

  function CallFunction(f: Function, args: seq<string>): Option<string>
    requires args != []
  {
    if |args| - 1 < f.least || (f.most.Some? && |args| - 1 > f.most.value) then None else f.call(args)
  }

  function Prefixed(prefix: string, rest: Option<string>): Option<string> {
    if rest.None? then None else Some(prefix + rest.value)
  }

  /** The text with all macros expanded, or an error. */
  ghost function Whole(t: Table, counts: Counts, args: seq<string>, text: string): Option<string>
    requires Counting(t, counts)
    decreases Budget(t, counts), |text|, 3
  {
    if text == [] then Some("")
    else if !Opens(text) then
      Prefixed([text[0]], Whole(t, counts, args, text[1..]))
    else
      var m := Call(t, counts, args, text[2..]);
      if m.None? then None else Prefixed(m.value.0, Whole(t, counts, args, m.value.1))
  }

  /** The value of the macro whose inside starts `text`, and the text after it. */
  ghost function Call(t: Table, counts: Counts, args: seq<string>, text: string): (r: Option<(string, string)>)
    requires Counting(t, counts)
    ensures r.Some? ==> |r.value.1| < |text|
    decreases Budget(t, counts), |text|, 2
  {
    var a := Arguments(t, counts, args, text, "", [], 0);
    if a.None? then None
    else
      var value := MacroValue(t, counts, args, a.value.0);
      if value.None? then None else Some((value.value, a.value.1))
  }

  /** The arguments up to the closing parenthesis, with the macros in them expanded. */
  ghost function Arguments(t: Table, counts: Counts, args: seq<string>, text: string,
                           current: string, done: seq<string>, nesting: nat): (r: Option<(seq<string>, string)>)
    requires Counting(t, counts)
    ensures r.Some? ==> r.value.0 != [] && |r.value.1| < |text|
    decreases Budget(t, counts), |text|, 1
  {
    if text == [] then None
    else if Opens(text) then
      var m := Call(t, counts, args, text[2..]);
      if m.None? then None else Arguments(t, counts, args, m.value.1, current + m.value.0, done, nesting)
    else
      var c, rest := text[0], text[1..];
      if c == ')' && nesting == 0 then Some((done + [current], rest))
      else if c == ',' && nesting == 0 then Arguments(t, counts, args, rest, "", done + [current], 0)
      else
        var deeper := if c == '(' then nesting + 1 else if c == ')' then nesting - 1 else nesting;
        Arguments(t, counts, args, rest, current + [c], done, deeper)
  }

  ghost function MacroValue(t: Table, counts: Counts, args: seq<string>, called: seq<string>): Option<string>
    requires Counting(t, counts) && called != []
    decreases Budget(t, counts), 0, 1
  {
    if Argument(args, called[0]).Some? then Argument(args, called[0]) else FnVal(t, counts, called)
  }

  /** A variable, a function or an environment variable, in that order; otherwise nothing. */
  ghost function FnVal(t: Table, counts: Counts, args: seq<string>): Option<string>
    requires Counting(t, counts) && args != []
    decreases Budget(t, counts), 0, 0
  {
    var fn := args[0];
    if fn in t.variables then
      if !MayExpand(counts[fn], args) then None
      else
        BudgetFalls(t, counts, fn);
        Whole(t, counts[fn := counts[fn] + 1], args, t.variables[fn])
    else if fn in t.functions then CallFunction(t.functions[fn], args)
    else if fn in t.environment then Some(t.environment[fn])
    else Some("")
  }

  // ----- The code -----

  predicate Special(s: string, i: nat)
    requires i < |s|
  {
    s[i] in {'(', ')', ','} || Opens(s[i..])
  }

  /** The first special character or "$(" from `i` on, or the end of the string. */
  method FindSpecial(s: string, i: nat) returns (k: nat)
    requires i <= |s|
    ensures i <= k <= |s| && (k < |s| ==> Special(s, k))
    ensures forall j :: i <= j < k ==> !Special(s, j)
  {
    k := i;
    while k < |s| && !Special(s, k)
      invariant i <= k <= |s| && forall j :: i <= j < k ==> !Special(s, j)
    {
      k := k + 1;
    }
  }

  method FindMacro(s: string, i: nat) returns (k: nat)
    requires i <= |s|
    ensures i <= k <= |s| && (k < |s| ==> Opens(s[k..]))
    ensures forall j :: i <= j < k ==> !Opens(s[j..])
  {
    k := i;
    while k < |s| && !Opens(s[k..])
      invariant i <= k <= |s| && forall j :: i <= j < k ==> !Opens(s[j..])
    {
      k := k + 1;
    }
  }

  /** Text without a macro expands to itself. */
  lemma {:induction false} WholeSkips(t: Table, counts: Counts, args: seq<string>, s: string, i: nat, k: nat)
    requires Counting(t, counts) && i <= k <= |s| && forall j :: i <= j < k ==> !Opens(s[j..])
    ensures Whole(t, counts, args, s[i..]) == Prefixed(s[i..k], Whole(t, counts, args, s[k..]))
    decreases k - i
  {
    if i < k {
      WholeSkips(t, counts, args, s, i + 1, k);
      assert !Opens(s[i..]) && s[i..][0] == s[i] && s[i..][1..] == s[i + 1..];
      assert s[i..k] == [s[i]] + s[i + 1..k];
      PrefixedTwice([s[i]], s[i + 1..k], Whole(t, counts, args, s[k..]));
    } else {
      assert s[i..k] == "";
      PrefixedNone(Whole(t, counts, args, s[k..]));
    }
  }

  /** Ordinary characters join the current argument. */
  lemma {:induction false} ArgumentsSkip(t: Table, counts: Counts, args: seq<string>, s: string, start: nat, i: nat,
                                         k: nat, done: seq<string>, nesting: nat)
    requires Counting(t, counts) && start <= i <= k <= |s| && forall j :: i <= j < k ==> !Special(s, j)
    ensures Arguments(t, counts, args, s[i..], s[start..i], done, nesting)
         == Arguments(t, counts, args, s[k..], s[start..k], done, nesting)
    decreases k - i
  {
    if i < k {
      assert !Special(s, i);
      assert s[i..][1..] == s[i + 1..] && s[start..i] + [s[i]] == s[start..i + 1];
      ArgumentsSkip(t, counts, args, s, start, i + 1, k, done, nesting);
    }
  }

  class Expander {
    const table: Table
    var counts: Counts

    ghost predicate Valid()
      reads this
    {
      Counting(table, counts)
    }

    constructor (table: Table)
      ensures Valid() && this.table == table && counts == NoneYet(table)
    {
      this.table := table;
      counts := NoneYet(table);
    }

    /** _expand_whole */
    method ExpandWhole(text: string, args: seq<string>) returns (r: Option<string>)
      requires Valid()
      modifies this
      ensures Valid() && r == Whole(table, old(counts), args, text)
      ensures r.Some? ==> counts == old(counts)
      decreases Budget(table, counts), |text|, 3
    {
      hide Whole, Call, Budget;
      var s, i: nat := text, 0;
      ghost var start := Whole(table, counts, args, text);
      assert text[0..] == text;
      PrefixedNone(start);
      while true
        invariant i <= |s| && |s[i..]| <= |text|
        invariant counts == old(counts)
        invariant start == Prefixed(s[..i], Whole(table, counts, args, s[i..]))
        decreases |s| - i
      {
        var k := FindMacro(s, i);
        WholeSkips(table, counts, args, s, i, k);
        PrefixedTwice(s[..i], s[i..k], Whole(table, counts, args, s[k..]));
        assert s[..i] + s[i..k] == s[..k];
        if k == |s| {
          WholeEnds(table, counts, args);
          assert s[k..] == "" && s[..k] + "" == s;
          return Some(s);
        }
        WholeCalls(table, counts, args, s[k..]);
        assert s[k..][2..] == s[k + 2..];
        var m := ExpandMacro(s, k, args);
        if m.None? {
          return None;
        }
        ghost var call := Call(table, counts, args, s[k + 2..]).value;
        PrefixedTwice(s[..k], call.0, Whole(table, counts, args, call.1));
        s, i := m.value.0, m.value.1;
        assert s[..i] == m.value.0[..i] && s[i..] == call.1;
      }
    }

    /** _expand_macro: the new string, and the index after the expansion in it. */
    method ExpandMacro(text: string, at: nat, args: seq<string>) returns (r: Option<(string, nat)>)
      requires Valid() && at <= |text| && Opens(text[at..])
      modifies this
      ensures Valid()
      ensures var m := Call(table, old(counts), args, text[at + 2..]);
              r == if m.None? then None else Some((text[..at] + m.value.0 + m.value.1, at + |m.value.0|))
      ensures r.Some? ==> counts == old(counts)
      decreases Budget(table, counts), |text| - at - 2, 2
    {
      hide Whole, Call, Budget, Arguments;
      var res := text[..at];
      var s, i := text, at + 2;
      var argStart, newArgs, nesting := i, [], 0;
      assert s[argStart..i] == "";
      while true
        invariant at + 2 <= argStart <= i <= |s| && |s| - i <= |text| - at - 2
        invariant counts == old(counts)
        invariant Arguments(table, counts, args, text[at + 2..], "", [], 0)
               == Arguments(table, counts, args, s[i..], s[argStart..i], newArgs, nesting)
        decreases |s| - i
      {
        var k := FindSpecial(s, i);
        ArgumentsSkip(table, counts, args, s, argStart, i, k, newArgs, nesting);
        ArgumentsStep(table, counts, args, s[k..], s[argStart..k], newArgs, nesting);
        CallMeans(table, counts, args, text[at + 2..]);
        if k == |s| {
          return None;
        }
        if Opens(s[k..]) {
          assert s[k..][2..] == s[k + 2..];
          var m := ExpandMacro(s, k, args);
          if m.None? {
            return None;
          }
          ghost var s' := m.value.0;
          assert s'[argStart..m.value.1] == s[argStart..k] + s'[k..m.value.1];
          s, i := m.value.0, m.value.1;
        } else {
          assert s[k..][1..] == s[k + 1..];
          i := k + 1;
          if s[k] == '(' {
            nesting := nesting + 1;
            assert s[argStart..k] + [s[k]] == s[argStart..i];
          } else if nesting > 0 {
            nesting := if s[k] == ')' then nesting - 1 else nesting;
            assert s[argStart..k] + [s[k]] == s[argStart..i];
          } else {
            newArgs := newArgs + [s[argStart..k]];
            if s[k] == ')' {
              var value := Argument(args, newArgs[0]);
              if value.None? {
                value := FunctionValue(newArgs);
                if value.None? {
                  return None;
                }
              }
              return Some((res + value.value + s[i..], |res + value.value|));
            }
            argStart := i;
            assert s[argStart..i] == "";
          }
        }
      }
    }

    /** _fn_val */
    method FunctionValue(args: seq<string>) returns (r: Option<string>)
      requires Valid() && args != []
      modifies this
      ensures Valid() && r == FnVal(table, old(counts), args)
      ensures r.Some? ==> counts == old(counts)
      decreases Budget(table, counts), 0, 0
    {
      hide Whole, Budget;
      var fn := args[0];
      if fn in table.variables {
        if !MayExpand(counts[fn], args) {
          return None;
        }
        BudgetFalls(table, counts, fn);
        counts := counts[fn := counts[fn] + 1];
        r := ExpandWhole(table.variables[fn], args);
        if r.Some? {
          counts := counts[fn := counts[fn] - 1];
          assert counts == old(counts);
        }
      } else if fn in table.functions {
        r := CallFunction(table.functions[fn], args);
      } else if fn in table.environment {
        r := Some(table.environment[fn]);
      } else {
        r := Some("");
      }
    }
  }

  lemma PrefixedNone(rest: Option<string>)
    ensures Prefixed("", rest) == rest
  {
    assert rest.Some? ==> "" + rest.value == rest.value;
  }

  lemma PrefixedTwice(a: string, b: string, rest: Option<string>)
    ensures Prefixed(a, Prefixed(b, rest)) == Prefixed(a + b, rest)
  {
    assert rest.Some? ==> a + (b + rest.value) == a + b + rest.value;
  }

  lemma WholeEnds(t: Table, counts: Counts, args: seq<string>)
    requires Counting(t, counts)
    ensures Whole(t, counts, args, "") == Some("")
  {
  }

  lemma WholeCalls(t: Table, counts: Counts, args: seq<string>, text: string)
    requires Counting(t, counts) && Opens(text)
    ensures var m := Call(t, counts, args, text[2..]);
            Whole(t, counts, args, text) == (
              if m.None? then None else Prefixed(m.value.0, Whole(t, counts, args, m.value.1)))
  {
  }

  lemma CallMeans(t: Table, counts: Counts, args: seq<string>, text: string)
    requires Counting(t, counts)
    ensures var a := Arguments(t, counts, args, text, "", [], 0);
            Call(t, counts, args, text) == (
              if a.None? then None
              else
                var value := MacroValue(t, counts, args, a.value.0);
                if value.None? then None else Some((value.value, a.value.1)))
  {
  }

  lemma ArgumentsStep(t: Table, counts: Counts, args: seq<string>, text: string,
                      current: string, done: seq<string>, nesting: nat)
    requires Counting(t, counts)
    ensures var r := Arguments(t, counts, args, text, current, done, nesting);
            if text == [] then r == None
            else if Opens(text) then
              var m := Call(t, counts, args, text[2..]);
              r == if m.None? then None else Arguments(t, counts, args, m.value.1, current + m.value.0, done, nesting)
            else if text[0] == ')' && nesting == 0 then r == Some((done + [current], text[1..]))
            else if text[0] == ',' && nesting == 0 then
              r == Arguments(t, counts, args, text[1..], "", done + [current], 0)
            else
              var deeper := if text[0] == '(' then nesting + 1 else if text[0] == ')' then nesting - 1 else nesting;
              r == Arguments(t, counts, args, text[1..], current + [text[0]], done, deeper)
  {
  }

  // ----- The counters only ever reject -----

  ghost predicate Below(t: Table, fewer: Counts, counts: Counts) {
    Counting(t, fewer) && Counting(t, counts) && forall v <- t.variables :: fewer[v] <= counts[v]
  }

  /** `b` is what `a` is, unless `a` is an error. */
  predicate Refines<T(==)>(a: Option<T>, b: Option<T>) {
    a.Some? ==> a == b
  }

  lemma {:induction false} WholeRefines(t: Table, fewer: Counts, counts: Counts, args: seq<string>, text: string)
    requires Below(t, fewer, counts)
    ensures Refines(Whole(t, counts, args, text), Whole(t, fewer, args, text))
    decreases Budget(t, counts), |text|, 3
  {
    if text != [] {
      if Opens(text) {
        CallRefines(t, fewer, counts, args, text[2..]);
        var m := Call(t, counts, args, text[2..]);
        if m.Some? {
          WholeRefines(t, fewer, counts, args, m.value.1);
        }
      } else {
        WholeRefines(t, fewer, counts, args, text[1..]);
      }
    }
  }

  lemma {:induction false} CallRefines(t: Table, fewer: Counts, counts: Counts, args: seq<string>, text: string)
    requires Below(t, fewer, counts)
    ensures Refines(Call(t, counts, args, text), Call(t, fewer, args, text))
    decreases Budget(t, counts), |text|, 2
  {
    hide Arguments, Whole, Budget;
    ArgumentsRefine(t, fewer, counts, args, text, "", [], 0);
    var a := Arguments(t, counts, args, text, "", [], 0);
    if a.Some? {
      FnValRefines(t, fewer, counts, a.value.0);
    }
  }

  lemma {:induction false} ArgumentsRefine(t: Table, fewer: Counts, counts: Counts, args: seq<string>, text: string,
                                           current: string, done: seq<string>, nesting: nat)
    requires Below(t, fewer, counts)
    ensures Refines(Arguments(t, counts, args, text, current, done, nesting),
                    Arguments(t, fewer, args, text, current, done, nesting))
    decreases Budget(t, counts), |text|, 1
  {
    ArgumentsStep(t, counts, args, text, current, done, nesting);
    ArgumentsStep(t, fewer, args, text, current, done, nesting);
    hide Arguments, Whole, Call, Budget;
    if text != [] {
      if Opens(text) {
        CallRefines(t, fewer, counts, args, text[2..]);
        var m := Call(t, counts, args, text[2..]);
        if m.Some? {
          ArgumentsRefine(t, fewer, counts, args, m.value.1, current + m.value.0, done, nesting);
        }
      } else if text[0] == ',' && nesting == 0 {
        ArgumentsRefine(t, fewer, counts, args, text[1..], "", done + [current], 0);
      } else if text[0] != ')' || nesting > 0 {
        var deeper := if text[0] == '(' then nesting + 1 else if text[0] == ')' then nesting - 1 else nesting;
        ArgumentsRefine(t, fewer, counts, args, text[1..], current + [text[0]], done, deeper);
      }
    }
  }

  lemma {:induction false} FnValRefines(t: Table, fewer: Counts, counts: Counts, args: seq<string>)
    requires Below(t, fewer, counts) && args != []
    ensures Refines(FnVal(t, counts, args), FnVal(t, fewer, args))
    decreases Budget(t, counts), 0, 0
  {
    hide Whole, Budget;
    var fn := args[0];
    if fn in t.variables && MayExpand(counts[fn], args) {
      BudgetFalls(t, counts, fn);
      WholeRefines(t, fewer[fn := fewer[fn] + 1], counts[fn := counts[fn] + 1], args, t.variables[fn]);
    }
  }

  /** Wherever it happens, an expansion that succeeds has the value it has on its own. */
  lemma ExpansionIsContextFree(t: Table, counts: Counts, args: seq<string>, text: string)
    requires Counting(t, counts)
    ensures Refines(Whole(t, counts, args, text), Whole(t, NoneYet(t), args, text))
  {
    WholeRefines(t, NoneYet(t), counts, args, text);
  }
}
