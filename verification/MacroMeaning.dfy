/**
 What the expansion of a text with macros in it is, told by the structure of the text.
 */
module MacroMeaning {
  import opened Expressions
  import opened Macro
  import Numbers

  /** A text is plain characters and macros; a macro is a list of texts. */
  datatype Text = End | Plain(chars: string, rest: Text) | Macro(inside: Inside, rest: Text)
  datatype Inside = Last(text: Text) | Next(text: Text, others: Inside)

  function Print(x: Text): string {
    match x
    case End => ""
    case Plain(chars, rest) => chars + Print(rest)
    case Macro(inside, rest) => "$(" + (PrintInside(inside) + (")" + Print(rest)))
  }

  function PrintInside(x: Inside): string {
    match x
    case Last(text) => Print(text)
    case Next(text, others) => Print(text) + ("," + PrintInside(others))
  }

  /** The depth of parentheses after plain characters of an argument; None if one of them would end it. */
  function Depth(chars: string, depth: nat): Option<nat> {
    if chars == [] then Some(depth)
    else
      match chars[0]
      case '(' => Depth(chars[1..], depth + 1)
      case ')' => if depth == 0 then None else Depth(chars[1..], depth - 1)
      case ',' => if depth == 0 then None else Depth(chars[1..], depth)
      case _ => Depth(chars[1..], depth)
  }

  /** Plain characters have no dollars, and within a macro their parentheses match and hide their commas. */
  predicate Sound(x: Text, inside: bool) {
    match x
    case End => true
    case Plain(chars, rest) => '$' !in chars && (inside ==> Depth(chars, 0) == Some(0)) && Sound(rest, inside)
    case Macro(m, rest) => SoundInside(m) && Sound(rest, inside)
  }

  predicate SoundInside(x: Inside) {
    match x
    case Last(text) => Sound(text, true)
    case Next(text, others) => Sound(text, true) && SoundInside(others)
  }

  /** The expansion: plain characters as they are, and each macro replaced by the value that its
      expanded arguments have. */
  ghost function Meaning(t: Table, counts: Counts, args: seq<string>, x: Text): Option<string>
    requires Counting(t, counts)
  {
    match x
    case End => Some("")
    case Plain(chars, rest) => Prefixed(chars, Meaning(t, counts, args, rest))
    case Macro(inside, rest) =>
      var called := MeaningInside(t, counts, args, inside);
      if called.None? then None
      else
        var value := MacroValue(t, counts, args, called.value);
        if value.None? then None else Prefixed(value.value, Meaning(t, counts, args, rest))
  }

  ghost function MeaningInside(t: Table, counts: Counts, args: seq<string>, x: Inside): (r: Option<seq<string>>)
    requires Counting(t, counts)
    ensures r.Some? ==> r.value != []
  {
    match x
    case Last(text) =>
      var m := Meaning(t, counts, args, text);
      if m.None? then None else Some([m.value])
    case Next(text, others) =>
      var m, ms := Meaning(t, counts, args, text), MeaningInside(t, counts, args, others);
      if m.None? || ms.None? then None else Some([m.value] + ms.value)
  }

  // ----- The expansion has this meaning -----

  /** Plain characters join the argument they are in. */
  lemma {:induction false} PlainJoins(t: Table, counts: Counts, args: seq<string>, chars: string, rest: string,
                                      current: string, done: seq<string>, depth: nat)
    requires Counting(t, counts) && '$' !in chars && Depth(chars, depth).Some?
    ensures Arguments(t, counts, args, chars + rest, current, done, depth)
         == Arguments(t, counts, args, rest, current + chars, done, Depth(chars, depth).value)
    decreases |chars|
  {
    hide Arguments, Call;
    if chars == [] {
      assert chars + rest == rest && current + chars == current;
    } else {
      var text, c := chars + rest, chars[0];
      ArgumentsStep(t, counts, args, text, current, done, depth);
      assert text[0] == c && text[1..] == chars[1..] + rest && !Opens(text);
      var deeper := if c == '(' then depth + 1 else if c == ')' then depth - 1 else depth;
      PlainJoins(t, counts, args, chars[1..], rest, current + [c], done, deeper);
      assert current + [c] + chars[1..] == current + chars;
    }
  }

  /** Plain characters of the text stay. */
  lemma PlainStays(t: Table, counts: Counts, args: seq<string>, chars: string, rest: string)
    requires Counting(t, counts) && '$' !in chars
    ensures Whole(t, counts, args, chars + rest) == Prefixed(chars, Whole(t, counts, args, rest))
  {
    var text := chars + rest;
    assert forall j :: 0 <= j < |chars| ==> text[j..][0] == chars[j];
    WholeSkips(t, counts, args, text, 0, |chars|);
    assert text[0..] == text && text[|chars|..] == rest && text[0..|chars|] == chars;
  }

  lemma {:induction false} TextJoins(t: Table, counts: Counts, args: seq<string>, x: Text, rest: string,
                                     current: string, done: seq<string>)
    requires Counting(t, counts) && Sound(x, true)
    ensures var m := Meaning(t, counts, args, x);
            Arguments(t, counts, args, Print(x) + rest, current, done, 0) ==
            if m.None? then None else Arguments(t, counts, args, rest, current + m.value, done, 0)
    decreases x, 1
  {
    hide Arguments, Call, MacroValue;
    match x {
      case End =>
        assert Print(x) + rest == rest && current + "" == current;
      case Plain(chars, more) =>
        assert Print(x) + rest == chars + (Print(more) + rest);
        PlainJoins(t, counts, args, chars, Print(more) + rest, current, done, 0);
        TextJoins(t, counts, args, more, rest, current + chars, done);
        JoinTwice(current, chars, Meaning(t, counts, args, more));
      case Macro(inside, more) =>
        var text, after := Print(x) + rest, Print(more) + rest;
        assert text == "$(" + (PrintInside(inside) + (")" + after));
        assert Opens(text) && text[2..] == PrintInside(inside) + (")" + after);
        ArgumentsStep(t, counts, args, text, current, done, 0);
        CallIsMeant(t, counts, args, inside, after);
        var m := Call(t, counts, args, text[2..]);
        if m.Some? {
          TextJoins(t, counts, args, more, rest, current + m.value.0, done);
          JoinTwice(current, m.value.0, Meaning(t, counts, args, more));
        }
    }
  }

  lemma JoinTwice(a: string, b: string, c: Option<string>)
    ensures c.Some? ==> a + b + c.value == a + Prefixed(b, c).value
  {
  }

  lemma {:induction false} InsideIsRead(t: Table, counts: Counts, args: seq<string>, x: Inside, rest: string,
                                        done: seq<string>)
    requires Counting(t, counts) && SoundInside(x)
    ensures var ms := MeaningInside(t, counts, args, x);
            Arguments(t, counts, args, PrintInside(x) + (")" + rest), "", done, 0) ==
            if ms.None? then None else Some((done + ms.value, rest))
    decreases x, 0
  {
    hide Arguments, Call, Meaning;
    match x {
      case Last(text) =>
        TextJoins(t, counts, args, text, ")" + rest, "", done);
        var m := Meaning(t, counts, args, text);
        if m.Some? {
          ArgumentsStep(t, counts, args, ")" + rest, m.value, done, 0);
          assert (")" + rest)[1..] == rest && "" + m.value == m.value;
        }
      case Next(text, others) =>
        var after := "," + (PrintInside(others) + (")" + rest));
        assert PrintInside(x) + (")" + rest) == Print(text) + after;
        TextJoins(t, counts, args, text, after, "", done);
        var m := Meaning(t, counts, args, text);
        if m.Some? {
          ArgumentsStep(t, counts, args, after, m.value, done, 0);
          assert after[1..] == PrintInside(others) + (")" + rest) && "" + m.value == m.value;
          InsideIsRead(t, counts, args, others, rest, done + [m.value]);
          var ms := MeaningInside(t, counts, args, others);
          assert ms.Some? ==> done + [m.value] + ms.value == done + ([m.value] + ms.value);
        }
    }
  }

  lemma CallIsMeant(t: Table, counts: Counts, args: seq<string>, x: Inside, rest: string)
    requires Counting(t, counts) && SoundInside(x)
    ensures var called := MeaningInside(t, counts, args, x);
            var value := if called.None? then None else MacroValue(t, counts, args, called.value);
            Call(t, counts, args, PrintInside(x) + (")" + rest)) ==
            if value.None? then None else Some((value.value, rest))
    decreases x, 1
  {
    hide Arguments, Call, MacroValue;
    InsideIsRead(t, counts, args, x, rest, []);
    CallMeans(t, counts, args, PrintInside(x) + (")" + rest));
    var called := MeaningInside(t, counts, args, x);
    assert called.Some? ==> [] + called.value == called.value;
  }

  /** Expanding a text gives its meaning. */
  lemma {:induction false} ExpansionMeaning(t: Table, counts: Counts, args: seq<string>, x: Text)
    requires Counting(t, counts) && Sound(x, false)
    ensures Whole(t, counts, args, Print(x)) == Meaning(t, counts, args, x)
    decreases x
  {
    hide Whole, Call, MacroValue;
    match x {
      case End => WholeEnds(t, counts, args);
      case Plain(chars, rest) =>
        PlainStays(t, counts, args, chars, Print(rest));
        ExpansionMeaning(t, counts, args, rest);
      case Macro(inside, rest) =>
        var text := Print(x);
        assert Opens(text) && text[2..] == PrintInside(inside) + (")" + Print(rest));
        WholeCalls(t, counts, args, text);
        CallIsMeant(t, counts, args, inside, Print(rest));
        ExpansionMeaning(t, counts, args, rest);
    }
  }

  // ----- The value of a macro -----

  /** `index` is the number of an argument: $(1) is the first after the name; negative numbers count
      from the end. */
  ghost predicate IsArgument(args: seq<string>, index: string, value: string) {
    exists n :: Numbers.Denotes(index, 10, n)
                && ((0 <= n < |args| && value == args[n]) || (-|args| <= n < 0 && value == args[|args| + n]))
  }

  lemma ArgumentMeaning(args: seq<string>, index: string, value: string)
    ensures Argument(args, index) == Some(value) <==> IsArgument(args, index, value)
  {
    hide Numbers.Denotes, ParseInt;
    forall n { Numbers.ParseIntMeaning(index, 10, n); }
  }

  /** The value of a macro: an argument if it is the number of one; else of the variable of that name,
      unless it is being expanded already, with the arguments of the call; else of the function, for a
      number of arguments that it takes; else of the environment; else nothing. */
  lemma ValueMeaning(t: Table, counts: Counts, args: seq<string>, called: seq<string>)
    requires Counting(t, counts) && called != []
    ensures var value, name, given := MacroValue(t, counts, args, called), called[0], |called| - 1;
            if exists w :: IsArgument(args, name, w) then value.Some? && IsArgument(args, name, value.value)
            else if name in t.variables then
              if counts[name] > (if given == 0 then 0 else 100) then value == None
              else value == Whole(t, counts[name := counts[name] + 1], called, t.variables[name])
            else if name in t.functions then
              var f := t.functions[name];
              if given >= f.least && (f.most.Some? ==> given <= f.most.value) then value == f.call(called)
              else value == None
            else value == Some(if name in t.environment then t.environment[name] else "")
  {
    hide Whole, IsArgument;
    forall w { ArgumentMeaning(args, called[0], w); }
    if Argument(args, called[0]).Some? {
      ArgumentMeaning(args, called[0], Argument(args, called[0]).value);
    }
  }

  lemma OneWord(t: Table, counts: Counts, args: seq<string>, word: string)
    requires Counting(t, counts) && '$' !in word && Depth(word, 0) == Some(0)
    ensures var x := Last(Plain(word, End));
            && SoundInside(x) && PrintInside(x) == word
            && MeaningInside(t, counts, args, x) == Some([word])
  {
    var plain := Plain(word, End);
    assert Print(End) == "" && Sound(End, true);
    assert Print(plain) == word && Sound(plain, true);
    assert Meaning(t, counts, args, End) == Some("");
    assert Meaning(t, counts, args, plain) == Some(word + "") == Some(word);
  }

  lemma ArgumentWins(t: Table, counts: Counts, args: seq<string>, index: string)
    requires Counting(t, counts) && Argument(args, index).Some?
    ensures MacroValue(t, counts, args, [index]) == Argument(args, index)
  {
  }

  lemma NumberedText(t: Table, counts: Counts, args: seq<string>, index: string, n: nat)
    requires Counting(t, counts) && n < |args|
    requires Numbers.Denotes(index, 10, n) && '$' !in index && Depth(index, 0) == Some(0)
    ensures Whole(t, counts, args, "$(" + (index + ")")) == Some(args[n])
  {
    hide Whole, MacroValue, Depth, Numbers.Denotes, Argument, SoundInside, PrintInside, MeaningInside;
    var inside := Last(Plain(index, End));
    OneWord(t, counts, args, index);
    ArgumentMeaning(args, index, args[n]);
    ArgumentWins(t, counts, args, index);
    assert Print(End) == "" && ")" + "" == ")";
    assert Print(Macro(inside, End)) == "$(" + (index + ")");
    ExpansionMeaning(t, counts, args, Macro(inside, End));
    assert Meaning(t, counts, args, End) == Some("") && args[n] + "" == args[n];
  }

  /** Calling a function whose text is $(n) gives the n-th argument. */
  lemma CallingGivesArgument(t: Table, f: string, index: string, n: nat, called: seq<string>)
    requires f in t.variables && t.variables[f] == "$(" + (index + ")")
    requires 0 < n < |called| && called[0] == f
    requires Numbers.Denotes(index, 10, n) && '$' !in index && Depth(index, 0) == Some(0)
    ensures FnVal(t, NoneYet(t), called) == Some(called[n])
  {
    hide Whole, Depth, Numbers.Denotes, Budget;
    NumberedText(t, NoneYet(t)[f := 1], called, index, n);
  }
}
