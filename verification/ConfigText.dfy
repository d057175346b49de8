/**
 String literals in .config files: `escape`, `unescape` and the literal matcher.
 */
module ConfigText {
  import opened Expressions

  /** `s.replace(c, by)` */
  function Replace(s: string, c: char, with: string): string {
    if s == [] then [] else (if s[0] == c then with else [s[0]]) + Replace(s[1..], c, with)
  }

  /** Backslashes first, so that those added for quotes are not doubled. */
  function Escape(s: string): string {
    Replace(Replace(s, '\\', "\\\\"), '\"', "\\\"")
  }

  /** A backslash followed by any character but newline stands for that character. */
  function Unescape(s: string): string {
    if |s| >= 2 && s[0] == '\\' && s[1] != '\n' then [s[1]] + Unescape(s[2..])
    else if s == [] then []
    else [s[0]] + Unescape(s[1..])
  }

  /** The part of `s` before the first unescaped quote, or None if there is none. */
  function UntilQuote(s: string): Option<string> {
    if s == [] then None
    else if s[0] == '\"' then Some([])
    else if s[0] == '\\' then
      if |s| < 2 || s[1] == '\n' then None
      else match UntilQuote(s[2..])
        case None => None
        case Some(t) => Some(s[..2] + t)
    else match UntilQuote(s[1..])
      case None => None
      case Some(t) => Some([s[0]] + t)
  }

  /** `_conf_string_match`: the contents of the string literal that `s` starts with. */
  function Literal(s: string): Option<string> {
    if s == [] || s[0] != '\"' then None else UntilQuote(s[1..])
  }

  function Quote(s: string): string { "\"" + Escape(s) + "\"" }

  lemma {:induction false} ReplaceConcat(a: string, b: string, c: char, with: string)
    ensures Replace(a + b, c, with) == Replace(a, c, with) + Replace(b, c, with)
  {
    if a == [] {
      assert a + b == b;
    } else {
      assert (a + b)[1..] == a[1..] + b;
      ReplaceConcat(a[1..], b, c, with);
    }
  }

  function EscapeChar(c: char): string {
    if c == '\\' then "\\\\" else if c == '\"' then "\\\"" else [c]
  }

  lemma EscapeFirst(s: string)
    requires s != []
    ensures Escape(s) == EscapeChar(s[0]) + Escape(s[1..])
  {
    var head := if s[0] == '\\' then "\\\\" else [s[0]];
    ReplaceConcat(head, Replace(s[1..], '\\', "\\\\"), '\"', "\\\"");
    assert Replace(head, '\"', "\\\"") == EscapeChar(s[0]) by {
      if s[0] == '\\' {
        assert head == ['\\', '\\'] && head[1..] == ['\\'] && head[1..][1..] == [];
      } else {
        assert head[1..] == [];
      }
    }
  }

  lemma {:induction false} UnescapeEscape(s: string)
    ensures Unescape(Escape(s)) == s
  {
    if s != [] {
      EscapeFirst(s);
      UnescapeEscape(s[1..]);
      var e := Escape(s);
      assert e[|EscapeChar(s[0])|..] == Escape(s[1..]);
    }
  }

  lemma UntilQuoteStep(c: char, t: string)
    ensures UntilQuote(EscapeChar(c) + t) == (
              match UntilQuote(t)
              case None => None
              case Some(r) => Some(EscapeChar(c) + r))
  {
    var e := EscapeChar(c) + t;
    if c == '\\' || c == '\"' {
      assert e[2..] == t && e[..2] == EscapeChar(c);
    } else {
      assert e[1..] == t;
    }
  }

  lemma UntilQuoteOfNothing(rest: string)
    ensures Escape("") == "" && UntilQuote("\"" + rest) == Some("")
  {
  }

  lemma {:induction false} UntilQuoteEscape(s: string, rest: string)
    ensures UntilQuote(Escape(s) + ("\"" + rest)) == Some(Escape(s))
  {
    hide UntilQuote, Escape, EscapeChar;
    if s == [] {
      UntilQuoteOfNothing(rest);
      assert Escape(s) + ("\"" + rest) == "\"" + rest;
    } else {
      var tail := Escape(s[1..]) + ("\"" + rest);
      EscapeFirst(s);
      UntilQuoteEscape(s[1..], rest);
      UntilQuoteStep(s[0], tail);
      assert Escape(s) + ("\"" + rest) == EscapeChar(s[0]) + tail;
    }
  }

  /** Reading a written string literal gives back the string. */
  lemma LiteralRoundTrip(s: string)
    ensures Literal(Quote(s)) == Some(Escape(s)) && Unescape(Escape(s)) == s
  {
    UntilQuoteEscape(s, "");
    assert Quote(s)[1..] == Escape(s) + ("\"" + "");
    UnescapeEscape(s);
  }

  // ----- All literals -----

  /** A character by itself, or behind a backslash. */
  datatype Unit = Bare(c: char) | Slashed(c: char)

  /** Quotes and backslashes are never bare, and newlines never behind a backslash. */
  predicate Fine(x: Unit) {
    match x
    case Bare(c) => c != '\\' && c != '\"'
    case Slashed(c) => c != '\n'
  }

  function SpelledUnit(x: Unit): string {
    if x.Bare? then [x.c] else ['\\', x.c]
  }

  function Spelled(us: seq<Unit>): string {
    if us == [] then [] else SpelledUnit(us[0]) + Spelled(us[1..])
  }

  function Said(us: seq<Unit>): string {
    if us == [] then [] else [us[0].c] + Said(us[1..])
  }

  ghost predicate AllFine(us: seq<Unit>) {
    forall x <- us :: Fine(x)
  }

  lemma {:induction false} UnescapeMeaning(us: seq<Unit>)
    requires AllFine(us)
    ensures Unescape(Spelled(us)) == Said(us)
  {
    if us != [] {
      UnescapeMeaning(us[1..]);
      var s, n := Spelled(us), if us[0].Bare? then 1 else 2;
      assert us[0] in us && s[n..] == Spelled(us[1..]);
    }
  }

  lemma UnitBeforeQuote(x: Unit, t: string)
    requires Fine(x)
    ensures UntilQuote(SpelledUnit(x) + t) == (
              match UntilQuote(t)
              case None => None
              case Some(r) => Some(SpelledUnit(x) + r))
  {
    var s := SpelledUnit(x) + t;
    if x.Bare? {
      assert s[1..] == t;
    } else {
      assert s[2..] == t && s[..2] == SpelledUnit(x);
    }
  }

  lemma {:induction false} QuoteEndsUnits(us: seq<Unit>, rest: string)
    requires AllFine(us)
    ensures UntilQuote(Spelled(us) + ("\"" + rest)) == Some(Spelled(us))
  {
    hide UntilQuote, SpelledUnit;
    if us == [] {
      UntilQuoteOfNothing(rest);
      assert Spelled(us) + ("\"" + rest) == "\"" + rest;
    } else {
      QuoteEndsUnits(us[1..], rest);
      var tail := Spelled(us[1..]) + ("\"" + rest);
      assert us[0] in us;
      UnitBeforeQuote(us[0], tail);
      assert Spelled(us) + ("\"" + rest) == SpelledUnit(us[0]) + tail;
    }
  }

  lemma {:induction false} UnitsUntilQuote(s: string) returns (us: seq<Unit>, rest: string)
    requires UntilQuote(s).Some?
    ensures AllFine(us) && UntilQuote(s).value == Spelled(us) && s == Spelled(us) + ("\"" + rest)
  {
    if s[0] == '\"' {
      us, rest := [], s[1..];
    } else {
      var n := if s[0] == '\\' then 2 else 1;
      var more;
      more, rest := UnitsUntilQuote(s[n..]);
      us := [if n == 2 then Slashed(s[1]) else Bare(s[0])] + more;
      assert us[1..] == more && s == s[..n] + s[n..];
    }
  }

  /** A text starts with a literal of these contents exactly if it starts with a quote, the contents made of
      fine units, and a quote. Unescaping the contents drops the backslashes that the units have. */
  lemma LiteralMeaning(s: string, body: string)
    ensures Literal(s) == Some(body) <==>
              exists us, rest :: AllFine(us) && body == Spelled(us) && s == "\"" + (Spelled(us) + ("\"" + rest))
    ensures forall us | AllFine(us) && body == Spelled(us) :: Unescape(body) == Said(us)
  {
    if Literal(s) == Some(body) {
      var us, rest := UnitsUntilQuote(s[1..]);
      assert s == "\"" + s[1..];
    }
    forall us, rest | AllFine(us) && s == "\"" + (Spelled(us) + ("\"" + rest)) ensures Literal(s) == Some(Spelled(us)) {
      QuoteEndsUnits(us, rest);
      assert s[1..] == Spelled(us) + ("\"" + rest);
    }
    forall us | AllFine(us) && body == Spelled(us) ensures Unescape(body) == Said(us) { UnescapeMeaning(us); }
  }
}
