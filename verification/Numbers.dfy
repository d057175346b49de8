/**
 What numbers in strings, comparisons and the connectives of expressions mean, told without the
 functions that calculate them.
 */
module Numbers {
  import opened Expressions

  // ----- Digits -----

  const LOWER := "0123456789abcdef"
  const UPPER := "0123456789ABCDEF"

  predicate Spells(c: char, d: nat) {
    d < 16 && (c == LOWER[d] || c == UPPER[d])
  }

  lemma DigitMeaning(c: char, d: nat)
    requires d < 16
    ensures DigitValue(c) == d <==> Spells(c, d)
  {
  }

  lemma DigitIsSpelled(c: char)
    requires DigitValue(c) < 16
    ensures 0 <= DigitValue(c) && Spells(c, DigitValue(c))
  {
  }

  function Power(base: nat, n: nat): nat {
    if n == 0 then 1 else base * Power(base, n - 1)
  }

  /** The sum of digit times power. */
  function PlaceSum(ds: seq<nat>, base: nat): nat {
    if ds == [] then 0 else ds[0] * Power(base, |ds| - 1) + PlaceSum(ds[1..], base)
  }

  /** `s` is these digits of the base. */
  ghost predicate Written(s: string, ds: seq<nat>, base: nat) {
    |s| == |ds| && forall i :: 0 <= i < |s| ==> ds[i] < base && Spells(s[i], ds[i])
  }

  ghost predicate Numeral(s: string, base: nat, n: nat) {
    s != [] && exists ds :: Written(s, ds, base) && PlaceSum(ds, base) == n
  }

  lemma {:induction false} PlaceSumLast(ds: seq<nat>, d: nat, base: nat)
    ensures PlaceSum(ds + [d], base) == PlaceSum(ds, base) * base + d
  {
    if ds == [] {
      assert PlaceSum([d], base) == d * Power(base, 0) + PlaceSum([], base);
    } else {
      var all := ds + [d];
      assert all[1..] == ds[1..] + [d] && |all| - 1 == |ds|;
      PlaceSumLast(ds[1..], d, base);
      Distribute(ds[0], base, Power(base, |ds| - 1), PlaceSum(ds[1..], base));
    }
  }

  lemma Distribute(d: nat, base: nat, p: nat, q: nat)
    ensures d * (base * p) + q * base == (d * p + q) * base
  {
  }

  lemma {:induction false} DigitsAreWritten(s: string, base: nat) returns (ds: seq<nat>)
    requires base <= 16 && Digits(s, base).Some?
    ensures Written(s, ds, base) && PlaceSum(ds, base) == Digits(s, base).value
  {
    if s == [] {
      ds := [];
    } else {
      var rest := DigitsAreWritten(s[..|s| - 1], base);
      DigitIsSpelled(s[|s| - 1]);
      ds := rest + [DigitValue(s[|s| - 1])];
      PlaceSumLast(rest, DigitValue(s[|s| - 1]), base);
    }
  }

  lemma {:induction false} WrittenAreDigits(s: string, ds: seq<nat>, base: nat)
    requires base <= 16 && Written(s, ds, base)
    ensures Digits(s, base) == Some(PlaceSum(ds, base))
  {
    if s != [] {
      var n := |s| - 1;
      WrittenAreDigits(s[..n], ds[..n], base);
      DigitMeaning(s[n], ds[n]);
      assert ds == ds[..n] + [ds[n]];
      PlaceSumLast(ds[..n], ds[n], base);
    }
  }

  lemma DigitsMeaning(s: string, base: nat, n: nat)
    requires base <= 16 && s != []
    ensures Digits(s, base) == Some(n) <==> Numeral(s, base, n)
  {
    if Digits(s, base) == Some(n) {
      var ds := DigitsAreWritten(s, base);
    }
    if Numeral(s, base, n) {
      var ds :| Written(s, ds, base) && PlaceSum(ds, base) == n;
      WrittenAreDigits(s, ds, base);
    }
  }

  // ----- Numbers -----

  ghost predicate Prefixed(s: string, n: nat) {
    |s| > 2 && s[0] == '0' && (s[1] == 'x' || s[1] == 'X') && Numeral(s[2..], 16, n)
  }

  /** Base 0 means decimal or, with a prefix, hexadecimal; a decimal has no leading zeros unless
      it has nothing else. */
  ghost predicate Unsigned(s: string, base: nat, n: nat) {
    match base
    case 10 => Numeral(s, 10, n)
    case 16 => Numeral(s, 16, n) || Prefixed(s, n)
    case _ => Prefixed(s, n) || (Numeral(s, 10, n) && (s[0] == '0' ==> forall i :: 0 <= i < |s| ==> s[i] == '0'))
  }

  /** `s` is a number in this base, with or without a sign. */
  ghost predicate Denotes(s: string, base: nat, n: int) {
    || (n >= 0 && Unsigned(s, base, n))
    || (n >= 0 && s != [] && s[0] == '+' && Unsigned(s[1..], base, n))
    || (n <= 0 && s != [] && s[0] == '-' && Unsigned(s[1..], base, -n))
  }

  lemma NoDigit(c: char)
    requires c == 'x' || c == 'X' || c == '+' || c == '-'
    ensures forall d: nat :: !Spells(c, d)
  {
  }

  lemma NoNumeral(s: string, base: nat, i: nat)
    requires i < |s| && (s[i] == 'x' || s[i] == 'X' || s[i] == '+' || s[i] == '-')
    ensures forall n: nat :: !Numeral(s, base, n)
  {
    NoDigit(s[i]);
    hide Spells;
  }

  lemma MagnitudeMeaning(s: string, base: nat, n: nat)
    requires base == 0 || base == 10 || base == 16
    ensures Magnitude(s, base) == Some(n) <==> Unsigned(s, base, n)
  {
    hide Digits, Numeral;
    if s == [] {
      NotEmpty(base, n);
    } else {
      DigitsMeaning(s, 10, n);
      DigitsMeaning(s, 16, n);
      if HasHexPrefix(s) {
        NoNumeral(s, 10, 1);
        NoNumeral(s, 16, 1);
        if |s| > 2 { DigitsMeaning(s[2..], 16, n); }
      }
    }
  }

  lemma NotEmpty(base: nat, n: nat)
    ensures !Unsigned([], base, n)
  {
  }

  lemma SignIsNoDigit(s: string, base: nat, n: nat)
    requires s != [] && (s[0] == '+' || s[0] == '-')
    ensures !Unsigned(s, base, n)
  {
    NoNumeral(s, 10, 0);
    NoNumeral(s, 16, 0);
  }

  /** A string reads as a number exactly if it is one, and as that one. */
  lemma ParseIntMeaning(s: string, base: nat, n: int)
    requires base == 0 || base == 10 || base == 16
    ensures ParseInt(s, base) == Some(n) <==> Denotes(s, base, n)
  {
    hide Magnitude, Unsigned;
    var size := if n < 0 then -n else n;
    if s != [] && (s[0] == '-' || s[0] == '+') {
      SignIsNoDigit(s, base, size);
      MagnitudeMeaning(s[1..], base, size);
    } else {
      MagnitudeMeaning(s, base, size);
    }
  }

  // ----- Writing numbers -----

  lemma DigitCharIsSpelled(d: nat)
    requires d < 16
    ensures DigitValue(DigitChar(d)) == d
  {
  }

  ghost predicate Plain(s: string, n: nat) {
    s != [] && s[0] != '-' && s[0] != '+' && (s[0] == '0' ==> n == 0 && s == "0")
  }

  lemma OneDigit(d: nat, base: nat)
    requires d < base <= 16
    ensures Digits([DigitChar(d)], base) == Some(d) && Plain([DigitChar(d)], d)
  {
    var s := [DigitChar(d)];
    assert s[..0] == [];
    assert Digits(s[..0], base) == Some(0);
  }

  lemma OneMoreDigit(front: string, d: nat, base: nat)
    requires d < base <= 16 && Digits(front, base).Some?
    ensures Digits(front + [DigitChar(d)], base) == Some(Digits(front, base).value * base + d)
  {
    DigitCharIsSpelled(d);
    assert (front + [DigitChar(d)])[..|front|] == front;
  }

  lemma {:induction false} DigitStrReads(n: nat, base: nat)
    requires 2 <= base <= 16
    ensures Digits(DigitStr(n, base), base) == Some(n) && Plain(DigitStr(n, base), n)
  {
    hide Digits, DigitChar;
    if n < base {
      OneDigit(n, base);
    } else {
      Smaller(n, base);
      DigitStrReads(n / base, base);
      OneMoreDigit(DigitStr(n / base, base), n % base, base);
    }
  }

  lemma Smaller(n: nat, base: nat)
    requires 2 <= base <= n
    ensures 0 < n / base < n && n == n / base * base + n % base
  {
  }

  /** What is written for a number reads as that number, and has its plain form: a hex number has
      its prefix, only negative numbers a sign, and none a leading zero. */
  lemma FormatReads(n: int, t: Type)
    requires t == Int || t == Hex
    ensures var s := FormatInt(n, t);
            && ParseInt(s, TypeToBase(t)) == Some(n)
            && s != [] && (s[0] == '-' <==> n < 0)
            && var body := if n < 0 then s[1..] else s;
               if t == Hex then |body| > 2 && body[..2] == "0x" && (body[2] == '0' ==> body == "0x0")
               else body != [] && (body[0] == '0' ==> body == "0")
  {
    hide DigitStr, Digits;
    var size := if n < 0 then -n else n;
    DigitStrReads(size, if t == Int then 10 else 16);
    var ds := DigitStr(size, if t == Int then 10 else 16);
    var body := if t == Int then ds else "0x" + ds;
    assert t == Hex ==> body[2..] == ds;
    assert FormatInt(n, t) == if n < 0 then "-" + body else body;
    assert n < 0 ==> ("-" + body)[1..] == body;
    assert Magnitude(body, TypeToBase(t)) == Some(size);
  }

  // ----- Order of texts -----

  /** `a` and `b` first differ at `i`, where `a` has ended or has the smaller character. */
  ghost predicate EarlierAt(a: string, b: string, i: nat) {
    i <= |a| && i < |b| && (forall j :: 0 <= j < i ==> a[j] == b[j]) && (i == |a| || a[i] < b[i])
  }

  ghost predicate Earlier(a: string, b: string) {
    exists i :: EarlierAt(a, b, i)
  }

  lemma EarlierBehind(a: string, b: string, i: nat)
    requires a != [] && b != [] && i > 0
    ensures EarlierAt(a, b, i) <==> a[0] == b[0] && EarlierAt(a[1..], b[1..], i - 1)
  {
    if EarlierAt(a, b, i) {
      assert a[0] == b[0];
    } else if a[0] == b[0] && EarlierAt(a[1..], b[1..], i - 1) {
      assert forall j :: 0 < j < i ==> a[1..][j - 1] == b[1..][j - 1] && a[j] == a[1..][j - 1] && b[j] == b[1..][j - 1];
    }
  }

  lemma EarlierStep(a: string, b: string)
    requires a != [] && b != []
    ensures Earlier(a, b) <==> a[0] < b[0] || (a[0] == b[0] && Earlier(a[1..], b[1..]))
  {
    assert EarlierAt(a, b, 0) <==> a[0] < b[0];
    hide EarlierAt;
    if Earlier(a, b) {
      var i :| EarlierAt(a, b, i);
      if i > 0 { EarlierBehind(a, b, i); }
    }
    if a[0] == b[0] && Earlier(a[1..], b[1..]) {
      var i: nat :| EarlierAt(a[1..], b[1..], i);
      EarlierBehind(a, b, i + 1);
    }
  }

  lemma {:induction false} StrCmpMeaning(a: string, b: string)
    ensures StrCmp(a, b) < 0 <==> Earlier(a, b)
    ensures StrCmp(a, b) == 0 <==> a == b
    ensures StrCmp(a, b) > 0 <==> Earlier(b, a)
  {
    if a == [] || b == [] {
      assert a == [] && b != [] ==> EarlierAt(a, b, 0);
      assert b == [] && a != [] ==> EarlierAt(b, a, 0);
    } else {
      StrCmpMeaning(a[1..], b[1..]);
      EarlierStep(a, b);
      EarlierStep(b, a);
      assert a == [a[0]] + a[1..] && b == [b[0]] + b[1..];
    }
  }

  // ----- Comparisons -----

  ghost predicate Stands(rel: Relation, x: int, y: int) {
    match rel
    case Equal => x == y
    case Unequal => x != y
    case Less => x < y
    case LessEqual => x <= y
    case Greater => x > y
    case GreaterEqual => x >= y
  }

  ghost predicate StandsText(rel: Relation, a: string, b: string) {
    match rel
    case Equal => a == b
    case Unequal => a != b
    case Less => Earlier(a, b)
    case LessEqual => !Earlier(b, a)
    case Greater => Earlier(b, a)
    case GreaterEqual => !Earlier(a, b)
  }

  /** The operand is a bool or tristate with this value, or its text is this number. */
  ghost predicate ReadsAs(a: Atom, env: Env, x: int) {
    match a
    case TriConst(t) => x == t
    case Quoted(name) => Denotes(name, 0, x)
    case Sym(s) =>
      match env.typ(s)
      case Bool => x == env.tri(s)
      case Tristate => x == env.tri(s)
      case Int => Denotes(env.str(s), 10, x)
      case Hex => Denotes(env.str(s), 16, x)
      case Str => Denotes(env.str(s), 0, x)
      case Unknown => Denotes(env.str(s), 0, x)
  }

  ghost predicate HasText(a: Atom, env: Env, text: string) {
    match a
    case TriConst(t) => text == [['n'], ['m'], ['y']][t]
    case Quoted(name) => text == name
    case Sym(s) => text == env.str(s)
  }

  ghost predicate StringSymbol(a: Atom, env: Env) {
    a.Sym? && env.typ(a.id) == Str
  }

  lemma AtomMeaning(a: Atom, env: Env, x: int)
    ensures AtomNum(a, env) == Some(x) <==> ReadsAs(a, env, x)
    ensures HasText(a, env, AtomStr(a, env))
  {
    hide Denotes, ParseInt;
    match a
    case TriConst(_) =>
    case Quoted(name) => ParseIntMeaning(name, 0, x);
    case Sym(s) => ParseIntMeaning(env.str(s), TypeToBase(env.typ(s)), x);
  }

  /** Numbers are compared as numbers, unless both are string symbols. */
  lemma ComparisonOfNumbers(rel: Relation, a: Atom, b: Atom, env: Env, x: int, y: int)
    requires ReadsAs(a, env, x) && ReadsAs(b, env, y) && !(StringSymbol(a, env) && StringSymbol(b, env))
    ensures Value(Cmp(rel, a, b), env) == if Stands(rel, x, y) then 2 else 0
  {
    AtomMeaning(a, env, x);
    AtomMeaning(b, env, y);
    hide AtomNum, ReadsAs, AtomStr;
  }

  /** Everything else is compared as text. */
  lemma ComparisonOfTexts(rel: Relation, a: Atom, b: Atom, env: Env, s: string, t: string)
    requires HasText(a, env, s) && HasText(b, env, t)
    requires || (StringSymbol(a, env) && StringSymbol(b, env))
             || (forall x :: !ReadsAs(a, env, x)) || (forall y :: !ReadsAs(b, env, y))
    ensures Value(Cmp(rel, a, b), env) == if StandsText(rel, s, t) then 2 else 0
  {
    forall x { AtomMeaning(a, env, x); }
    forall y { AtomMeaning(b, env, y); }
    TextIs(a, env, s);
    TextIs(b, env, t);
    StrCmpMeaning(s, t);
    hide AtomNum, ReadsAs, AtomStr, StrCmp, Earlier, HasText;
  }

  lemma TextIs(a: Atom, env: Env, text: string)
    requires HasText(a, env, text)
    ensures AtomStr(a, env) == text
  {
  }

  // ----- Connectives -----

  /** A conjunction is at least `t` if both sides are, a disjunction if one is, and a negation is y, m
      or n as its operand is n, m or y. */
  lemma ConnectivesMeaning(a: Expr, b: Expr, env: Env, t: Tri)
    ensures Value(And(a, b), env) >= t <==> Value(a, env) >= t && Value(b, env) >= t
    ensures Value(Or(a, b), env) >= t <==> Value(a, env) >= t || Value(b, env) >= t
    ensures Value(Not(a), env) == t <==> Value(a, env) + t == 2
  {
  }

  /** A symbol or mode stands for its value, a constant for itself, and any other text for n. */
  lemma LeafMeaning(s: SymId, c: ChoiceId, t: Tri, name: string, env: Env)
    ensures Value(Leaf(Sym(s)), env) == env.tri(s) && Value(Mode(c), env) == env.mode(c)
    ensures Value(Leaf(TriConst(t)), env) == t && Value(Leaf(Quoted(name)), env) == 0
  {
  }
}
