/**
  Parameters of an AT command: the text after '=' is split at commas in place, and a backslash
  makes the comma or backslash after it part of a parameter. A parameter is the C string that
  starts at its recorded offset of the rewritten buffer.
 */
module AtParams {
  /** One more than the largest number of parameters; argv[0] is reserved. */
  const MAX_ARGC := 23

  const NUL := '\0'

  /** The parameters of a text, unless it has a stray backslash. */
  datatype Parsed = Malformed | Parsed(list: seq<string>)

  predicate CString(buf: seq<char>, len: nat) {
    len < |buf| && buf[len] == NUL && NUL !in buf[..len]
  }

  // ----- What the parsers compute -----

  function Extend(prefix: string, fields: Parsed): Parsed {
    if fields.Malformed? || fields.list == [] then fields
    else Parsed([prefix + fields.list[0]] + fields.list[1..])
  }

  /** The parameters of `text`, of which at most `room` characters are looked at. */
  function Fields(text: string, room: int): (fields: Parsed)
    ensures fields.Parsed? ==> fields.list != []
  {
    if room <= 0 || text == [] then Parsed([""])
    else if text[0] == '\\' then
      if |text| == 1 || text[1] !in {',', '\\'} then Malformed
      else Extend([text[1]], Fields(text[2..], room - 2))
    else if text[0] == ',' then
      var rest := Fields(text[1..], room - 1);
      if rest.Malformed? then Malformed else Parsed([""] + rest.list)
    else Extend([text[0]], Fields(text[1..], room - 1))
  }

  /** The parameters of `text` when a backslash has no meaning. */
  function Split(text: string): (fields: seq<string>)
    ensures fields != []
  {
    if text == [] then [""]
    else if text[0] == ',' then [""] + Split(text[1..])
    else [[text[0]] + Split(text[1..])[0]] + Split(text[1..])[1..]
  }

  function EscapeChar(c: char): string {
    if c in {',', '\\'} then ['\\', c] else [c]
  }

  function Escape(s: string): string {
    if s == [] then [] else EscapeChar(s[0]) + Escape(s[1..])
  }

  function Join(fields: seq<string>): string
    requires fields != []
  {
    if |fields| == 1 then Escape(fields[0]) else Escape(fields[0]) + "," + Join(fields[1..])
  }

  // ----- Parsing inverts escaping -----

  lemma {:induction false} EscapedPrefix(s: string, rest: string, room: int)
    requires |Escape(s)| <= room
    ensures Fields(Escape(s) + rest, room) == Extend(s, Fields(rest, room - |Escape(s)|))
  {
    hide Fields, Extend;
    if s == [] {
      assert Escape(s) + rest == rest;
      ExtendNothing(Fields(rest, room));
    } else {
      var e, tail := EscapeChar(s[0]), Escape(s[1..]) + rest;
      assert Escape(s) + rest == e + tail;
      EscapedChar(s[0], tail, room);
      EscapedPrefix(s[1..], rest, room - |e|);
      ExtendTwice([s[0]], s[1..], Fields(rest, room - |Escape(s)|));
      assert [s[0]] + s[1..] == s;
    }
  }

  lemma EscapedChar(c: char, tail: string, room: int)
    requires |EscapeChar(c)| <= room
    ensures Fields(EscapeChar(c) + tail, room) == Extend([c], Fields(tail, room - |EscapeChar(c)|))
  {
    var e := EscapeChar(c);
    assert (e + tail)[|e|..] == tail;
  }

  lemma ExtendNothing(fields: Parsed)
    ensures Extend("", fields) == fields
  {
    if fields.Parsed? && fields.list != [] {
      assert "" + fields.list[0] == fields.list[0];
      assert [fields.list[0]] + fields.list[1..] == fields.list;
    }
  }

  lemma ExtendTwice(a: string, b: string, fields: Parsed)
    ensures Extend(a, Extend(b, fields)) == Extend(a + b, fields)
  {
    if fields.Parsed? && fields.list != [] {
      assert a + (b + fields.list[0]) == a + b + fields.list[0];
    }
  }

  lemma {:induction false} JoinedFields(fields: seq<string>, room: int)
    requires fields != [] && |Join(fields)| <= room
    ensures Fields(Join(fields), room) == Parsed(fields)
  {
    var f, rest := fields[0], fields[1..];
    assert fields == [f] + rest;
    JoinParts(f, rest);
    hide Escape, Join;
    if rest == [] {
      EscapedPrefix(f, "", room);
      assert Escape(f) + "" == Escape(f) && f + "" == f;
    } else {
      var tail := "," + Join(rest);
      EscapedPrefix(f, tail, room);
      CommaFields(rest, room - |Escape(f)|);
      JoinedFields(rest, room - |Escape(f)| - 1);
      assert f + "" == f && ([""] + rest)[1..] == rest;
    }
  }

  lemma CommaFields(rest: seq<string>, room: int)
    requires rest != [] && room > 0
    ensures var after := Fields(Join(rest), room - 1);
            Fields("," + Join(rest), room) == if after.Malformed? then Malformed else Parsed([""] + after.list)
  {
    hide Join;
    assert ("," + Join(rest))[1..] == Join(rest);
  }

  lemma EscapeCons(c: char, s: string)
    ensures Escape([c] + s) == EscapeChar(c) + Escape(s)
  {
    assert ([c] + s)[1..] == s;
  }

  lemma JoinExtend(c: char, fields: seq<string>)
    requires fields != []
    ensures Join([[c] + fields[0]] + fields[1..]) == EscapeChar(c) + Join(fields)
  {
    var f, rest := fields[0], fields[1..];
    EscapeCons(c, f);
    JoinParts([c] + f, rest);
    JoinParts(f, rest);
    assert fields == [f] + rest;
    hide Escape, EscapeChar, Join;
    if rest != [] {
      Reassociate(EscapeChar(c), Escape(f), "," + Join(rest));
    }
  }

  lemma JoinParts(f: string, rest: seq<string>)
    ensures Join([f] + rest) == if rest == [] then Escape(f) else Escape(f) + ("," + Join(rest))
  {
    assert ([f] + rest)[1..] == rest;
    if rest != [] {
      Reassociate(Escape(f), ",", Join(rest));
    }
  }

  lemma Reassociate(a: string, b: string, c: string)
    ensures a + b + c == a + (b + c)
  {
  }

  lemma {:induction false} FieldsJoin(text: string, room: int)
    requires |text| <= room && Fields(text, room).Parsed?
    ensures Join(Fields(text, room).list) == text
  {
    hide Join, Escape;
    if text == [] {
      JoinNothing();
    } else if text[0] == '\\' {
      FieldsJoin(text[2..], room - 2);
      JoinExtend(text[1], Fields(text[2..], room - 2).list);
      assert text == [text[0], text[1]] + text[2..];
    } else if text[0] == ',' {
      FieldsJoin(text[1..], room - 1);
      JoinEmptyFirst(Fields(text[1..], room - 1).list);
      assert text == "," + text[1..];
    } else {
      FieldsJoin(text[1..], room - 1);
      JoinExtend(text[0], Fields(text[1..], room - 1).list);
      assert text == [text[0]] + text[1..];
    }
  }

  lemma JoinNothing()
    ensures Join([""]) == ""
  {
  }

  lemma JoinEmptyFirst(rest: seq<string>)
    requires rest != []
    ensures Join([""] + rest) == "," + Join(rest)
  {
    assert ([""] + rest)[1..] == rest;
    assert Escape("") + "," + Join(rest) == "," + Join(rest);
  }

  /** Within the buffer's room, a text has these parameters exactly when it is their escaped join. */
  lemma ParsingInvertsEscaping(text: string, fields: seq<string>, room: int)
    requires fields != [] && |text| <= room
    ensures Fields(text, room) == Parsed(fields) <==> text == Join(fields)
  {
    if text == Join(fields) {
      JoinedFields(fields, room);
    } else if Fields(text, room) == Parsed(fields) {
      FieldsJoin(text, room);
    }
  }

  /** Without backslashes both parsers see the same parameters. */
  lemma {:induction false} NoBackslashSplits(text: string, room: int)
    requires |text| <= room && '\\' !in text
    ensures Fields(text, room) == Parsed(Split(text))
  {
    if text != [] {
      NoBackslashSplits(text[1..], room - 1);
    }
  }

  // ----- The parsers -----

  /** The recorded offsets are those of C strings equal to the parameters. */
  predicate Holds(buf: seq<char>, argv: seq<nat>, fields: seq<string>) {
    && |argv| == |fields|
    && forall k :: 0 <= k < |argv| ==> HoldsAt(buf, argv[k], fields[k])
  }

  predicate HoldsAt(buf: seq<char>, at: nat, field: string) {
    at + |field| < |buf| && buf[at..at + |field|] == field && buf[at + |field|] == NUL
  }

  /** All that was parsed so far, followed by what is still to come. */
  function Combine(done: seq<string>, current: string, rest: Parsed): Parsed {
    var r := Extend(current, rest);
    if r.Malformed? then Malformed else Parsed(done + r.list)
  }

  /** Either the parameters, or -1 for a stray backslash or too many parameters. */
  predicate Outcome(fields: Parsed, argc: int, buf: seq<char>, argv: seq<nat>) {
    if fields.Parsed? && |fields.list| < MAX_ARGC
    then argc == |fields.list| + 1 && Holds(buf, argv, fields.list)
    else argc == -1
  }

  /**
    Between two characters: `done` was parsed into finished C strings below `pos`, `current` is
    the parameter being copied to pos..j, and the text from `i` on is still untouched.
   */
  predicate Parsing(text: string, room: int, buf: seq<char>, argv: seq<nat>, done: seq<string>, current: string,
                    i: int, j: int, pos: int)
  {
    && 0 <= pos <= j <= i <= |text| < |buf|
    && buf[i..|text|] == text[i..] && buf[|text|] == NUL
    && Holds(buf, argv, done)
    && (forall k :: 0 <= k < |argv| ==> argv[k] + |done[k]| < pos)
    && buf[pos..j] == current
    && Fields(text, room) == Combine(done, current, Fields(text[i..], room - i))
  }

  lemma HoldsStill(buf: seq<char>, argv: seq<nat>, done: seq<string>, j: nat, c: char)
    requires Holds(buf, argv, done) && j < |buf|
    requires forall k :: 0 <= k < |argv| ==> argv[k] + |done[k]| < j
    ensures Holds(buf[j := c], argv, done)
  {
    forall k | 0 <= k < |argv| ensures HoldsAt(buf[j := c], argv[k], done[k]) {
      assert HoldsAt(buf, argv[k], done[k]);
      assert buf[j := c][argv[k]..argv[k] + |done[k]|] == buf[argv[k]..argv[k] + |done[k]|];
    }
  }

  lemma CombineChar(done: seq<string>, current: string, c: char, rest: Parsed)
    ensures Combine(done, current, Extend([c], rest)) == Combine(done, current + [c], rest)
  {
    ExtendTwice(current, [c], rest);
  }

  lemma CombineComma(done: seq<string>, current: string, rest: seq<string>)
    ensures Combine(done, current, Parsed([""] + rest)) == Combine(done + [current], "", Parsed(rest))
  {
    ExtendNothing(Parsed(rest));
    assert current + "" == current && ([""] + rest)[1..] == rest;
    assert done + ([current] + rest) == done + [current] + rest;
  }

  /** The character `c`, read as `width` characters of the text, joins the current parameter. */
  lemma CharStep(text: string, room: int, buf: seq<char>, argv: seq<nat>, done: seq<string>, current: string,
                 i: int, j: int, pos: int, c: char, width: int)
    requires Parsing(text, room, buf, argv, done, current, i, j, pos)
    requires 0 < width && i + width <= |text|
    requires Fields(text[i..], room - i) == Extend([c], Fields(text[i + width..], room - i - width))
    ensures Parsing(text, room, buf[j := c], argv, done, current + [c], i + width, j + 1, pos)
  {
    hide Fields, Combine, Holds;
    CombineChar(done, current, c, Fields(text[i + width..], room - i - width));
    assert buf[j := c][i + width..|text|] == buf[i..|text|][width..] == text[i + width..];
    assert buf[j := c][pos..j + 1] == current + [c];
    HoldsEnds(buf, argv, done);
    HoldsStill(buf, argv, done, j, c);
  }

  lemma HoldsEnds(buf: seq<char>, argv: seq<nat>, done: seq<string>)
    requires Holds(buf, argv, done)
    ensures |argv| == |done|
  {
  }

  /** The current parameter ends here: it is terminated in place and recorded. */
  lemma HoldsMore(buf: seq<char>, argv: seq<nat>, done: seq<string>, current: string, j: nat, pos: nat)
    requires pos <= j < |buf| && Holds(buf, argv, done) && buf[pos..j] == current
    requires forall k :: 0 <= k < |argv| ==> argv[k] + |done[k]| < pos
    ensures Holds(buf[j := NUL], argv + [pos], done + [current])
  {
    HoldsStill(buf, argv, done, j, NUL);
    assert buf[j := NUL][pos..j] == current;
    var buf', argv', done' := buf[j := NUL], argv + [pos], done + [current];
    forall k | 0 <= k < |argv'| ensures HoldsAt(buf', argv'[k], done'[k]) {
      if k < |argv| {
        assert HoldsAt(buf', argv[k], done[k]);
      }
    }
  }

  lemma CommaStep(text: string, room: int, buf: seq<char>, argv: seq<nat>, done: seq<string>, current: string,
                  i: int, j: int, pos: int)
    requires Parsing(text, room, buf, argv, done, current, i, j, pos)
    requires i < room && i < |text| && text[i] == ','
    ensures Parsing(text, room, buf[j := NUL], argv + [pos], done + [current], "", i + 1, j + 1, j + 1)
  {
    assert text[i..][1..] == text[i + 1..];
    var rest := Fields(text[i + 1..], room - i - 1);
    assert Fields(text[i..], room - i) == if rest.Malformed? then Malformed else Parsed([""] + rest.list);
    hide Fields, Combine, Holds;
    if rest.Parsed? {
      CombineComma(done, current, rest.list);
    } else {
      CombineNone(done, current);
      CombineNone(done + [current], "");
    }
    assert buf[j := NUL][i + 1..|text|] == buf[i..|text|][1..] == text[i + 1..];
    HoldsEnds(buf, argv, done);
    HoldsMore(buf, argv, done, current, j, pos);
  }

  lemma CombineNone(done: seq<string>, current: string)
    ensures Combine(done, current, Malformed) == Malformed
  {
  }

  lemma ParsingStarts(text: string, room: int, buf: seq<char>)
    requires |text| < |buf| && buf[..|text|] == text && buf[|text|] == NUL
    ensures Parsing(text, room, buf, [], [], "", 0, 0, 0)
  {
    assert text[0..] == text && buf[0..|text|] == text;
    ExtendNothing(Fields(text, room));
    assert Fields(text, room).Parsed? ==> [] + Fields(text, room).list == Fields(text, room).list;
  }

  /** How the text goes on at `i`. */
  lemma FieldsHere(text: string, room: int, i: nat)
    requires i < room && i < |text|
    ensures text[i] == '\\' && i + 1 < |text| && text[i + 1] in {',', '\\'} ==>
              Fields(text[i..], room - i) == Extend([text[i + 1]], Fields(text[i + 2..], room - i - 2))
    ensures text[i] == '\\' && (i + 1 == |text| || text[i + 1] !in {',', '\\'}) ==>
              Fields(text[i..], room - i) == Malformed
    ensures text[i] !in {'\\', ','} ==>
              Fields(text[i..], room - i) == Extend([text[i]], Fields(text[i + 1..], room - i - 1))
  {
    assert text[i..][1..] == text[i + 1..];
    if i + 1 < |text| {
      assert text[i..][2..] == text[i + 2..];
    }
  }

  /** What the loop may read and write next. */
  predicate Here(text: string, buf: seq<char>, argv: seq<nat>, done: seq<string>, i: int, j: int) {
    && 0 <= j <= i <= |text| < |buf| && |argv| == |done|
    && buf[i] == (if i < |text| then text[i] else NUL)
    && (i < |text| ==> buf[i + 1] == if i + 1 < |text| then text[i + 1] else NUL)
  }

  lemma ParsingHere(text: string, room: int, buf: seq<char>, argv: seq<nat>, done: seq<string>, current: string,
                    i: int, j: int, pos: int)
    requires Parsing(text, room, buf, argv, done, current, i, j, pos)
    ensures Here(text, buf, argv, done, i, j)
  {
    hide Fields, Combine;
    assert forall k :: i <= k < |text| ==> buf[k] == buf[i..|text|][k - i] == text[k];
  }

  lemma EscapeStep(text: string, room: int, buf: seq<char>, argv: seq<nat>, done: seq<string>, current: string,
                   i: int, j: int, pos: int)
    requires Parsing(text, room, buf, argv, done, current, i, j, pos) && Here(text, buf, argv, done, i, j)
    requires i < room && i < |text| && text[i] == '\\' && buf[i + 1] in {',', '\\'}
    ensures Parsing(text, room, buf[j := buf[i + 1]], argv, done, current + [buf[i + 1]], i + 2, j + 1, pos)
  {
    hide Fields, Combine, Holds, Parsing, Extend;
    FieldsHere(text, room, i);
    CharStep(text, room, buf, argv, done, current, i, j, pos, text[i + 1], 2);
  }

  lemma PlainStep(text: string, room: int, buf: seq<char>, argv: seq<nat>, done: seq<string>, current: string,
                  i: int, j: int, pos: int)
    requires Parsing(text, room, buf, argv, done, current, i, j, pos) && Here(text, buf, argv, done, i, j)
    requires i < room && i < |text| && text[i] !in {',', '\\'}
    ensures Parsing(text, room, buf[j := buf[i]], argv, done, current + [buf[i]], i + 1, j + 1, pos)
  {
    hide Fields, Combine, Holds, Parsing, Extend;
    FieldsHere(text, room, i);
    CharStep(text, room, buf, argv, done, current, i, j, pos, text[i], 1);
  }

  lemma BadEscape(text: string, room: int, buf: seq<char>, argv: seq<nat>, done: seq<string>, current: string,
                  i: int, j: int, pos: int)
    requires Parsing(text, room, buf, argv, done, current, i, j, pos) && Here(text, buf, argv, done, i, j)
    requires i < room && i < |text| && text[i] == '\\' && buf[i + 1] !in {',', '\\'}
    ensures Outcome(Fields(text, room), -1, buf, argv)
  {
    hide Fields, Combine, Holds, Extend;
    FieldsHere(text, room, i);
    CombineNone(done, current);
  }

  lemma ParsingEnds(text: string, room: int, buf: seq<char>, argv: seq<nat>, done: seq<string>, current: string,
                    i: int, j: int, pos: int)
    requires Parsing(text, room, buf, argv, done, current, i, j, pos)
    requires i >= room || i == |text|
    requires |done| + 1 < MAX_ARGC
    ensures Outcome(Fields(text, room), |argv| + 2, buf[j := NUL], argv + [pos])
  {
    HoldsEnds(buf, argv, done);
    HoldsMore(buf, argv, done, current, j, pos);
    assert Fields(text[i..], room - i) == Parsed([""]);
    assert current + "" == current && [current] + [""][1..] == [current];
  }

  lemma TooManyFields(text: string, room: int, buf: seq<char>, argv: seq<nat>, done: seq<string>, current: string,
                      i: int, j: int, pos: int)
    requires Parsing(text, room, buf, argv, done, current, i, j, pos)
    requires |done| + 1 == MAX_ARGC
    ensures Outcome(Fields(text, room), -1, buf, argv)
  {
    hide Fields, Holds;
  }

  /** parse_param_advance: at most `room` characters of the C string in `buf` are looked at. */
  method ParseAdvance(buf: array?<char>, ghost len: nat, room: nat) returns (argc: int, argv: seq<nat>)
    requires buf != null ==> CString(buf[..], len)
    modifies buf
    ensures buf == null ==> argc == 1 && argv == []
    ensures buf != null ==> Outcome(old(Fields(buf[..len], room)), argc, buf[..], argv)
    ensures buf != null ==> buf[len + 1..] == old(buf[len + 1..])
  {
    argc, argv := 1, [];
    if buf == null {
      return;
    }
    ghost var text, done, current := buf[..len], [], "";
    var i, j, pos, offset := 0, 0, 0, 1;
    ParsingStarts(text, room, buf[..]);
    hide Fields, Combine, Holds, Extend, Parsing, CString, Outcome;
    ParsingHere(text, room, buf[..], argv, done, current, i, j, pos);
    while i < room && buf[i] != NUL && argc < MAX_ARGC
      invariant Parsing(text, room, buf[..], argv, done, current, i, j, pos)
      invariant Here(text, buf[..], argv, done, i, j) && argc == |argv| + 1 <= MAX_ARGC
      invariant buf[len + 1..] == old(buf[len + 1..])
      decreases len - i
    {
      ghost var before := buf[..];
      if buf[i] == '\\' {
        if buf[i + 1] != ',' && buf[i + 1] != '\\' {
          BadEscape(text, room, before, argv, done, current, i, j, pos);
          argc := -1;
          return;
        }
        EscapeStep(text, room, before, argv, done, current, i, j, pos);
        current := current + [buf[i + 1]];
        buf[j] := buf[i + 1];
        offset := 2;
      } else if buf[i] == ',' {
        CommaStep(text, room, before, argv, done, current, i, j, pos);
        buf[j] := NUL;
        done, current := done + [current], "";
        argv := argv + [pos];
        argc := argc + 1;
        pos := j + 1;
        offset := 1;
      } else {
        PlainStep(text, room, before, argv, done, current, i, j, pos);
        current := current + [buf[i]];
        buf[j] := buf[i];
        offset := 1;
      }
      assert buf[..] == before[j := buf[j]];
      j := j + 1;
      i := i + offset;
      ParsingHere(text, room, buf[..], argv, done, current, i, j, pos);
    }
    if argc < MAX_ARGC {
      ParsingEnds(text, room, buf[..], argv, done, current, i, j, pos);
      ghost var before := buf[..];
      buf[j] := NUL;
      assert buf[..] == before[j := NUL];
      argv := argv + [pos];
      argc := argc + 1;
    } else {
      TooManyFields(text, room, buf[..], argv, done, current, i, j, pos);
      argc := -1;
    }
  }

  /** Splitting at the first comma, or at the end. */
  lemma {:induction false} SplitAtComma(text: string, k: nat)
    requires k <= |text| && ',' !in text[..k] && (k < |text| ==> text[k] == ',')
    ensures Split(text) == [text[..k]] + (if k < |text| then Split(text[k + 1..]) else [])
  {
    if k > 0 {
      assert text[1..][..k - 1] == text[..k][1..];
      SplitAtComma(text[1..], k - 1);
      assert [text[0]] + text[1..][..k - 1] == text[..k];
      assert k < |text| ==> text[1..][k..] == text[k + 1..];
    }
  }

  /** strsep with a comma: the parameter at `at` ends in place; -1 stands for no more text. */
  method Separate(buf: array<char>, at: nat, ghost len: nat) returns (next: int)
    requires at <= len < buf.Length && buf[len] == NUL && NUL !in buf[at..len]
    modifies buf
    ensures var text := old(buf[at..len]);
            var f := Split(text)[0];
            && at + |f| <= len && f <= text
            && buf[..] == old(buf[..])[at + |f| := NUL]
            && (next == -1 ==> Split(text) == [f])
            && (next != -1 ==> next == at + |f| + 1 <= len && Split(text) == [f] + Split(old(buf[next..len])))
  {
    ghost var text := buf[at..len];
    var k := at;
    while buf[k] != NUL && buf[k] != ','
      invariant at <= k <= len
      invariant ',' !in text[..k - at]
      decreases len - k
    {
      assert buf[k] == text[k - at];
      assert text[..k + 1 - at] == text[..k - at] + [text[k - at]];
      k := k + 1;
    }
    assert k < len ==> buf[k] == text[k - at];
    SplitAtComma(text, k - at);
    assert k < len ==> text[k - at + 1..] == buf[k + 1..len];
    next := if buf[k] == NUL then -1 else k + 1;
    buf[k] := NUL;
  }

  /** Between two parameters; `temp` is where the rest of the text starts, if there is any. */
  predicate Splitting(fields: seq<string>, buf: seq<char>, len: nat, argv: seq<nat>, done: seq<string>, temp: int) {
    && -1 <= temp <= len < |buf| && buf[len] == NUL
    && Holds(buf, argv, done) && |argv| == |done|
    && (temp == -1 ==> fields == done)
    && (temp != -1 ==>
          && fields == done + Split(buf[temp..len])
          && NUL !in buf[temp..len]
          && forall k :: 0 <= k < |argv| ==> argv[k] + |done[k]| < temp)
  }

  lemma SplittingStarts(buf: seq<char>, len: nat)
    requires CString(buf, len)
    ensures Splitting(Split(buf[..len]), buf, len, [], [], 0)
  {
    assert buf[0..len] == buf[..len];
  }

  lemma SplittingStep(fields: seq<string>, buf: seq<char>, len: nat, argv: seq<nat>, done: seq<string>,
                      temp: nat, next: int)
    requires Splitting(fields, buf, len, argv, done, temp)
    requires var text := buf[temp..len];
             var f := Split(text)[0];
             && temp + |f| <= len && f <= text
             && (next == -1 ==> Split(text) == [f])
             && (next != -1 ==> next == temp + |f| + 1 <= len && Split(text) == [f] + Split(buf[next..len]))
    ensures var f := Split(buf[temp..len])[0];
            Splitting(fields, buf[temp + |f| := NUL], len, argv + [temp], done + [f], next)
  {
    hide Split, Holds;
    var text := buf[temp..len];
    var f := Split(text)[0];
    assert buf[temp..temp + |f|] == text[..|f|] == f;
    HoldsMore(buf, argv, done, f, temp + |f|, temp);
    if next != -1 {
      var buf' := buf[temp + |f| := NUL];
      assert buf'[next..len] == buf[next..len] == text[next - temp..];
      assert done + ([f] + Split(buf'[next..len])) == done + [f] + Split(buf'[next..len]);
    }
  }

  lemma SplittingEnds(fields: seq<string>, buf: seq<char>, len: nat, argv: seq<nat>, done: seq<string>, temp: int)
    requires Splitting(fields, buf, len, argv, done, temp)
    ensures |done| <= |fields| && Holds(buf, argv, fields[..|done|])
    ensures temp == -1 ==> |done| == |fields|
  {
    assert fields[..|done|] == done;
  }

  /** One turn of the loop of parse_param. */
  method NextParam(buf: array<char>, temp: int, ghost len: nat, ghost fields: seq<string>, ghost argv: seq<nat>,
                   ghost done: seq<string>)
    returns (next: int, ghost field: string)
    requires temp != -1 && Splitting(fields, buf[..], len, argv, done, temp)
    modifies buf
    ensures Splitting(fields, buf[..], len, argv + [temp], done + [field], next)
  {
    hide Split, Holds;
    ghost var before := buf[..];
    assert before[temp..len] == buf[temp..len];
    field := Split(buf[temp..len])[0];
    next := Separate(buf, temp, len);
    assert next != -1 ==> old(buf[next..len]) == before[next..len];
    SplittingStep(fields, before, len, argv, done, temp, next);
  }

  /** parse_param: the parameters between commas, of which no more than 22 are recorded. */
  method ParseParam(buf: array?<char>, ghost len: nat) returns (argc: int, argv: seq<nat>)
    requires buf != null ==> CString(buf[..], len)
    modifies buf
    ensures buf == null ==> argc == 1 && argv == []
    ensures buf != null ==>
              var fields := old(Split(buf[..len]));
              var n := if |fields| < MAX_ARGC then |fields| else MAX_ARGC - 1;
              argc == n + 1 && Holds(buf[..], argv, fields[..n])
  {
    argc, argv := 1, [];
    if buf == null {
      return;
    }
    ghost var fields := Split(buf[..len]);
    ghost var done: seq<string> := [];
    var temp: int := 0;
    SplittingStarts(buf[..], len);
    hide Split, Holds, Splitting, CString;
    while argc < MAX_ARGC
      invariant argc == |argv| + 1 == |done| + 1 <= MAX_ARGC
      invariant Splitting(fields, buf[..], len, argv, done, temp)
    {
      if temp == -1 {
        break;
      }
      var next, f := NextParam(buf, temp, len, fields, argv, done);
      argv := argv + [temp];
      done := done + [f];
      temp := next;
      argc := argc + 1;
    }
    SplittingEnds(fields, buf[..], len, argv, done, temp);
  }

  // ----- Dispatch -----

  /** The handler keeps argc in sixteen bits and calls the command only within this range. */
  predicate Dispatched(argc: int) {
    1 <= argc % 0x1_0000 < MAX_ARGC
  }

  /** A command is called with exactly the parameters whose escaped join was sent, at most 21. */
  lemma DispatchedIffJoined(text: string, room: int, argc: int, buf: seq<char>, argv: seq<nat>)
    requires |text| <= room && Outcome(Fields(text, room), argc, buf, argv)
    ensures Dispatched(argc) <==>
              exists fields: seq<string> ::
                  0 < |fields| <= MAX_ARGC - 2 && text == Join(fields) && Holds(buf, argv, fields)
  {
    hide Fields, Join, Holds;
    var parsed := Fields(text, room);
    if parsed.Parsed? {
      ParsingInvertsEscaping(text, parsed.list, room);
    }
    forall fields: seq<string> | 0 < |fields| && text == Join(fields) ensures parsed == Parsed(fields) {
      ParsingInvertsEscaping(text, fields, room);
    }
  }

  /** The end of atcmd_handler: `param` is what follows '=', or null without one. The command is
      called without parameters, or with those whose escaped join was sent if that fits the buffer. */
  method Dispatch(param: array?<char>, ghost len: nat, room: nat) returns (called: bool, argc: int, argv: seq<nat>)
    requires param != null ==> CString(param[..], len)
    modifies param
    ensures param == null ==> called && argc == 1 && argv == []
    ensures param != null ==>
              var parsed := old(Fields(param[..len], room));
              && (called <==> parsed.Parsed? && |parsed.list| <= MAX_ARGC - 2)
              && (called ==> argc == |parsed.list| + 1 && Holds(param[..], argv, parsed.list))
    ensures param != null && len <= room ==>
              (called <==> exists fields: seq<string> ::
                 0 < |fields| <= MAX_ARGC - 2 && old(param[..len]) == Join(fields) && Holds(param[..], argv, fields))
  {
    hide Fields, Join, Holds;
    argc, argv := ParseAdvance(param, len, room);
    called := 1 <= argc % 0x1_0000 < MAX_ARGC;
    if param != null && len <= room {
      DispatchedIffJoined(old(param[..len]), room, argc, param[..], argv);
    }
  }
}
