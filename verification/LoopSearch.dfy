/**
 Detection of dependency loops by a depth-first search over `_dependents`. A choice that is entered
 through one of its symbols is searched through all the others; a symbol that is entered through its
 choice does not lead back to it at once.
 */
module LoopSearch {
  import opened Expressions
  import opened Config
  import opened Caching

  /** `next(s)` are the items that have `s` in a condition or value, in the order they are searched. */
  datatype Net = Net(
    items: set<Item>,
    next: SymId -> seq<Item>,
    owner: SymId -> Option<ChoiceId>,
    members: ChoiceId -> seq<SymId>)

  ghost predicate Sane(net: Net) {
    && (forall s: SymId, j | SymItem(s) in net.items && j in net.next(s) :: j in net.items)
    && (forall s: SymId | SymItem(s) in net.items && net.owner(s).Some? :: ChoiceItem(net.owner(s).value) in net.items)
    && (forall c: ChoiceId, s | ChoiceItem(c) in net.items && s in net.members(c) ::
          SymItem(s) in net.items && net.owner(s) == Some(c))
  }

  // ----- The search -----

  datatype Colour = White | Grey | Black

  /** `order` records the items in the order in which they were finished. */
  datatype Progress = Progress(visited: map<Item, Colour>, order: seq<Item>)

  function ColourOf(p: Progress, i: Item): Colour {
    if i in p.visited then p.visited[i] else White
  }

  function Unvisited(net: Net, p: Progress): set<Item> {
    set i | i in net.items && ColourOf(p, i) == White
  }

  function Enter(p: Progress, i: Item): Progress {
    p.(visited := p.visited[i := Grey])
  }

  function Finish(p: Progress, i: Item): Progress {
    Progress(p.visited[i := Black], p.order + [i])
  }

  datatype Found = NoLoop | Part(loop: seq<Item>) | Raised(loop: seq<Item>)

  /** `_found_dep_loop`; an error that was raised goes on. */
  function FoundLoop(found: Found, cur: Item): Found {
    if !found.Part? || found.loop == [] then found
    else if cur != found.loop[0] then Part(found.loop + [cur])
    else Raised(found.loop)
  }

  ghost function SearchSym(net: Net, p: Progress, s: SymId, ignoreChoice: bool): (r: (Progress, Found))
    requires Sane(net) && SymItem(s) in net.items
    ensures Unvisited(net, r.0) <= Unvisited(net, p)
    decreases Unvisited(net, p), 1
  {
    var i := SymItem(s);
    if ColourOf(p, i) == Black then (p, NoLoop)
    else if ColourOf(p, i) == Grey then (p, Part([i]))
    else
      assert i in Unvisited(net, p) && i !in Unvisited(net, Enter(p, i));
      var (q, found) := SearchNext(net, Enter(p, i), s, 0);
      if found != NoLoop then (q, FoundLoop(found, i))
      else
        var (q', found') :=
          if net.owner(s).Some? && !ignoreChoice then SearchChoice(net, q, net.owner(s).value, Some(s))
          else (q, NoLoop);
        if found' != NoLoop then (q', FoundLoop(found', i)) else (Finish(q', i), NoLoop)
  }

  /** The loop over the dependents of a symbol, from the n-th on. */
  ghost function SearchNext(net: Net, p: Progress, s: SymId, n: nat): (r: (Progress, Found))
    requires Sane(net) && SymItem(s) in net.items && n <= |net.next(s)|
    ensures Unvisited(net, r.0) <= Unvisited(net, p)
    decreases Unvisited(net, p), 2, |net.next(s)| - n
  {
    if n == |net.next(s)| then (p, NoLoop)
    else
      assert net.next(s)[n] in net.next(s);
      var (q, found) :=
        match net.next(s)[n]
        case SymItem(t) => SearchSym(net, p, t, false)
        case ChoiceItem(c) => SearchChoice(net, p, c, None);
      if found != NoLoop then (q, found) else SearchNext(net, q, s, n + 1)
  }

  ghost function SearchChoice(net: Net, p: Progress, c: ChoiceId, skip: Option<SymId>): (r: (Progress, Found))
    requires Sane(net) && ChoiceItem(c) in net.items
    ensures Unvisited(net, r.0) <= Unvisited(net, p)
    decreases Unvisited(net, p), 1
  {
    var i := ChoiceItem(c);
    if ColourOf(p, i) == Black then (p, NoLoop)
    else if ColourOf(p, i) == Grey then (p, Part([i]))
    else
      assert i in Unvisited(net, p) && i !in Unvisited(net, Enter(p, i));
      var (q, found) := SearchMembers(net, Enter(p, i), c, skip, 0);
      if found != NoLoop then (q, FoundLoop(found, i)) else (Finish(q, i), NoLoop)
  }

  ghost function SearchMembers(net: Net, p: Progress, c: ChoiceId, skip: Option<SymId>, n: nat): (r: (Progress, Found))
    requires Sane(net) && ChoiceItem(c) in net.items && n <= |net.members(c)|
    ensures Unvisited(net, r.0) <= Unvisited(net, p)
    decreases Unvisited(net, p), 2, |net.members(c)| - n
  {
    if n == |net.members(c)| then (p, NoLoop)
    else
      var s := net.members(c)[n];
      if skip == Some(s) then SearchMembers(net, p, c, skip, n + 1)
      else
        assert s in net.members(c);
        var (q, found) := SearchSym(net, p, s, true);
        if found != NoLoop then (q, found) else SearchMembers(net, q, c, skip, n + 1)
  }

  // ----- The code -----

  class Checker {
    const net: Net
    var visited: map<Item, Colour>
    ghost var order: seq<Item>

    ghost function Now(): Progress
      reads this
    {
      Progress(visited, order)
    }

    constructor (net: Net)
      ensures this.net == net && Now() == Progress(map[], [])
    {
      this.net, visited, order := net, map[], [];
    }

    /** _check_dep_loop_sym */
    method CheckSym(s: SymId, ignoreChoice: bool) returns (found: Found)
      requires Sane(net) && SymItem(s) in net.items
      modifies this
      ensures (Now(), found) == SearchSym(net, old(Now()), s, ignoreChoice)
      decreases Unvisited(net, Now()), 1
    {
      hide Sane, SearchNext, SearchChoice;
      var i := SymItem(s);
      if i in visited && visited[i] == Black { return NoLoop; }
      if i in visited && visited[i] == Grey { return Part([i]); }
      visited := visited[i := Grey];
      ghost var start := Now();
      assert i in Unvisited(net, old(Now())) && i !in Unvisited(net, start);
      assert start == Enter(old(Now()), i);
      assert Unvisited(net, start) < Unvisited(net, old(Now()));
      for n := 0 to |net.next(s)|
        invariant SearchNext(net, start, s, 0) == SearchNext(net, Now(), s, n)
        invariant Unvisited(net, Now()) <= Unvisited(net, start)
      {
        NextStep(net, Now(), s, n);
        match net.next(s)[n] {
          case SymItem(t) => found := CheckSym(t, false);
          case ChoiceItem(c) => found := CheckChoice(c, None);
        }
        if found != NoLoop { return FoundLoop(found, i); }
      }
      NextEnd(net, Now(), s);
      if net.owner(s).Some? && !ignoreChoice {
        OwnerIsItem(net, s);
        found := CheckChoice(net.owner(s).value, Some(s));
        if found != NoLoop { return FoundLoop(found, i); }
      }
      visited, order := visited[i := Black], order + [i];
      return NoLoop;
    }

    /** _check_dep_loop_choice */
    method CheckChoice(c: ChoiceId, skip: Option<SymId>) returns (found: Found)
      requires Sane(net) && ChoiceItem(c) in net.items
      modifies this
      ensures (Now(), found) == SearchChoice(net, old(Now()), c, skip)
      decreases Unvisited(net, Now()), 1
    {
      hide Sane, SearchMembers, SearchSym;
      var i := ChoiceItem(c);
      if i in visited && visited[i] == Black { return NoLoop; }
      if i in visited && visited[i] == Grey { return Part([i]); }
      visited := visited[i := Grey];
      ghost var start := Now();
      assert i in Unvisited(net, old(Now())) && i !in Unvisited(net, start);
      assert start == Enter(old(Now()), i);
      assert Unvisited(net, start) < Unvisited(net, old(Now()));
      for n := 0 to |net.members(c)|
        invariant SearchMembers(net, start, c, skip, 0) == SearchMembers(net, Now(), c, skip, n)
        invariant Unvisited(net, Now()) <= Unvisited(net, start)
      {
        var s := net.members(c)[n];
        MembersStep(net, Now(), c, skip, n);
        if skip != Some(s) {
          found := CheckSym(s, true);
          if found != NoLoop { return FoundLoop(found, i); }
        }
      }
      MembersEnd(net, Now(), c, skip);
      visited, order := visited[i := Black], order + [i];
      return NoLoop;
    }
  }

  lemma NextStep(net: Net, p: Progress, s: SymId, n: nat)
    requires Sane(net) && SymItem(s) in net.items && n < |net.next(s)|
    ensures net.next(s)[n] in net.items
    ensures var r := if net.next(s)[n].SymItem? then SearchSym(net, p, net.next(s)[n].sym, false)
                     else SearchChoice(net, p, net.next(s)[n].choice, None);
            SearchNext(net, p, s, n) == if r.1 != NoLoop then r else SearchNext(net, r.0, s, n + 1)
  {
    assert net.next(s)[n] in net.next(s);
  }

  lemma NextEnd(net: Net, p: Progress, s: SymId)
    requires Sane(net) && SymItem(s) in net.items
    ensures SearchNext(net, p, s, |net.next(s)|) == (p, NoLoop)
  {
  }

  lemma OwnerIsItem(net: Net, s: SymId)
    requires Sane(net) && SymItem(s) in net.items && net.owner(s).Some?
    ensures ChoiceItem(net.owner(s).value) in net.items
  {
  }

  lemma MembersStep(net: Net, p: Progress, c: ChoiceId, skip: Option<SymId>, n: nat)
    requires Sane(net) && ChoiceItem(c) in net.items && n < |net.members(c)|
    ensures SymItem(net.members(c)[n]) in net.items
    ensures var s := net.members(c)[n];
            var r := if skip == Some(s) then (p, NoLoop) else SearchSym(net, p, s, true);
            SearchMembers(net, p, c, skip, n) == if r.1 != NoLoop then r else SearchMembers(net, r.0, c, skip, n + 1)
  {
    assert net.members(c)[n] in net.members(c);
  }

  lemma MembersEnd(net: Net, p: Progress, c: ChoiceId, skip: Option<SymId>)
    requires Sane(net) && ChoiceItem(c) in net.items
    ensures SearchMembers(net, p, c, skip, |net.members(c)|) == (p, NoLoop)
  {
  }

  // ----- Every loop that is reported is one -----

  ghost predicate Depends(net: Net, i: Item, j: Item) {
    i.SymItem? && j in net.next(i.sym)
  }

  /** A symbol leads to its choice and a choice to its symbols. */
  ghost predicate Owns(net: Net, i: Item, j: Item) {
    match (i, j)
    case (SymItem(s), ChoiceItem(c)) => net.owner(s) == Some(c)
    case (ChoiceItem(c), SymItem(s)) => s in net.members(c)
    case _ => false
  }

  ghost predicate Leads(net: Net, i: Item, j: Item) {
    Depends(net, i, j) || Owns(net, i, j)
  }

  ghost predicate Distinct(loop: seq<Item>) {
    forall a, b :: 0 <= a < b < |loop| ==> loop[a] != loop[b]
  }

  /** Each element leads to the one before it. */
  ghost predicate Chain(net: Net, loop: seq<Item>) {
    && loop != [] && Distinct(loop)
    && (forall i <- loop :: i in net.items)
    && (forall k :: 0 <= k < |loop| - 1 ==> Leads(net, loop[k + 1], loop[k]))
  }

  ghost predicate UsesDependency(net: Net, loop: seq<Item>)
    requires loop != []
  {
    Depends(net, loop[0], loop[|loop| - 1]) || exists k :: 0 <= k < |loop| - 1 && Depends(net, loop[k + 1], loop[k])
  }

  /** A loop without repetition that is more than a choice and one of its symbols. */
  ghost predicate IsLoop(net: Net, loop: seq<Item>) {
    Chain(net, loop) && Leads(net, loop[0], loop[|loop| - 1]) && UsesDependency(net, loop)
  }

  /** Choices and their symbols alone make no loop of more than two. */
  lemma StarsHaveNoLoop(net: Net, loop: seq<Item>)
    requires Sane(net) && Chain(net, loop) && Leads(net, loop[0], loop[|loop| - 1]) && |loop| >= 3
    ensures UsesDependency(net, loop)
  {
    assert Leads(net, loop[0 + 1], loop[0]) && Leads(net, loop[1 + 1], loop[1]);
    if Owns(net, loop[1], loop[0]) && Owns(net, loop[2], loop[1]) {
      if loop[1].SymItem? {
        OneOwner(net, loop[1].sym, loop[2], loop[0]);
        assert false;
      } else if |loop| > 3 {
        assert Leads(net, loop[2 + 1], loop[2]);
        if Owns(net, loop[3], loop[2]) {
          OneOwner(net, loop[2].sym, loop[3], loop[1]);
          assert false;
        }
      }
    }
  }

  lemma OneOwner(net: Net, s: SymId, i: Item, j: Item)
    requires Sane(net) && i in net.items && Owns(net, i, SymItem(s)) && Owns(net, SymItem(s), j)
    ensures i == j
  {
  }

  lemma Finished(p: Progress, q: Progress, i: Item)
    requires ColourOf(p, i) == White && SameGrey(Enter(p, i), q)
    ensures SameGrey(p, Finish(q, i))
  {
    var r := Finish(q, i);
    forall j
      ensures ColourOf(r, j) == Grey <==> ColourOf(p, j) == Grey
      ensures ColourOf(r, j) == White ==> ColourOf(p, j) == White
    {
      assert j != i ==> ColourOf(r, j) == ColourOf(q, j) && ColourOf(Enter(p, i), j) == ColourOf(p, j);
    }
  }

  lemma StillGrey(p: Progress, q: Progress, r: Progress)
    requires SameGrey(p, q) && SameGrey(q, r)
    ensures SameGrey(p, r)
  {
  }

  lemma PartBefore(net: Net, p: Progress, q: Progress, loop: seq<Item>, last: Item)
    requires SameGrey(p, q) && PartOf(net, q, loop, last)
    ensures PartOf(net, p, loop, last)
  {
    hide Chain;
  }

  /** Part of a loop, found while the items in it but the first were unvisited. */
  ghost predicate PartOf(net: Net, p: Progress, loop: seq<Item>, last: Item) {
    && Chain(net, loop) && loop[|loop| - 1] == last
    && ColourOf(p, loop[0]) == Grey && forall k :: 0 < k < |loop| ==> ColourOf(p, loop[k]) == White
  }

  /** What a search through `i` may report. */
  ghost predicate Sound(net: Net, p: Progress, i: Item, r: (Progress, Found)) {
    && (r.1.NoLoop? ==> SameGrey(p, r.0))
    && (r.1.Part? ==> PartOf(net, p, r.1.loop, i))
    && (r.1.Raised? ==> IsLoop(net, r.1.loop))
  }

  ghost predicate SameGrey(p: Progress, q: Progress) {
    forall i ::
      && (ColourOf(q, i) == Grey <==> ColourOf(p, i) == Grey)
      && (ColourOf(q, i) == White ==> ColourOf(p, i) == White)
  }

  /** A part of two that ends in a symbol entered through its choice, or in a choice entered
      through a symbol, is not just those two. */
  ghost predicate ShortPart(net: Net, s: SymId, ignoreChoice: bool, found: Found) {
    found.Part? && |found.loop| == 2 ==>
      Depends(net, SymItem(s), found.loop[0]) || (!ignoreChoice && Owns(net, SymItem(s), found.loop[0]))
  }

  ghost predicate ShortChoicePart(net: Net, c: ChoiceId, skip: Option<SymId>, found: Found) {
    found.Part? && |found.loop| == 2 ==> found.loop[0].SymItem? && Some(found.loop[0].sym) != skip
  }

  lemma Extended(net: Net, p: Progress, q: Progress, loop: seq<Item>, last: Item, cur: Item)
    requires cur in net.items && ColourOf(p, cur) == White && SameGrey(Enter(p, cur), q)
    requires PartOf(net, q, loop, last) && Leads(net, cur, last) && cur != loop[0]
    ensures PartOf(net, p, loop + [cur], cur)
  {
    var all := loop + [cur];
    assert forall k :: 0 <= k < |loop| ==> all[k] == loop[k] && loop[k] != cur;
    assert forall k :: 0 <= k < |loop| - 1 ==> Leads(net, loop[k + 1], loop[k]);
  }

  lemma {:induction false} SymIsSound(net: Net, p: Progress, s: SymId, ignoreChoice: bool)
    requires Sane(net) && SymItem(s) in net.items
    ensures Sound(net, p, SymItem(s), SearchSym(net, p, s, ignoreChoice))
    ensures ShortPart(net, s, ignoreChoice, SearchSym(net, p, s, ignoreChoice).1)
    decreases Unvisited(net, p), 1
  {
    hide Sane, Chain, IsLoop, SameGrey;
    var i := SymItem(s);
    if ColourOf(p, i) == White {
      assert i in Unvisited(net, p) && i !in Unvisited(net, Enter(p, i));
      var r := SearchNext(net, Enter(p, i), s, 0);
      NextIsSound(net, Enter(p, i), s, 0);
      if r.1.Part? {
        ClosesNext(net, p, s, r.1.loop);
      } else if r.1.NoLoop? {
        if net.owner(s).Some? && !ignoreChoice {
          OwnerIsItem(net, s);
          var c := net.owner(s).value;
          var r' := SearchChoice(net, r.0, c, Some(s));
          ChoiceIsSound(net, r.0, c, Some(s));
          if r'.1.Part? {
            ClosesOwner(net, p, r.0, s, c, r'.1);
          } else if r'.1.NoLoop? {
            StillGrey(Enter(p, i), r.0, r'.0);
            Finished(p, r'.0, i);
          }
        } else {
          Finished(p, r.0, i);
        }
      }
    } else {
      AtOnce(net, p, i);
    }
  }

  lemma AtOnce(net: Net, p: Progress, i: Item)
    requires i in net.items
    ensures SameGrey(p, p) && (ColourOf(p, i) == Grey ==> PartOf(net, p, [i], i))
  {
  }

  /** A part that starts with a dependent of the symbol becomes longer, or is a loop. */
  lemma ClosesNext(net: Net, p: Progress, s: SymId, loop: seq<Item>)
    requires Sane(net) && SymItem(s) in net.items && ColourOf(p, SymItem(s)) == White
    requires exists j :: j in net.next(s) && PartOf(net, Enter(p, SymItem(s)), loop, j)
    ensures loop != [] && (loop[0] == SymItem(s) ==> IsLoop(net, loop))
    ensures loop[0] != SymItem(s) ==> PartOf(net, p, loop + [SymItem(s)], SymItem(s))
    ensures |loop| == 1 ==> Depends(net, SymItem(s), loop[0])
  {
    var j :| j in net.next(s) && PartOf(net, Enter(p, SymItem(s)), loop, j);
    if loop[0] != SymItem(s) {
      Extended(net, p, Enter(p, SymItem(s)), loop, j, SymItem(s));
    }
  }

  lemma ClosesOwner(net: Net, p: Progress, q: Progress, s: SymId, c: ChoiceId, found: Found)
    requires Sane(net) && SymItem(s) in net.items && ColourOf(p, SymItem(s)) == White && net.owner(s) == Some(c)
    requires SameGrey(Enter(p, SymItem(s)), q) && found.Part? && PartOf(net, q, found.loop, ChoiceItem(c))
    requires ShortChoicePart(net, c, Some(s), found)
    ensures found.loop != [] && (found.loop[0] == SymItem(s) ==> IsLoop(net, found.loop))
    ensures found.loop[0] != SymItem(s) ==> PartOf(net, p, found.loop + [SymItem(s)], SymItem(s))
    ensures |found.loop| == 1 ==> Owns(net, SymItem(s), found.loop[0])
  {
    var loop := found.loop;
    if loop[0] != SymItem(s) {
      Extended(net, p, q, loop, ChoiceItem(c), SymItem(s));
    } else if |loop| >= 3 {
      StarsHaveNoLoop(net, loop);
    }
  }

  lemma {:induction false} NextIsSound(net: Net, p: Progress, s: SymId, n: nat)
    requires Sane(net) && SymItem(s) in net.items && n <= |net.next(s)|
    ensures var r := SearchNext(net, p, s, n);
            && (r.1.NoLoop? ==> SameGrey(p, r.0))
            && (r.1.Part? ==> exists j :: j in net.next(s) && PartOf(net, p, r.1.loop, j))
            && (r.1.Raised? ==> IsLoop(net, r.1.loop))
    decreases Unvisited(net, p), 2, |net.next(s)| - n
  {
    hide SearchSym, SearchChoice, IsLoop, Chain;
    if n < |net.next(s)| {
      var j := net.next(s)[n];
      NextStep(net, p, s, n);
      if j.SymItem? {
        SymIsSound(net, p, j.sym, false);
      } else {
        ChoiceIsSound(net, p, j.choice, None);
      }
      var r := if j.SymItem? then SearchSym(net, p, j.sym, false) else SearchChoice(net, p, j.choice, None);
      assert j in net.next(s);
      if r.1.NoLoop? {
        NextIsSound(net, r.0, s, n + 1);
        var after := SearchNext(net, r.0, s, n + 1);
        if after.1.NoLoop? {
          StillGrey(p, r.0, after.0);
        } else if after.1.Part? {
          var x :| x in net.next(s) && PartOf(net, r.0, after.1.loop, x);
          PartBefore(net, p, r.0, after.1.loop, x);
        }
      }
    }
  }

  lemma {:induction false} ChoiceIsSound(net: Net, p: Progress, c: ChoiceId, skip: Option<SymId>)
    requires Sane(net) && ChoiceItem(c) in net.items
    ensures Sound(net, p, ChoiceItem(c), SearchChoice(net, p, c, skip))
    ensures ShortChoicePart(net, c, skip, SearchChoice(net, p, c, skip).1)
    decreases Unvisited(net, p), 1
  {
    hide Sane, Chain, IsLoop, SameGrey;
    var i := ChoiceItem(c);
    if ColourOf(p, i) == White {
      assert i in Unvisited(net, p) && i !in Unvisited(net, Enter(p, i));
      var r := SearchMembers(net, Enter(p, i), c, skip, 0);
      MembersAreSound(net, Enter(p, i), c, skip, 0);
      if r.1.Part? {
        ClosesMember(net, p, c, skip, r.1);
      } else if r.1.NoLoop? {
        Finished(p, r.0, i);
      }
    } else {
      AtOnce(net, p, i);
    }
  }

  ghost predicate MemberPart(net: Net, p: Progress, c: ChoiceId, skip: Option<SymId>, found: Found, s: SymId) {
    && found.Part? && s in net.members(c) && Some(s) != skip
    && PartOf(net, p, found.loop, SymItem(s)) && ShortPart(net, s, true, found)
  }

  lemma ClosesMember(net: Net, p: Progress, c: ChoiceId, skip: Option<SymId>, found: Found)
    requires Sane(net) && ChoiceItem(c) in net.items && ColourOf(p, ChoiceItem(c)) == White
    requires exists s :: MemberPart(net, Enter(p, ChoiceItem(c)), c, skip, found, s)
    ensures found.loop != [] && (found.loop[0] == ChoiceItem(c) ==> IsLoop(net, found.loop))
    ensures found.loop[0] != ChoiceItem(c) ==> PartOf(net, p, found.loop + [ChoiceItem(c)], ChoiceItem(c))
    ensures |found.loop| == 1 ==> found.loop[0].SymItem? && Some(found.loop[0].sym) != skip
  {
    var s :| MemberPart(net, Enter(p, ChoiceItem(c)), c, skip, found, s);
    var loop := found.loop;
    if loop[0] != ChoiceItem(c) {
      Extended(net, p, Enter(p, ChoiceItem(c)), loop, SymItem(s), ChoiceItem(c));
    } else if |loop| >= 3 {
      StarsHaveNoLoop(net, loop);
    } else {
      assert Depends(net, loop[0 + 1], loop[0]);
    }
  }

  lemma {:induction false} MembersAreSound(net: Net, p: Progress, c: ChoiceId, skip: Option<SymId>, n: nat)
    requires Sane(net) && ChoiceItem(c) in net.items && n <= |net.members(c)|
    ensures var r := SearchMembers(net, p, c, skip, n);
            && (r.1.NoLoop? ==> SameGrey(p, r.0))
            && (r.1.Part? ==> exists s :: MemberPart(net, p, c, skip, r.1, s))
            && (r.1.Raised? ==> IsLoop(net, r.1.loop))
    decreases Unvisited(net, p), 2, |net.members(c)| - n
  {
    hide SearchSym, IsLoop, Chain;
    if n < |net.members(c)| {
      var s := net.members(c)[n];
      MembersStep(net, p, c, skip, n);
      if skip == Some(s) {
        MembersAreSound(net, p, c, skip, n + 1);
      } else {
        SymIsSound(net, p, s, true);
        var r := SearchSym(net, p, s, true);
        if r.1.NoLoop? {
          MembersAreSound(net, r.0, c, skip, n + 1);
          var after := SearchMembers(net, r.0, c, skip, n + 1);
          if after.1.NoLoop? {
            StillGrey(p, r.0, after.0);
          } else if after.1.Part? {
            var x :| MemberPart(net, r.0, c, skip, after.1, x);
            PartBefore(net, p, r.0, after.1.loop, SymItem(x));
            assert MemberPart(net, p, c, skip, after.1, x);
          }
        } else if r.1.Part? {
          assert MemberPart(net, p, c, skip, r.1, s);
        }
      }
    }
  }

  // ----- What is not reported -----

  /** Everything a finished item leads to was finished before it; the symbol through which a choice
      was entered is the one exception, and everything that depends on that one was. */
  ghost predicate Settled(net: Net, order: seq<Item>, k: nat)
    requires k < |order|
  {
    match order[k]
    case SymItem(s) => forall j <- net.next(s) :: j in order[..k]
    case ChoiceItem(c) =>
      forall m <- net.members(c) :: SymItem(m) in order[..k] || forall j <- net.next(m) :: j in order[..k]
  }

  ghost predicate Ordered(net: Net, p: Progress) {
    && (forall k :: 0 <= k < |p.order| ==> Settled(net, p.order, k))
    && (forall i :: ColourOf(p, i) == Black <==> i in p.order)
    && (forall i <- p.order :: i in net.items)
    && (forall s: SymId | SymItem(s) in p.order && net.owner(s).Some? ::
          ColourOf(p, ChoiceItem(net.owner(s).value)) != White)
  }

  ghost predicate Grown(net: Net, p: Progress, q: Progress) {
    Ordered(net, q) && p.order <= q.order && forall i :: ColourOf(q, i) == White ==> ColourOf(p, i) == White
  }

  lemma GrownTwice(net: Net, p: Progress, q: Progress, r: Progress)
    requires Grown(net, p, q) && Grown(net, q, r)
    ensures Grown(net, p, r)
  {
    hide Ordered;
  }

  lemma EnterKeepsOrder(net: Net, p: Progress, i: Item)
    requires Ordered(net, p) && ColourOf(p, i) == White
    ensures Ordered(net, Enter(p, i)) && Grown(net, p, Enter(p, i))
  {
    hide Settled;
    var q := Enter(p, i);
    assert forall j :: j != i ==> ColourOf(q, j) == ColourOf(p, j);
  }

  lemma FinishKeepsOrder(net: Net, p: Progress, i: Item)
    requires Ordered(net, p) && ColourOf(p, i) == Grey && i in net.items
    requires i.SymItem? ==> forall j <- net.next(i.sym) :: j in p.order
    requires i.SymItem? && net.owner(i.sym).Some? ==> ColourOf(p, ChoiceItem(net.owner(i.sym).value)) != White
    requires i.ChoiceItem? ==>
               forall m <- net.members(i.choice) :: SymItem(m) in p.order || forall j <- net.next(m) :: j in p.order
    ensures Grown(net, p, Finish(p, i))
  {
    var q := Finish(p, i);
    forall k | 0 <= k < |q.order| ensures Settled(net, q.order, k) {
      if k < |p.order| {
        assert Settled(net, p.order, k) && q.order[..k] == p.order[..k] && q.order[k] == p.order[k];
      } else {
        assert q.order[..k] == p.order;
      }
    }
    assert forall j :: j != i ==> ColourOf(q, j) == ColourOf(p, j);
  }

  lemma {:induction false} SymIsOrdered(net: Net, p: Progress, s: SymId, ignoreChoice: bool)
    requires Sane(net) && SymItem(s) in net.items && Ordered(net, p)
    requires ignoreChoice ==> net.owner(s).Some? && ColourOf(p, ChoiceItem(net.owner(s).value)) != White
    ensures var r := SearchSym(net, p, s, ignoreChoice);
            r.1.NoLoop? ==> Grown(net, p, r.0) && SymItem(s) in r.0.order
    decreases Unvisited(net, p), 1
  {
    hide Sane, Ordered, Grown, Settled;
    var i, r := SymItem(s), SearchSym(net, p, s, ignoreChoice);
    BlackIsOrdered(net, p, i);
    if ColourOf(p, i) == White && r.1.NoLoop? {
      assert i in Unvisited(net, p) && i !in Unvisited(net, Enter(p, i));
      EnterKeepsOrder(net, p, i);
      var q := SearchNext(net, Enter(p, i), s, 0).0;
      NextIsOrdered(net, Enter(p, i), s, 0);
      NextIsSound(net, Enter(p, i), s, 0);
      GrownTwice(net, p, Enter(p, i), q);
      if net.owner(s).Some? && !ignoreChoice {
        OwnerIsItem(net, s);
        var c := net.owner(s).value;
        var q' := SearchChoice(net, q, c, Some(s)).0;
        GrownIsOrdered(net, Enter(p, i), q);
        ChoiceIsOrdered(net, q, c, Some(s));
        ChoiceIsSound(net, q, c, Some(s));
        GrownTwice(net, p, q, q');
        KeepsOrder(net, q, q', net.next(s));
        FinishOrdered(net, p, q', i);
      } else {
        FinishOrdered(net, p, q, i);
      }
    }
  }

  lemma BlackIsOrdered(net: Net, p: Progress, i: Item)
    requires Ordered(net, p)
    ensures Grown(net, p, p) && (ColourOf(p, i) == Black <==> i in p.order)
  {
  }

  lemma KeepsOrder(net: Net, p: Progress, q: Progress, items: seq<Item>)
    requires Grown(net, p, q) && forall j <- items :: j in p.order
    ensures forall j <- items :: j in q.order
  {
  }

  lemma FinishOrdered(net: Net, p: Progress, q: Progress, i: Item)
    requires Grown(net, p, q) && ColourOf(p, i) == White && SameGreyAt(Enter(p, i), q, i) && i in net.items
    requires i.SymItem? ==> forall j <- net.next(i.sym) :: j in q.order
    requires i.SymItem? && net.owner(i.sym).Some? ==>
               || ColourOf(p, ChoiceItem(net.owner(i.sym).value)) != White
               || ChoiceItem(net.owner(i.sym).value) in q.order
    requires i.ChoiceItem? ==>
               forall m <- net.members(i.choice) :: SymItem(m) in q.order || forall j <- net.next(m) :: j in q.order
    ensures Grown(net, p, Finish(q, i)) && i in Finish(q, i).order
  {
    FinishKeepsOrder(net, q, i);
    GrownTwice(net, p, q, Finish(q, i));
  }

  ghost predicate SameGreyAt(p: Progress, q: Progress, i: Item) {
    ColourOf(p, i) == Grey ==> ColourOf(q, i) == Grey
  }

  lemma {:induction false} NextIsOrdered(net: Net, p: Progress, s: SymId, n: nat)
    requires Sane(net) && SymItem(s) in net.items && n <= |net.next(s)| && Ordered(net, p)
    requires forall j <- net.next(s)[..n] :: j in p.order
    ensures var r := SearchNext(net, p, s, n);
            r.1.NoLoop? ==> Grown(net, p, r.0) && forall j <- net.next(s) :: j in r.0.order
    decreases Unvisited(net, p), 2, |net.next(s)| - n
  {
    hide Sane, Ordered, Grown, Settled, SearchSym, SearchChoice;
    BlackIsOrdered(net, p, SymItem(s));
    if n == |net.next(s)| {
      assert net.next(s)[..n] == net.next(s);
    } else {
      NextStep(net, p, s, n);
      var j := net.next(s)[n];
      var r := if j.SymItem? then SearchSym(net, p, j.sym, false) else SearchChoice(net, p, j.choice, None);
      if j.SymItem? {
        SymIsOrdered(net, p, j.sym, false);
      } else {
        ChoiceIsOrdered(net, p, j.choice, None);
      }
      if r.1.NoLoop? {
        KeepsOrder(net, p, r.0, net.next(s)[..n]);
        assert net.next(s)[..n + 1] == net.next(s)[..n] + [j];
        GrownIsOrdered(net, p, r.0);
        NextIsOrdered(net, r.0, s, n + 1);
        if SearchNext(net, r.0, s, n + 1).1.NoLoop? {
          GrownTwice(net, p, r.0, SearchNext(net, r.0, s, n + 1).0);
        }
      }
    }
  }

  lemma GrownIsOrdered(net: Net, p: Progress, q: Progress)
    requires Grown(net, p, q)
    ensures Ordered(net, q)
  {
  }

  lemma {:induction false} ChoiceIsOrdered(net: Net, p: Progress, c: ChoiceId, skip: Option<SymId>)
    requires Sane(net) && ChoiceItem(c) in net.items && Ordered(net, p)
    requires skip.Some? ==> forall j <- net.next(skip.value) :: j in p.order
    ensures var r := SearchChoice(net, p, c, skip);
            r.1.NoLoop? ==> Grown(net, p, r.0) && ChoiceItem(c) in r.0.order
    decreases Unvisited(net, p), 1
  {
    hide Sane, Ordered, Grown, Settled;
    var i, r := ChoiceItem(c), SearchChoice(net, p, c, skip);
    BlackIsOrdered(net, p, i);
    if ColourOf(p, i) == White && r.1.NoLoop? {
      assert i in Unvisited(net, p) && i !in Unvisited(net, Enter(p, i));
      EnterKeepsOrder(net, p, i);
      var q := SearchMembers(net, Enter(p, i), c, skip, 0).0;
      MembersAreOrdered(net, Enter(p, i), c, skip, 0);
      MembersAreSound(net, Enter(p, i), c, skip, 0);
      GrownTwice(net, p, Enter(p, i), q);
      if skip.Some? {
        KeepsOrder(net, p, q, net.next(skip.value));
      }
      FinishOrdered(net, p, q, i);
    }
  }

  lemma {:induction false} MembersAreOrdered(net: Net, p: Progress, c: ChoiceId, skip: Option<SymId>, n: nat)
    requires Sane(net) && ChoiceItem(c) in net.items && n <= |net.members(c)| && Ordered(net, p)
    requires ColourOf(p, ChoiceItem(c)) != White
    requires forall m <- net.members(c)[..n] :: SymItem(m) in p.order || skip == Some(m)
    ensures var r := SearchMembers(net, p, c, skip, n);
            r.1.NoLoop? ==>
              Grown(net, p, r.0) && forall m <- net.members(c) :: SymItem(m) in r.0.order || skip == Some(m)
    decreases Unvisited(net, p), 2, |net.members(c)| - n
  {
    hide Ordered, Grown, Settled, SearchSym;
    BlackIsOrdered(net, p, ChoiceItem(c));
    if n == |net.members(c)| {
      assert net.members(c)[..n] == net.members(c);
    } else {
      MembersStep(net, p, c, skip, n);
      var s := net.members(c)[n];
      assert net.members(c)[..n + 1] == net.members(c)[..n] + [s];
      if skip == Some(s) {
        MembersAreOrdered(net, p, c, skip, n + 1);
      } else {
        assert s in net.members(c);
        SymIsOrdered(net, p, s, true);
        var r := SearchSym(net, p, s, true);
        if r.1.NoLoop? {
          MembersStay(net, p, r.0, c, skip, n);
          MembersAreOrdered(net, r.0, c, skip, n + 1);
          if SearchMembers(net, r.0, c, skip, n + 1).1.NoLoop? {
            GrownTwice(net, p, r.0, SearchMembers(net, r.0, c, skip, n + 1).0);
          }
        }
      }
    }
  }

  lemma MembersStay(net: Net, p: Progress, q: Progress, c: ChoiceId, skip: Option<SymId>, n: nat)
    requires Grown(net, p, q) && n < |net.members(c)| && SymItem(net.members(c)[n]) in q.order
    requires ColourOf(p, ChoiceItem(c)) != White
    requires forall m <- net.members(c)[..n] :: SymItem(m) in p.order || skip == Some(m)
    ensures Ordered(net, q) && ColourOf(q, ChoiceItem(c)) != White
    ensures forall m <- net.members(c)[..n + 1] :: SymItem(m) in q.order || skip == Some(m)
  {
    assert net.members(c)[..n + 1] == net.members(c)[..n] + [net.members(c)[n]];
  }

  // ----- All symbols -----

  ghost function SearchAll(net: Net, p: Progress, syms: seq<SymId>, n: nat): (Progress, Found)
    requires Sane(net) && n <= |syms| && forall s <- syms :: SymItem(s) in net.items
    decreases |syms| - n
  {
    if n == |syms| then (p, NoLoop)
    else
      var r := SearchSym(net, p, syms[n], false);
      if r.1 != NoLoop then r else SearchAll(net, r.0, syms, n + 1)
  }

  ghost predicate NoneGrey(p: Progress) {
    forall i :: ColourOf(p, i) != Grey
  }

  lemma {:induction false} AllAreSound(net: Net, p: Progress, syms: seq<SymId>, n: nat)
    requires Sane(net) && n <= |syms| && forall s <- syms :: SymItem(s) in net.items
    requires NoneGrey(p) && Ordered(net, p) && forall s <- syms[..n] :: SymItem(s) in p.order
    ensures var r := SearchAll(net, p, syms, n);
            && !r.1.Part?
            && (r.1.Raised? ==> IsLoop(net, r.1.loop))
            && (r.1.NoLoop? ==> NoneGrey(r.0) && Ordered(net, r.0) && forall s <- syms :: SymItem(s) in r.0.order)
            && (r.1.NoLoop? ==> p.order <= r.0.order)
    decreases |syms| - n
  {
    hide Sane, Ordered, IsLoop, SearchSym, Grown, Chain;
    if n == |syms| {
      assert syms[..n] == syms;
    } else {
      assert syms[n] in syms;
      SymIsSound(net, p, syms[n], false);
      SymIsOrdered(net, p, syms[n], false);
      var r := SearchSym(net, p, syms[n], false);
      if r.1.NoLoop? {
        SymsStay(net, p, r.0, syms, n);
        AllAreSound(net, r.0, syms, n + 1);
      }
    }
  }

  lemma SymsStay(net: Net, p: Progress, q: Progress, syms: seq<SymId>, n: nat)
    requires Grown(net, p, q) && n < |syms| && SymItem(syms[n]) in q.order
    requires forall s <- syms[..n] :: SymItem(s) in p.order
    ensures Ordered(net, q) && p.order <= q.order && forall s <- syms[..n + 1] :: SymItem(s) in q.order
  {
    assert syms[..n + 1] == syms[..n] + [syms[n]];
  }

  /** From a symbol to its choice, which does not depend on the symbol. */
  ghost predicate Up(net: Net, i: Item, j: Item) {
    i.SymItem? && Owns(net, i, j) && !Depends(net, i, j)
  }

  function Index<T(==)>(order: seq<T>, i: T): (k: nat)
    requires i in order
    ensures k < |order| && order[k] == i && forall j :: 0 <= j < k ==> order[j] != i
  {
    if order[0] == i then 0
    else
      assert order == [order[0]] + order[1..];
      1 + Index(order[1..], i)
  }

  /** The position of the element that the k-th one leads to. */
  function After(loop: seq<Item>, k: nat): (a: nat)
    requires k < |loop|
    ensures a < |loop|
  {
    if k == 0 then |loop| - 1 else k - 1
  }

  /** `i` was finished before `j`. */
  ghost predicate Before(order: seq<Item>, i: Item, j: Item) {
    i in order && j in order && Index(order, i) < Index(order, j)
  }

  /** Somewhere the loop goes from a symbol up to its choice, which was finished after the symbol. */
  ghost predicate GoesUp(net: Net, order: seq<Item>, loop: seq<Item>) {
    exists k :: 0 <= k < |loop| && Up(net, loop[k], loop[After(loop, k)])
                && Before(order, loop[k], loop[After(loop, k)])
  }

  /** Somewhere the loop goes from a symbol other than this one up to its choice. */
  ghost predicate GoesUpBeside(net: Net, loop: seq<Item>, i: Item) {
    exists k :: 0 <= k < |loop| && Up(net, loop[k], loop[After(loop, k)]) && loop[k] != i
  }

  ghost predicate Circle(net: Net, loop: seq<Item>) {
    Chain(net, loop) && Leads(net, loop[0], loop[|loop| - 1])
  }

  lemma AfterLeads(net: Net, loop: seq<Item>, k: nat)
    requires Circle(net, loop) && k < |loop|
    ensures Leads(net, loop[k], loop[After(loop, k)]) && loop[k] in net.items
    ensures |loop| > 1 ==> loop[k] != loop[After(loop, k)]
    ensures loop[k].SymItem? ==> Depends(net, loop[k], loop[After(loop, k)]) || Up(net, loop[k], loop[After(loop, k)])
  {
    if k > 0 {
      assert Leads(net, loop[k - 1 + 1], loop[k - 1]);
    }
  }

  /** The element of a loop that was finished first. */
  lemma {:induction false} First(order: seq<Item>, loop: seq<Item>, n: nat) returns (k: nat)
    requires 0 < n <= |loop| && forall i <- loop :: i in order
    ensures k < n && forall j :: 0 <= j < n ==> Index(order, loop[k]) <= Index(order, loop[j])
  {
    if n == 1 {
      k := 0;
    } else {
      k := First(order, loop, n - 1);
      if Index(order, loop[n - 1]) < Index(order, loop[k]) {
        k := n - 1;
      }
    }
  }

  /** In a settled order every loop goes up: from the element that was finished first, or else it is a
      choice and the symbol it was entered through. */
  lemma SettledLoopsGoUp(net: Net, p: Progress, loop: seq<Item>)
    requires Sane(net) && Ordered(net, p) && IsLoop(net, loop) && forall i <- loop :: i in p.order
    ensures GoesUp(net, p.order, loop)
  {
    var k := First(p.order, loop, |loop|);
    var a := After(loop, k);
    var least := Index(p.order, loop[k]);
    NoneEarlier(p.order, loop, k);
    AfterLeads(net, loop, k);
    AfterLeads(net, loop, a);
    assert Settled(net, p.order, least);
    hide Index, Ordered;
    if loop[k].SymItem? {
      LaterInLoop(p.order, loop, k, a);
    } else {
      EntryGoesBack(net, p.order, loop, k);
    }
  }

  lemma NoneEarlier(order: seq<Item>, loop: seq<Item>, k: nat)
    requires k < |loop| && (forall i <- loop :: i in order)
    requires forall j :: 0 <= j < |loop| ==> Index(order, loop[k]) <= Index(order, loop[j])
    ensures forall i <- loop :: i !in order[..Index(order, loop[k])]
  {
    forall i | i in loop ensures i !in order[..Index(order, loop[k])] {
      var j :| 0 <= j < |loop| && loop[j] == i;
      assert Index(order, loop[k]) <= Index(order, loop[j]);
    }
  }

  lemma LaterInLoop(order: seq<Item>, loop: seq<Item>, k: nat, a: nat)
    requires k < |loop| && a < |loop| && loop[a] != loop[k] && (forall i <- loop :: i in order)
    requires forall j :: 0 <= j < |loop| ==> Index(order, loop[k]) <= Index(order, loop[j])
    ensures Before(order, loop[k], loop[a])
  {
    assert order[Index(order, loop[k])] != order[Index(order, loop[a])];
  }

  /** If a choice is the first, there is only the symbol it was entered through: that one leads only to
      the choice and to what was finished before. */
  lemma EntryGoesBack(net: Net, order: seq<Item>, loop: seq<Item>, k: nat)
    requires Sane(net) && Circle(net, loop) && k < |loop| && loop[k].ChoiceItem? && (forall i <- loop :: i in order)
    requires Settled(net, order, Index(order, loop[k])) && forall i <- loop :: i !in order[..Index(order, loop[k])]
    ensures !UsesDependency(net, loop)
  {
    var a := After(loop, k);
    AfterLeads(net, loop, k);
    AfterLeads(net, loop, a);
    var m, b := loop[a].sym, After(loop, a);
    assert m in net.members(loop[k].choice) && loop[a] in loop && loop[b] in loop;
    assert loop[b] !in net.next(m);
    assert net.owner(m) == Some(loop[k].choice) && loop[b] == loop[k];
    assert b == k && |loop| == 2;
  }

  /** All symbols are in the order, and it is settled. */
  ghost predicate Complete(net: Net, order: seq<Item>) {
    && (forall k :: 0 <= k < |order| ==> Settled(net, order, k))
    && (forall i <- order :: i in net.items)
    && (forall s: SymId :: SymItem(s) in net.items ==> SymItem(s) in order)
  }

  /** The choice of the first symbol is finished before that symbol, since it is entered through it. */
  lemma FirstIsEntry(net: Net, syms: seq<SymId>)
    requires Sane(net) && syms != [] && (forall s <- syms :: SymItem(s) in net.items) && net.owner(syms[0]).Some?
    ensures var r := SearchAll(net, Progress(map[], []), syms, 0);
            r.1.NoLoop? ==> Before(r.0.order, ChoiceItem(net.owner(syms[0]).value), SymItem(syms[0]))
  {
    var p, s := Progress(map[], []), syms[0];
    var i, c := SymItem(s), net.owner(s).value;
    var all, r := SearchAll(net, p, syms, 0), SearchSym(net, p, s, false);
    if all.1.NoLoop? {
      OwnerIsItem(net, s);
      assert Ordered(net, p) && NoneGrey(p) && syms[..0] == [];
      EnterKeepsOrder(net, p, i);
      NextIsOrdered(net, Enter(p, i), s, 0);
      NextIsSound(net, Enter(p, i), s, 0);
      var q := SearchNext(net, Enter(p, i), s, 0).0;
      GrownIsOrdered(net, Enter(p, i), q);
      ChoiceIsOrdered(net, q, c, Some(s));
      ChoiceIsSound(net, q, c, Some(s));
      var q' := SearchChoice(net, q, c, Some(s)).0;
      assert r == (Finish(q', i), NoLoop);
      NotYetFinished(net, q, q', i);
      FirstGrows(net, syms, r.0);
      Appended(q'.order, i, ChoiceItem(c), all.0.order);
    }
  }

  lemma NotYetFinished(net: Net, q: Progress, q': Progress, i: Item)
    requires Grown(net, q, q') && SameGrey(q, q') && ColourOf(q, i) == Grey
    ensures i !in q'.order
  {
  }

  lemma FirstGrows(net: Net, syms: seq<SymId>, q: Progress)
    requires Sane(net) && syms != [] && (forall s <- syms :: SymItem(s) in net.items)
    requires SearchSym(net, Progress(map[], []), syms[0], false) == (q, NoLoop)
    requires SearchAll(net, Progress(map[], []), syms, 0).1.NoLoop?
    ensures q.order <= SearchAll(net, Progress(map[], []), syms, 0).0.order
  {
    var p := Progress(map[], []);
    SymIsOrdered(net, p, syms[0], false);
    SymIsSound(net, p, syms[0], false);
    assert Ordered(net, p) && Ordered(net, q) && NoneGrey(q);
    assert syms[..1] == [syms[0]];
    AllAreSound(net, q, syms, 1);
  }

  lemma Appended(order: seq<Item>, i: Item, c: Item, all: seq<Item>)
    requires i !in order && c in order && order + [i] <= all
    ensures Before(all, c, i)
  {
    assert all[|order|] == i;
    assert forall j :: 0 <= j < |order| ==> all[j] == order[j];
    var j :| 0 <= j < |order| && order[j] == c;
    assert all[j] == c;
  }

  /**
    Checking all symbols: a loop that is reported is one, and a loop that is not reported goes
    through a choice, from one of its symbols to another. A loop that does so only from the symbol
    through which its choice was entered first is reported; that symbol is the first of all if it is
    in a choice.
   */
  method CheckAll(net: Net, syms: seq<SymId>) returns (found: Found, ghost order: seq<Item>)
    requires Sane(net) && forall s: SymId :: SymItem(s) in net.items <==> s in syms
    ensures found.NoLoop? || (found.Raised? && IsLoop(net, found.loop))
    ensures found.NoLoop? ==> Complete(net, order) && forall loop :: IsLoop(net, loop) ==> GoesUp(net, order, loop)
    ensures found.NoLoop? && syms != [] ==>
              forall loop :: IsLoop(net, loop) ==> GoesUpBeside(net, loop, SymItem(syms[0]))
    ensures found == SearchAll(net, Progress(map[], []), syms, 0).1
  {
    var checker := new Checker(net);
    ghost var start := checker.Now();
    assert NoneGrey(start) && Ordered(net, start) && syms[..0] == [];
    AllAreSound(net, start, syms, 0);
    order := [];
    for n := 0 to |syms|
      invariant checker.net == net && fresh(checker)
      invariant SearchAll(net, start, syms, 0) == SearchAll(net, checker.Now(), syms, n)
    {
      hide Sane, SearchSym, IsLoop, Ordered;
      assert syms[n] in syms;
      found := checker.CheckSym(syms[n], false);
      if found != NoLoop { return; }
    }
    found, order := NoLoop, checker.order;
    AllIsComplete(net, checker.Now(), syms);
    hide Sane, IsLoop, Ordered, Complete, GoesUp, GoesUpBeside, SearchSym;
    forall loop | IsLoop(net, loop)
      ensures GoesUp(net, order, loop)
      ensures syms != [] ==> GoesUpBeside(net, loop, SymItem(syms[0]))
    {
      AllInOrder(net, checker.Now(), syms, loop);
      SettledLoopsGoUp(net, checker.Now(), loop);
      if syms != [] {
        assert forall s <- syms :: SymItem(s) in net.items;
        if net.owner(syms[0]).Some? { FirstIsEntry(net, syms); }
        LateIsBeside(net, order, loop, syms[0]);
      }
    }
  }

  lemma LateIsBeside(net: Net, order: seq<Item>, loop: seq<Item>, s: SymId)
    requires GoesUp(net, order, loop)
    requires net.owner(s).Some? ==> Before(order, ChoiceItem(net.owner(s).value), SymItem(s))
    ensures GoesUpBeside(net, loop, SymItem(s))
  {
    var k :| 0 <= k < |loop| && Up(net, loop[k], loop[After(loop, k)]) && Before(order, loop[k], loop[After(loop, k)]);
    assert loop[k] != SymItem(s);
  }

  lemma AllIsComplete(net: Net, p: Progress, syms: seq<SymId>)
    requires Ordered(net, p)
    requires forall s: SymId :: SymItem(s) in net.items ==> s in syms
    requires forall s <- syms :: SymItem(s) in p.order
    ensures Complete(net, p.order)
  {
    hide Settled;
  }

  lemma AllInOrder(net: Net, p: Progress, syms: seq<SymId>, loop: seq<Item>)
    requires Sane(net) && NoneGrey(p) && Ordered(net, p) && IsLoop(net, loop)
    requires forall s: SymId :: SymItem(s) in net.items ==> s in syms
    requires forall s <- syms :: SymItem(s) in p.order
    ensures forall i <- loop :: i in p.order
  {
    hide Settled;
    forall i | i in loop ensures i in p.order {
      if i.ChoiceItem? {
        var k :| 0 <= k < |loop| && loop[k] == i;
        var m := loop[After(loop, k)];
        assert k > 0 ==> Leads(net, loop[k - 1 + 1], loop[k - 1]);
        assert Owns(net, i, m) && SymItem(m.sym) in net.items;
        assert ColourOf(p, i) != White;
      }
    }
  }

  // ----- The net of a configuration -----

  /** What `_build_dep` makes an item depend on. */
  function BuiltOn(k: Kconfig, i: Item): set<Item> {
    match i
    case SymItem(_) => DependsOn(k, i)
    case ChoiceItem(c) => PromptItems(k.Choice(c).prompts) + ChoiceDefaultItems(k.Choice(c).defaults)
  }

  /** The dependents of a symbol are a set in the source: they come in any order. */
  ghost predicate Represents(net: Net, k: Kconfig) {
    && (forall s: SymId :: SymItem(s) in net.items <==> k.Def(s).defined)
    && (forall c: ChoiceId :: ChoiceItem(c) in net.items <==> c < |k.choices|)
    && (forall s: SymId, j | SymItem(s) in net.items ::
          j in net.next(s) <==> j in net.items && SymItem(s) in BuiltOn(k, j))
    && (forall s: SymId | SymItem(s) in net.items :: net.owner(s) == k.Def(s).choice)
    && (forall c: ChoiceId | ChoiceItem(c) in net.items :: net.members(c) == k.Choice(c).syms)
  }

  lemma NetIsSane(net: Net, k: Kconfig)
    requires WellFormed(k) && Represents(net, k)
    ensures Sane(net)
  {
    hide BuiltOn;
    forall c: ChoiceId, s | ChoiceItem(c) in net.items && s in net.members(c)
      ensures SymItem(s) in net.items && net.owner(s) == Some(c)
    {
      assert k.Def(s).choice == Some(c);
    }
    forall s: SymId | SymItem(s) in net.items && net.owner(s).Some?
      ensures ChoiceItem(net.owner(s).value) in net.items
    {
      assert s in k.Choice(k.Def(s).choice.value).syms;
    }
  }
}
