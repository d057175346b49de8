/**
 Sequences made of parts that are put one after the other.
 */
module Layout {

  /** Where part `i` starts if the parts are put one after the other. */
  ghost function Offset<T>(parts: seq<seq<T>>, i: nat): nat
    requires i <= |parts|
  {
    if i == 0 then 0 else Offset(parts, i - 1) + |parts[i - 1]|
  }

  /** Element `j` of part `i` is where it belongs. */
  ghost predicate InPlace<T>(parts: seq<seq<T>>, all: seq<T>, i: nat, j: nat)
    requires i < |parts| && j < |parts[i]|
  {
    Offset(parts, i) + j < |all| && all[Offset(parts, i) + j] == parts[i][j]
  }

  /** `all` is the parts one after the other. */
  ghost predicate InOrder<T>(parts: seq<seq<T>>, all: seq<T>) {
    && |all| == Offset(parts, |parts|)
    && forall i, j :: 0 <= i < |parts| && 0 <= j < |parts[i]| ==> InPlace(parts, all, i, j)
  }

  lemma {:induction false} Rising<T>(parts: seq<seq<T>>, i: nat, k: nat)
    requires i <= k <= |parts|
    ensures Offset(parts, i) <= Offset(parts, k)
    decreases k - i
  {
    if i < k {
      Rising(parts, i, k - 1);
    }
  }

  /** Elements of an earlier part have smaller positions, and those of one part keep their order. */
  lemma EarlierFirst<T>(parts: seq<seq<T>>, i: nat, j: nat, i': nat, j': nat)
    requires i < |parts| && j < |parts[i]| && i' < |parts| && j' < |parts[i']|
    ensures Offset(parts, i) + j < Offset(parts, i') + j' <==> i < i' || (i == i' && j < j')
  {
    assert Offset(parts, i + 1) == Offset(parts, i) + |parts[i]|;
    assert Offset(parts, i' + 1) == Offset(parts, i') + |parts[i']|;
    if i < i' {
      Rising(parts, i + 1, i');
    } else if i' < i {
      Rising(parts, i' + 1, i);
    }
  }

  /** Every element comes from some part. */
  lemma {:induction false} ComesFrom<T>(parts: seq<seq<T>>, p: nat, n: nat) returns (i: nat, j: nat)
    requires n <= |parts| && p < Offset(parts, n)
    ensures i < n && j < |parts[i]| && Offset(parts, i) + j == p
  {
    if p < Offset(parts, n - 1) {
      i, j := ComesFrom(parts, p, n - 1);
    } else {
      i, j := n - 1, p - Offset(parts, n - 1);
    }
  }

  lemma {:induction false} SameOffset<T>(parts: seq<seq<T>>, part: seq<T>, i: nat)
    requires i <= |parts|
    ensures Offset(parts + [part], i) == Offset(parts, i)
  {
    if i > 0 { SameOffset(parts, part, i - 1); }
  }

  lemma OneMorePart<T>(parts: seq<seq<T>>, all: seq<T>, part: seq<T>)
    requires InOrder(parts, all)
    ensures InOrder(parts + [part], all + part)
  {
    var parts' := parts + [part];
    forall i | 0 <= i <= |parts| ensures Offset(parts', i) == Offset(parts, i) { SameOffset(parts, part, i); }
    hide Offset;
    assert Offset(parts', |parts'|) == |all| + |part| by { LastOffset(parts'); }
    forall i, j | 0 <= i < |parts'| && 0 <= j < |parts'[i]| ensures InPlace(parts', all + part, i, j) {
      if i < |parts| { assert InPlace(parts, all, i, j); }
    }
  }

  lemma LastOffset<T>(parts: seq<seq<T>>)
    requires parts != []
    ensures Offset(parts, |parts|) == Offset(parts, |parts| - 1) + |parts[|parts| - 1]|
  {
  }

  lemma NoParts<T>()
    ensures InOrder<T>([], [])
  {
  }
}
