/**
 * The order the importer gives its branches: by the hand of each branch's
 * first condition (ascending or descending), then by that condition's
 * gesture ascending, keeping the original order among equal keys.
 */
module Ordering {
  import opened FaceEmo

  /** The composite sort key of a branch, compared lexicographically. */
  datatype SortKey = SortKey(hand: int, gesture: int)

  predicate KeyLe(x: SortKey, y: SortKey) {
    x.hand < y.hand || (x.hand == y.hand && x.gesture <= y.gesture)
  }

  /** Every branch has a first condition to take its key from. */
  predicate Keyed(bs: seq<Branch>) {
    forall b | b in bs :: b.conditions != []
  }

  /**
   * The key of a branch: its first condition's hand, negated when sorting
   * descending, then its first condition's gesture. A branch without
   * conditions has no key (the run fails on it); `Ordered` requires every
   * branch to have one, so the value given to such a branch here is never
   * used by the importer.
   */
  function KeyOf(b: Branch, ascending: bool): (key: SortKey) {
    if b.conditions == [] then SortKey(0, 0)
    else
      var c := b.conditions[0];
      SortKey(if ascending then HandRank(c.hand) else -HandRank(c.hand), c.handGesture)
  }

  predicate SortedBy(bs: seq<Branch>, ascending: bool) {
    forall i, j | 0 <= i < j < |bs| :: KeyLe(KeyOf(bs[i], ascending), KeyOf(bs[j], ascending))
  }

  /** The branches of `bs` whose key is `k`, in their order in `bs`. */
  function WithKey(bs: seq<Branch>, k: SortKey, ascending: bool): (matching: seq<Branch>) {
    if bs == [] then []
    else (if KeyOf(bs[0], ascending) == k then [bs[0]] else []) + WithKey(bs[1..], k, ascending)
  }

  /** Inserts `b` before the first element whose key is not below its own. */
  function Insert(b: Branch, bs: seq<Branch>, ascending: bool): (r: seq<Branch>)
    ensures multiset(r) == multiset(bs) + multiset{b}
  {
    if bs == [] || KeyLe(KeyOf(b, ascending), KeyOf(bs[0], ascending)) then [b] + bs
    else
      assert bs == [bs[0]] + bs[1..];
      [bs[0]] + Insert(b, bs[1..], ascending)
  }

  /** A stable sort of the branches by their keys. */
  function StableSort(bs: seq<Branch>, ascending: bool): (r: seq<Branch>)
    ensures multiset(r) == multiset(bs)
  {
    if bs == [] then []
    else
      assert bs == [bs[0]] + bs[1..];
      Insert(bs[0], StableSort(bs[1..], ascending), ascending)
  }

  /** The sort direction: ascending exactly when the first branch's first condition is on the left hand. */
  function Ascending(bs: seq<Branch>): (ascending: bool)
    requires bs != [] && bs[0].conditions != []
  {
    bs[0].conditions[0].hand == Left
  }

  /** The branches in the importer's order. */
  function Ordered(bs: seq<Branch>): (ordered: seq<Branch>)
    requires bs != [] && Keyed(bs)
  {
    StableSort(bs, Ascending(bs))
  }

  lemma InsertSorted(b: Branch, bs: seq<Branch>, ascending: bool)
    requires SortedBy(bs, ascending)
    ensures SortedBy(Insert(b, bs, ascending), ascending)
  {
    if bs == [] || KeyLe(KeyOf(b, ascending), KeyOf(bs[0], ascending)) {
    } else {
      var tail := Insert(b, bs[1..], ascending);
      InsertSorted(b, bs[1..], ascending);
      var r := [bs[0]] + tail;
      forall j | 0 < j < |r|
        ensures KeyLe(KeyOf(bs[0], ascending), KeyOf(r[j], ascending))
      {
        assert r[j] in multiset(tail);
        assert r[j] == b || r[j] in bs[1..];
      }
    }
  }

  /** The output of the sort is sorted by key. */
  lemma {:induction false} StableSortSorted(bs: seq<Branch>, ascending: bool)
    ensures SortedBy(StableSort(bs, ascending), ascending)
  {
    if bs != [] {
      StableSortSorted(bs[1..], ascending);
      InsertSorted(bs[0], StableSort(bs[1..], ascending), ascending);
    }
  }

  lemma WithKeyCons(x: Branch, s: seq<Branch>, k: SortKey, ascending: bool)
    ensures WithKey([x] + s, k, ascending) ==
      (if KeyOf(x, ascending) == k then [x] else []) + WithKey(s, k, ascending)
  {
  }

  lemma {:induction false} InsertWithKey(b: Branch, bs: seq<Branch>, ascending: bool, k: SortKey)
    ensures WithKey(Insert(b, bs, ascending), k, ascending) == WithKey([b] + bs, k, ascending)
  {
    if bs == [] || KeyLe(KeyOf(b, ascending), KeyOf(bs[0], ascending)) {
    } else {
      var head, rest := bs[0], bs[1..];
      assert bs == [head] + rest;
      var pickB := if KeyOf(b, ascending) == k then [b] else [];
      var pickHead := if KeyOf(head, ascending) == k then [head] else [];
      InsertWithKey(b, rest, ascending, k);
      WithKeyCons(head, Insert(b, rest, ascending), k, ascending);
      WithKeyCons(b, rest, k, ascending);
      WithKeyCons(b, bs, k, ascending);
      WithKeyCons(head, rest, k, ascending);
      assert KeyOf(head, ascending) != KeyOf(b, ascending);
      assert pickHead + pickB == pickB + pickHead;
      calc {
        WithKey(Insert(b, bs, ascending), k, ascending);
        WithKey([head] + Insert(b, rest, ascending), k, ascending);
        pickHead + WithKey(Insert(b, rest, ascending), k, ascending);
        pickHead + (pickB + WithKey(rest, k, ascending));
        pickB + (pickHead + WithKey(rest, k, ascending));
        WithKey([b] + bs, k, ascending);
      }
    }
  }

  /** Sorting keeps the branches of every key in their original order. */
  lemma {:induction false} StableSortStable(bs: seq<Branch>, ascending: bool, k: SortKey)
    ensures WithKey(StableSort(bs, ascending), k, ascending) == WithKey(bs, k, ascending)
  {
    if bs != [] {
      var rest := StableSort(bs[1..], ascending);
      StableSortStable(bs[1..], ascending, k);
      InsertWithKey(bs[0], rest, ascending, k);
      assert ([bs[0]] + rest)[1..] == rest;
    }
  }

  lemma {:induction false} WithKeyHas(bs: seq<Branch>, j: nat, ascending: bool)
    requires j < |bs|
    ensures WithKey(bs, KeyOf(bs[j], ascending), ascending) != []
  {
    if j > 0 {
      WithKeyHas(bs[1..], j - 1, ascending);
    }
  }

  lemma {:induction false} WithKeyFound(bs: seq<Branch>, k: SortKey, ascending: bool) returns (j: nat)
    requires WithKey(bs, k, ascending) != []
    ensures j < |bs| && KeyOf(bs[j], ascending) == k
  {
    if KeyOf(bs[0], ascending) == k {
      j := 0;
    } else {
      var j' := WithKeyFound(bs[1..], k, ascending);
      j := j' + 1;
    }
  }

  /**
   * A stable sort has only one possible result: two sorted sequences whose
   * branches of each key appear in the same order are equal. So the sort
   * above is the one the importer's stable OrderBy/ThenBy performs.
   */
  lemma {:induction false} SortedStableUnique(a: seq<Branch>, b: seq<Branch>, ascending: bool)
    requires SortedBy(a, ascending) && SortedBy(b, ascending)
    requires forall k :: WithKey(a, k, ascending) == WithKey(b, k, ascending)
    ensures a == b
    decreases |a|
  {
    if a == [] {
      if b != [] {
        WithKeyHas(b, 0, ascending);
        assert false;
      }
    } else if b == [] {
      WithKeyHas(a, 0, ascending);
      assert false;
    } else {
      var ka, kb := KeyOf(a[0], ascending), KeyOf(b[0], ascending);
      WithKeyHas(a, 0, ascending);
      WithKeyHas(b, 0, ascending);
      var jb := WithKeyFound(b, ka, ascending);
      var ja := WithKeyFound(a, kb, ascending);
      assert KeyLe(kb, KeyOf(b[jb], ascending));
      assert KeyLe(ka, KeyOf(a[ja], ascending));
      assert ka == kb;
      assert WithKey(a, ka, ascending) == [a[0]] + WithKey(a[1..], ka, ascending);
      assert WithKey(b, ka, ascending) == [b[0]] + WithKey(b[1..], ka, ascending);
      assert WithKey(a, ka, ascending) == WithKey(b, ka, ascending);
      assert a[0] == WithKey(a, ka, ascending)[0] == b[0];
      forall k
        ensures WithKey(a[1..], k, ascending) == WithKey(b[1..], k, ascending)
      {
        assert WithKey(a, k, ascending) == WithKey(b, k, ascending);
        if k == ka {
          assert WithKey(a[1..], k, ascending) == WithKey(a, k, ascending)[1..];
          assert WithKey(b[1..], k, ascending) == WithKey(b, k, ascending)[1..];
        } else {
          assert WithKey(a, k, ascending) == WithKey(a[1..], k, ascending);
          assert WithKey(b, k, ascending) == WithKey(b[1..], k, ascending);
        }
      }
      SortedStableUnique(a[1..], b[1..], ascending);
      assert a == [a[0]] + a[1..] && b == [b[0]] + b[1..];
    }
  }

  /**
   * The importer's order is a permutation of its input, sorted by key in the
   * direction the first branch decides, stable among equal keys, and it is
   * the only sequence with these three properties.
   */
  lemma OrderedSpec(bs: seq<Branch>, r: seq<Branch>)
    requires bs != [] && Keyed(bs)
    ensures multiset(Ordered(bs)) == multiset(bs)
    ensures SortedBy(Ordered(bs), Ascending(bs))
    ensures forall k :: WithKey(Ordered(bs), k, Ascending(bs)) == WithKey(bs, k, Ascending(bs))
    ensures SortedBy(r, Ascending(bs)) &&
            (forall k :: WithKey(r, k, Ascending(bs)) == WithKey(bs, k, Ascending(bs)))
            ==> r == Ordered(bs)
  {
    var asc := Ascending(bs);
    StableSortSorted(bs, asc);
    forall k ensures WithKey(Ordered(bs), k, asc) == WithKey(bs, k, asc) {
      StableSortStable(bs, asc, k);
    }
    if SortedBy(r, asc) && (forall k :: WithKey(r, k, asc) == WithKey(bs, k, asc)) {
      SortedStableUnique(r, Ordered(bs), asc);
    }
  }

  /** `Insert` places `b` in front when its key is not above the first key. */
  lemma InsertFront(b: Branch, bs: seq<Branch>, ascending: bool)
    requires bs == [] || KeyLe(KeyOf(b, ascending), KeyOf(bs[0], ascending))
    ensures Insert(b, bs, ascending) == [b] + bs
  {
  }

  /** `Insert` moves past a first element whose key is below that of `b`. */
  lemma InsertPast(b: Branch, bs: seq<Branch>, ascending: bool)
    requires bs != [] && !KeyLe(KeyOf(b, ascending), KeyOf(bs[0], ascending))
    ensures Insert(b, bs, ascending) == [bs[0]] + Insert(b, bs[1..], ascending)
  {
  }

  /** `StableSort` inserts the head into the sorted tail. */
  lemma StableSortCons(b: Branch, bs: seq<Branch>, ascending: bool)
    ensures StableSort([b] + bs, ascending) == Insert(b, StableSort(bs, ascending), ascending)
  {
    assert ([b] + bs)[1..] == bs;
  }

  /**
   * Branches whose first hands are Left, Right, Left, in that order: the
   * first branch is on the left hand, so Left sorts before Right, and the
   * gestures ascend within the left hand.
   */
  lemma LeftFirstSortsAscending(a: Branch, b: Branch, c: Branch)
    requires a.conditions == [Condition(Left, 3, Equals)]
    requires b.conditions == [Condition(Right, 1, Equals)]
    requires c.conditions == [Condition(Left, 2, Equals)]
    ensures Ordered([a, b, c]) == [c, a, b]
  {
    assert KeyOf(a, true) == SortKey(0, 3);
    assert KeyOf(b, true) == SortKey(1, 1);
    assert KeyOf(c, true) == SortKey(0, 2);
    calc {
      Ordered([a, b, c]);
      { assert Ascending([a, b, c]); assert [a, b, c] == [a] + ([b] + [c]); }
      StableSort([a] + ([b] + [c]), true);
      { StableSortCons(a, [b] + [c], true); StableSortCons(b, [c], true); StableSortCons(c, [], true); }
      Insert(a, Insert(b, Insert(c, StableSort([], true), true), true), true);
      { InsertFront(c, [], true); }
      Insert(a, Insert(b, [c], true), true);
      { InsertPast(b, [c], true); InsertFront(b, [], true); }
      Insert(a, [c, b], true);
      { InsertPast(a, [c, b], true); InsertFront(a, [b], true); }
      [c, a, b];
    }
  }

  /**
   * The same branches with the right-hand one first: Right now sorts before
   * Left, and the gestures still ascend within the left hand.
   */
  lemma RightFirstSortsDescending(a: Branch, b: Branch, c: Branch)
    requires a.conditions == [Condition(Left, 3, Equals)]
    requires b.conditions == [Condition(Right, 1, Equals)]
    requires c.conditions == [Condition(Left, 2, Equals)]
    ensures Ordered([b, a, c]) == [b, c, a]
  {
    assert KeyOf(a, false) == SortKey(0, 3);
    assert KeyOf(b, false) == SortKey(-1, 1);
    assert KeyOf(c, false) == SortKey(0, 2);
    calc {
      Ordered([b, a, c]);
      { assert !Ascending([b, a, c]); assert [b, a, c] == [b] + ([a] + [c]); }
      StableSort([b] + ([a] + [c]), false);
      { StableSortCons(b, [a] + [c], false); StableSortCons(a, [c], false); StableSortCons(c, [], false); }
      Insert(b, Insert(a, Insert(c, StableSort([], false), false), false), false);
      { InsertFront(c, [], false); }
      Insert(b, Insert(a, [c], false), false);
      { InsertPast(a, [c], false); InsertFront(a, [], false); }
      Insert(b, [c, a], false);
      { InsertFront(b, [c, a], false); }
      [b, c, a];
    }
  }
}
