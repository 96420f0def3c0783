/**
 * Grouping rows by a key, as the controllers do with `reduce`/`forEach` into an
 * object keyed by window id and then `Object.values`: groups come out in the
 * order their key first appears, and each group holds that key's rows in
 * their original order.
 *
 * `Keys` and `Members` are the reference definitions (written over the last
 * row, as a left fold sees it); `GroupBy` is the accumulating loop; the lemmas
 * state that every row lands in exactly one group and that the group sizes
 * add up to the number of rows.
 */
module Grouping {
  import opened Common

  datatype Group<T> = Group(key: Id, members: seq<T>)

  predicate Distinct(ks: seq<Id>)
  {
    forall i, j :: 0 <= i < j < |ks| ==> ks[i] != ks[j]
  }

  /** The distinct keys of `xs`, in order of first appearance. */
  function Keys<T>(xs: seq<T>, key: T -> Id): (ks: seq<Id>)
    ensures Distinct(ks)
    ensures forall k :: k in ks <==> exists i :: 0 <= i < |xs| && key(xs[i]) == k
  {
    if xs == [] then []
    else
      var front, last := xs[..|xs| - 1], xs[|xs| - 1];
      var ks := Keys(front, key);
      assert forall i :: 0 <= i < |front| ==> front[i] == xs[i];
      if key(last) in ks then ks else ks + [key(last)]
  }

  /** The rows of `xs` whose key is `k`, in their original order. */
  function Members<T>(xs: seq<T>, key: T -> Id, k: Id): seq<T>
  {
    if xs == [] then []
    else
      var last := xs[|xs| - 1];
      Members(xs[..|xs| - 1], key, k) + (if key(last) == k then [last] else [])
  }

  lemma KeysSnoc<T>(xs: seq<T>, x: T, key: T -> Id)
    ensures Keys(xs + [x], key) == if key(x) in Keys(xs, key) then Keys(xs, key) else Keys(xs, key) + [key(x)]
  {
    assert (xs + [x])[..|xs|] == xs;
  }

  lemma MembersSnoc<T>(xs: seq<T>, x: T, key: T -> Id, k: Id)
    ensures Members(xs + [x], key, k) == Members(xs, key, k) + (if key(x) == k then [x] else [])
  {
    assert (xs + [x])[..|xs|] == xs;
  }

  /** Every member of a group is a row of the input and carries the group's key. */
  lemma {:induction false} MembersAreRows<T>(xs: seq<T>, key: T -> Id, k: Id)
    ensures forall y :: y in Members(xs, key, k) ==> y in xs && key(y) == k
  {
    if xs != [] {
      var front := xs[..|xs| - 1];
      MembersAreRows(front, key, k);
      assert xs == front + [xs[|xs| - 1]];
    }
  }

  /** Every row is a member of the group of its own key. */
  lemma {:induction false} RowInOwnGroup<T>(xs: seq<T>, key: T -> Id, i: nat)
    requires i < |xs|
    ensures xs[i] in Members(xs, key, key(xs[i]))
  {
    var front := xs[..|xs| - 1];
    if i < |xs| - 1 {
      RowInOwnGroup(front, key, i);
      assert front[i] == xs[i];
    }
  }

  /** A key that never occurs has no members. */
  lemma AbsentKeyEmpty<T>(xs: seq<T>, key: T -> Id, k: Id)
    requires k !in Keys(xs, key)
    ensures Members(xs, key, k) == []
  {
    MembersAreRows(xs, key, k);
  }

  /**
   * Each row belongs to exactly one group: the group of its key holds it, and
   * no other group holds any row with that key.
   */
  lemma RowInExactlyOneGroup<T>(xs: seq<T>, key: T -> Id, i: nat)
    requires i < |xs|
    ensures key(xs[i]) in Keys(xs, key)
    ensures xs[i] in Members(xs, key, key(xs[i]))
    ensures forall k :: k != key(xs[i]) ==> xs[i] !in Members(xs, key, k)
  {
    RowInOwnGroup(xs, key, i);
    forall k | k != key(xs[i]) ensures xs[i] !in Members(xs, key, k)
    {
      MembersAreRows(xs, key, k);
    }
  }

  /** Sum of the group sizes over the keys `ks`. */
  function TotalSize<T>(xs: seq<T>, key: T -> Id, ks: seq<Id>): nat
  {
    if ks == [] then 0 else |Members(xs, key, ks[0])| + TotalSize(xs, key, ks[1..])
  }

  /** Number of occurrences of `k` in `ks`. */
  function Occurrences(ks: seq<Id>, k: Id): nat
  {
    if ks == [] then 0 else (if ks[0] == k then 1 else 0) + Occurrences(ks[1..], k)
  }

  lemma {:induction false} OccurrencesDistinct(ks: seq<Id>, k: Id)
    requires Distinct(ks)
    ensures Occurrences(ks, k) == if k in ks then 1 else 0
  {
    if ks != [] {
      assert Distinct(ks[1..]);
      OccurrencesDistinct(ks[1..], k);
      assert ks[0] == k ==> k !in ks[1..];
      assert k in ks <==> ks[0] == k || k in ks[1..];
    }
  }

  lemma {:induction false} TotalSizeSnocRow<T>(xs: seq<T>, x: T, key: T -> Id, ks: seq<Id>)
    ensures TotalSize(xs + [x], key, ks) == TotalSize(xs, key, ks) + Occurrences(ks, key(x))
  {
    if ks != [] {
      MembersSnoc(xs, x, key, ks[0]);
      TotalSizeSnocRow(xs, x, key, ks[1..]);
    }
  }

  lemma {:induction false} TotalSizeSnocKey<T>(xs: seq<T>, key: T -> Id, ks: seq<Id>, k: Id)
    ensures TotalSize(xs, key, ks + [k]) == TotalSize(xs, key, ks) + |Members(xs, key, k)|
  {
    if ks != [] {
      assert (ks + [k])[1..] == ks[1..] + [k];
      TotalSizeSnocKey(xs, key, ks[1..], k);
    }
  }

  /** Conservation: the group sizes add up to the number of rows. */
  lemma {:induction false} GroupSizesSum<T>(xs: seq<T>, key: T -> Id)
    ensures TotalSize(xs, key, Keys(xs, key)) == |xs|
  {
    if xs != [] {
      var front, x := xs[..|xs| - 1], xs[|xs| - 1];
      assert xs == front + [x];
      GroupSizesSum(front, key);
      var ks := Keys(front, key);
      KeysSnoc(front, x, key);
      TotalSizeSnocRow(front, x, key, ks);
      OccurrencesDistinct(ks, key(x));
      if key(x) !in ks {
        TotalSizeSnocKey(xs, key, ks, key(x));
        MembersSnoc(front, x, key, key(x));
        AbsentKeyEmpty(front, key, key(x));
      }
    }
  }

  /** Filtering by key keeps the rows in their input order: a sorted input gives sorted groups. */
  lemma {:induction false} MembersKeepOrder<T>(xs: seq<T>, key: T -> Id, rank: T -> int, k: Id)
    requires forall i, j :: 0 <= i < j < |xs| ==> rank(xs[i]) <= rank(xs[j])
    ensures var ms := Members(xs, key, k);
      forall i, j :: 0 <= i < j < |ms| ==> rank(ms[i]) <= rank(ms[j])
  {
    if xs != [] {
      var front, x := xs[..|xs| - 1], xs[|xs| - 1];
      assert xs == front + [x];
      MembersKeepOrder(front, key, rank, k);
      MembersAreRows(front, key, k);
      MembersSnoc(front, x, key, k);
      var ms := Members(front, key, k);
      forall y | y in ms ensures rank(y) <= rank(x)
      {
        var i :| 0 <= i < |front| && front[i] == y;
        assert xs[i] == y;
      }
    }
  }

  /** Sum of the sizes of the listed groups. */
  function SizeSum<T>(gs: seq<Group<T>>): nat
  {
    if gs == [] then 0 else |gs[0].members| + SizeSum(gs[1..])
  }

  lemma {:induction false} SizeSumIsTotalSize<T>(gs: seq<Group<T>>, xs: seq<T>, key: T -> Id, ks: seq<Id>)
    requires |gs| == |ks|
    requires forall j :: 0 <= j < |gs| ==> gs[j] == Group(ks[j], Members(xs, key, ks[j]))
    ensures SizeSum(gs) == TotalSize(xs, key, ks)
  {
    if gs != [] {
      SizeSumIsTotalSize(gs[1..], xs, key, ks[1..]);
    }
  }

  /**
   * The listed groups partition the rows: each row is in the group of its key,
   * a group holds only rows of its key, keys are listed once, and the sizes add
   * up to the number of rows.
   */
  lemma GroupsPartitionRows<T>(r: seq<Group<T>>, xs: seq<T>, key: T -> Id)
    requires |r| == |Keys(xs, key)|
    requires forall j :: 0 <= j < |r| ==> r[j] == Group(Keys(xs, key)[j], Members(xs, key, Keys(xs, key)[j]))
    ensures forall i :: 0 <= i < |xs| ==> exists j :: 0 <= j < |r| && r[j].key == key(xs[i]) && xs[i] in r[j].members
    ensures forall j, y :: 0 <= j < |r| && y in r[j].members ==> key(y) == r[j].key
    ensures forall j, j' :: 0 <= j < j' < |r| ==> r[j].key != r[j'].key
    ensures SizeSum(r) == |xs|
  {
    var ks := Keys(xs, key);
    forall i | 0 <= i < |xs| ensures exists j :: 0 <= j < |r| && r[j].key == key(xs[i]) && xs[i] in r[j].members
    {
      RowInExactlyOneGroup(xs, key, i);
      var j :| 0 <= j < |ks| && ks[j] == key(xs[i]);
      assert r[j].key == key(xs[i]) && xs[i] in r[j].members;
    }
    forall j, y | 0 <= j < |r| && y in r[j].members ensures key(y) == r[j].key
    {
      MembersAreRows(xs, key, ks[j]);
    }
    GroupSizesSum(xs, key);
    SizeSumIsTotalSize(r, xs, key, ks);
  }

  /** How the keys and the groups change when the prefix grows by one row. */
  lemma PrefixStep<T>(xs: seq<T>, key: T -> Id, i: nat)
    requires i < |xs|
    ensures Keys(xs[..i + 1], key) == if key(xs[i]) in Keys(xs[..i], key) then Keys(xs[..i], key) else Keys(xs[..i], key) + [key(xs[i])]
    ensures forall k :: Members(xs[..i + 1], key, k) == Members(xs[..i], key, k) + (if key(xs[i]) == k then [xs[i]] else [])
  {
    assert xs[..i + 1] == xs[..i] + [xs[i]];
    KeysSnoc(xs[..i], xs[i], key);
    forall k ensures Members(xs[..i + 1], key, k) == Members(xs[..i], key, k) + (if key(xs[i]) == k then [xs[i]] else [])
    {
      MembersSnoc(xs[..i], xs[i], key, k);
    }
  }

  /** `Object.values` of the accumulator: one group per key, in first-appearance order. */
  function Collect<T>(order: seq<Id>, groups: map<Id, seq<T>>): (r: seq<Group<T>>)
    requires forall k :: k in order ==> k in groups
    ensures |r| == |order|
    ensures forall j :: 0 <= j < |order| ==> r[j] == Group(order[j], groups[order[j]])
  {
    seq(|order|, j requires 0 <= j < |order| => Group(order[j], groups[order[j]]))
  }

  /**
   * The `reduce` that pushes each row onto the array of its key, creating the
   * array on first sight; the result lists the groups as `Object.values` does.
   */
  method GroupBy<T>(xs: seq<T>, key: T -> Id) returns (r: seq<Group<T>>)
    ensures |r| == |Keys(xs, key)|
    ensures forall j :: 0 <= j < |r| ==> r[j] == Group(Keys(xs, key)[j], Members(xs, key, Keys(xs, key)[j]))
    ensures forall i :: 0 <= i < |xs| ==> exists j :: 0 <= j < |r| && r[j].key == key(xs[i]) && xs[i] in r[j].members
    ensures forall j, y :: 0 <= j < |r| && y in r[j].members ==> key(y) == r[j].key
    ensures forall j, j' :: 0 <= j < j' < |r| ==> r[j].key != r[j'].key
    ensures SizeSum(r) == |xs|
  {
    var order: seq<Id> := [];
    var groups: map<Id, seq<T>> := map[];
    for i := 0 to |xs|
      invariant order == Keys(xs[..i], key)
      invariant forall k :: k in groups <==> k in order
      invariant forall k :: k in groups ==> groups[k] == Members(xs[..i], key, k)
    {
      var x := xs[i];
      PrefixStep(xs, key, i);
      var k := key(x);
      if k !in groups {
        AbsentKeyEmpty(xs[..i], key, k);
        groups := groups[k := []];
        order := order + [k];
      }
      groups := groups[k := groups[k] + [x]];
    }
    assert xs[..|xs|] == xs;
    r := Collect(order, groups);
    GroupsPartitionRows(r, xs, key);
  }

  // ---------------------------------------------------------------------------
  // Keyed folds: an accumulator object updated in place per key
  // ---------------------------------------------------------------------------

  /** Left fold of `step` over `ys`, starting from `init`. */
  function Fold<T, A>(init: A, ys: seq<T>, step: (A, T) -> A): A
  {
    if ys == [] then init else step(Fold(init, ys[..|ys| - 1], step), ys[|ys| - 1])
  }

  /**
   * The accumulator entry of key `k` after a keyed pass over `xs`: absent
   * until the first row with key `k`, which creates it with `start`; every
   * row with key `k` then applies `step` to it.
   */
  function KeyFold<T, A>(xs: seq<T>, key: T -> Id, start: T -> A, step: (A, T) -> A, k: Id): Option<A>
  {
    if xs == [] then None
    else
      var x := xs[|xs| - 1];
      var prev := KeyFold(xs[..|xs| - 1], key, start, step, k);
      if key(x) != k then prev
      else Some(step(if prev.Some? then prev.value else start(x), x))
  }

  lemma KeyFoldSnoc<T, A>(xs: seq<T>, x: T, key: T -> Id, start: T -> A, step: (A, T) -> A, k: Id)
    ensures KeyFold(xs + [x], key, start, step, k) ==
      var prev := KeyFold(xs, key, start, step, k);
      if key(x) != k then prev else Some(step(if prev.Some? then prev.value else start(x), x))
  {
    assert (xs + [x])[..|xs|] == xs;
  }

  /**
   * The keyed pass computes, for each key, the plain fold over that key's
   * group, started from the entry its first row creates; a key without rows
   * has no entry.
   */
  lemma {:induction false} KeyFoldIsGroupFold<T, A>(xs: seq<T>, key: T -> Id, start: T -> A, step: (A, T) -> A, k: Id)
    ensures var ms := Members(xs, key, k);
      KeyFold(xs, key, start, step, k) == if ms == [] then None else Some(Fold(start(ms[0]), ms, step))
  {
    if xs != [] {
      var front, x := xs[..|xs| - 1], xs[|xs| - 1];
      KeyFoldIsGroupFold(front, key, start, step, k);
      assert xs == front + [x];
      MembersSnoc(front, x, key, k);
      KeyFoldSnoc(front, x, key, start, step, k);
      var ms := Members(front, key, k);
      if key(x) == k {
        var ms' := ms + [x];
        assert ms'[..|ms'| - 1] == ms;
        var first := if ms == [] then x else ms[0];
        assert ms'[0] == first;
        assert Fold(start(first), ms', step) == step(Fold(start(first), ms, step), x);
        var prev := KeyFold(front, key, start, step, k);
        assert (if prev.Some? then prev.value else start(x)) == Fold(start(first), ms, step);
        assert KeyFold(xs, key, start, step, k) == Some(Fold(start(first), ms', step));
        assert Members(xs, key, k) == ms';
      } else {
        assert KeyFold(xs, key, start, step, k) == KeyFold(front, key, start, step, k);
        assert Members(xs, key, k) == ms;
      }
    }
  }

  /** How every key's entry changes when the prefix grows by one row. */
  lemma KeyFoldPrefixStep<T, A>(xs: seq<T>, key: T -> Id, start: T -> A, step: (A, T) -> A, i: nat)
    requires i < |xs|
    ensures Keys(xs[..i + 1], key) == if key(xs[i]) in Keys(xs[..i], key) then Keys(xs[..i], key) else Keys(xs[..i], key) + [key(xs[i])]
    ensures forall k :: (KeyFold(xs[..i + 1], key, start, step, k) ==
      var prev := KeyFold(xs[..i], key, start, step, k);
      if key(xs[i]) != k then prev else Some(step(if prev.Some? then prev.value else start(xs[i]), xs[i])))
  {
    assert xs[..i + 1] == xs[..i] + [xs[i]];
    KeysSnoc(xs[..i], xs[i], key);
    forall k ensures KeyFold(xs[..i + 1], key, start, step, k) ==
      var prev := KeyFold(xs[..i], key, start, step, k);
      if key(xs[i]) != k then prev else Some(step(if prev.Some? then prev.value else start(xs[i]), xs[i]))
    {
      KeyFoldSnoc(xs[..i], xs[i], key, start, step, k);
    }
  }

  /**
   * The pass that creates an accumulator entry on a key's first row and
   * updates it in place on every row of that key; the result lists the
   * entries as `Object.values` does, in first-appearance order of the keys.
   */
  method FoldByKey<T, A>(xs: seq<T>, key: T -> Id, start: T -> A, step: (A, T) -> A) returns (r: seq<A>)
    ensures |r| == |Keys(xs, key)|
    ensures forall j :: 0 <= j < |r| ==> KeyFold(xs, key, start, step, Keys(xs, key)[j]) == Some(r[j])
  {
    var order: seq<Id> := [];
    var acc: map<Id, A> := map[];
    for i := 0 to |xs|
      invariant order == Keys(xs[..i], key)
      invariant forall k :: k in acc <==> k in order
      invariant forall k :: KeyFold(xs[..i], key, start, step, k) == if k in acc then Some(acc[k]) else None
    {
      var x := xs[i];
      KeyFoldPrefixStep(xs, key, start, step, i);
      var k := key(x);
      if k !in acc {
        acc := acc[k := start(x)];
        order := order + [k];
      }
      acc := acc[k := step(acc[k], x)];
    }
    assert xs[..|xs|] == xs;
    r := seq(|order|, j requires 0 <= j < |order| => acc[order[j]]);
  }
}
