/**
  Insertion-ordered counters, as the parser's two dictionaries are used: a key seen
  for the first time is appended to the order with count 1, a key seen again has its
  count raised by 1.
*/
module Tallies {

  /** The value of an ordered counter: keys in first-seen order and their counts. */
  datatype Tally<K(==)> = Tally(order: seq<K>, counts: map<K, nat>)

  /** The count of k, 0 when absent (Python's counts.get(k, 0)). */
  function Count<K(==)>(t: Tally<K>, k: K): nat {
    if k in t.counts then t.counts[k] else 0
  }

  predicate Distinct<K(==)>(s: seq<K>) {
    forall i, j :: 0 <= i < j < |s| ==> s[i] != s[j]
  }

  /** Each key listed once, exactly the keys with a count, every count positive. */
  ghost predicate WellFormed<K>(t: Tally<K>) {
    && Distinct(t.order)
    && (forall k :: k in t.counts ==> k in t.order && t.counts[k] >= 1)
    && (forall i :: 0 <= i < |t.order| ==> t.order[i] in t.counts)
  }

  /** The sum of the counts of the listed keys. */
  function Sum<K(==)>(order: seq<K>, counts: map<K, nat>): nat
    decreases |order|
  {
    if order == [] then 0
    else Sum(order[..|order| - 1], counts) + (if order[|order| - 1] in counts then counts[order[|order| - 1]] else 0)
  }

  function Total<K(==)>(t: Tally<K>): nat {
    Sum(t.order, t.counts)
  }

  function Empty<K(==)>(): Tally<K> {
    Tally([], map[])
  }

  /** One more occurrence of k (Python's `counts[k] = counts.get(k, 0) + 1`). */
  function Bump<K(==)>(t: Tally<K>, k: K): Tally<K> {
    if k in t.counts then Tally(t.order, t.counts[k := t.counts[k] + 1])
    else Tally(t.order + [k], t.counts[k := 1])
  }

  /** The tally of a sequence of occurrences, counted from the empty tally in order. */
  function TallyOf<K(==)>(ks: seq<K>): Tally<K>
    decreases |ks|
  {
    if ks == [] then Empty() else Bump(TallyOf(ks[..|ks| - 1]), ks[|ks| - 1])
  }

  /** Changing the count of an unlisted key leaves the sum alone. */
  lemma {:induction false} SumUnlisted<K>(order: seq<K>, counts: map<K, nat>, k: K, v: nat)
    requires k !in order
    ensures Sum(order, counts[k := v]) == Sum(order, counts)
    decreases |order|
  {
    if order != [] {
      SumUnlisted(order[..|order| - 1], counts, k, v);
    }
  }

  /** Changing the count of a key listed once moves the sum by the difference. */
  lemma {:induction false} SumListed<K>(order: seq<K>, counts: map<K, nat>, k: K, v: nat)
    requires Distinct(order) && k in order
    ensures Sum(order, counts[k := v]) + (if k in counts then counts[k] else 0) == Sum(order, counts) + v
    decreases |order|
  {
    var init := order[..|order| - 1];
    var last := order[|order| - 1];
    if last == k {
      assert k !in init by {
        forall i | 0 <= i < |init| ensures init[i] != k { assert init[i] == order[i]; }
      }
      SumUnlisted(init, counts, k, v);
    } else {
      assert k in init by {
        var i :| 0 <= i < |order| && order[i] == k;
        assert init[i] == k;
      }
      assert Distinct(init) by {
        forall i, j | 0 <= i < j < |init| ensures init[i] != init[j] { assert init[i] == order[i] && init[j] == order[j]; }
      }
      SumListed(init, counts, k, v);
    }
  }

  lemma BumpWellFormed<K>(t: Tally<K>, k: K)
    requires WellFormed(t)
    ensures WellFormed(Bump(t, k))
  {
    if k !in t.counts {
      var o := t.order + [k];
      assert Distinct(o) by {
        forall i, j | 0 <= i < j < |o| ensures o[i] != o[j] {
          if j == |t.order| { assert o[i] == t.order[i]; }
          else { assert o[i] == t.order[i] && o[j] == t.order[j]; }
        }
      }
      forall i | 0 <= i < |o| ensures o[i] in Bump(t, k).counts {
        if i < |t.order| { assert o[i] == t.order[i]; }
      }
    }
  }

  lemma BumpTotal<K>(t: Tally<K>, k: K)
    requires WellFormed(t)
    ensures Total(Bump(t, k)) == Total(t) + 1
  {
    if k in t.counts {
      SumListed(t.order, t.counts, k, t.counts[k] + 1);
    } else {
      assert k !in t.order;
      SumUnlisted(t.order, t.counts, k, 1);
      var o := t.order + [k];
      assert o[..|o| - 1] == t.order;
    }
  }

  /** Each occurrence raises exactly one count, k's, by exactly one, appends k to the
      order if it is new, keeps the tally well formed and adds one to the total. */
  lemma BumpOne<K>(t: Tally<K>, k: K)
    requires WellFormed(t)
    ensures WellFormed(Bump(t, k))
    ensures Count(Bump(t, k), k) == Count(t, k) + 1
    ensures forall j :: j != k ==> Count(Bump(t, k), j) == Count(t, j)
    ensures Bump(t, k).order == if k in t.counts then t.order else t.order + [k]
    ensures Total(Bump(t, k)) == Total(t) + 1
  {
    BumpWellFormed(t, k);
    BumpTotal(t, k);
  }

  /** The tally of a sequence is well formed, lists exactly the keys that occur, and
      counts each key as often as it occurs. */
  lemma {:induction false} TallyOfCounts<K>(ks: seq<K>)
    ensures WellFormed(TallyOf(ks))
    ensures forall k :: k in TallyOf(ks).counts <==> k in ks
    ensures forall k :: Count(TallyOf(ks), k) == multiset(ks)[k]
    decreases |ks|
  {
    if ks != [] {
      var init := ks[..|ks| - 1];
      var last := ks[|ks| - 1];
      var t := TallyOf(init);
      TallyOfCounts(init);
      BumpWellFormed(t, last);
      assert ks == init + [last];
      assert multiset(ks) == multiset(init) + multiset{last};
      forall k ensures Count(TallyOf(ks), k) == multiset(ks)[k] {
        if k != last {
          assert Count(Bump(t, last), k) == Count(t, k);
        }
      }
      forall k ensures k in TallyOf(ks).counts <==> k in ks {
        assert k in ks <==> k in init || k == last;
      }
    }
  }

  /** The total of the tally of a sequence is its length. */
  lemma {:induction false} TallyOfTotal<K>(ks: seq<K>)
    ensures Total(TallyOf(ks)) == |ks|
    decreases |ks|
  {
    if ks != [] {
      var init := ks[..|ks| - 1];
      TallyOfTotal(init);
      TallyOfCounts(init);
      BumpOne(TallyOf(init), ks[|ks| - 1]);
    }
  }

  /** The position of the first occurrence of k. */
  function FirstIndex<K(==)>(ks: seq<K>, k: K): (p: nat)
    requires k in ks
    ensures p < |ks| && ks[p] == k && k !in ks[..p]
    decreases |ks|
  {
    if ks[0] == k then 0
    else
      var p := 1 + FirstIndex(ks[1..], k);
      assert ks[..p] == [ks[0]] + ks[1..][..p - 1];
      p
  }

  lemma {:induction false} FirstIndexSnoc<K>(ks: seq<K>, x: K, k: K)
    requires k in ks
    ensures FirstIndex(ks + [x], k) == FirstIndex(ks, k)
    decreases |ks|
  {
    if ks[0] != k {
      assert (ks + [x])[1..] == ks[1..] + [x];
      FirstIndexSnoc(ks[1..], x, k);
    }
  }

  lemma FirstIndexOfNew<K>(ks: seq<K>, x: K)
    requires x !in ks
    ensures FirstIndex(ks + [x], x) == |ks|
  {
  }

  /** The order of the tally of a sequence is the order of first occurrence. */
  lemma {:induction false} TallyOfOrder<K>(ks: seq<K>)
    ensures forall i :: 0 <= i < |TallyOf(ks).order| ==> TallyOf(ks).order[i] in ks
    ensures forall i, j :: 0 <= i < j < |TallyOf(ks).order| ==>
      FirstIndex(ks, TallyOf(ks).order[i]) < FirstIndex(ks, TallyOf(ks).order[j])
    decreases |ks|
  {
    if ks != [] {
      var init := ks[..|ks| - 1];
      var last := ks[|ks| - 1];
      TallyOfOrder(init);
      TallyOfOrderSnoc(ks);
      BumpOrderFirst(ks, TallyOf(init).order);
    }
  }

  /** The order after one more occurrence: unchanged for a key seen before, else the
      key appended. */
  lemma TallyOfOrderSnoc<K>(ks: seq<K>)
    requires ks != []
    ensures var init := ks[..|ks| - 1];
      var last := ks[|ks| - 1];
      TallyOf(ks).order == if last in init then TallyOf(init).order else TallyOf(init).order + [last]
  {
    var init := ks[..|ks| - 1];
    TallyOfCounts(init);
  }

  /** Appending an occurrence keeps an order of first occurrence one, when the new key
      goes to the end exactly when it has not occurred before. */
  lemma BumpOrderFirst<K>(ks: seq<K>, order: seq<K>)
    requires ks != []
    requires forall i :: 0 <= i < |order| ==> order[i] in ks[..|ks| - 1]
    requires forall i, j :: 0 <= i < j < |order| ==>
      FirstIndex(ks[..|ks| - 1], order[i]) < FirstIndex(ks[..|ks| - 1], order[j])
    ensures var o := if ks[|ks| - 1] in ks[..|ks| - 1] then order else order + [ks[|ks| - 1]];
      && (forall i :: 0 <= i < |o| ==> o[i] in ks)
      && (forall i, j :: 0 <= i < j < |o| ==> FirstIndex(ks, o[i]) < FirstIndex(ks, o[j]))
  {
    var init := ks[..|ks| - 1];
    var last := ks[|ks| - 1];
    assert ks == init + [last];
    var o := if last in init then order else order + [last];
    forall i | 0 <= i < |order| ensures FirstIndex(ks, order[i]) == FirstIndex(init, order[i]) < |init| {
      FirstIndexSnoc(init, last, order[i]);
    }
    forall i | 0 <= i < |o| ensures o[i] in ks {
      if i < |order| { assert o[i] == order[i]; }
    }
    if last !in init {
      FirstIndexOfNew(init, last);
      forall i, j | 0 <= i < j < |o| ensures FirstIndex(ks, o[i]) < FirstIndex(ks, o[j]) {
        assert o[i] == order[i];
        if j < |order| { assert o[j] == order[j]; }
      }
    }
  }

  /** A mutable insertion-ordered counter, as Python's dictionaries keep one. */
  class Counter<K(==)> {
    var order: seq<K>
    var counts: map<K, nat>

    ghost predicate Valid()
      reads this
    {
      WellFormed(Tally(order, counts))
    }

    function Snapshot(): Tally<K>
      reads this
    {
      Tally(order, counts)
    }

    constructor ()
      ensures Valid() && Snapshot() == Empty()
    {
      order := [];
      counts := map[];
    }

    /** `counts[k] = counts.get(k, 0) + 1`: a new key goes to the end of the order;
        BumpOne states what that does to every count, the order and the total. */
    method Increment(k: K)
      requires Valid()
      modifies this
      ensures Valid()
      ensures Snapshot() == Bump(old(Snapshot()), k)
    {
      BumpWellFormed(Snapshot(), k);
      if k in counts {
        counts := counts[k := counts[k] + 1];
      } else {
        order := order + [k];
        counts := counts[k := 1];
      }
    }
  }
}
