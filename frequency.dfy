/**
 * `collections.Counter` built from a list of words, and its `most_common(1)`.
 *
 * A Counter is a dict: a map from word to count whose keys keep the order in
 * which they were first inserted. Building it from a list walks the list left
 * to right and adds one to the word's count (starting from 0). The key order
 * is part of the model because `most_common(1)` breaks ties by it.
 */
module Frequency {
  import opened Options
  import opened Selection

  /** Number of occurrences of w in ws. */
  function Count<T(==)>(ws: seq<T>, w: T): (n: nat)
    ensures n <= |ws|
    ensures n > 0 <==> w in ws
  {
    if ws == [] then 0
    else Count(ws[..|ws| - 1], w) + (if ws[|ws| - 1] == w then 1 else 0)
  }

  /** Count agrees with the multiplicity of w in the multiset of ws. */
  lemma {:induction false} CountIsMultiplicity<T>(ws: seq<T>, w: T)
    ensures Count(ws, w) == multiset(ws)[w]
  {
    if ws != [] {
      var n := |ws|;
      assert ws == ws[..n - 1] + [ws[n - 1]];
      CountIsMultiplicity(ws[..n - 1], w);
    }
  }

  /** The position of the first occurrence of w in ws. */
  function FirstIndex<T(==)>(ws: seq<T>, w: T): (i: nat)
    requires w in ws
    ensures i < |ws| && ws[i] == w
    ensures forall j :: 0 <= j < i ==> ws[j] != w
  {
    if ws[0] == w then 0 else 1 + FirstIndex(ws[1..], w)
  }

  predicate NoDuplicates<T(==)>(s: seq<T>) {
    forall i, j :: 0 <= i < j < |s| ==> s[i] != s[j]
  }

  /** A Counter: the keys in insertion order, and the count of each key. */
  datatype Counter<T> = Counter(order: seq<T>, counts: map<T, nat>)

  /** The keys listed in `order` are exactly the keys of `counts`. */
  ghost predicate KeysAgree<T(!new)>(c: Counter<T>) {
    forall w :: w in c.order <==> w in c.counts
  }

  /**
   * `Counter(ws)`. Its keys are the distinct words of ws, each listed once,
   * each with its number of occurrences, and the number of keys is the length
   * of the key order.
   */
  function Tally<T(==,!new)>(ws: seq<T>): (c: Counter<T>)
    ensures KeysAgree(c)
    ensures NoDuplicates(c.order)
    ensures forall w :: w in c.counts <==> w in ws
    ensures forall w :: w in c.counts ==> c.counts[w] == Count(ws, w)
    ensures |c.counts| == |c.order| <= |ws|
  {
    if ws == [] then Counter([], map[])
    else
      var pre, w := ws[..|ws| - 1], ws[|ws| - 1];
      var prev := Tally(pre);
      assert ws == pre + [w];
      if w in prev.counts then Counter(prev.order, prev.counts[w := prev.counts[w] + 1])
      else Counter(prev.order + [w], prev.counts[w := 1])
  }

  /** Appending a word leaves the first occurrence of every earlier word where it was. */
  lemma FirstIndexPrefix<T>(ws: seq<T>, u: T)
    requires |ws| > 0 && u in ws[..|ws| - 1]
    ensures u in ws && FirstIndex(ws, u) == FirstIndex(ws[..|ws| - 1], u)
  {
    var pre := ws[..|ws| - 1];
    var a, b := FirstIndex(ws, u), FirstIndex(pre, u);
    assert ws[b] == pre[b] == u;
    assert a <= b;
    assert pre[a] == ws[a];
  }

  /** The keys in `order` occur in ws, and their first occurrences increase along `order`. */
  ghost predicate InFirstOccurrenceOrder<T(!new)>(ws: seq<T>, order: seq<T>) {
    && (forall x :: x in order ==> x in ws)
    && (forall a, b :: 0 <= a < b < |order| ==> FirstIndex(ws, order[a]) < FirstIndex(ws, order[b]))
  }

  /** Appending a word to ws keeps a key order in first-occurrence order. */
  lemma FirstOccurrenceOrderExtend<T(!new)>(ws: seq<T>, order: seq<T>)
    requires |ws| > 0 && InFirstOccurrenceOrder(ws[..|ws| - 1], order)
    ensures InFirstOccurrenceOrder(ws, order)
    ensures forall x :: x in order ==> FirstIndex(ws, x) < |ws| - 1
  {
    forall x | x in order
      ensures x in ws && FirstIndex(ws, x) == FirstIndex(ws[..|ws| - 1], x)
    {
      FirstIndexPrefix(ws, x);
    }
  }

  /** A word seen for the first time at the end of ws can be appended to the key order. */
  lemma FirstOccurrenceOrderAppend<T(!new)>(ws: seq<T>, order: seq<T>)
    requires |ws| > 0 && InFirstOccurrenceOrder(ws[..|ws| - 1], order)
    requires ws[|ws| - 1] !in ws[..|ws| - 1]
    ensures InFirstOccurrenceOrder(ws, order + [ws[|ws| - 1]])
  {
    var w, ord := ws[|ws| - 1], order + [ws[|ws| - 1]];
    FirstOccurrenceOrderExtend(ws, order);
    assert FirstIndex(ws, w) == |ws| - 1;
    forall a, b | 0 <= a < b < |ord|
      ensures FirstIndex(ws, ord[a]) < FirstIndex(ws, ord[b])
    {
      assert ord[a] == order[a];
      if b < |order| {
        assert ord[b] == order[b];
      } else {
        assert ord[b] == w;
      }
    }
  }

  /**
   * The Counter lists its keys in the order of their first occurrences in
   * the list it was built from.
   */
  lemma {:induction false} TallyOrderIsFirstOccurrence<T(!new)>(ws: seq<T>)
    ensures InFirstOccurrenceOrder(ws, Tally(ws).order)
  {
    if ws != [] {
      var pre, w := ws[..|ws| - 1], ws[|ws| - 1];
      TallyOrderIsFirstOccurrence(pre);
      var prev := Tally(pre);
      assert InFirstOccurrenceOrder(pre, prev.order);
      if w in prev.counts {
        FirstOccurrenceOrderExtend(ws, prev.order);
      } else {
        FirstOccurrenceOrderAppend(ws, prev.order);
      }
    }
  }

  /** The sum of the counts of the given keys. */
  function SumCounts<T(==)>(keys: seq<T>, counts: map<T, nat>): nat
    requires forall w :: w in keys ==> w in counts
  {
    if keys == [] then 0
    else SumCounts(keys[..|keys| - 1], counts) + counts[keys[|keys| - 1]]
  }

  /** Changing the count of a key that is not listed leaves the sum alone. */
  lemma {:induction false} SumCountsOutside<T>(keys: seq<T>, counts: map<T, nat>, w: T, v: nat)
    requires forall u :: u in keys ==> u in counts
    requires w !in keys
    ensures SumCounts(keys, counts[w := v]) == SumCounts(keys, counts)
  {
    if keys != [] {
      SumCountsOutside(keys[..|keys| - 1], counts, w, v);
    }
  }

  /** Adding one to the count of a key listed once adds one to the sum. */
  lemma {:induction false} SumCountsIncrement<T>(keys: seq<T>, counts: map<T, nat>, w: T)
    requires forall u :: u in keys ==> u in counts
    requires NoDuplicates(keys) && w in keys
    ensures SumCounts(keys, counts[w := counts[w] + 1]) == SumCounts(keys, counts) + 1
  {
    var n := |keys|;
    var pre := keys[..n - 1];
    if keys[n - 1] == w {
      SumCountsOutside(pre, counts, w, counts[w] + 1);
    } else {
      assert w in pre;
      SumCountsIncrement(pre, counts, w);
    }
  }

  /** Adding a word that is already a key adds one to the sum of the counts. */
  lemma TallyTotalRepeat<T(!new)>(ws: seq<T>)
    requires |ws| > 0 && ws[|ws| - 1] in Tally(ws[..|ws| - 1]).counts
    ensures SumCounts(Tally(ws).order, Tally(ws).counts)
         == SumCounts(Tally(ws[..|ws| - 1]).order, Tally(ws[..|ws| - 1]).counts) + 1
  {
    var prev := Tally(ws[..|ws| - 1]);
    SumCountsIncrement(prev.order, prev.counts, ws[|ws| - 1]);
  }

  /** Adding a new word as a key with count 1 adds one to the sum of the counts. */
  lemma TallyTotalNew<T(!new)>(ws: seq<T>)
    requires |ws| > 0 && ws[|ws| - 1] !in Tally(ws[..|ws| - 1]).counts
    ensures SumCounts(Tally(ws).order, Tally(ws).counts)
         == SumCounts(Tally(ws[..|ws| - 1]).order, Tally(ws[..|ws| - 1]).counts) + 1
  {
    var prev, w := Tally(ws[..|ws| - 1]), ws[|ws| - 1];
    SumCountsOutside(prev.order, prev.counts, w, 1);
    assert (prev.order + [w])[..|prev.order|] == prev.order;
  }

  /** `sum(Counter(ws).values())`: the counts add up to the number of words. */
  lemma {:induction false} TallyTotal<T(!new)>(ws: seq<T>)
    ensures SumCounts(Tally(ws).order, Tally(ws).counts) == |ws|
  {
    if ws != [] {
      TallyTotal(ws[..|ws| - 1]);
      if ws[|ws| - 1] in Tally(ws[..|ws| - 1]).counts {
        TallyTotalRepeat(ws);
      } else {
        TallyTotalNew(ws);
      }
    }
  }

  /** The counts of the keys, in key order. */
  function CountsInOrder<T(==,!new)>(c: Counter<T>): (v: seq<nat>)
    requires KeysAgree(c)
    ensures |v| == |c.order|
    ensures forall i :: 0 <= i < |v| ==> v[i] == c.counts[c.order[i]]
  {
    seq(|c.order|, i requires 0 <= i < |c.order| => c.counts[c.order[i]])
  }

  /**
   * `c.most_common(1)`, as its single pair or None for an empty Counter. The
   * word has the largest count, and no key before it in the key order has
   * that count (`heapq.nlargest(1, ...)` is `max` over the items in order).
   */
  function MostCommon<T(==,!new)>(c: Counter<T>): (r: Option<(T, nat)>)
    requires KeysAgree(c)
    ensures r == None <==> c.order == []
    ensures r.Some? ==> r.value.0 in c.counts && r.value.1 == c.counts[r.value.0]
    ensures r.Some? ==> forall w :: w in c.counts ==> c.counts[w] <= r.value.1
    ensures r.Some? ==> forall j :: 0 <= j < |c.order| && c.counts[c.order[j]] == r.value.1 ==>
      r.value.0 in c.order[..j + 1]
  {
    if c.order == [] then None
    else
      var v := CountsInOrder(c);
      var k := FirstMaxIndex(v);
      assert forall w :: w in c.counts ==> exists j :: 0 <= j < |c.order| && c.order[j] == w;
      assert c.order[k] in c.order[..k + 1];
      Some((c.order[k], c.counts[c.order[k]]))
  }

  /**
   * For a non-empty list, `Counter(ws).most_common(1)` is a word of ws with
   * the largest number of occurrences, and of the words with that number it
   * is the one whose first occurrence comes first.
   */
  lemma MostCommonOfTally<T(!new)>(ws: seq<T>)
    requires ws != []
    ensures MostCommon(Tally(ws)).Some?
    ensures var (w, n) := MostCommon(Tally(ws)).value;
      && w in ws
      && n == Count(ws, w)
      && (forall u :: u in ws ==> Count(ws, u) <= n)
      && (forall u :: u in ws && Count(ws, u) == n ==> FirstIndex(ws, w) <= FirstIndex(ws, u))
  {
    var c := Tally(ws);
    assert ws[0] in c.counts;
    TallyOrderIsFirstOccurrence(ws);
    var (w, n) := MostCommon(c).value;
    forall u | u in ws && Count(ws, u) == n
      ensures FirstIndex(ws, w) <= FirstIndex(ws, u)
    {
      assert u in c.order;
      var j :| 0 <= j < |c.order| && c.order[j] == u;
      KeyUpToFirstOccursFirst(ws, c.order, j, w);
    }
  }

  /**
   * In a key order that follows first occurrences, a key listed no later
   * than position j occurs first no later than the key at position j.
   */
  lemma KeyUpToFirstOccursFirst<T(!new)>(ws: seq<T>, order: seq<T>, j: nat, w: T)
    requires InFirstOccurrenceOrder(ws, order)
    requires j < |order| && w in order[..j + 1]
    ensures w in ws && order[j] in ws
    ensures FirstIndex(ws, w) <= FirstIndex(ws, order[j])
  {
    var a :| 0 <= a <= j && order[a] == w;
    if a < j {
      assert FirstIndex(ws, order[a]) < FirstIndex(ws, order[j]);
    }
  }
}
