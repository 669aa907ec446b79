/**
 * Counting occurrences the way the analyser does it, with a JavaScript `Map`
 * (keys kept in first-insertion order) turned into `{text, count}` records
 * and ranked with the stable `Array.prototype.sort((a, b) => b.count - a.count)`.
 * Words and phrases share this code.
 */
module Frequencies {

  /** A `{word, count}` or `{phrase, count}` record. */
  datatype Frequency = Frequency(text: string, count: nat)

  /** The distinct elements of `s` in first-occurrence order: the key order
      of a `Map` filled from `s`. */
  function Distinct(s: seq<string>): (r: seq<string>)
    ensures forall x :: x in r <==> x in s
    ensures forall i, j :: 0 <= i < j < |r| ==> r[i] != r[j]
  {
    if s == [] then []
    else
      var x := s[|s| - 1];
      var d := Distinct(s[..|s| - 1]);
      assert s == s[..|s| - 1] + [x];
      if x in d then d else d + [x]
  }

  /** The counting `Map` after `map.set(x, (map.get(x) || 0) + 1)` for each `x` of `s`. */
  function CountMap(s: seq<string>): map<string, nat>
  {
    map x | x in s :: multiset(s)[x]
  }

  /** `counts` holds, for each element of `s`, its number of occurrences. */
  ghost predicate Counts(counts: map<string, nat>, s: seq<string>) {
    (forall k :: k in counts <==> k in s)
    && (forall k :: k in counts ==> counts[k] == multiset(s)[k])
  }

  /** One more occurrence of `x`: the update the counting loops perform,
      `map.set(x, (map.get(x) || 0) + 1)`, with a new key going last. */
  lemma CountsSnoc(counts: map<string, nat>, s: seq<string>, x: string)
    requires Counts(counts, s)
    ensures Counts(counts[x := (if x in counts then counts[x] else 0) + 1], s + [x])
    ensures Distinct(s + [x]) == if x in counts then Distinct(s) else Distinct(s) + [x]
  {
    assert (s + [x])[..|s|] == s;
    assert multiset(s + [x]) == multiset(s) + multiset{x};
  }

  lemma CountsAreCountMap(counts: map<string, nat>, s: seq<string>)
    requires Counts(counts, s)
    ensures counts == CountMap(s)
  {
  }

  /** Every key of the counting `Map` has a count. */
  lemma KeysCounted(s: seq<string>)
    ensures forall k :: k in Distinct(s) ==> k in CountMap(s)
  {
  }

  /** `Array.from(map.entries()).map(([text, count]) => ({text, count}))`. */
  function Entries(keys: seq<string>, counts: map<string, nat>): seq<Frequency>
    requires forall k :: k in keys ==> k in counts
  {
    seq(|keys|, i requires 0 <= i < |keys| => Frequency(keys[i], counts[keys[i]]))
  }

  /** No two records share a text. */
  predicate DistinctTexts(es: seq<Frequency>) {
    forall i, j :: 0 <= i < j < |es| ==> es[i].text != es[j].text
  }

  /** The unsorted records of the counting `Map` filled from `s`: one per
      distinct element, in first-occurrence order, each with its number of
      occurrences. */
  function Tally(s: seq<string>): (r: seq<Frequency>)
    ensures |r| == |Distinct(s)|
    ensures forall i :: 0 <= i < |r| ==> r[i].text == Distinct(s)[i]
    ensures forall e :: e in r ==> e.count == multiset(s)[e.text] >= 1
    ensures forall x :: x in s ==> Frequency(x, multiset(s)[x]) in r
    ensures DistinctTexts(r)
  {
    var r := Entries(Distinct(s), CountMap(s));
    assert forall x :: x in s ==> r[IndexIn(Distinct(s), x)] == Frequency(x, multiset(s)[x]);
    r
  }

  /** Some position of `x` in `s`. */
  function IndexIn(s: seq<string>, x: string): (i: nat)
    requires x in s
    ensures i < |s| && s[i] == x
  {
    if s[0] == x then 0 else 1 + IndexIn(s[1..], x)
  }

  /** Sum of the counts. */
  function Total(es: seq<Frequency>): nat
  {
    if es == [] then 0 else es[0].count + Total(es[1..])
  }

  /** Occurrences in `s` of the keys, summed. */
  function SumOccurrences(keys: seq<string>, s: seq<string>): nat
  {
    if keys == [] then 0 else multiset(s)[keys[0]] + SumOccurrences(keys[1..], s)
  }

  lemma {:induction false} TotalEntries(keys: seq<string>, s: seq<string>)
    requires forall k :: k in keys ==> k in s
    ensures Total(Entries(keys, CountMap(s))) == SumOccurrences(keys, s)
  {
    if keys != [] {
      assert Entries(keys, CountMap(s))[1..] == Entries(keys[1..], CountMap(s));
      TotalEntries(keys[1..], s);
    }
  }

  lemma {:induction false} SumOccurrencesSnoc(keys: seq<string>, s: seq<string>, x: string)
    requires forall i, j :: 0 <= i < j < |keys| ==> keys[i] != keys[j]
    ensures SumOccurrences(keys, s + [x]) ==
      SumOccurrences(keys, s) + (if x in keys then 1 else 0)
  {
    assert multiset(s + [x]) == multiset(s) + multiset{x};
    if keys != [] {
      SumOccurrencesSnoc(keys[1..], s, x);
      if x == keys[0] {
        assert x !in keys[1..];
      }
    }
  }

  lemma {:induction false} SumOccurrencesEmpty(keys: seq<string>)
    ensures SumOccurrences(keys, []) == 0
  {
    if keys != [] {
      SumOccurrencesEmpty(keys[1..]);
    }
  }

  lemma {:induction false} SumOccurrencesAll(keys: seq<string>, s: seq<string>)
    requires forall i, j :: 0 <= i < j < |keys| ==> keys[i] != keys[j]
    requires forall x :: x in s ==> x in keys
    ensures SumOccurrences(keys, s) == |s|
  {
    if s == [] {
      SumOccurrencesEmpty(keys);
    } else {
      var p, x := s[..|s| - 1], s[|s| - 1];
      assert s == p + [x];
      SumOccurrencesAll(keys, p);
      SumOccurrencesSnoc(keys, p, x);
    }
  }

  /** Every occurrence is counted exactly once: the counts of the tally add
      up to the number of elements. */
  lemma TallyTotal(s: seq<string>)
    ensures Total(Tally(s)) == |s|
  {
    TotalEntries(Distinct(s), s);
    SumOccurrencesAll(Distinct(s), s);
  }

  /** The first position of `x` in `s`. */
  function FirstIndex(s: seq<string>, x: string): (i: nat)
    requires x in s
    ensures i < |s| && s[i] == x && x !in s[..i]
  {
    if s[0] == x then 0
    else
      var i := FirstIndex(s[1..], x);
      assert s[..i + 1] == [s[0]] + s[1..][..i];
      1 + i
  }

  lemma FirstIndexUnique(s: seq<string>, x: string, k: nat)
    requires k < |s| && s[k] == x && x !in s[..k]
    ensures FirstIndex(s, x) == k
  {
  }

  /** The first position of an element of a prefix is the same in the prefix. */
  lemma FirstIndexPrefix(s: seq<string>, m: nat, y: string)
    requires m <= |s| && y in s[..m]
    ensures FirstIndex(s, y) == FirstIndex(s[..m], y) < m
  {
    var k := FirstIndex(s[..m], y);
    assert s[..k] == s[..m][..k];
    FirstIndexUnique(s, y, k);
  }

  /** The `Map` keys come out in the order of their first occurrence. */
  lemma {:induction false} DistinctFirstOccurrence(s: seq<string>)
    ensures forall i, j :: 0 <= i < j < |Distinct(s)| ==>
              FirstIndex(s, Distinct(s)[i]) < FirstIndex(s, Distinct(s)[j])
  {
    if s != [] {
      var p, x := s[..|s| - 1], s[|s| - 1];
      var d := Distinct(p);
      DistinctFirstOccurrence(p);
      var r := Distinct(s);
      forall i, j | 0 <= i < j < |r|
        ensures FirstIndex(s, r[i]) < FirstIndex(s, r[j])
      {
        assert r[i] == d[i];
        FirstIndexPrefix(s, |p|, d[i]);
        if j < |d| {
          assert r[j] == d[j];
          FirstIndexPrefix(s, |p|, d[j]);
        } else {
          assert r[j] == x && x !in p;
          FirstIndexUnique(s, x, |p|);
        }
      }
    }
  }

  // ----- ranking -----

  /** Counts never increase along the sequence. */
  predicate NonIncreasing(es: seq<Frequency>) {
    forall i, j :: 0 <= i < j < |es| ==> es[i].count >= es[j].count
  }

  /** One step of a stable insertion sort by decreasing count: `x` goes in
      front of every record whose count it reaches. */
  function Insert(x: Frequency, es: seq<Frequency>): (r: seq<Frequency>)
    ensures multiset(r) == multiset(es) + multiset{x}
  {
    if es == [] || x.count >= es[0].count then [x] + es
    else
      assert es == [es[0]] + es[1..];
      [es[0]] + Insert(x, es[1..])
  }

  lemma InsertMembers(x: Frequency, es: seq<Frequency>)
    ensures forall y :: y in Insert(x, es) ==> y == x || y in es
  {
    forall y | y in Insert(x, es) ensures y == x || y in es {
      assert y in multiset(Insert(x, es));
    }
  }

  lemma {:induction false} InsertSorted(x: Frequency, es: seq<Frequency>)
    requires NonIncreasing(es)
    ensures NonIncreasing(Insert(x, es))
  {
    if es != [] && x.count < es[0].count {
      var tail := Insert(x, es[1..]);
      InsertSorted(x, es[1..]);
      InsertMembers(x, es[1..]);
      forall y | y in tail
        ensures y.count <= es[0].count
      {
        if y != x {
          var j :| 0 <= j < |es[1..]| && es[1..][j] == y;
          assert es[j + 1] == y;
        }
      }
      var r := [es[0]] + tail;
      forall i, j | 0 <= i < j < |r|
        ensures r[i].count >= r[j].count
      {
        assert r[j] == tail[j - 1];
        assert r[j] in tail;
        if i > 0 {
          assert r[i] == tail[i - 1];
        }
      }
    }
  }

  /** `Array.prototype.sort((a, b) => b.count - a.count)`, which ECMAScript
      requires to be stable. */
  function SortByCount(es: seq<Frequency>): (r: seq<Frequency>)
    ensures multiset(r) == multiset(es)
  {
    if es == [] then []
    else
      assert es == [es[0]] + es[1..];
      Insert(es[0], SortByCount(es[1..]))
  }

  lemma {:induction false} SortSorted(es: seq<Frequency>)
    ensures NonIncreasing(SortByCount(es))
  {
    if es != [] {
      SortSorted(es[1..]);
      InsertSorted(es[0], SortByCount(es[1..]));
    }
  }

  /** The records of a given count, in order. */
  function OfCount(es: seq<Frequency>, k: nat): seq<Frequency>
  {
    if es == [] then [] else OfOne(es[0], k) + OfCount(es[1..], k)
  }

  function OfOne(e: Frequency, k: nat): seq<Frequency>
  {
    if e.count == k then [e] else []
  }

  lemma OfCountCons(e: Frequency, rest: seq<Frequency>, k: nat)
    ensures OfCount([e] + rest, k) == OfOne(e, k) + OfCount(rest, k)
  {
    assert ([e] + rest)[1..] == rest;
  }

  lemma {:induction false} InsertOfCount(x: Frequency, es: seq<Frequency>, k: nat)
    ensures OfCount(Insert(x, es), k) == OfOne(x, k) + OfCount(es, k)
  {
    if es == [] || x.count >= es[0].count {
      OfCountCons(x, es, k);
    } else {
      var tail := Insert(x, es[1..]);
      assert Insert(x, es) == [es[0]] + tail;
      OfCountCons(es[0], tail, k);
      InsertOfCount(x, es[1..], k);
      assert es == [es[0]] + es[1..];
      OfCountCons(es[0], es[1..], k);
      var rest := OfCount(es[1..], k);
      if x.count == k {
        assert OfOne(es[0], k) == [];
        assert OfCount(Insert(x, es), k) == OfCount(tail, k) == [x] + rest;
        assert OfCount(es, k) == rest;
      } else {
        assert OfOne(x, k) == [];
        assert OfCount(tail, k) == rest;
      }
    }
  }

  /** The ranking is stable: records of equal count keep their relative order. */
  lemma {:induction false} SortStable(es: seq<Frequency>, k: nat)
    ensures OfCount(SortByCount(es), k) == OfCount(es, k)
  {
    if es != [] {
      SortStable(es[1..], k);
      InsertOfCount(es[0], SortByCount(es[1..]), k);
    }
  }

  /** Where `es[t]` sits among the records of count `k`: the number of
      such records before it. */
  function Pos(es: seq<Frequency>, t: nat, k: nat): nat
    requires t <= |es|
  {
    |OfCount(es[..t], k)|
  }

  lemma PosStep(es: seq<Frequency>, t: nat, k: nat)
    requires 1 <= t <= |es|
    ensures Pos(es, t, k) == |OfOne(es[0], k)| + Pos(es[1..], t - 1, k)
  {
    assert es[..t] == [es[0]] + es[1..][..t - 1];
    OfCountCons(es[0], es[1..][..t - 1], k);
  }

  /** A record of count `k` is found at its position among those records. */
  lemma {:induction false} PosIsIndex(es: seq<Frequency>, t: nat, k: nat)
    requires t < |es| && es[t].count == k
    ensures Pos(es, t, k) < |OfCount(es, k)| && OfCount(es, k)[Pos(es, t, k)] == es[t]
  {
    assert es == [es[0]] + es[1..];
    OfCountCons(es[0], es[1..], k);
    if t == 0 {
      assert es[..0] == [];
    } else {
      PosStep(es, t, k);
      PosIsIndex(es[1..], t - 1, k);
    }
  }

  /** Records of count `k` keep their order among those records. */
  lemma {:induction false} PosMono(es: seq<Frequency>, t: nat, v: nat, k: nat)
    requires t < v <= |es| && es[t].count == k
    ensures Pos(es, t, k) < Pos(es, v, k)
  {
    PosStep(es, v, k);
    if t == 0 {
      assert es[..0] == [];
    } else {
      PosStep(es, t, k);
      PosMono(es[1..], t - 1, v - 1, k);
    }
  }

  /** Every record of count `k` comes from some position of `es`. */
  lemma {:induction false} OfCountSource(es: seq<Frequency>, k: nat, a: nat)
    requires a < |OfCount(es, k)|
    ensures exists t :: 0 <= t < |es| && es[t] == OfCount(es, k)[a] && es[t].count == k && Pos(es, t, k) == a
  {
    assert es == [es[0]] + es[1..];
    OfCountCons(es[0], es[1..], k);
    if es[0].count == k && a == 0 {
      assert es[..0] == [];
      assert Pos(es, 0, k) == 0;
    } else {
      var a' := if es[0].count == k then a - 1 else a;
      OfCountSource(es[1..], k, a');
      var t' :| 0 <= t' < |es[1..]| && es[1..][t'] == OfCount(es[1..], k)[a'] && es[1..][t'].count == k
                && Pos(es[1..], t', k) == a';
      PosStep(es, t' + 1, k);
      assert es[t' + 1] == OfCount(es, k)[a];
    }
  }

  /** The sort is stable: two records of equal count appear in the sorted
      list in the order they had before. */
  lemma StableTie(es: seq<Frequency>, i: nat, j: nat) returns (t: nat, v: nat)
    requires i < j < |SortByCount(es)|
    requires SortByCount(es)[i].count == SortByCount(es)[j].count
    ensures t < v < |es| && es[t] == SortByCount(es)[i] && es[v] == SortByCount(es)[j]
  {
    var r := SortByCount(es);
    var k := r[i].count;
    SortStable(es, k);
    PosIsIndex(r, i, k);
    PosIsIndex(r, j, k);
    PosMono(r, i, j, k);
    var a, b := Pos(r, i, k), Pos(r, j, k);
    OfCountSource(es, k, a);
    OfCountSource(es, k, b);
    t :| 0 <= t < |es| && es[t] == OfCount(es, k)[a] && es[t].count == k && Pos(es, t, k) == a;
    v :| 0 <= v < |es| && es[v] == OfCount(es, k)[b] && es[v].count == k && Pos(es, v, k) == b;
    if v < t {
      PosMono(es, v, t, k);
    }
  }

  lemma {:induction false} InsertTotal(x: Frequency, es: seq<Frequency>)
    ensures Total(Insert(x, es)) == x.count + Total(es)
  {
    if es == [] || x.count >= es[0].count {
      assert ([x] + es)[1..] == es;
    } else {
      var tail := Insert(x, es[1..]);
      assert ([es[0]] + tail)[1..] == tail;
      InsertTotal(x, es[1..]);
    }
  }

  /** Ranking neither adds nor loses counts. */
  lemma {:induction false} SortTotal(es: seq<Frequency>)
    ensures Total(SortByCount(es)) == Total(es)
  {
    if es != [] {
      SortTotal(es[1..]);
      InsertTotal(es[0], SortByCount(es[1..]));
    }
  }

  lemma {:induction false} InsertDistinct(x: Frequency, es: seq<Frequency>)
    requires DistinctTexts(es)
    requires forall e :: e in es ==> e.text != x.text
    ensures DistinctTexts(Insert(x, es))
  {
    var r := Insert(x, es);
    if es == [] || x.count >= es[0].count {
      forall i, j | 0 <= i < j < |r|
        ensures r[i].text != r[j].text
      {
        assert r[j] == es[j - 1];
        if i > 0 {
          assert r[i] == es[i - 1];
        } else {
          assert r[j] in es;
        }
      }
    } else {
      var tail := Insert(x, es[1..]);
      assert r == [es[0]] + tail;
      InsertDistinct(x, es[1..]);
      InsertMembers(x, es[1..]);
      forall j | 0 <= j < |tail|
        ensures tail[j].text != es[0].text
      {
        if tail[j] != x {
          assert tail[j] in es[1..];
          var k :| 0 <= k < |es[1..]| && es[1..][k] == tail[j];
          assert es[k + 1] == tail[j];
        } else {
          assert es[0] in es;
        }
      }
      forall i, j | 0 <= i < j < |r|
        ensures r[i].text != r[j].text
      {
        assert r[j] == tail[j - 1];
        if i > 0 {
          assert r[i] == tail[i - 1];
        }
      }
    }
  }

  /** Ranking keeps the texts distinct. */
  lemma {:induction false} SortDistinct(es: seq<Frequency>)
    requires DistinctTexts(es)
    ensures DistinctTexts(SortByCount(es))
  {
    if es != [] {
      var rest := SortByCount(es[1..]);
      SortDistinct(es[1..]);
      forall e | e in rest
        ensures e.text != es[0].text
      {
        assert e in multiset(rest);
        var j :| 0 <= j < |es[1..]| && es[1..][j] == e;
        assert es[j + 1] == e;
      }
      InsertDistinct(es[0], rest);
    }
  }

  /** The ranked records of `s`: what `wordResults` and `phraseResults` hold. */
  function Ranked(s: seq<string>): seq<Frequency>
  {
    SortByCount(Tally(s))
  }

  /** Ranking the entries of a `Map` filled from `s` gives the ranked records of `s`. */
  lemma RankedEntries(order: seq<string>, counts: map<string, nat>, s: seq<string>)
    requires order == Distinct(s) && Counts(counts, s)
    ensures forall k :: k in order ==> k in counts
    ensures SortByCount(Entries(order, counts)) == Ranked(s)
  {
    KeysCounted(s);
    CountsAreCountMap(counts, s);
  }

  /** `map.set(x, (map.get(x) || 0) + 1)` on the counting `Map` of the
      elements `seen` so far, its keys listed in insertion order. */
  method AddOccurrence(order: seq<string>, counts: map<string, nat>, ghost seen: seq<string>, x: string)
    returns (order': seq<string>, counts': map<string, nat>)
    requires order == Distinct(seen) && Counts(counts, seen)
    ensures order' == Distinct(seen + [x]) && Counts(counts', seen + [x])
  {
    CountsSnoc(counts, seen, x);
    order' := if x in counts then order else order + [x];
    counts' := counts[x := (if x in counts then counts[x] else 0) + 1];
  }

  /** The records of the counting `Map` filled from `seen`, sorted by count. */
  method RankCounts(order: seq<string>, counts: map<string, nat>, ghost seen: seq<string>)
    returns (r: seq<Frequency>)
    requires order == Distinct(seen) && Counts(counts, seen)
    ensures r == Ranked(seen)
  {
    RankedEntries(order, counts, seen);
    r := SortByCount(Entries(order, counts));
  }

  /** Ties are broken by first occurrence: of two records with the same
      count, the one whose text occurs first in `s` is ranked first. */
  lemma TiesInFirstOccurrenceOrder(s: seq<string>)
    ensures var r := Ranked(s);
      forall i, j :: 0 <= i < j < |r| && r[i].count == r[j].count ==>
        r[i].text in s && r[j].text in s && FirstIndex(s, r[i].text) < FirstIndex(s, r[j].text)
  {
    var r, t := Ranked(s), Tally(s);
    DistinctFirstOccurrence(s);
    forall i, j | 0 <= i < j < |r| && r[i].count == r[j].count
      ensures r[i].text in s && r[j].text in s && FirstIndex(s, r[i].text) < FirstIndex(s, r[j].text)
    {
      var x, y := StableTie(t, i, j);
      assert r[i].text == Distinct(s)[x] && r[j].text == Distinct(s)[y];
    }
  }

  /** Nothing to count, nothing ranked. */
  lemma RankedEmpty()
    ensures Ranked([]) == []
  {
    assert Tally([]) == [];
  }

  /** Everything the ranked list promises: one record per distinct element,
      each with its number of occurrences (at least one), counts summing to
      the number of elements, in non-increasing count order, and records of
      equal count in the order their texts first occur. */
  lemma RankedFacts(s: seq<string>)
    ensures |Ranked(s)| == |Distinct(s)|
    ensures DistinctTexts(Ranked(s))
    ensures forall e :: e in Ranked(s) ==> e.count == multiset(s)[e.text] >= 1
    ensures forall x :: x in s ==> Frequency(x, multiset(s)[x]) in Ranked(s)
    ensures Total(Ranked(s)) == |s|
    ensures NonIncreasing(Ranked(s))
    ensures forall k :: OfCount(Ranked(s), k) == OfCount(Tally(s), k)
  {
    var t := Tally(s);
    assert |Ranked(s)| == |multiset(Ranked(s))| == |multiset(t)| == |t|;
    forall e | e in Ranked(s) ensures e in t {
      assert e in multiset(Ranked(s));
    }
    forall x | x in s ensures Frequency(x, multiset(s)[x]) in Ranked(s) {
      assert Frequency(x, multiset(s)[x]) in multiset(t);
    }
    SortDistinct(t);
    TallyTotal(s);
    SortTotal(t);
    SortSorted(t);
    forall k ensures OfCount(Ranked(s), k) == OfCount(t, k) {
      SortStable(t, k);
    }
  }
}
