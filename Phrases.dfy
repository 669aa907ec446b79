/**
 * `buildPhrases`: a sliding window of `n` base tokens, each window joined
 * with single spaces and counted in a `Map`, then ranked like the words.
 */
module Phrases {
  import opened TextClasses
  import opened Strings
  import opened Frequencies

  /** The phrase of every window, in window order: `tokens[i..i + n]` joined
      with single spaces, for each start `i` from 0 to `|tokens| - n`. */
  function Ngrams(tokens: seq<string>, n: nat): (r: seq<string>)
    ensures |r| == if |tokens| < n then 0 else |tokens| - n + 1
  {
    if |tokens| < n then []
    else seq(|tokens| - n + 1, i requires 0 <= i <= |tokens| - n => Join(tokens[i..i + n], " "))
  }

  lemma NgramsPrefix(tokens: seq<string>, n: nat, i: nat)
    requires i + n <= |tokens|
    ensures Ngrams(tokens, n)[..i + 1] == Ngrams(tokens, n)[..i] + [Join(tokens[i..i + n], " ")]
  {
    var w := Ngrams(tokens, n);
    assert w[i] == Join(tokens[i..i + n], " ");
    assert w[..i + 1] == w[..i] + [w[i]];
  }

  /** `buildPhrases(tokens, n)`. */
  method BuildPhrases(tokens: seq<string>, n: nat) returns (r: seq<Frequency>)
    ensures |tokens| < n ==> r == []
    ensures r == Ranked(Ngrams(tokens, n))
  {
    var order: seq<string>, counts: map<string, nat> := [], map[];
    if |tokens| < n {
      RankedEmpty();
      return [];
    }
    ghost var windows: seq<string> := [];
    for i := 0 to |tokens| - n + 1
      invariant windows == Ngrams(tokens, n)[..i]
      invariant order == Distinct(windows) && Counts(counts, windows)
    {
      var phrase := Join(tokens[i..i + n], " ");
      NgramsPrefix(tokens, n, i);
      order, counts := AddOccurrence(order, counts, windows, phrase);
      windows := windows + [phrase];
    }
    assert windows == Ngrams(tokens, n)[..|tokens| - n + 1] == Ngrams(tokens, n);
    r := RankCounts(order, counts, windows);
  }

  /** Each phrase is exactly the `n` tokens of its window: splitting it on
      white space gives them back. */
  lemma PhraseIsWindow(tokens: seq<string>, n: nat, i: nat, u: Unicode)
    requires forall t :: t in tokens ==> IsWord(t, u)
    requires i + n <= |tokens|
    ensures Words(Ngrams(tokens, n)[i], u) == tokens[i..i + n]
  {
    WordsOfJoin(tokens[i..i + n], u);
  }

  /** What the ranked phrases promise: nothing below `n` tokens; otherwise
      one record per distinct window phrase with its number of windows,
      counts summing to the number of windows, in non-increasing order. */
  lemma PhraseFacts(tokens: seq<string>, n: nat)
    ensures |tokens| < n ==> Ranked(Ngrams(tokens, n)) == []
    ensures |tokens| >= n ==> Total(Ranked(Ngrams(tokens, n))) == |tokens| - n + 1
    ensures forall e :: e in Ranked(Ngrams(tokens, n)) ==>
              e.text in Ngrams(tokens, n) && e.count == multiset(Ngrams(tokens, n))[e.text] >= 1
    ensures DistinctTexts(Ranked(Ngrams(tokens, n)))
    ensures NonIncreasing(Ranked(Ngrams(tokens, n)))
  {
    var w := Ngrams(tokens, n);
    RankedFacts(w);
    forall e | e in Ranked(w) ensures e.text in w {
      assert multiset(w)[e.text] >= 1;
    }
    if |tokens| < n {
      assert |Ranked(w)| == |Distinct(w)| == 0;
    }
  }
}
