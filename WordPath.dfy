/**
 * The word path of `analyzeText`: one pass over the base tokens that skips
 * the short ones, counts and skips the stopwords, and counts the rest in a
 * `Map`, followed by the ranking of that `Map`.
 */
module WordPath {
  import opened TextClasses
  import opened Seqs
  import opened Strings
  import opened Tokenizer
  import opened Frequencies

  /** Skipped first: shorter than the minimum word length, measured like
      `tok.length` in UTF-16 code units. */
  predicate TooShort(tok: string, o: Options) {
    Utf16Length(tok) < o.minWordLength
  }

  /** `tokForStop`: the token itself when the whole text was lowercased,
      otherwise its lowercase form. */
  function StopForm(tok: string, o: Options, u: Unicode): string {
    if o.caseHandling == LowercaseAll then tok else u.lower(tok)
  }

  /** Stopword filtering is on and the token's comparison form is a stopword. */
  predicate IsStopword(tok: string, o: Options, stopwords: set<string>, u: Unicode) {
    o.stopwordFiltering && StopForm(tok, o, u) in stopwords
  }

  /** `wordTokens`: the tokens that are long enough and are no stopword, in order. */
  function WordTokens(base: seq<string>, o: Options, stopwords: set<string>, u: Unicode): (r: seq<string>)
    ensures |r| <= |base|
    ensures forall t :: t in r <==> t in base && !TooShort(t, o) && !IsStopword(t, o, stopwords, u)
  {
    if base == [] then []
    else
      var p, t := base[..|base| - 1], base[|base| - 1];
      assert base == p + [t];
      WordTokens(p, o, stopwords, u)
        + (if !TooShort(t, o) && !IsStopword(t, o, stopwords, u) then [t] else [])
  }

  /** Every copy of a kept token is kept: each word token occurs in
      `wordTokens` as often as among the base tokens. */
  lemma {:induction false} WordTokensCount(base: seq<string>, o: Options, stopwords: set<string>, u: Unicode)
    ensures forall t :: multiset(WordTokens(base, o, stopwords, u))[t] ==
              if TooShort(t, o) || IsStopword(t, o, stopwords, u) then 0 else multiset(base)[t]
  {
    if base != [] {
      var p, t := base[..|base| - 1], base[|base| - 1];
      assert base == p + [t];
      assert multiset(base) == multiset(p) + multiset{t};
      WordTokensCount(p, o, stopwords, u);
    }
  }

  /** The word tokens of two runs of base tokens, one after the other: with
      the one-token case of the definition this fixes their order, the order
      of the base tokens. */
  lemma {:induction false} WordTokensAppend(a: seq<string>, b: seq<string>, o: Options,
                                            stopwords: set<string>, u: Unicode)
    ensures WordTokens(a + b, o, stopwords, u)
              == WordTokens(a, o, stopwords, u) + WordTokens(b, o, stopwords, u)
    decreases |b|
  {
    if b == [] {
      assert a + b == a;
    } else {
      var p, t := b[..|b| - 1], b[|b| - 1];
      assert b == p + [t];
      WordTokensAppend(a, p, o, stopwords, u);
      WordTokensAppendSnoc(a, p, t, o, stopwords, u);
    }
  }

  /** The inductive step of `WordTokensAppend`: one more token at the end. */
  lemma WordTokensAppendSnoc(a: seq<string>, p: seq<string>, t: string, o: Options,
                             stopwords: set<string>, u: Unicode)
    requires WordTokens(a + p, o, stopwords, u)
               == WordTokens(a, o, stopwords, u) + WordTokens(p, o, stopwords, u)
    ensures WordTokens(a + (p + [t]), o, stopwords, u)
              == WordTokens(a, o, stopwords, u) + WordTokens(p + [t], o, stopwords, u)
  {
    var kept: seq<string> := if !TooShort(t, o) && !IsStopword(t, o, stopwords, u) then [t] else [];
    calc {
      WordTokens(a + (p + [t]), o, stopwords, u);
      { AppendAssoc(a, p, [t]); }
      WordTokens((a + p) + [t], o, stopwords, u);
      { WordTokensSnoc(a + p, t, o, stopwords, u); }
      WordTokens(a + p, o, stopwords, u) + kept;
      (WordTokens(a, o, stopwords, u) + WordTokens(p, o, stopwords, u)) + kept;
      { AppendAssoc(WordTokens(a, o, stopwords, u), WordTokens(p, o, stopwords, u), kept); }
      WordTokens(a, o, stopwords, u) + (WordTokens(p, o, stopwords, u) + kept);
      { WordTokensSnoc(p, t, o, stopwords, u); }
      WordTokens(a, o, stopwords, u) + WordTokens(p + [t], o, stopwords, u);
    }
  }

  /** One more base token adds itself to the word tokens exactly when it is
      long enough and no stopword. */
  lemma WordTokensSnoc(p: seq<string>, t: string, o: Options, stopwords: set<string>, u: Unicode)
    ensures WordTokens(p + [t], o, stopwords, u) == WordTokens(p, o, stopwords, u)
              + (if !TooShort(t, o) && !IsStopword(t, o, stopwords, u) then [t] else [])
  {
    var b := p + [t];
    assert b[..|b| - 1] == p && b[|b| - 1] == t;
  }

  /** `stopwordsRemoved`: tokens long enough but found in the stopword set. */
  function StopwordHits(base: seq<string>, o: Options, stopwords: set<string>, u: Unicode): (n: nat)
    ensures n <= |base|
  {
    if base == [] then 0
    else
      var t := base[|base| - 1];
      StopwordHits(base[..|base| - 1], o, stopwords, u)
        + (if !TooShort(t, o) && IsStopword(t, o, stopwords, u) then 1 else 0)
  }

  /** Tokens skipped for their length. */
  function ShortTokens(base: seq<string>, o: Options): nat
  {
    if base == [] then 0
    else ShortTokens(base[..|base| - 1], o) + (if TooShort(base[|base| - 1], o) then 1 else 0)
  }

  /** Every base token lands in exactly one group: too short, stopword, or word. */
  lemma {:induction false} Partition(base: seq<string>, o: Options, stopwords: set<string>, u: Unicode)
    ensures ShortTokens(base, o) + StopwordHits(base, o, stopwords, u)
              + |WordTokens(base, o, stopwords, u)| == |base|
  {
    if base != [] {
      Partition(base[..|base| - 1], o, stopwords, u);
    }
  }

  /** Without stopword filtering, a minimum length of one or less keeps every
      base token, since base tokens are never empty. */
  lemma {:induction false} LenientKeepsAll(base: seq<string>, o: Options, stopwords: set<string>, u: Unicode)
    requires o.minWordLength <= 1 && !o.stopwordFiltering
    requires forall t :: t in base ==> IsWord(t, u)
    ensures WordTokens(base, o, stopwords, u) == base
    ensures StopwordHits(base, o, stopwords, u) == 0
  {
    if base != [] {
      var p := base[..|base| - 1];
      assert base == p + [base[|base| - 1]];
      assert IsWord(base[|base| - 1], u);
      LenientKeepsAll(p, o, stopwords, u);
    }
  }

  /** A minimum length of one or less skips no base token, whatever the
      stopword setting, since base tokens are never empty. */
  lemma {:induction false} NoShort(base: seq<string>, o: Options, u: Unicode)
    requires o.minWordLength <= 1
    requires forall t :: t in base ==> IsWord(t, u)
    ensures ShortTokens(base, o) == 0
  {
    if base != [] {
      var p := base[..|base| - 1];
      assert forall t :: t in p ==> t in base;
      assert IsWord(base[|base| - 1], u);
      NoShort(p, o, u);
    }
  }

  /** How the word path's results grow by one token. */
  lemma Step(base: seq<string>, i: nat, o: Options, stopwords: set<string>, u: Unicode)
    requires i < |base|
    ensures WordTokens(base[..i + 1], o, stopwords, u) == WordTokens(base[..i], o, stopwords, u)
      + (if !TooShort(base[i], o) && !IsStopword(base[i], o, stopwords, u) then [base[i]] else [])
    ensures StopwordHits(base[..i + 1], o, stopwords, u) == StopwordHits(base[..i], o, stopwords, u)
      + (if !TooShort(base[i], o) && IsStopword(base[i], o, stopwords, u) then 1 else 0)
  {
    assert base[..i + 1] == base[..i] + [base[i]];
    WordTokensSnoc(base[..i], base[i], o, stopwords, u);
    assert base[..i + 1][..i] == base[..i];
  }

  /** One turn of the word loop: a short token is skipped, a stopword is
      counted in `stopwordsRemoved`, any other token goes to `wordTokens`
      and to the counting `Map`. */
  method CountToken(tok: string, o: Options, stopwords: set<string>, u: Unicode,
                    wordTokens: seq<string>, stopwordsRemoved: nat,
                    order: seq<string>, counts: map<string, nat>)
    returns (wordTokens': seq<string>, stopwordsRemoved': nat,
             order': seq<string>, counts': map<string, nat>)
    requires order == Distinct(wordTokens) && Counts(counts, wordTokens)
    ensures wordTokens' == wordTokens
      + (if !TooShort(tok, o) && !IsStopword(tok, o, stopwords, u) then [tok] else [])
    ensures stopwordsRemoved' == stopwordsRemoved
      + (if !TooShort(tok, o) && IsStopword(tok, o, stopwords, u) then 1 else 0)
    ensures order' == Distinct(wordTokens') && Counts(counts', wordTokens')
  {
    wordTokens', stopwordsRemoved', order', counts' := wordTokens, stopwordsRemoved, order, counts;
    if Utf16Length(tok) < o.minWordLength {
      // too short: skipped
    } else if o.stopwordFiltering && StopForm(tok, o, u) in stopwords {
      stopwordsRemoved' := stopwordsRemoved + 1;
    } else {
      order', counts' := AddOccurrence(order, counts, wordTokens, tok);
      wordTokens' := wordTokens + [tok];
    }
  }

  /** The word path of `analyzeText`: one loop over the base tokens fills
      `wordTokens`, the counting `Map` (its keys in `order`) and
      `stopwordsRemoved`; the `Map` is then turned into records and ranked. */
  method CountWords(base: seq<string>, o: Options, stopwords: set<string>, u: Unicode)
    returns (wordTokens: seq<string>, stopwordsRemoved: nat, wordResults: seq<Frequency>)
    ensures wordTokens == WordTokens(base, o, stopwords, u)
    ensures stopwordsRemoved == StopwordHits(base, o, stopwords, u)
    ensures wordResults == Ranked(wordTokens)
  {
    var order: seq<string>, counts: map<string, nat> := [], map[];
    wordTokens, stopwordsRemoved := [], 0;
    for i := 0 to |base|
      invariant wordTokens == WordTokens(base[..i], o, stopwords, u)
      invariant stopwordsRemoved == StopwordHits(base[..i], o, stopwords, u)
      invariant order == Distinct(wordTokens)
      invariant Counts(counts, wordTokens)
    {
      Step(base, i, o, stopwords, u);
      wordTokens, stopwordsRemoved, order, counts :=
        CountToken(base[i], o, stopwords, u, wordTokens, stopwordsRemoved, order, counts);
    }
    assert base[..|base|] == base;
    wordResults := RankCounts(order, counts, wordTokens);
  }
}
