/**
 * `analyzeText` as a whole, with the stopword set passed in instead of read
 * from the global that `loadStopwords` fills, plus the two summary values
 * `handleAnalysis` and `updateUI` derive: the blank-text shortcut and the
 * most frequent word.
 */
module Analysis {
  import opened TextClasses
  import opened Strings
  import opened Tokenizer
  import opened Frequencies
  import opened WordPath
  import opened Phrases

  /** The object `analyzeText` returns. */
  datatype AnalysisResult = AnalysisResult(
    wordResults: seq<Frequency>,
    phraseResults: seq<Frequency>,
    totalWords: nat,
    uniqueWords: nat,
    stopwordsRemoved: nat)

  /** What `handleAnalysis` shows for blank text. */
  const EmptyResult := AnalysisResult([], [], 0, 0, 0)

  /** Window length: 2 for `bigrams`, 3 for any other setting but `off`. */
  function PhraseLength(p: PhraseCounting): (n: nat)
    ensures n == 2 <==> p == Bigrams
    ensures n == 2 || n == 3
  {
    if p == Bigrams then 2 else 3
  }

  /** The phrase path: off, or the ranked windows of the base tokens. */
  function PhraseResults(base: seq<string>, p: PhraseCounting): seq<Frequency> {
    if p == Off then [] else Ranked(Ngrams(base, PhraseLength(p)))
  }

  /** The result `analyzeText` computes, as a function of its inputs. */
  function Analyze(text: string, o: Options, stopwords: set<string>, u: Unicode): AnalysisResult
  {
    var base := BaseTokens(text, o, u);
    var words := WordTokens(base, o, stopwords, u);
    var wordResults := Ranked(words);
    AnalysisResult(
      wordResults,
      PhraseResults(base, o.phraseCounting),
      |words|,
      |wordResults|,
      StopwordHits(base, o, stopwords, u))
  }

  /** `analyzeText(text, options)`. */
  method AnalyzeText(text: string, o: Options, stopwords: set<string>, u: Unicode)
    returns (res: AnalysisResult)
    ensures res == Analyze(text, o, stopwords, u)
    ensures res.totalWords == Total(res.wordResults)
    ensures res.uniqueWords == |res.wordResults|
  {
    var baseTokens := BaseTokens(text, o, u);
    var wordTokens, stopwordsRemoved, wordResults := CountWords(baseTokens, o, stopwords, u);
    var phraseResults := [];
    if o.phraseCounting != Off {
      phraseResults := BuildPhrases(baseTokens, PhraseLength(o.phraseCounting));
    }
    RankedFacts(wordTokens);
    res := AnalysisResult(wordResults, phraseResults, |wordTokens|, |wordResults|, stopwordsRemoved);
  }

  /** The summary figures agree with the word list: `totalWords` is the sum
      of its counts, `uniqueWords` its length, its words are distinct, each
      count is the word's number of occurrences among the counted tokens
      (at least one), both lists are ranked by non-increasing count, and
      every base token was either too short, a stopword, or counted. */
  lemma AnalysisInvariants(text: string, o: Options, stopwords: set<string>, u: Unicode)
    ensures var r := Analyze(text, o, stopwords, u);
      var words := WordTokens(BaseTokens(text, o, u), o, stopwords, u);
      && r.totalWords == Total(r.wordResults)
      && r.uniqueWords == |r.wordResults|
      && DistinctTexts(r.wordResults)
      && (forall e :: e in r.wordResults ==> e.count == multiset(words)[e.text] >= 1)
      && (forall e :: e in r.phraseResults ==> e.count >= 1)
      && NonIncreasing(r.wordResults)
      && NonIncreasing(r.phraseResults)
      && ShortTokens(BaseTokens(text, o, u), o) + r.stopwordsRemoved + r.totalWords
           == |BaseTokens(text, o, u)|
  {
    var base := BaseTokens(text, o, u);
    RankedFacts(WordTokens(base, o, stopwords, u));
    Partition(base, o, stopwords, u);
    if o.phraseCounting != Off {
      PhraseFacts(base, PhraseLength(o.phraseCounting));
    }
  }

  /** Each word's count is its number of occurrences among the base tokens,
      not only among the tokens the word path kept. */
  lemma WordCountsFromBase(text: string, o: Options, stopwords: set<string>, u: Unicode)
    ensures var base := BaseTokens(text, o, u);
      forall e :: e in Analyze(text, o, stopwords, u).wordResults ==>
        && e.count == multiset(base)[e.text] >= 1
        && !TooShort(e.text, o) && !IsStopword(e.text, o, stopwords, u)
  {
    var base := BaseTokens(text, o, u);
    var words := WordTokens(base, o, stopwords, u);
    RankedFacts(words);
    WordTokensCount(base, o, stopwords, u);
    forall e | e in Ranked(words)
      ensures !TooShort(e.text, o) && !IsStopword(e.text, o, stopwords, u)
    {
      assert e.text in words;
    }
  }

  /** The phrase path: empty when off, windows of 2 for bigrams and 3
      otherwise, with counts summing to the number of windows. */
  lemma PhraseSettings(text: string, o: Options, stopwords: set<string>, u: Unicode)
    ensures var r := Analyze(text, o, stopwords, u);
      var base := BaseTokens(text, o, u);
      && (o.phraseCounting == Off ==> r.phraseResults == [])
      && (o.phraseCounting != Off ==>
            var n := PhraseLength(o.phraseCounting);
            r.phraseResults == Ranked(Ngrams(base, n))
            && (|base| < n ==> r.phraseResults == [])
            && (|base| >= n ==> Total(r.phraseResults) == |base| - n + 1))
  {
    if o.phraseCounting != Off {
      PhraseFacts(BaseTokens(text, o, u), PhraseLength(o.phraseCounting));
    }
  }

  /** The phrase path ignores the minimum word length, stopword filtering
      and the stopword set. */
  lemma PhrasesIgnoreWordFilters(text: string, o1: Options, o2: Options,
                                 stopwords1: set<string>, stopwords2: set<string>, u: Unicode)
    requires o1.(minWordLength := o2.minWordLength, stopwordFiltering := o2.stopwordFiltering) == o2
    ensures Analyze(text, o1, stopwords1, u).phraseResults == Analyze(text, o2, stopwords2, u).phraseResults
  {
    assert Normalize(text, o1, u) == Normalize(text, o2, u);
  }

  /** `handleAnalysis`: blank text (by `trim`) skips the analysis. Either way
      the figures shown agree with the word list. */
  function HandleAnalysis(text: string, o: Options, stopwords: set<string>, u: Unicode): (r: AnalysisResult)
    ensures r.totalWords == Total(r.wordResults) && r.uniqueWords == |r.wordResults|
    ensures NonIncreasing(r.wordResults) && NonIncreasing(r.phraseResults)
  {
    if Trim(text, u) == "" then EmptyResult
    else
      AnalysisInvariants(text, o, stopwords, u);
      Analyze(text, o, stopwords, u)
  }

  /** Blank text shows the zero result: no words, no phrases, and every
      summary count 0. */
  lemma BlankShowsNothing(text: string, o: Options, stopwords: set<string>, u: Unicode)
    requires Blank(text, u)
    ensures var r := HandleAnalysis(text, o, stopwords, u);
      r.wordResults == [] && r.phraseResults == []
      && r.totalWords == 0 && r.uniqueWords == 0 && r.stopwordsRemoved == 0
  {
  }

  /** The blank-text shortcut changes nothing: blank text has no tokens,
      hence the empty result. With `lowercase_all` this rests on
      `toLowerCase` keeping white space white space. */
  lemma BlankShortcut(text: string, o: Options, stopwords: set<string>, u: Unicode)
    requires o.caseHandling == AsIs || LowerKeepsBlank(u)
    ensures HandleAnalysis(text, o, stopwords, u) == Analyze(text, o, stopwords, u)
  {
    if Trim(text, u) == "" {
      var t := Normalize(text, o, u);
      NormalizeBlank(text, o, u);
      WordsOfBlank(t, u);
      var base := BaseTokens(text, o, u);
      assert base == [];
      assert WordTokens(base, o, stopwords, u) == [];
      RankedEmpty();
      assert Ngrams(base, PhraseLength(o.phraseCounting)) == [];
    }
  }

  /** Blank text stays blank through lowercasing and punctuation stripping. */
  lemma NormalizeBlank(text: string, o: Options, u: Unicode)
    requires Blank(text, u)
    requires o.caseHandling == AsIs || LowerKeepsBlank(u)
    ensures Blank(Normalize(text, o, u), u)
  {
    if o.caseHandling == LowercaseAll {
      assert Blank(u.lower(text), u);
    }
  }

  /** The "most frequent word" statistic: the first ranked word, or `-`. */
  function MostFrequentWord(r: AnalysisResult): string {
    if |r.wordResults| > 0 then r.wordResults[0].text else "-"
  }

  /** The most frequent word has the largest count, and is one of the
      counted words. */
  lemma MostFrequentIsMaximal(text: string, o: Options, stopwords: set<string>, u: Unicode)
    ensures var r := Analyze(text, o, stopwords, u);
      |r.wordResults| > 0 ==>
        MostFrequentWord(r) in WordTokens(BaseTokens(text, o, u), o, stopwords, u)
        && forall e :: e in r.wordResults ==> e.count <= r.wordResults[0].count
  {
    var r := Analyze(text, o, stopwords, u);
    var words := WordTokens(BaseTokens(text, o, u), o, stopwords, u);
    RankedFacts(words);
    if |r.wordResults| > 0 {
      assert r.wordResults[0] in r.wordResults;
      assert multiset(words)[r.wordResults[0].text] >= 1;
    }
  }
}
