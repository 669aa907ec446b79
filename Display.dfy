/**
 * `updateUI`: one analysis result loaded into both tables. The percentage
 * column of both tables is taken against the result's `totalWords`.
 */
module Display {
  import opened TextClasses
  import opened Frequencies
  import opened Analysis
  import opened ResultView

  method UpdateUI(words: View, phrases: View, res: AnalysisResult, u: Unicode)
    returns (wordView: Rendering, phraseView: Option<Rendering>)
    requires words != phrases && words.kind == WordTable && phrases.kind == PhraseTable
    requires words.Valid() && phrases.Valid()
    modifies words, phrases
    ensures words.Valid() && phrases.Valid()
    ensures words.data == res.wordResults && phrases.data == res.phraseResults
    ensures words.pageSize == old(words.pageSize) && phrases.pageSize == old(phrases.pageSize)
    ensures words.currentPage == 1 && words.filterText == ""
    ensures wordView == Render(res.wordResults, "", words.pageSize, 1, res.totalWords, u)
    ensures |res.phraseResults| > 0 ==>
      && phrases.currentPage == 1 && phrases.filterText == ""
      && phraseView == Some(Render(res.phraseResults, "", phrases.pageSize, 1, res.totalWords, u))
    ensures |res.phraseResults| == 0 ==>
      && phraseView == None
      && phrases.currentPage == old(phrases.currentPage)
      && phrases.filterText == old(phrases.filterText)
  {
    var shown := words.Load(res.wordResults, res.totalWords, u);
    wordView := shown.value;
    phraseView := phrases.Load(res.phraseResults, res.totalWords, u);
  }
}
