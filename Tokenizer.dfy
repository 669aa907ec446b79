/**
 * The first half of `analyzeText`: normalise the text, cut it into the base
 * tokens, drop numbers and custom exclusions. The base tokens feed both
 * the word path and the phrase builder.
 */
module Tokenizer {
  import opened TextClasses
  import opened Seqs
  import opened Strings

  /** The case-handling select: only `lowercase_all` lowercases. */
  datatype CaseHandling = AsIs | LowercaseAll

  /** The phrase-counting select: `off`, `bigrams`, and anything else counts trigrams. */
  datatype PhraseCounting = Off | Bigrams | Trigrams

  /** The options record `handleAnalysis` builds from the form. */
  datatype Options = Options(
    caseHandling: CaseHandling,
    stripPunctuation: bool,
    ignoreNumbers: bool,
    minWordLength: int,
    stopwordFiltering: bool,
    phraseCounting: PhraseCounting,
    excludeCustomWords: string)

  /** Characters the punctuation stripper leaves alone: `[\p{L}\p{N}\s]`. */
  predicate Kept(c: char, u: Unicode) {
    u.isLetter(c) || u.isNumber(c) || u.isSpace(c)
  }

  /** `s.replace(/[^\p{L}\p{N}\s]/gu, ' ')`. */
  function StripPunctuation(s: string, u: Unicode): (r: string)
    ensures |r| == |s|
    ensures forall i :: 0 <= i < |r| ==> Kept(r[i], u)
    ensures forall i :: 0 <= i < |s| && Kept(s[i], u) ==> r[i] == s[i]
    ensures forall i :: 0 <= i < |s| && !Kept(s[i], u) ==> r[i] == ' '
  {
    if s == [] then []
    else [if Kept(s[0], u) then s[0] else ' '] + StripPunctuation(s[1..], u)
  }

  /** The text after the optional lowercasing and punctuation stripping. */
  function Normalize(text: string, o: Options, u: Unicode): (r: string)
    ensures o.stripPunctuation ==> forall i :: 0 <= i < |r| ==> Kept(r[i], u)
    ensures o.caseHandling == AsIs && !o.stripPunctuation ==> r == text
  {
    var t := if o.caseHandling == LowercaseAll then u.lower(text) else text;
    if o.stripPunctuation then StripPunctuation(t, u) else t
  }

  /** `/^\d+$/.test(tok)`. */
  predicate AllDigits(t: string) {
    t != [] && forall i :: 0 <= i < |t| ==> IsAsciiDigit(t[i])
  }

  /** The custom-exclude set: the comma-separated entries, trimmed,
      lowercased, empty ones dropped. */
  function ExcludeSet(custom: string, u: Unicode): (r: set<string>)
    ensures "" !in r
    ensures forall w :: w in r ==> exists p :: p in Split(custom, ',') && u.lower(Trim(p, u)) == w
  {
    set p | p in Split(custom, ',') && u.lower(Trim(p, u)) != "" :: u.lower(Trim(p, u))
  }

  /** Every listed entry that is not blank after trimming and lowercasing
      is excluded. */
  lemma ExcludeListed(entries: seq<string>, u: Unicode)
    requires |entries| >= 1
    requires forall p :: p in entries ==> ',' !in p
    ensures forall p :: p in entries && u.lower(Trim(p, u)) != "" ==>
              u.lower(Trim(p, u)) in ExcludeSet(Join(entries, ","), u)
  {
    SplitJoin(entries, ',');
  }

  /** The `ignoreNumbers` step: `tok => !/^\d+$/.test(tok)` when enabled. */
  function DropNumbers(tokens: seq<string>, ignoreNumbers: bool): (r: seq<string>)
    ensures forall t :: t in r <==> t in tokens && (ignoreNumbers ==> !AllDigits(t))
    ensures forall t :: multiset(r)[t] == if ignoreNumbers && AllDigits(t) then 0 else multiset(tokens)[t]
  {
    FilterCount(tokens, t => !AllDigits(t));
    if ignoreNumbers then Filter(tokens, t => !AllDigits(t)) else tokens
  }

  /** The custom-exclude step: `tok => !excludeSet.has(tok.toLowerCase())`,
      skipped when the set is empty. */
  function DropExcluded(tokens: seq<string>, excluded: set<string>, u: Unicode): (r: seq<string>)
    ensures forall t :: t in r <==> t in tokens && u.lower(t) !in excluded
    ensures forall t :: multiset(r)[t] == if u.lower(t) in excluded then 0 else multiset(tokens)[t]
  {
    FilterCount(tokens, t => u.lower(t) !in excluded);
    if |excluded| > 0 then Filter(tokens, t => u.lower(t) !in excluded) else tokens
  }

  /** `baseTokens` at the end of the exclusion step of `analyzeText`. */
  function BaseTokens(text: string, o: Options, u: Unicode): (r: seq<string>)
    ensures forall t :: t in r ==> IsWord(t, u)
    ensures forall t :: t in r <==>
              t in Words(Normalize(text, o, u), u)
              && (o.ignoreNumbers ==> !AllDigits(t))
              && u.lower(t) !in ExcludeSet(o.excludeCustomWords, u)
    ensures forall t :: multiset(r)[t] ==
              if (o.ignoreNumbers && AllDigits(t)) || u.lower(t) in ExcludeSet(o.excludeCustomWords, u)
              then 0 else multiset(Words(Normalize(text, o, u), u))[t]
  {
    var words := Words(Normalize(text, o, u), u);
    DropExcluded(DropNumbers(words, o.ignoreNumbers), ExcludeSet(o.excludeCustomWords, u), u)
  }

  /** With punctuation stripped, every character of every token is a letter
      or a number. */
  lemma StrippedTokens(text: string, o: Options, u: Unicode)
    requires o.stripPunctuation
    ensures forall t, i :: t in BaseTokens(text, o, u) && 0 <= i < |t| ==>
              u.isLetter(t[i]) || u.isNumber(t[i])
  {
    var n := Normalize(text, o, u);
    forall t, i | t in BaseTokens(text, o, u) && 0 <= i < |t|
      ensures u.isLetter(t[i]) || u.isNumber(t[i])
    {
      assert t in Words(n, u);
      assert t[i] in t;
      assert t[i] in n;
      assert IsWord(t, u);
    }
  }
}
