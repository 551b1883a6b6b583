/**
 * The stop-word label filter: a label candidate must neither start nor end
 * with a common (stop) word, and a single word is a label candidate only if
 * it is not common itself.
 *
 * The filter reads two arrays of the preprocessing context: the word indices
 * of every phrase and the type mask of every word. How a type mask encodes
 * "common" is not part of this model, so the classification is a parameter
 * `isCommon` of every operation.
 */
module StopWordLabelFilter {

  /** Java `short`, the element type of the word type array. */
  type Short = x: int | -0x8000 <= x < 0x8000

  /** The part of the preprocessing context the filter reads. */
  datatype Context = Context(
    phraseWordIndices: seq<seq<int>>, // allPhrases.wordIndices
    wordTypes: seq<Short>             // allWords.type
  )

  predicate ValidWord(ctx: Context, wordIndex: int) {
    0 <= wordIndex < |ctx.wordTypes|
  }

  /**
   * What acceptPhrase dereferences: the phrase itself, its first word index
   * and its last word index. Interior word indices are never read.
   */
  predicate ValidPhrase(ctx: Context, phraseIndex: int) {
    && 0 <= phraseIndex < |ctx.phraseWordIndices|
    && var w := ctx.phraseWordIndices[phraseIndex];
    && |w| > 0
    && ValidWord(ctx, w[0])
    && ValidWord(ctx, w[|w| - 1])
  }

  /** A phrase is accepted iff every word at one of its two ends is not common. */
  function AcceptPhrase(ctx: Context, isCommon: Short -> bool, phraseIndex: int): (r: bool)
    requires ValidPhrase(ctx, phraseIndex)
    ensures var w := ctx.phraseWordIndices[phraseIndex];
      r <==> forall k | 0 <= k < |w| && (k == 0 || k == |w| - 1) :: !isCommon(ctx.wordTypes[w[k]])
    ensures var w := ctx.phraseWordIndices[phraseIndex];
      r <==> AcceptWord(ctx, isCommon, w[0]) && AcceptWord(ctx, isCommon, w[|w| - 1])
  {
    var wordIndices := ctx.phraseWordIndices[phraseIndex];
    var termTypes := ctx.wordTypes;
    !isCommon(termTypes[wordIndices[0]]) && !isCommon(termTypes[wordIndices[|wordIndices| - 1]])
  }

  /** A word is accepted iff it is not common. */
  function AcceptWord(ctx: Context, isCommon: Short -> bool, wordIndex: int): (r: bool)
    requires ValidWord(ctx, wordIndex)
    ensures r <==> !isCommon(ctx.wordTypes[wordIndex])
  {
    !isCommon(ctx.wordTypes[wordIndex])
  }

  /** The filter's configuration: its `enabled` attribute. */
  datatype Filter = Filter(enabled: bool) {
    predicate IsEnabled() {
      enabled
    }
  }

  /** A freshly built filter, with `enabled` at its declared default. */
  function DefaultFilter(): (f: Filter)
    ensures f.IsEnabled()
  {
    Filter(enabled := true)
  }

  /** isEnabled reports the current value of the attribute, whatever it was set to. */
  lemma IsEnabledReportsAttribute(b: bool)
    ensures Filter(b).IsEnabled() == b
  {
  }

  /**
   * Changing the type of a word that occurs only strictly inside the phrase
   * (it is neither the first nor the last word) never changes acceptPhrase.
   */
  lemma InteriorWordTypeIrrelevant(ctx: Context, isCommon: Short -> bool, phraseIndex: int, k: int, t: Short)
    requires ValidPhrase(ctx, phraseIndex)
    requires var w := ctx.phraseWordIndices[phraseIndex];
      0 < k < |w| - 1 && ValidWord(ctx, w[k]) && w[k] != w[0] && w[k] != w[|w| - 1]
    ensures var w := ctx.phraseWordIndices[phraseIndex];
      var ctx' := ctx.(wordTypes := ctx.wordTypes[w[k] := t]);
      ValidPhrase(ctx', phraseIndex) && AcceptPhrase(ctx', isCommon, phraseIndex) == AcceptPhrase(ctx, isCommon, phraseIndex)
  {
  }

  /** Replacing a word strictly inside the phrase by any other word never changes acceptPhrase. */
  lemma InteriorWordIrrelevant(ctx: Context, isCommon: Short -> bool, phraseIndex: int, k: int, v: int)
    requires ValidPhrase(ctx, phraseIndex)
    requires 0 < k < |ctx.phraseWordIndices[phraseIndex]| - 1
    ensures var w := ctx.phraseWordIndices[phraseIndex];
      var ctx' := ctx.(phraseWordIndices := ctx.phraseWordIndices[phraseIndex := w[k := v]]);
      ValidPhrase(ctx', phraseIndex) && AcceptPhrase(ctx', isCommon, phraseIndex) == AcceptPhrase(ctx, isCommon, phraseIndex)
  {
  }

  /** acceptPhrase depends on nothing but the types of the two boundary words. */
  lemma BoundaryTypesDetermineAcceptance(ctx1: Context, ctx2: Context, isCommon: Short -> bool, p1: int, p2: int)
    requires ValidPhrase(ctx1, p1) && ValidPhrase(ctx2, p2)
    requires var w1, w2 := ctx1.phraseWordIndices[p1], ctx2.phraseWordIndices[p2];
      && ctx1.wordTypes[w1[0]] == ctx2.wordTypes[w2[0]]
      && ctx1.wordTypes[w1[|w1| - 1]] == ctx2.wordTypes[w2[|w2| - 1]]
    ensures AcceptPhrase(ctx1, isCommon, p1) == AcceptPhrase(ctx2, isCommon, p2)
  {
  }

  /** For a one-word phrase, first and last word coincide, so acceptPhrase is acceptWord. */
  lemma SingleWordPhrase(ctx: Context, isCommon: Short -> bool, phraseIndex: int)
    requires ValidPhrase(ctx, phraseIndex) && |ctx.phraseWordIndices[phraseIndex]| == 1
    ensures AcceptPhrase(ctx, isCommon, phraseIndex) == AcceptWord(ctx, isCommon, ctx.phraseWordIndices[phraseIndex][0])
  {
  }
}
