/** The confidence scorer (`calculate_confidence_score`): how well a page's markup suits the rule-based
  * extractor, as 100 minus penalties for few semantic tags, little text per tag and a small body. */
module ConfidenceScorer {

  import opened Wrappers
  import opened Text

  /** What the scorer measures of the `body` once `nav`, `footer`, `header`, `script`, `style`, `aside` and
    * `form` are removed: the number of semantic tags (p, h1-h6, li, article, section, blockquote), of `div`
    * tags and of all tags inside it, its `get_text()`, and the length of its markup. */
  datatype Body = Body(semanticCount: nat, divCount: nat, allTagsCount: nat, text: string, size: nat)

  // The scorer's settings (their defaults).
  const SemanticRatioThresholdBad: real := 0.1
  const SemanticRatioPenaltyBad: nat := 50
  const SemanticRatioThresholdOk: real := 0.3
  const SemanticRatioPenaltyOk: nat := 30
  const TextToTagRatioThresholdBad: real := 5.0
  const TextToTagRatioPenaltyBad: nat := 25
  const TextToTagRatioThresholdOk: real := 10.0
  const TextToTagRatioPenaltyOk: nat := 15
  const BodySizeThresholdSmall: nat := 2000
  const BodySizePenaltySmall: nat := 40

  /** Semantic tags per `div`; the divisor is one more than the count, so it is never zero. */
  function SemanticRatio(b: Body): real
  {
    b.semanticCount as real / (b.divCount + 1) as real
  }

  /** Characters of cleaned text per tag; the divisor is one more than the count, so it is never zero. */
  function TextToTagRatio(b: Body): real
  {
    |CleanText(b.text)| as real / (b.allTagsCount + 1) as real
  }

  /** The semantic penalty: the bad one below the lower threshold, else the ok one below the upper one. */
  function SemanticPenalty(ratio: real): (p: nat)
    ensures p == SemanticRatioPenaltyBad <==> ratio < SemanticRatioThresholdBad
    ensures p == SemanticRatioPenaltyOk <==> SemanticRatioThresholdBad <= ratio < SemanticRatioThresholdOk
    ensures p == 0 <==> SemanticRatioThresholdOk <= ratio
  {
    if ratio < SemanticRatioThresholdBad then SemanticRatioPenaltyBad
    else if ratio < SemanticRatioThresholdOk then SemanticRatioPenaltyOk
    else 0
  }

  /** The text-to-tag penalty, chosen the same way. */
  function TextPenalty(ratio: real): (p: nat)
    ensures p == TextToTagRatioPenaltyBad <==> ratio < TextToTagRatioThresholdBad
    ensures p == TextToTagRatioPenaltyOk <==> TextToTagRatioThresholdBad <= ratio < TextToTagRatioThresholdOk
    ensures p == 0 <==> TextToTagRatioThresholdOk <= ratio
  {
    if ratio < TextToTagRatioThresholdBad then TextToTagRatioPenaltyBad
    else if ratio < TextToTagRatioThresholdOk then TextToTagRatioPenaltyOk
    else 0
  }

  function SizePenalty(size: nat): (p: nat)
    ensures p == BodySizePenaltySmall <==> size < BodySizeThresholdSmall
    ensures p == 0 <==> BodySizeThresholdSmall <= size
  {
    if size < BodySizeThresholdSmall then BodySizePenaltySmall else 0
  }

  function Max(a: int, b: int): int
  {
    if a < b then b else a
  }

  /** 100 less the three penalties, clamped at 0. */
  function PenalizedScore(semanticRatio: real, textRatio: real, size: nat): int
  {
    Max(0, 100 - SemanticPenalty(semanticRatio) - TextPenalty(textRatio) - SizePenalty(size))
  }

  /** The score of the markup `html`, whose body, if it has one, measures `body`; the ratios are exact. */
  function Score(html: string, body: Option<Body>): int
  {
    if html == [] || body.None? then 0
    else PenalizedScore(SemanticRatio(body.value), TextToTagRatio(body.value), body.value.size)
  }

  /** Scaling by a positive factor keeps the order. */
  lemma ScaleOrder(x: real, y: real, d: real)
    requires d > 0.0
    ensures x < y <==> x * d < y * d
  {
  }

  /** `n/d < c` exactly when `n < c*d`, for a positive divisor. */
  lemma QuotientBelow(n: nat, d: nat, c: real)
    requires d > 0
    ensures n as real / d as real < c <==> (n as real) < c * d as real
  {
    var x := n as real / d as real;
    assert x * d as real == n as real;
    ScaleOrder(x, c, d as real);
  }

  /** The ratio tests stated in integers: `s/(d+1) < 0.1` is `10*s < d+1`, `s/(d+1) < 0.3` is `10*s < 3*(d+1)`,
    * and `l/(t+1) < k` is `l < k*(t+1)`. */
  lemma IntegerPenalties(b: Body)
    ensures SemanticPenalty(SemanticRatio(b)) ==
              if 10 * b.semanticCount < b.divCount + 1 then SemanticRatioPenaltyBad
              else if 10 * b.semanticCount < 3 * (b.divCount + 1) then SemanticRatioPenaltyOk
              else 0
    ensures TextPenalty(TextToTagRatio(b)) ==
              if |CleanText(b.text)| < 5 * (b.allTagsCount + 1) then TextToTagRatioPenaltyBad
              else if |CleanText(b.text)| < 10 * (b.allTagsCount + 1) then TextToTagRatioPenaltyOk
              else 0
  {
    QuotientBelow(b.semanticCount, b.divCount + 1, SemanticRatioThresholdBad);
    QuotientBelow(b.semanticCount, b.divCount + 1, SemanticRatioThresholdOk);
    QuotientBelow(|CleanText(b.text)|, b.allTagsCount + 1, TextToTagRatioThresholdBad);
    QuotientBelow(|CleanText(b.text)|, b.allTagsCount + 1, TextToTagRatioThresholdOk);
  }

  /** `calculate_confidence_score`: the penalties are subtracted one after the other, with the ratio tests
    * done in integers, and the result is clamped at 0. */
  method CalculateConfidenceScore(html: string, body: Option<Body>) returns (score: int)
    ensures score == Score(html, body)
  {
    if html == [] {
      return 0;
    }
    if body.None? {
      return 0;
    }
    var b := body.value;
    var divisor := b.divCount + 1;
    var textLength := |CleanText(b.text)|;
    var tagDivisor := b.allTagsCount + 1;
    IntegerPenalties(b);
    score := 100;
    if 10 * b.semanticCount < divisor {
      score := score - SemanticRatioPenaltyBad;
    } else if 10 * b.semanticCount < 3 * divisor {
      score := score - SemanticRatioPenaltyOk;
    }
    if textLength < 5 * tagDivisor {
      score := score - TextToTagRatioPenaltyBad;
    } else if textLength < 10 * tagDivisor {
      score := score - TextToTagRatioPenaltyOk;
    }
    if b.size < BodySizeThresholdSmall {
      score := score - BodySizePenaltySmall;
    }
    if score < 0 {
      score := 0;
    }
  }

  /** Empty markup and markup without a body score 0; otherwise the score lies between 0 and 100, is 100
    * exactly when no penalty applies, and drops to 0 exactly when the semantic ratio is bad, the text ratio
    * earns a penalty and the body is small. */
  lemma ScoreBounds(html: string, body: Option<Body>)
    ensures html == [] || body.None? ==> Score(html, body) == 0
    ensures 0 <= Score(html, body) <= 100
    ensures html != [] && body.Some? ==>
              (Score(html, body) == 100 <==>
                 SemanticRatio(body.value) >= SemanticRatioThresholdOk
                 && TextToTagRatio(body.value) >= TextToTagRatioThresholdOk
                 && body.value.size >= BodySizeThresholdSmall)
    ensures html != [] && body.Some? ==>
              (Score(html, body) == 0 <==>
                 SemanticRatio(body.value) < SemanticRatioThresholdBad
                 && TextToTagRatio(body.value) < TextToTagRatioThresholdOk
                 && body.value.size < BodySizeThresholdSmall)
  {
    if html != [] && body.Some? {
      PenalizedScoreBounds(SemanticRatio(body.value), TextToTagRatio(body.value), body.value.size);
    }
  }

  lemma PenalizedScoreBounds(semanticRatio: real, textRatio: real, size: nat)
    ensures 0 <= PenalizedScore(semanticRatio, textRatio, size) <= 100
    ensures PenalizedScore(semanticRatio, textRatio, size) == 100 <==>
              semanticRatio >= SemanticRatioThresholdOk && textRatio >= TextToTagRatioThresholdOk
              && size >= BodySizeThresholdSmall
    ensures PenalizedScore(semanticRatio, textRatio, size) == 0 <==>
              semanticRatio < SemanticRatioThresholdBad && textRatio < TextToTagRatioThresholdOk
              && size < BodySizeThresholdSmall
  {
  }

  /** A lower threshold and a larger penalty for the bad band make the semantic penalty antitone: a higher
    * ratio never costs more. */
  lemma SemanticPenaltyAntitone(r1: real, r2: real)
    requires r1 <= r2
    ensures SemanticPenalty(r2) <= SemanticPenalty(r1)
  {
  }

  /** With everything else fixed, more semantic tags never lower the score. */
  lemma ScoreMonotoneInSemanticCount(html: string, b: Body, more: nat)
    requires b.semanticCount <= more
    ensures Score(html, Some(b)) <= Score(html, Some(b.(semanticCount := more)))
  {
    var b' := b.(semanticCount := more);
    var d := (b.divCount + 1) as real;
    var x, x' := SemanticRatio(b), SemanticRatio(b');
    assert x * d == b.semanticCount as real;
    assert x' * d == more as real;
    ScaleOrder(x', x, d);
    SemanticPenaltyAntitone(x, x');
    assert TextToTagRatio(b') == TextToTagRatio(b);
  }
}
