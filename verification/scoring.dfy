/** The derived "nomad" score of a city (lib/scoring.ts). */
module Scoring {

  import opened Types

  /** The cost term: 10 at zero cost, falling by one point per 500 USD, unclamped. */
  function CostTerm(c: City): real
  {
    10.0 - c.cost.single / 500.0
  }

  /** A city whose inputs sit where the formula is meant to be read as a 0-10 score. */
  predicate InNominalRange(c: City)
  {
    && 0.0 <= c.scores.internet <= 10.0
    && 0.0 <= c.scores.safety <= 10.0
    && 0.0 <= c.scores.qualityOfLife <= 10.0
    && 0.0 <= c.cost.single <= 5000.0
  }

  /**
   30% internet, 20% safety, 30% quality of life and 20% the cost term. The
   weights sum to one, so nominal inputs give a score in [0, 10].
   */
  function NomadScore(c: City): (r: real)
    ensures InNominalRange(c) ==> 0.0 <= r <= 10.0
  {
    c.scores.internet * 0.3 + c.scores.safety * 0.2 + c.scores.qualityOfLife * 0.3 + CostTerm(c) * 0.2
  }

  /** More internet, safety or quality of life, or a lower cost, never lowers the score. */
  lemma NomadScoreMonotone(a: City, b: City)
    requires a.scores.internet <= b.scores.internet
    requires a.scores.safety <= b.scores.safety
    requires a.scores.qualityOfLife <= b.scores.qualityOfLife
    requires b.cost.single <= a.cost.single
    ensures NomadScore(a) <= NomadScore(b)
  {
  }

  /** Each input moves the score by exactly its weight (one point of cost by 0.2/500). */
  lemma NomadScoreWeights(c: City, d: real)
    ensures NomadScore(c.(scores := c.scores.(internet := c.scores.internet + d))) == NomadScore(c) + 0.3 * d
    ensures NomadScore(c.(scores := c.scores.(safety := c.scores.safety + d))) == NomadScore(c) + 0.2 * d
    ensures NomadScore(c.(scores := c.scores.(qualityOfLife := c.scores.qualityOfLife + d))) == NomadScore(c) + 0.3 * d
    ensures NomadScore(c.(cost := Cost(c.cost.single + d))) == NomadScore(c) - d / 2500.0
  {
  }

  /** The weights sum to one: equal inputs `v` (cost term included) score exactly `v`. */
  lemma NomadScoreWeightsSumToOne(c: City, v: real)
    requires c.scores.internet == v && c.scores.safety == v && c.scores.qualityOfLife == v
    requires CostTerm(c) == v
    ensures NomadScore(c) == v
  {
  }

  /** No clamping: above 5000 USD the cost term turns negative and keeps falling. */
  lemma NomadScoreUnclamped(c: City)
    requires c.cost.single > 5000.0
    ensures CostTerm(c) < 0.0
    ensures NomadScore(c) < c.scores.internet * 0.3 + c.scores.safety * 0.2 + c.scores.qualityOfLife * 0.3
  {
  }

  /** Internet 8, safety 7, quality of life 7.5 and cost 1500 give 7.45 (exact in reals). */
  lemma NomadScoreExample(c: City)
    requires c.scores.internet == 8.0 && c.scores.safety == 7.0 && c.scores.qualityOfLife == 7.5
    requires c.cost.single == 1500.0
    ensures NomadScore(c) == 7.45
  {
  }
}
