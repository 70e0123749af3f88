/**
 The records of the catalogue, keeping the fields the ranking and matching
 code reads. Scores and costs are JavaScript numbers and are modelled as
 reals; dates are parsed to integer milliseconds since the epoch.
 */
module Types {

  /** Normalised scores on a 0-10 scale. */
  datatype Scores = Scores(
    overall: real,
    safety: real,
    pollution: real,
    internet: real,
    qualityOfLife: real,
    job: real,
    healthcare: real,
    climate: real)

  /** Monthly cost of living in USD; only the single-person figure is read. */
  datatype Cost = Cost(single: real)

  datatype City = City(
    slug: string,
    name: string,
    country: string,
    continent: string,
    scores: Scores,
    cost: Cost)

  /** A city's slug, as a function value for the distinctness predicates. */
  function SlugOf(c: City): string
  {
    c.slug
  }

  /** `b` is at least as good as `a` on every score and no dearer. */
  predicate Dominates(b: City, a: City)
  {
    && a.scores.internet <= b.scores.internet
    && a.scores.safety <= b.scores.safety
    && a.scores.qualityOfLife <= b.scores.qualityOfLife
    && a.scores.healthcare <= b.scores.healthcare
    && a.scores.pollution <= b.scores.pollution
    && a.scores.job <= b.scores.job
    && b.cost.single <= a.cost.single
  }

  /** A guide; `publishedAt` and `updatedAt` are the parsed ISO dates, in milliseconds. */
  datatype BlogPost = BlogPost(
    slug: string,
    title: string,
    excerpt: string,
    targetKeyword: string,
    publishedAt: int,
    updatedAt: int,
    tags: seq<string>,
    content: seq<string>)

  /** A resident review, attached to a city by slug only. */
  datatype Review = Review(id: string, citySlug: string, rating: real, costEstimate: real)
}
