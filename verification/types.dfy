/**
 The records of the game: a card of the deck, the three difficulty levels and
 the constant table that configures each level.
 */
module Types {

  /** One card. `id` is the card's position in the freshly dealt deck and `emoji`
      its symbol, compared only for equality. */
  datatype Card = Card(id: int, emoji: string, isFlipped: bool, isMatched: bool)

  datatype Difficulty = Easy | Medium | Hard

  /** Move-count ceilings for a three-star and a two-star rating. */
  datatype StarThresholds = StarThresholds(three: int, two: int)

  datatype DifficultyConfig = DifficultyConfig(
    pairs: int,
    cols: int,
    emojis: seq<string>,
    stars: StarThresholds)

  /** The level table. The symbol text of the table is mis-encoded in the source;
      in the hard list the entries at positions 4 and 8 read as the same
      text, so they are written as the same symbol. No property below depends on
      which symbols they are or on their being distinct. */
  function Config(d: Difficulty): (c: DifficultyConfig)
    ensures c.pairs == |c.emojis| > 0
    ensures c.stars.three < c.stars.two
    ensures c.cols > 0 && (2 * c.pairs) % c.cols == 0
  {
    match d
    case Easy =>
      DifficultyConfig(3, 3, ["🐶", "🐱", "🐼"], StarThresholds(6, 10))
    case Medium =>
      DifficultyConfig(8, 4, ["🐶", "🐱", "🐼", "🦊", "🐸", "🐵", "🦁", "🐧"], StarThresholds(12, 18))
    case Hard =>
      DifficultyConfig(12, 6, ["🐶", "🐱", "🐼", "🦊", "🐸", "🐵", "🦁", "🐧", "🐸", "🚀", "🐨", "🌈"],
                       StarThresholds(18, 28))
  }

}
