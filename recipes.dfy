/** The records stored for each recipe (functions/src/index.ts). */
module Recipes {
  import opened Wrappers

  /** One ingredient line of a recipe; quantities stay the strings that are stored. */
  datatype Proportion = Proportion(ingredient: string, maxQty: string, minQty: string, quantity: string, unit: string)

  /** A stored recipe. Firestore timestamps are given as integer milliseconds since the epoch. */
  datatype Recipe = Recipe(
    content: Option<string>,
    created: int,
    lastCooked: int,
    name: string,
    proportions: Option<seq<Proportion>>,
    tags: seq<string>)
}
