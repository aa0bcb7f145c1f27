# Weekly recipe picker and recipe URL slugs, in Dafny

This project models the only real logic of the recipe site:

- `weeklyRecipeUpdate` (functions/src/index.ts), the scheduled job that builds the weekly menu.
  It keeps the entrées that were not on last week's menu. It seeds the menu with one recipe
  from the group that shares the first recipe's `lastCooked`. It then runs six rounds. Each
  round scores every pool recipe against the menu so far and appends the lowest-scoring one.
- The helpers of functions/src/utils.ts: the common-ingredient list, `isCommonIngredient`,
  `proportionsToIngredientList` and `combineTags`.
- `kebabCase` (website/utils/recipes.ts), which turns a recipe name into its URL segment.

Modules, one per concern:

- `Wrappers`: `Option` stands for JavaScript's `undefined`. `Result` stands for a thrown error.
- `Seqs`: the array operations the code uses (`filter`, `splice`, `at`) and subsequence facts.
- `Strings`: ASCII `toLowerCase` and `String.prototype.includes`.
- `Recipes`: the `Recipe` and `Proportion` records.
- `Utils`: functions/src/utils.ts.
- `Selection`: the body of `weeklyRecipeUpdate` between its Firestore read and its write.
- `Kebab`: `kebabCase`.

The picker is a method, `Selection.WeeklyRecipeUpdate`. Its loop, `Selection.PickRounds`, grows
`pickedRecipes` and splices `recipes`, as the source does. Its result is proved equal to
`Selection.WeeklySelection`, a function that runs `Selection.Round` six times. A round is stated
for any `Chooser`, a function naming the pool index to take. The source's chooser,
`Selection.FirstMinChooser`, names the first index of a lowest score. The lemmas about how the
rounds move recipes hold for every chooser. The lemmas about which recipe is taken are stated
for the source's chooser.

Inputs the source reads from outside become parameters:

- the recipe list, in the order the Firestore query returns it;
- last week's names, or `None` when the menu document has none;
- `randIndex`, the index that `Math.floor(Math.random() * LRURecipes.length)` would produce.

Timestamps are integer milliseconds. Scores are computed exactly as `real` numbers.

The code is followed where it departs from its own comments and names:

- Seeding is not least-recently-used. The query sorts by `lastCooked` descending, so the tie set
  of `recipes[0]` is the MOST recently cooked group of eligible recipes
  (`Selection.SeedIsMostRecent`).
- `proportionsToIngredientList` keeps the ingredients for which `isCommonIngredient` holds. Its
  doc comment calls them "uncommon" (`Utils.KeepsStapleDropsTofu`).
- The seed stays in the pool and can be picked again (`Selection.SeedCanBePickedAgain`).
- The score is `ingredientScore * 0.4 + dateScore * 0.4 + tagScore * 0.2`. Its parts are raw
  counts and a signed day difference, not ratios.
- The ingredient part always compares against the seed's ingredients only
  (`Selection.ScoreChangesOnlyByTags`).
- The menu always has seven entries. An empty pool, or a pool that runs out during the rounds,
  makes the source throw. The model returns `Failure(EmptyPool)` or `Failure(PoolExhausted(i))`.
  It does not return a short menu.

## Model

| member | source | states |
|---|---|---|
| Strings.ToLower | website/utils/recipes.ts:25 | `toLowerCase` keeps the length, moves each ASCII capital to its lower-case letter and keeps every other character |
| Strings.Includes | functions/src/utils.ts:31 | `text.includes(pattern)` holds exactly when `pattern` occurs in `text` at some index |
| Seqs.Filter | functions/src/index.ts:37-40 | `filter(f)` returns no more elements than it is given, only elements of the input that satisfy `f`, and every input element that satisfies `f`; `FilterMultiset` fixes the count of each and `FilterIsSubsequence` the order |
| Seqs.RemoveAt | functions/src/index.ts:77 | `splice(k, 1)` leaves one element fewer; `RemoveAtMultiset` and `RemoveAtIsSubsequence` state which elements stay and in what order |
| Seqs.RemoveAtMultiset | functions/src/index.ts:77 | `splice(k, 1)` removes exactly the element at `k`: the rest plus that element is the old multiset |
| Seqs.RemoveAtIsSubsequence | functions/src/index.ts:77 | after `splice(k, 1)` the other elements keep their relative order |
| Seqs.At | functions/src/index.ts:42 | `at(i)` gives `s[i]` for `0 <= i < |s|`, counts from the end for a negative `i` within range, and gives `undefined` otherwise |
| Utils.AnyIncluded | functions/src/utils.ts:31 | `some((p) => text.includes(p))` holds iff some pattern occurs in the text |
| Utils.IsCommonIngredient | functions/src/utils.ts:29-32 | an ingredient is common iff some entry of the fixed 15-entry list occurs in its lower-cased name |
| Utils.YellowBellPepperIsCommon | functions/src/utils.ts:29-32 | "Yellow Bell Pepper" is common, because its lower-cased name contains "bell pepper" |
| Utils.IngredientNames | functions/src/utils.ts:42 | the map yields one name per proportion, in order |
| Utils.ProportionsToIngredientList | functions/src/utils.ts:39-46 | no proportions give `[]`; the result is no longer than the input; every entry is common; every common input name appears in it |
| Utils.IngredientListIsSubsequence | functions/src/utils.ts:42-45 | the result is an order-preserving subsequence of the ingredient names |
| Utils.IngredientListCounts | functions/src/utils.ts:42-45 | each common name occurs in the result as often as in the input (duplicates stay); other names never occur |
| Utils.GarlicIsCommon | functions/src/utils.ts:29-32 | "garlic", an entry of the list, is common |
| Utils.TofuIsNotCommon | functions/src/utils.ts:29-32 | "tofu" contains no entry of the list, so it is not common |
| Utils.KeepsFirstOfTwo | functions/src/utils.ts:39-46 | of a common ingredient line followed by an uncommon one, only the first name is kept |
| Utils.KeepsStapleDropsTofu | functions/src/utils.ts:35-43 | for garlic and tofu the filter returns `["garlic"]`: it keeps the staple and drops the distinctive ingredient, the opposite of the doc comment |
| Utils.TagsOf | functions/src/utils.ts:55 | no ensures of its own: `recipe?.tags`, or `[]` when that is undefined: the tags of a defined recipe and none for `undefined`; `AllTagsLength` and `AllTagsMember` state what it contributes |
| Utils.AllTags | functions/src/utils.ts:53-58 | no ensures of its own: the tag lists of the recipes concatenated in order; `AllTagsAppend`, `AllTagsLength` and `AllTagsMember` state its properties and `CombineTags` proves the push loop computes it |
| Utils.AllTagsAppend | functions/src/utils.ts:53-58 | the combined tags of two lists of recipes are the combined tags of each, concatenated |
| Utils.AllTagsLength | functions/src/utils.ts:53-58 | the combined tags are as many as the tags of all recipes together; an undefined recipe adds none |
| Utils.AllTagsMember | functions/src/utils.ts:53-58 | a tag is in the combined list iff some defined recipe carries it |
| Utils.CombineTags | functions/src/utils.ts:53-58 | the loop pushing each recipe's tags returns the in-order concatenation of all tag lists |
| Selection.IsEligible | functions/src/index.ts:37 | no ensures of its own: the filter test, tagged `Entrée` and not named on last week's menu, where an undefined name list excludes nothing; `EligiblePool` and `EligiblePoolCounts` state what it selects |
| Selection.EligiblePool | functions/src/index.ts:37 | every pool recipe has the `Entrée` tag and is not named on last week's menu; every such input recipe is in the pool; the pool keeps the query order |
| Selection.EligiblePoolCounts | functions/src/index.ts:37 | each eligible record occurs in the pool as often as in the query result (duplicates stay); an ineligible record never occurs |
| Selection.TieSet | functions/src/index.ts:39-40 | the tie set starts with `recipes[0]`, holds a pool recipe iff it shares `recipes[0].lastCooked`, and keeps pool order |
| Selection.TieSetCounts | functions/src/index.ts:39-40 | each pool record cooked at the first one's instant occurs in the tie set as often as in the pool; any other record never occurs |
| Selection.Seed | functions/src/index.ts:41-42 | for an index within range the seed is `tieSet[index]`; any seed is in the tie set and in the pool and shares `recipes[0].lastCooked`; the seed is undefined exactly when the index is out of range |
| Selection.SeedIngredients | functions/src/index.ts:44 | no ensures of its own: the filtered ingredient list of the seed, `[]` for an undefined seed; `ProportionsToIngredientList` states what it holds |
| Selection.Overlap | functions/src/index.ts:52-57 | the number of entries of the first list, counted with repetition, that occur in the second is at most the length of the first; `CountShared` proves the counting loops compute it |
| Selection.ReferenceMillis | functions/src/index.ts:60 | no ensures of its own: the seed's `lastCooked` in milliseconds, or 0 for an undefined seed; `ScoreChangesOnlyByTags` uses that it depends on the seed only |
| Selection.IngredientScore | functions/src/index.ts:52-57 | the candidate's filtered ingredients found among the seed's, never more than the candidate has |
| Selection.DateScore | functions/src/index.ts:58-60 | the signed day difference to the seed is negative iff the candidate was cooked before the seed, and zero iff at the same millisecond |
| Selection.TagScore | functions/src/index.ts:62-65 | the candidate's tags found among the menu's combined tags, never more than the candidate has |
| Selection.Score | functions/src/index.ts:67 | no ensures of its own: `ingredientScore * 0.4 + dateScore * 0.4 + tagScore * 0.2`; `ScoreRecipe` proves the source's loops compute it, and `ScoreChangesOnlyByTags` and `ScoreNeverDrops` state how it evolves |
| Selection.OverlapExtremes | functions/src/index.ts:52-57 | the count of shared entries is 0 iff none is shared, and equals the length iff all are shared |
| Selection.OverlapMonotone | functions/src/index.ts:62-65 | matching against a list holding more tags never lowers the count |
| Selection.Scores | functions/src/index.ts:49-70 | `recipes.map` yields one score per pool index, the score of that recipe |
| Selection.Indexed | functions/src/index.ts:69 | each score is paired with its own pool index, as `[score, index]` |
| Selection.FirstMinExists | functions/src/index.ts:72-74 | every non-empty list of scores has an index holding a lowest score with only higher scores before it |
| Selection.IsFirstMinUnique | functions/src/index.ts:72-74 | that index is unique |
| Selection.StableSortHeadIsFirstMin | functions/src/index.ts:72-74 | after any stable ascending sort of the pairs, `scores[0]` carries the first index of a lowest score |
| Selection.Chosen | functions/src/index.ts:72-74 | the index a round picks holds the first lowest score |
| Selection.FirstMinChooser | functions/src/index.ts:49-74 | the source's chooser names a pool index whenever the pool is non-empty, and that index holds the first lowest score of the pool under the menu so far |
| Selection.Round | functions/src/index.ts:74-77 | one round makes the pool one shorter and the menu one longer |
| Selection.RoundsFrom | functions/src/index.ts:47-78 | no ensures of its own: rounds `i` to 6 of the loop, failing with the round whose pool is empty; `RoundsFromOutcome`, `RoundsFromExtends`, `RoundsFromConservation` and `RoundsFromKeepsOrder` state its outcome |
| Selection.WeeklySelection | functions/src/index.ts:37-78 | no ensures of its own: the menu the job stores, or the error it throws; `WeeklySelectionOutcome`, `SeedIsMostRecent` and `SeedCanBePickedAgain` state its outcome, and `WeeklyRecipeUpdate` is proved equal to it |
| Selection.RoundChoosesFirstMinimum | functions/src/index.ts:49-77 | a round appends a pool recipe with the lowest score, strictly better than every earlier index, and splices out exactly it, keeping the rest in order |
| Selection.RoundsFromOutcome | functions/src/index.ts:47-78 | the remaining rounds succeed iff the pool has a recipe for each; on success the pool shrinks and the menu grows by the number of rounds; otherwise the failing round is named |
| Selection.RoundsFromExtends | functions/src/index.ts:74 | the rounds only append to the menu, and every appended entry is defined |
| Selection.RoundConserves | functions/src/index.ts:74-77 | one round moves one recipe from the pool to the end of the menu, so the recipes appended since a given point plus the pool stay the same multiset |
| Selection.RoundsFromConserve | functions/src/index.ts:47-78 | the remaining rounds keep that multiset |
| Selection.RoundsFromConservation | functions/src/index.ts:47-77 | the appended recipes plus the final pool are exactly the initial pool as a multiset, so no pool element is taken twice |
| Selection.RoundsFromKeepsOrder | functions/src/index.ts:77 | the final pool is an order-preserving subsequence of the initial pool |
| Selection.ScoreChangesOnlyByTags | functions/src/index.ts:44-67 | between rounds a recipe's score changes only through its tag score: the ingredient part is fixed by the seed and the date reference stays `pickedRecipes[0]` |
| Selection.ScoreNeverDrops | functions/src/index.ts:62-67 | a recipe's score never decreases from one round to the next |
| Selection.WeeklySelectionOutcome | functions/src/index.ts:37-78 | an empty pool fails with `EmptyPool`; a pool of 1 to 5 fails in the round it runs out; otherwise the menu has 7 entries, the first is the seed, and the other 6 are defined, distinct pool elements |
| Selection.RunOutcome | functions/src/index.ts:42-78 | the same outcome for the rounds after any seed on a non-empty pool |
| Selection.RunSucceeds | functions/src/index.ts:42-78 | on a pool of at least 6 recipes the rounds succeed with 7 entries: the seed, then 6 defined recipes that are distinct elements of the pool |
| Selection.SubsequenceKeepsSorted | functions/src/index.ts:31-37 | filtering a list sorted by `lastCooked` descending leaves it sorted |
| Selection.SeedIsMostRecent | functions/src/index.ts:31-42 | on the query's descending order, the seed was cooked no earlier than any eligible recipe |
| Selection.UniformRounds | functions/src/index.ts:47-77 | on a pool of copies of one recipe, with a menu holding only that recipe, the rounds succeed and the menu keeps holding only that recipe |
| Selection.SeedCanBePickedAgain | functions/src/index.ts:37-77 | with six copies of one entrée, the menu succeeds with seven entries, every one that recipe: the seed stays in the pool and is picked again |
| Selection.UniformRun | functions/src/index.ts:42-77 | the rounds seeded with a recipe, on a pool of its copies, give a menu of that recipe only |
| Selection.CountShared | functions/src/index.ts:52-57 | the counting loop returns the number of entries of the first list found in the second |
| Selection.ScoreRecipe | functions/src/index.ts:50-69 | the loops computing `ingredientScore`, `dateScore` and `tagScore` return the weighted score |
| Selection.ScorePool | functions/src/index.ts:49-70 | `recipes.map` returns one score per pool recipe, at that recipe's index, each the weighted score of that recipe against the seed's ingredients and the menu so far |
| Selection.ScoresMatch | functions/src/index.ts:49-70 | scores given recipe by recipe are the scores the rounds compare |
| Selection.FirstMinIndex | functions/src/index.ts:72-74 | the scan returns the first index of a lowest score, the index the stable sort puts first |
| Selection.RoundAt | functions/src/index.ts:72-77 | once the scan has found the first lowest score, pushing that recipe and splicing it out is exactly one `Round` of the source's chooser |
| Selection.PickRounds | functions/src/index.ts:47-78 | the loop returns exactly the outcome of the six rounds: the pool and menu they leave, or the round in which the pool ran dry |
| Selection.WeeklyRecipeUpdate | functions/src/index.ts:37-78 | the imperative picker returns exactly `WeeklySelection`; it succeeds iff the pool holds at least 6 recipes, and then returns 7 entries |
| Kebab.SkipSeparators | website/utils/recipes.ts:24 | what is left after a run starts with no separator and is no longer |
| Kebab.SkipSeparatorsSuffix | website/utils/recipes.ts:24 | what a run match consumes is a prefix of separators only |
| Kebab.SkipAllSeparators | website/utils/recipes.ts:24 | a string of separators only is consumed entirely |
| Kebab.Collapse | website/utils/recipes.ts:24 | after replacing each run, no whitespace or underscore is left |
| Kebab.KebabCase | website/utils/recipes.ts:22-25 | the slug contains no ASCII capital and no whitespace or underscore |
| Kebab.Hyphenate | website/utils/recipes.ts:23 | no ensures of its own: the left-to-right scan of `/([a-z])([A-Z])/g` that puts `-` inside each match and resumes after it; `HyphenateEnds`, `HyphenateAppend`, `HyphenateWithoutCapitals`, `HyphenateKeepsOthers` and `HyphenateKeepsHyphens` state its properties |
| Kebab.HyphenateEnds | website/utils/recipes.ts:23 | the first rewrite keeps the first and last character and never shortens |
| Kebab.HyphenateAppend | website/utils/recipes.ts:23 | the first rewrite works on two halves apart when no lower-then-capital pair straddles the cut |
| Kebab.HyphenateWithoutCapitals | website/utils/recipes.ts:23 | a string with no capitals is unchanged by the first rewrite |
| Kebab.SkipSeparatorsAppend | website/utils/recipes.ts:24 | a run match over a concatenation continues into the second part only when the first is all separators |
| Kebab.CollapseAppend | website/utils/recipes.ts:24 | the second rewrite works on two halves apart when no run straddles the cut |
| Kebab.CollapseWithoutSeparators | website/utils/recipes.ts:24 | a string with no separators is unchanged by the second rewrite |
| Kebab.CollapseRun | website/utils/recipes.ts:24 | a run of separators becomes one hyphen |
| Kebab.KebabCaseAppend | website/utils/recipes.ts:22-25 | `kebabCase` works on two halves apart when no rewrite can match across the cut |
| Kebab.KebabCaseCamelPair | website/utils/recipes.ts:23-25 | a lower-case letter followed by a capital, `xY`, comes out as `x-y`, with each side converted on its own |
| Kebab.KebabCaseCamelHead | website/utils/recipes.ts:23-25 | a string starting with a lower-case letter and a capital starts its slug with the letter, `-` and the lower-cased capital, followed by the slug of the rest |
| Kebab.KebabCaseSeparatorRun | website/utils/recipes.ts:24-25 | a maximal run of whitespace and underscores becomes exactly one `-` |
| Kebab.KebabCaseRun | website/utils/recipes.ts:24-25 | a run of separators alone becomes `-` |
| Kebab.KebabCaseFixedPoint | website/utils/recipes.ts:22-25 | a string with no capitals and no whitespace or underscore is returned unchanged |
| Kebab.KebabCaseIdempotent | website/utils/recipes.ts:22-25 | applying `kebabCase` to its own output returns that output |
| Kebab.HyphenateKeepsOthers | website/utils/recipes.ts:23 | the first rewrite keeps the other characters, in order |
| Kebab.FilterSeparators | website/utils/recipes.ts:24 | a run of separators holds no other character |
| Kebab.CollapseKeepsOthers | website/utils/recipes.ts:24 | the second rewrite keeps the other characters, in order |
| Kebab.ToLowerKeepsOthers | website/utils/recipes.ts:25 | lower-casing keeps the other characters, in order |
| Kebab.HyphenateKeepsHyphens | website/utils/recipes.ts:23 | the first rewrite keeps every hyphen of its input |
| Kebab.CollapseKeepsHyphens | website/utils/recipes.ts:24 | the second rewrite keeps every hyphen of its input: a hyphen is not in `[\s_]` |
| Kebab.ToLowerKeepsHyphens | website/utils/recipes.ts:25 | lower-casing keeps the number of hyphens exactly |
| Kebab.KebabCaseKeepsHyphens | website/utils/recipes.ts:22-25 | every hyphen already in the name is still in the slug: the slug holds at least as many |
| Kebab.KebabCaseKeepsOthers | website/utils/recipes.ts:22-25 | digits, punctuation and every other character that is not a letter, a separator or `-` pass through unchanged and in order |

## Left out

- Firestore reads and writes (functions/src/index.ts:31-35, 80-82) and the `pubsub.schedule` trigger (:29) are I/O. The query result and last week's names are parameters, and the menu is the returned value. The write stores the menu only; it never updates `lastCooked`.
- `Math.random` (functions/src/index.ts:41) is replaced by the parameter `randIndex`. `.at` is modelled for every integer index.
- `scores.sort` (functions/src/index.ts:72) is not modelled as an in-place sort. `Selection.FirstMinIndex` scans for the first lowest score. `Selection.StableSortHeadIsFirstMin` proves that any stable ascending sort puts that pair first, so `scores[0][1]` is the same index.
- Floating point: scores are exact `real` numbers, so IEEE rounding of `0.4`, `0.2` and of the day division is not modelled. Two scores that are equal in reals but differ after rounding, or the reverse, may tie-break differently in the source.
- Timestamps are integer milliseconds. `Timestamp.isEqual` (functions/src/index.ts:40) compares at nanosecond precision; two timestamps within the same millisecond count as equal here.
- Unicode: `toLowerCase` and `\s` are restricted to ASCII. Non-ASCII capitals are not lower-cased, and non-ASCII white space (such as U+00A0) is not treated as a separator.
- The `content`, `created` and quantity fields are carried in the records but never inspected, as in the source.
- A Firestore write of a menu containing `undefined` (a seed index out of range) is not modelled; that cannot happen with `Math.random`.
- `fetchImageURL` (website/utils/recipes.ts:28-36), website/utils/firebase.ts, the API routes under website/pages/api, and all React components and pages are network or UI code and are not part of this model.
