/**
 * The weekly menu picker of functions/src/index.ts (`weeklyRecipeUpdate`), lifted out of its
 * Firestore reads and writes: the recipes arrive as the query returns them, last week's names
 * (if the menu document has any) and the index that `Math.random` would give are parameters,
 * and the menu is the returned value.
 */
module Selection {
  import opened Wrappers
  import opened Seqs
  import opened Recipes
  import opened Utils

  /** The tag a recipe needs to be considered. */
  const ENTREE: string := "Entr\U{E9}e"

  /** The loop adds this many recipes to the seed; a full menu has one more entry. */
  const ROUNDS: nat := 6

  /** The two places where the source throws a TypeError. */
  datatype SelectionError =
    | EmptyPool                 // `recipes[0].lastCooked` on an empty pool
    | PoolExhausted(round: nat) // `scores[0][1]` when the pool is empty in that round

  /** `recipe.tags.includes('Entrée') && !lastWeeksRecipesNames?.includes(recipe.name)`. */
  predicate IsEligible(r: Recipe, lastWeeksNames: Option<seq<string>>)
  {
    ENTREE in r.tags && !(lastWeeksNames.Some? && r.name in lastWeeksNames.value)
  }

  /** The candidate pool: the entrées that were not on last week's menu, in query order. */
  function EligiblePool(recipesDoc: seq<Recipe>, lastWeeksNames: Option<seq<string>>): (pool: seq<Recipe>)
    ensures forall i :: 0 <= i < |pool| ==>
      pool[i] in recipesDoc && ENTREE in pool[i].tags &&
      (lastWeeksNames.Some? ==> pool[i].name !in lastWeeksNames.value)
    ensures forall j :: 0 <= j < |recipesDoc| && IsEligible(recipesDoc[j], lastWeeksNames) ==> recipesDoc[j] in pool
    ensures IsSubsequence(pool, recipesDoc)
  {
    var keep := (r: Recipe) => IsEligible(r, lastWeeksNames);
    FilterIsSubsequence(keep, recipesDoc);
    Filter(keep, recipesDoc)
  }

  /** `LRURecipes`: the pool recipes cooked at the same instant as the first one, in pool order. */
  function TieSet(pool: seq<Recipe>): (tie: seq<Recipe>)
    requires |pool| > 0
    ensures |tie| > 0 && tie[0] == pool[0]
    ensures forall i :: 0 <= i < |tie| ==> tie[i] in pool && tie[i].lastCooked == pool[0].lastCooked
    ensures forall j :: 0 <= j < |pool| && pool[j].lastCooked == pool[0].lastCooked ==> pool[j] in tie
    ensures IsSubsequence(tie, pool)
  {
    var date := pool[0].lastCooked;
    var same := (r: Recipe) => r.lastCooked == date;
    FilterIsSubsequence(same, pool);
    Filter(same, pool)
  }

  /** Every copy of an eligible record stays in the pool; an ineligible record never appears. */
  lemma EligiblePoolCounts(recipesDoc: seq<Recipe>, lastWeeksNames: Option<seq<string>>, r: Recipe)
    ensures multiset(EligiblePool(recipesDoc, lastWeeksNames))[r] ==
      if IsEligible(r, lastWeeksNames) then multiset(recipesDoc)[r] else 0
  {
    FilterMultiset((x: Recipe) => IsEligible(x, lastWeeksNames), recipesDoc, r);
  }

  /** Every copy of a pool record cooked with the first one is in the tie set, and nothing else. */
  lemma TieSetCounts(pool: seq<Recipe>, r: Recipe)
    requires |pool| > 0
    ensures multiset(TieSet(pool))[r] == if r.lastCooked == pool[0].lastCooked then multiset(pool)[r] else 0
  {
    var date := pool[0].lastCooked;
    FilterMultiset((x: Recipe) => x.lastCooked == date, pool, r);
  }

  /** `LRURecipes.at(randIndex)`, the first entry of the menu. */
  function Seed(pool: seq<Recipe>, randIndex: int): (seed: Option<Recipe>)
    requires |pool| > 0
    ensures 0 <= randIndex < |TieSet(pool)| ==> seed == Some(TieSet(pool)[randIndex])
    ensures seed.Some? ==> seed.value in TieSet(pool) && seed.value in pool
    ensures seed.Some? ==> seed.value.lastCooked == pool[0].lastCooked
    ensures seed.None? <==> randIndex < -|TieSet(pool)| || |TieSet(pool)| <= randIndex
  {
    At(TieSet(pool), randIndex)
  }

  /** `currentIngredients`: the filtered ingredients of the seed, fixed for the whole run. */
  function SeedIngredients(seed: Option<Recipe>): seq<string>
  {
    ProportionsToIngredientList(if seed.Some? then seed.value.proportions else None)
  }

  /** The entries of `xs`, counted with repetition, that occur somewhere in `ys`. */
  function Overlap(xs: seq<string>, ys: seq<string>): (n: nat)
    ensures n <= |xs|
    decreases |xs|
  {
    if xs == [] then 0 else Overlap(xs[..|xs| - 1], ys) + (if xs[|xs| - 1] in ys then 1 else 0)
  }

  /** No overlap means no shared entry; full overlap means every entry is shared. */
  lemma {:induction false} OverlapExtremes(xs: seq<string>, ys: seq<string>)
    ensures Overlap(xs, ys) == 0 <==> forall i :: 0 <= i < |xs| ==> xs[i] !in ys
    ensures Overlap(xs, ys) == |xs| <==> forall i :: 0 <= i < |xs| ==> xs[i] in ys
    decreases |xs|
  {
    if xs != [] {
      var front := xs[..|xs| - 1];
      OverlapExtremes(front, ys);
      assert forall i :: 0 <= i < |front| ==> front[i] == xs[i];
    }
  }

  /** Matching against more entries never lowers the overlap. */
  lemma {:induction false} OverlapMonotone(xs: seq<string>, ys: seq<string>, zs: seq<string>)
    requires forall i :: 0 <= i < |ys| ==> ys[i] in zs
    ensures Overlap(xs, ys) <= Overlap(xs, zs)
    decreases |xs|
  {
    if xs != [] {
      OverlapMonotone(xs[..|xs| - 1], ys, zs);
    }
  }

  /** The timestamp the date score is measured from: `pickedRecipes[0]?.lastCooked.toMillis() || 0`. */
  function ReferenceMillis(picked: seq<Option<Recipe>>): int
  {
    if |picked| > 0 && picked[0].Some? then picked[0].value.lastCooked else 0
  }

  /** How many of the candidate's filtered ingredients are among the seed's. */
  function IngredientScore(r: Recipe, current: seq<string>): (n: nat)
    ensures n <= |ProportionsToIngredientList(r.proportions)|
  {
    Overlap(ProportionsToIngredientList(r.proportions), current)
  }

  /** Days between the candidate's last cooking and the reference; a day is 1000 * 3600 * 24 ms. */
  function DateScore(r: Recipe, picked: seq<Option<Recipe>>): (d: real)
    ensures d < 0.0 <==> r.lastCooked < ReferenceMillis(picked)
    ensures d == 0.0 <==> r.lastCooked == ReferenceMillis(picked)
  {
    (r.lastCooked - ReferenceMillis(picked)) as real / 86400000.0
  }

  function TagScore(r: Recipe, picked: seq<Option<Recipe>>): (n: nat)
    ensures n <= |r.tags|
  {
    Overlap(r.tags, AllTags(picked))
  }

  /** The similarity score of a candidate; the lowest score is picked. */
  function Score(r: Recipe, picked: seq<Option<Recipe>>, current: seq<string>): real
  {
    IngredientScore(r, current) as real * 0.4 + DateScore(r, picked) * 0.4 + TagScore(r, picked) as real * 0.2
  }

  /** A way of scoring a candidate against the menu so far; the rounds take the lowest. */
  type Scorer = (Recipe, seq<Option<Recipe>>) -> real

  /** The scorer of the source, with the seed's ingredients fixed once for the whole run. */
  function ScorerFor(current: seq<string>): Scorer
  {
    (r: Recipe, picked: seq<Option<Recipe>>) => Score(r, picked, current)
  }

  /** `recipes.map(...)`: the score of every pool recipe, by index. */
  function Scores(pool: seq<Recipe>, picked: seq<Option<Recipe>>, scorer: Scorer): (s: seq<real>)
    ensures |s| == |pool|
    ensures forall i :: 0 <= i < |pool| ==> s[i] == scorer(pool[i], picked)
  {
    seq(|pool|, i requires 0 <= i < |pool| => scorer(pool[i], picked))
  }

  /** `k` holds a lowest score, and every index before it a strictly higher one. */
  ghost predicate IsFirstMin(s: seq<real>, k: int)
  {
    0 <= k < |s| &&
    (forall j :: 0 <= j < |s| ==> s[k] <= s[j]) &&
    (forall j :: 0 <= j < k ==> s[k] < s[j])
  }

  /** Every nonempty list of scores has a first lowest one. */
  lemma {:induction false} FirstMinExists(s: seq<real>)
    requires |s| > 0
    ensures exists k :: IsFirstMin(s, k)
    decreases |s|
  {
    if |s| == 1 {
      assert IsFirstMin(s, 0);
    } else {
      var front := s[..|s| - 1];
      FirstMinExists(front);
      var k :| IsFirstMin(front, k);
      if s[|s| - 1] < s[k] {
        assert IsFirstMin(s, |s| - 1);
      } else {
        assert IsFirstMin(s, k);
      }
    }
  }

  /** ... and only one. */
  lemma IsFirstMinUnique(s: seq<real>, a: int, b: int)
    requires IsFirstMin(s, a) && IsFirstMin(s, b)
    ensures a == b
  {
    assert s[a] <= s[b] && s[b] <= s[a];
  }

  /** The pairs `[score, index]` that the source sorts. */
  function Indexed(scores: seq<real>): (pairs: seq<(real, int)>)
    ensures |pairs| == |scores|
    ensures forall i :: 0 <= i < |scores| ==> pairs[i] == (scores[i], i)
  {
    seq(|scores|, i requires 0 <= i < |scores| => (scores[i], i))
  }

  /** `sorted` is ascending by score and keeps equal scores in their original index order. */
  ghost predicate IsStableSortByScore(sorted: seq<(real, int)>)
  {
    forall j, k :: 0 <= j < k < |sorted| ==>
      sorted[j].0 <= sorted[k].0 && (sorted[j].0 == sorted[k].0 ==> sorted[j].1 < sorted[k].1)
  }

  /**
   * `scores.sort((a, b) => a[0] - b[0])` is a stable ascending sort, so whatever order it leaves
   * behind, its head `scores[0]` is the pair of the first lowest score.
   */
  lemma StableSortHeadIsFirstMin(scores: seq<real>, sorted: seq<(real, int)>)
    requires |scores| > 0
    requires multiset(sorted) == multiset(Indexed(scores))
    requires IsStableSortByScore(sorted)
    ensures 0 <= sorted[0].1 < |scores| && sorted[0].0 == scores[sorted[0].1]
    ensures IsFirstMin(scores, sorted[0].1)
  {
    var pairs := Indexed(scores);
    FirstMinExists(scores);
    var m :| IsFirstMin(scores, m);
    assert pairs[m] in multiset(sorted);
    var p :| 0 <= p < |sorted| && sorted[p] == pairs[m];
    assert |sorted| > 0;
    assert sorted[0] in multiset(pairs);
    var q :| 0 <= q < |pairs| && pairs[q] == sorted[0];
  }

  /** The picker's two growing lists: the recipes still to choose from and the menu so far. */
  datatype State = State(pool: seq<Recipe>, picked: seq<Option<Recipe>>)

  /** How a round picks the pool index whose recipe it moves to the menu. */
  type Chooser = State -> nat

  /** A chooser names an index of the pool whenever the pool is not empty. */
  ghost predicate ValidChooser(choose: Chooser)
  {
    forall t: State :: |t.pool| > 0 ==> choose(t) < |t.pool|
  }

  /** The pool index one round of the source picks: the first one holding a lowest score. */
  ghost function Chosen(s: State, scorer: Scorer): (k: nat)
    requires |s.pool| > 0
    ensures IsFirstMin(Scores(s.pool, s.picked, scorer), k)
  {
    var scores := Scores(s.pool, s.picked, scorer);
    FirstMinExists(scores);
    var k :| IsFirstMin(scores, k); k
  }

  /** The source's choice as a chooser: the first lowest score under `scorer`. */
  ghost function FirstMinChooser(scorer: Scorer): (choose: Chooser)
    ensures ValidChooser(choose)
    ensures forall t: State :: |t.pool| > 0 ==> IsFirstMin(Scores(t.pool, t.picked, scorer), choose(t))
  {
    (t: State) => if |t.pool| > 0 then Chosen(t, scorer) else 0
  }

  /** One pass of the `for` loop body: push the chosen recipe and splice it out of the pool. */
  ghost function Round(s: State, choose: Chooser): (next: State)
    requires ValidChooser(choose) && |s.pool| > 0
    ensures |next.pool| == |s.pool| - 1 && |next.picked| == |s.picked| + 1
  {
    var k := choose(s);
    State(RemoveAt(s.pool, k), s.picked + [Some(s.pool[k])])
  }

  /** Rounds `i` up to `ROUNDS` of the loop. */
  ghost function RoundsFrom(s: State, choose: Chooser, i: nat): Result<State, SelectionError>
    requires ValidChooser(choose) && i <= ROUNDS
    decreases ROUNDS - i
  {
    if i == ROUNDS then Success(s)
    else if s.pool == [] then Failure(PoolExhausted(i))
    else RoundsFrom(Round(s, choose), choose, i + 1)
  }

  /** The menu `weeklyRecipeUpdate` stores, or the error it throws. */
  ghost function WeeklySelection(recipesDoc: seq<Recipe>, lastWeeksNames: Option<seq<string>>, randIndex: int)
    : Result<seq<Option<Recipe>>, SelectionError>
  {
    var pool := EligiblePool(recipesDoc, lastWeeksNames);
    if pool == [] then Failure(EmptyPool)
    else
      var seed := Seed(pool, randIndex);
      match RoundsFrom(State(pool, [seed]), FirstMinChooser(ScorerFor(SeedIngredients(seed))), 0)
      case Success(s) => Success(s.picked)
      case Failure(e) => Failure(e)
  }

  /**
   * A round appends a recipe with the lowest score in the pool, ahead of every pool index before
   * it holding the same score, and splices out exactly that recipe, keeping the rest in order.
   */
  lemma RoundChoosesFirstMinimum(s: State, scorer: Scorer)
    requires |s.pool| > 0
    ensures var next := Round(s, FirstMinChooser(scorer));
      exists k :: 0 <= k < |s.pool| &&
        next.picked == s.picked + [Some(s.pool[k])] &&
        next.pool == s.pool[..k] + s.pool[k + 1..] &&
        (forall j :: 0 <= j < |s.pool| ==> scorer(s.pool[k], s.picked) <= scorer(s.pool[j], s.picked)) &&
        (forall j :: 0 <= j < k ==> scorer(s.pool[k], s.picked) < scorer(s.pool[j], s.picked))
    ensures var next := Round(s, FirstMinChooser(scorer));
      multiset(next.pool) + multiset{next.picked[|s.picked|].value} == multiset(s.pool)
    ensures IsSubsequence(Round(s, FirstMinChooser(scorer)).pool, s.pool)
  {
    var next := Round(s, FirstMinChooser(scorer));
    var k := FirstMinChooser(scorer)(s);
    var scores := Scores(s.pool, s.picked, scorer);
    assert IsFirstMin(scores, k);
    assert next.picked == s.picked + [Some(s.pool[k])] && next.pool == s.pool[..k] + s.pool[k + 1..];
    assert next.picked[|s.picked|].value == s.pool[k];
    RemoveAtMultiset(s.pool, k);
    RemoveAtIsSubsequence(s.pool, k);
  }

  /** A run succeeds exactly when the pool holds a recipe for every remaining round. */
  lemma {:induction false} RoundsFromOutcome(s: State, choose: Chooser, i: nat)
    requires ValidChooser(choose) && i <= ROUNDS
    ensures var r := RoundsFrom(s, choose, i);
      (r.Success? <==> |s.pool| >= ROUNDS - i) &&
      (r.Failure? ==> r.error == PoolExhausted(i + |s.pool|)) &&
      (r.Success? ==> |r.value.pool| == |s.pool| - (ROUNDS - i) && |r.value.picked| == |s.picked| + (ROUNDS - i))
    decreases ROUNDS - i
  {
    if i < ROUNDS && s.pool != [] {
      RoundsFromOutcome(Round(s, choose), choose, i + 1);
    }
  }

  /** The rounds only append to the menu, and every entry they append is a defined recipe. */
  lemma {:induction false} RoundsFromExtends(s: State, choose: Chooser, i: nat)
    requires ValidChooser(choose) && i <= ROUNDS
    requires RoundsFrom(s, choose, i).Success?
    ensures var t := RoundsFrom(s, choose, i).value;
      |s.picked| <= |t.picked| && t.picked[..|s.picked|] == s.picked &&
      forall j :: |s.picked| <= j < |t.picked| ==> t.picked[j].Some?
    decreases ROUNDS - i
  {
    if i < ROUNDS {
      var next := Round(s, choose);
      var k := choose(s);
      RoundsFromExtends(next, choose, i + 1);
      var t := RoundsFrom(next, choose, i + 1).value;
      assert t.picked[..|next.picked|][..|s.picked|] == s.picked;
    }
  }

  /**
   * The entries appended from position `n` on, together with the pool, are the recipes `m`
   * the pool held when position `n` was reached.
   */
  ghost predicate Conserves(t: State, n: nat, m: multiset<Recipe>)
  {
    n <= |t.picked| && multiset(Present(t.picked[n..])) + multiset(t.pool) == m
  }

  /** One round moves a recipe from the pool to the menu, so it keeps `Conserves`. */
  lemma RoundConserves(s: State, choose: Chooser, n: nat, m: multiset<Recipe>)
    requires ValidChooser(choose) && |s.pool| > 0 && Conserves(s, n, m)
    ensures Conserves(Round(s, choose), n, m)
  {
    var k := choose(s);
    var next := Round(s, choose);
    assert next.picked[n..] == s.picked[n..] + [Some(s.pool[k])];
    PresentAppend(s.picked[n..], [Some(s.pool[k])]);
    assert Present([Some(s.pool[k])]) == [s.pool[k]];
    RemoveAtMultiset(s.pool, k);
  }

  /** The rounds keep `Conserves`. */
  lemma {:induction false} RoundsFromConserve(s: State, choose: Chooser, i: nat, n: nat, m: multiset<Recipe>)
    requires ValidChooser(choose) && i <= ROUNDS
    requires RoundsFrom(s, choose, i).Success? && Conserves(s, n, m)
    ensures Conserves(RoundsFrom(s, choose, i).value, n, m)
    decreases ROUNDS - i
  {
    if i < ROUNDS {
      RoundConserves(s, choose, n, m);
      RoundsFromConserve(Round(s, choose), choose, i + 1, n, m);
    }
  }

  /**
   * Each appended entry is a recipe taken out of the pool: the appended recipes and the final
   * pool together are exactly the initial pool, so no pool element is taken twice.
   */
  lemma RoundsFromConservation(s: State, choose: Chooser, i: nat)
    requires ValidChooser(choose) && i <= ROUNDS
    requires RoundsFrom(s, choose, i).Success?
    ensures |s.picked| <= |RoundsFrom(s, choose, i).value.picked|
    ensures var t := RoundsFrom(s, choose, i).value;
      multiset(Present(t.picked[|s.picked|..])) + multiset(t.pool) == multiset(s.pool)
  {
    assert s.picked[|s.picked|..] == [];
    RoundsFromConserve(s, choose, i, |s.picked|, multiset(s.pool));
  }

  /** The pool that remains keeps the order it had. */
  lemma {:induction false} RoundsFromKeepsOrder(s: State, choose: Chooser, i: nat)
    requires ValidChooser(choose) && i <= ROUNDS
    requires RoundsFrom(s, choose, i).Success?
    ensures IsSubsequence(RoundsFrom(s, choose, i).value.pool, s.pool)
    decreases ROUNDS - i
  {
    if i == ROUNDS {
      SubsequenceReflexive(s.pool);
    } else {
      var next := Round(s, choose);
      var k := choose(s);
      RemoveAtIsSubsequence(s.pool, k);
      RoundsFromKeepsOrder(next, choose, i + 1);
      SubsequenceTransitive(RoundsFrom(next, choose, i + 1).value.pool, next.pool, s.pool);
    }
  }

  /** Between two rounds the score of a recipe can only change through its tag score. */
  lemma ScoreChangesOnlyByTags(r: Recipe, s: State, choose: Chooser, current: seq<string>)
    requires ValidChooser(choose) && |s.pool| > 0 && |s.picked| > 0
    ensures var next := Round(s, choose);
      Score(r, next.picked, current) - Score(r, s.picked, current) ==
        (TagScore(r, next.picked) - TagScore(r, s.picked)) as real * 0.2
  {
    var next := Round(s, choose);
    assert next.picked[0] == s.picked[0];
  }

  /** A recipe's score never drops from one round to the next: the menu's tags only accumulate. */
  lemma ScoreNeverDrops(r: Recipe, s: State, choose: Chooser, current: seq<string>)
    requires ValidChooser(choose) && |s.pool| > 0 && |s.picked| > 0
    ensures Score(r, s.picked, current) <= Score(r, Round(s, choose).picked, current)
  {
    var next := Round(s, choose);
    var k := choose(s);
    assert next.picked[0] == s.picked[0];
    AllTagsAppend(s.picked, [Some(s.pool[k])]);
    var before, after := AllTags(s.picked), AllTags(next.picked);
    assert forall i :: 0 <= i < |before| ==> before[i] == after[i];
    OverlapMonotone(r.tags, before, after);
  }

  /**
   * The outcome of a whole run: the errors the source throws, and otherwise a menu of seven
   * entries whose first is the seed and whose other six are distinct elements of the pool.
   */
  lemma WeeklySelectionOutcome(recipesDoc: seq<Recipe>, lastWeeksNames: Option<seq<string>>, randIndex: int)
    ensures var pool := EligiblePool(recipesDoc, lastWeeksNames);
      var res := WeeklySelection(recipesDoc, lastWeeksNames, randIndex);
      (pool == [] ==> res == Failure(EmptyPool)) &&
      (0 < |pool| < ROUNDS ==> res == Failure(PoolExhausted(|pool|))) &&
      (|pool| >= ROUNDS ==>
        res.Success? && |res.value| == ROUNDS + 1 &&
        res.value[0] == Seed(pool, randIndex) &&
        (forall j :: 1 <= j < |res.value| ==> res.value[j].Some?) &&
        multiset(Present(res.value[1..])) <= multiset(pool))
  {
    var pool := EligiblePool(recipesDoc, lastWeeksNames);
    if pool != [] {
      var seed := Seed(pool, randIndex);
      RunOutcome(pool, seed, FirstMinChooser(ScorerFor(SeedIngredients(seed))));
    }
  }

  /** The same outcome, for the rounds that follow any seed on any non-empty pool. */
  lemma RunOutcome(pool: seq<Recipe>, seed: Option<Recipe>, choose: Chooser)
    requires ValidChooser(choose) && pool != []
    ensures var res := RoundsFrom(State(pool, [seed]), choose, 0);
      (|pool| < ROUNDS ==> res == Failure(PoolExhausted(|pool|))) &&
      (|pool| >= ROUNDS ==>
        res.Success? && |res.value.picked| == ROUNDS + 1 &&
        res.value.picked[0] == seed &&
        (forall j :: 1 <= j < |res.value.picked| ==> res.value.picked[j].Some?) &&
        multiset(Present(res.value.picked[1..])) <= multiset(pool))
  {
    RoundsFromOutcome(State(pool, [seed]), choose, 0);
    if |pool| >= ROUNDS {
      RunSucceeds(pool, seed, choose);
    }
  }

  /** A run over a pool of at least `ROUNDS` recipes: the seed, then six recipes of the pool. */
  lemma RunSucceeds(pool: seq<Recipe>, seed: Option<Recipe>, choose: Chooser)
    requires ValidChooser(choose) && |pool| >= ROUNDS
    ensures var res := RoundsFrom(State(pool, [seed]), choose, 0);
      res.Success? && |res.value.picked| == ROUNDS + 1 &&
      res.value.picked[0] == seed &&
      (forall j :: 1 <= j < |res.value.picked| ==> res.value.picked[j].Some?) &&
      multiset(Present(res.value.picked[1..])) <= multiset(pool)
  {
    var s := State(pool, [seed]);
    var res := RoundsFrom(s, choose, 0);
    assert res.Success? && |res.value.picked| == ROUNDS + 1 by {
      RoundsFromOutcome(s, choose, 0);
    }
    var t := res.value;
    assert t.picked[0] == seed && forall j :: 1 <= j < |t.picked| ==> t.picked[j].Some? by {
      RoundsFromExtends(s, choose, 0);
      assert t.picked[..1] == [seed];
    }
    assert multiset(Present(t.picked[1..])) + multiset(t.pool) == multiset(pool) by {
      RoundsFromConservation(s, choose, 0);
    }
  }

  /** The recipes are sorted by `lastCooked`, most recent first, as the query returns them. */
  ghost predicate SortedByLastCookedDesc(rs: seq<Recipe>)
  {
    forall i, j :: 0 <= i < j < |rs| ==> rs[i].lastCooked >= rs[j].lastCooked
  }

  lemma {:induction false} SubsequenceKeepsSorted(a: seq<Recipe>, b: seq<Recipe>)
    requires IsSubsequence(a, b) && SortedByLastCookedDesc(b)
    ensures SortedByLastCookedDesc(a)
    decreases |b|
  {
    if a != [] && b != [] {
      if a[0] == b[0] && IsSubsequence(a[1..], b[1..]) {
        SubsequenceKeepsSorted(a[1..], b[1..]);
        SubsequenceMembers(a[1..], b[1..]);
        forall j | 1 <= j < |a|
          ensures a[0].lastCooked >= a[j].lastCooked
        {
          assert a[1..][j - 1] in b[1..];
        }
      } else {
        SubsequenceKeepsSorted(a, b[1..]);
      }
    }
  }

  /**
   * Although the source calls the tie set "LRU", on the query's descending order the seed is a
   * MOST recently cooked eligible recipe.
   */
  lemma SeedIsMostRecent(recipesDoc: seq<Recipe>, lastWeeksNames: Option<seq<string>>, randIndex: int)
    requires SortedByLastCookedDesc(recipesDoc)
    requires EligiblePool(recipesDoc, lastWeeksNames) != []
    ensures var pool := EligiblePool(recipesDoc, lastWeeksNames);
      var seed := Seed(pool, randIndex);
      seed.Some? ==> forall j :: 0 <= j < |recipesDoc| && IsEligible(recipesDoc[j], lastWeeksNames) ==>
        recipesDoc[j].lastCooked <= seed.value.lastCooked
  {
    var pool := EligiblePool(recipesDoc, lastWeeksNames);
    SubsequenceKeepsSorted(pool, recipesDoc);
    forall j | 0 <= j < |recipesDoc| && IsEligible(recipesDoc[j], lastWeeksNames)
      ensures recipesDoc[j].lastCooked <= pool[0].lastCooked
    {
      var p :| 0 <= p < |pool| && pool[p] == recipesDoc[j];
    }
  }

  lemma {:induction false} UniformRounds(s: State, choose: Chooser, i: nat, r: Recipe)
    requires ValidChooser(choose) && i <= ROUNDS
    requires |s.pool| >= ROUNDS - i
    requires forall j :: 0 <= j < |s.pool| ==> s.pool[j] == r
    requires forall j :: 0 <= j < |s.picked| ==> s.picked[j] == Some(r)
    ensures RoundsFrom(s, choose, i).Success?
    ensures var t := RoundsFrom(s, choose, i).value;
      |t.picked| == |s.picked| + (ROUNDS - i) &&
      forall j :: 0 <= j < |t.picked| ==> t.picked[j] == Some(r)
    decreases ROUNDS - i
  {
    if i < ROUNDS {
      var next := Round(s, choose);
      var k := choose(s);
      assert next.pool == s.pool[..k] + s.pool[k + 1..];
      assert next.picked == s.picked + [Some(s.pool[k])];
      UniformRounds(next, choose, i + 1, r);
    }
  }

  /**
   * The seed stays in the pool, so it can be picked again: six copies of one entrée yield a
   * menu of seven entries, all of them that recipe.
   */
  lemma SeedCanBePickedAgain(r: Recipe)
    requires IsEligible(r, None)
    ensures var menu := WeeklySelection(seq(ROUNDS, _ => r), None, 0);
      menu.Success? && |menu.value| == ROUNDS + 1 &&
      forall j :: 0 <= j < |menu.value| ==> menu.value[j] == Some(r)
  {
    var doc := seq(ROUNDS, _ => r);
    var keep := (x: Recipe) => IsEligible(x, None);
    FilterAll(keep, doc);
    var pool := EligiblePool(doc, None);
    assert pool == doc;
    var seed := Seed(pool, 0);
    assert seed == Some(r);
    UniformRun(pool, r, FirstMinChooser(ScorerFor(SeedIngredients(seed))));
  }

  /** Rounds over a pool of copies of one recipe, seeded with that recipe, pick it every time. */
  lemma UniformRun(pool: seq<Recipe>, r: Recipe, choose: Chooser)
    requires ValidChooser(choose) && |pool| >= ROUNDS
    requires forall j :: 0 <= j < |pool| ==> pool[j] == r
    ensures var res := RoundsFrom(State(pool, [Some(r)]), choose, 0);
      res.Success? && |res.value.picked| == ROUNDS + 1 &&
      forall j :: 0 <= j < |res.value.picked| ==> res.value.picked[j] == Some(r)
  {
    UniformRounds(State(pool, [Some(r)]), choose, 0, r);
  }

  /** The counting loop of `ingredientScore` and of `tagScore`: how many of `xs` occur in `ys`. */
  method CountShared(xs: seq<string>, ys: seq<string>) returns (n: nat)
    ensures n == Overlap(xs, ys)
  {
    n := 0;
    for j := 0 to |xs|
      invariant n == Overlap(xs[..j], ys)
    {
      assert xs[..j + 1][..j] == xs[..j];
      if xs[j] in ys {
        n := n + 1;
      }
    }
    assert xs[..|xs|] == xs;
  }

  /** `ingredientScore`, `dateScore` and `tagScore` of one candidate, counted as the source does. */
  method ScoreRecipe(recipe: Recipe, pickedRecipes: seq<Option<Recipe>>, currentIngredients: seq<string>)
    returns (score: real)
    requires |pickedRecipes| > 0
    ensures score == Score(recipe, pickedRecipes, currentIngredients)
  {
    var ingredients := ProportionsToIngredientList(recipe.proportions);
    var ingredientScore := CountShared(ingredients, currentIngredients);

    var reference := if pickedRecipes[0].Some? then pickedRecipes[0].value.lastCooked else 0;
    var dateScore := (recipe.lastCooked - reference) as real / 86400000.0;

    var combined := CombineTags(pickedRecipes);
    var tagScore := CountShared(recipe.tags, combined);

    score := ingredientScore as real * 0.4 + dateScore * 0.4 + tagScore as real * 0.2;
  }

  /** Scores given recipe by recipe are the scores of the pool under the run's scorer. */
  lemma ScoresMatch(recipes: seq<Recipe>, picked: seq<Option<Recipe>>, current: seq<string>, scores: seq<real>)
    requires |scores| == |recipes|
    requires forall j :: 0 <= j < |recipes| ==> scores[j] == Score(recipes[j], picked, current)
    ensures scores == Scores(recipes, picked, ScorerFor(current))
  {
  }

  /** One more score, given for the next recipe, keeps the scores matching the recipes so far. */
  lemma ScoresExtend(recipes: seq<Recipe>, picked: seq<Option<Recipe>>, current: seq<string>, scores: seq<real>, score: real)
    requires |scores| < |recipes|
    requires forall j :: 0 <= j < |scores| ==> scores[j] == Score(recipes[j], picked, current)
    requires score == Score(recipes[|scores|], picked, current)
    ensures forall j :: 0 <= j < |scores| + 1 ==> (scores + [score])[j] == Score(recipes[j], picked, current)
  {
    forall j | 0 <= j < |scores| + 1
      ensures (scores + [score])[j] == Score(recipes[j], picked, current)
    {
      if j < |scores| {
        assert (scores + [score])[j] == scores[j];
      }
    }
  }

  /** `recipes.map(...)`: the scores of the whole pool, by index. */
  method ScorePool(recipes: seq<Recipe>, pickedRecipes: seq<Option<Recipe>>, currentIngredients: seq<string>)
    returns (scores: seq<real>)
    requires |pickedRecipes| > 0
    ensures |scores| == |recipes|
    ensures forall j :: 0 <= j < |recipes| ==> scores[j] == Score(recipes[j], pickedRecipes, currentIngredients)
  {
    scores := [];
    for index := 0 to |recipes|
      invariant |scores| == index
      invariant forall j :: 0 <= j < index ==> scores[j] == Score(recipes[j], pickedRecipes, currentIngredients)
    {
      var score := ScoreRecipe(recipes[index], pickedRecipes, currentIngredients);
      ScoresExtend(recipes, pickedRecipes, currentIngredients, scores, score);
      scores := scores + [score];
    }
  }

  /** The index `scores[0][1]` after the stable sort: the first index of a lowest score. */
  method FirstMinIndex(scores: seq<real>) returns (k: nat)
    requires |scores| > 0
    ensures IsFirstMin(scores, k)
  {
    k := 0;
    var i := 1;
    while i < |scores|
      invariant 1 <= i <= |scores|
      invariant IsFirstMin(scores[..i], k)
    {
      if scores[i] < scores[k] {
        k := i;
      }
      i := i + 1;
    }
    assert scores[..|scores|] == scores;
  }

  /** The index the scan finds is the one `Round` picks, so one pass of the loop is one `Round`. */
  lemma RoundAt(recipes: seq<Recipe>, picked: seq<Option<Recipe>>, scorer: Scorer, index: nat)
    requires index < |recipes|
    requires IsFirstMin(Scores(recipes, picked, scorer), index)
    ensures Round(State(recipes, picked), FirstMinChooser(scorer)) == State(RemoveAt(recipes, index), picked + [Some(recipes[index])])
  {
    IsFirstMinUnique(Scores(recipes, picked, scorer), index, FirstMinChooser(scorer)(State(recipes, picked)));
  }

  /**
   * The `for` loop of `weeklyRecipeUpdate`: six rounds of scoring the pool, pushing the first
   * lowest-scoring recipe and splicing it out; it throws once the pool runs dry.
   */
  method PickRounds(pool: seq<Recipe>, menu: seq<Option<Recipe>>, currentIngredients: seq<string>)
    returns (res: Result<State, SelectionError>)
    requires |menu| > 0
    ensures res == RoundsFrom(State(pool, menu), FirstMinChooser(ScorerFor(currentIngredients)), 0)
  {
    ghost var choose := FirstMinChooser(ScorerFor(currentIngredients));
    var recipes, pickedRecipes := pool, menu;
    for i := 0 to ROUNDS
      invariant |pickedRecipes| > 0
      invariant RoundsFrom(State(recipes, pickedRecipes), choose, i) == RoundsFrom(State(pool, menu), choose, 0)
    {
      if |recipes| == 0 {
        return Failure(PoolExhausted(i));
      }
      var scores := ScorePool(recipes, pickedRecipes, currentIngredients);
      ScoresMatch(recipes, pickedRecipes, currentIngredients, scores);
      var index := FirstMinIndex(scores);
      RoundAt(recipes, pickedRecipes, ScorerFor(currentIngredients), index);
      pickedRecipes := pickedRecipes + [Some(recipes[index])];
      recipes := recipes[..index] + recipes[index + 1..];
    }
    res := Success(State(recipes, pickedRecipes));
  }

  /** The body of `weeklyRecipeUpdate` between its Firestore read and its write. */
  method WeeklyRecipeUpdate(recipesDoc: seq<Recipe>, lastWeeksRecipesNames: Option<seq<string>>, randIndex: int)
    returns (res: Result<seq<Option<Recipe>>, SelectionError>)
    ensures res == WeeklySelection(recipesDoc, lastWeeksRecipesNames, randIndex)
    ensures res.Success? <==> |EligiblePool(recipesDoc, lastWeeksRecipesNames)| >= ROUNDS
    ensures res.Success? ==> |res.value| == ROUNDS + 1
  {
    WeeklySelectionOutcome(recipesDoc, lastWeeksRecipesNames, randIndex);
    var recipes := EligiblePool(recipesDoc, lastWeeksRecipesNames);
    if |recipes| == 0 {
      return Failure(EmptyPool);
    }
    var lruRecipes := TieSet(recipes);
    var seed := At(lruRecipes, randIndex);
    var currentIngredients := ProportionsToIngredientList(if seed.Some? then seed.value.proportions else None);
    var run := PickRounds(recipes, [seed], currentIngredients);
    match run {
      case Success(final) => res := Success(final.picked);
      case Failure(e) => res := Failure(e);
    }
  }
}
