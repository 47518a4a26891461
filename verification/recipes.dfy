/**
 Recipes and the two operations on the recipe list: the home page's name search and
 the add-recipe handler's append.
 */
module Recipes {
  import opened Text
  import Ingredients

  /** One stored recipe, as the recipes file holds it. */
  datatype Recipe = Recipe(name: string, ingredients: map<string, string>, steps: seq<string>, time: string)

  /** The four fields of the add-recipe form, as submitted. */
  datatype RecipeForm = RecipeForm(name: string, ingredients: string, steps: string, time: string)

  /** a is b with some elements left out, the rest kept in order. */
  ghost predicate IsSubsequence<T>(a: seq<T>, b: seq<T>)
    decreases |b|
  {
    || a == []
    || (&& b != []
        && ((a[0] == b[0] && IsSubsequence(a[1..], b[1..])) || IsSubsequence(a, b[1..])))
  }

  /** Every sequence is a subsequence of itself. */
  lemma {:induction false} SubsequenceReflexive<T>(s: seq<T>)
    ensures IsSubsequence(s, s)
    decreases |s|
  {
    if s != [] {
      SubsequenceReflexive(s[1..]);
    }
  }

  /* ------------------------------------------------------------------ add */

  /** The record the add-recipe handler builds from the form: name and time verbatim,
      the parsed ingredients box, one step per line of the steps box. */
  function NewRecipe(form: RecipeForm): (r: Recipe)
    ensures r.name == form.name && r.time == form.time
    ensures r.steps == [] <==> form.steps == []
    ensures forall k :: 0 <= k < |r.steps| ==> BreakFree(r.steps[k])
    ensures form.ingredients == [] ==> r.ingredients == map[]
  {
    Recipe(form.name, Ingredients.Parse(form.ingredients), SplitLines(form.steps), form.time)
  }

  /** The add-recipe handler's update of the list: the recipes already stored stay as they
      are, and the recipe built from the form comes last. */
  function Add(recipes: seq<Recipe>, form: RecipeForm): (r: seq<Recipe>)
    ensures |r| == |recipes| + 1
    ensures r[..|recipes|] == recipes
    ensures r[|recipes|].name == form.name && r[|recipes|].time == form.time
    ensures r[|recipes|].ingredients == Ingredients.Parse(form.ingredients)
    ensures r[|recipes|].steps == SplitLines(form.steps)
  {
    recipes + [NewRecipe(form)]
  }

  /** Every line of the steps box becomes one step, in order, with blank lines and
      surrounding spaces kept, whichever line terminators the box was submitted with and
      whether or not its last line is terminated. */
  lemma StepsAreLines(form: RecipeForm, lines: seq<string>, ts: seq<string>)
    requires WellTerminated(lines, ts)
    requires form.steps == JoinEach(lines, ts)
    ensures NewRecipe(form).steps == lines
  {
    SplitJoinEach(lines, ts);
  }

  /** Nothing of the steps text is lost: for text with "\n" boundaries, the steps joined
      with "\n" give back the text (with a final "\n" added if it had none). */
  lemma StepsKeepText(form: RecipeForm)
    requires OnlyNewlines(form.steps)
    ensures JoinLines(NewRecipe(form).steps, "\n") == Terminated(form.steps)
  {
    JoinSplitLines(form.steps);
  }

  /* --------------------------------------------------------------- search */

  /** The home page's test: the lower-cased query is a substring of the lower-cased name. */
  predicate Matches(query: string, name: string): (b: bool)
    ensures query == [] ==> b
    ensures b ==> |query| <= |name|
  {
    Contains(Lower(query), Lower(name))
  }

  /** The list comprehension of the home page: the recipes whose name matches, in order. */
  function Filter(recipes: seq<Recipe>, query: string): (r: seq<Recipe>)
    ensures forall x :: x in r <==> x in recipes && Matches(query, x.name)
  {
    if recipes == [] then []
    else (if Matches(query, recipes[0].name) then [recipes[0]] else []) + Filter(recipes[1..], query)
  }

  /** The filter keeps the matching recipes in their original order and invents nothing. */
  lemma {:induction false} FilterIsSubsequence(recipes: seq<Recipe>, query: string)
    ensures IsSubsequence(Filter(recipes, query), recipes)
  {
    if recipes != [] {
      FilterIsSubsequence(recipes[1..], query);
      var rest := Filter(recipes[1..], query);
      if Matches(query, recipes[0].name) {
        var r := [recipes[0]] + rest;
        assert r[0] == recipes[0] && r[1..] == rest;
      } else {
        assert Filter(recipes, query) == rest;
      }
    }
  }

  /** Filtering a concatenation filters each part. */
  lemma {:induction false} FilterAppend(a: seq<Recipe>, b: seq<Recipe>, query: string)
    ensures Filter(a + b, query) == Filter(a, query) + Filter(b, query)
  {
    if a == [] {
      assert a + b == b;
    } else {
      assert (a + b)[0] == a[0] && (a + b)[1..] == a[1..] + b;
      FilterAppend(a[1..], b, query);
    }
  }

  /** GET / : with an empty query the whole list, otherwise the matching recipes. */
  function Search(recipes: seq<Recipe>, query: string): (r: seq<Recipe>)
    ensures query == [] ==> r == recipes
    ensures IsSubsequence(r, recipes)
    ensures forall x :: x in r <==> x in recipes && Matches(query, x.name)
  {
    FilterIsSubsequence(recipes, query);
    SubsequenceReflexive(recipes);
    if query == [] then recipes else Filter(recipes, query)
  }

  /** The empty-query guard changes nothing observable: the empty string is in every name. */
  lemma {:induction false} EmptyQueryGuardRedundant(recipes: seq<Recipe>, query: string)
    ensures Search(recipes, query) == Filter(recipes, query)
  {
    if query == [] && recipes != [] {
      assert Matches(query, recipes[0].name);
      EmptyQueryGuardRedundant(recipes[1..], query);
      assert recipes == [recipes[0]] + recipes[1..];
    }
  }

  /** Search distributes over concatenation ... */
  lemma SearchAppend(a: seq<Recipe>, b: seq<Recipe>, query: string)
    ensures Search(a + b, query) == Search(a, query) + Search(b, query)
  {
    EmptyQueryGuardRedundant(a + b, query);
    EmptyQueryGuardRedundant(a, query);
    EmptyQueryGuardRedundant(b, query);
    FilterAppend(a, b, query);
  }

  /** ... and keeps a single recipe exactly when its name matches; with SearchAppend this
      determines the result completely. */
  lemma SearchSingle(x: Recipe, query: string)
    ensures Search([x], query) == if Matches(query, x.name) then [x] else []
  {
    EmptyQueryGuardRedundant([x], query);
    assert [x][1..] == [];
  }

  /** Every copy of a matching recipe is kept, and no copy of another one. */
  lemma {:induction false} SearchKeepsCopies(recipes: seq<Recipe>, query: string, x: Recipe)
    ensures multiset(Search(recipes, query))[x]
            == if Matches(query, x.name) then multiset(recipes)[x] else 0
  {
    EmptyQueryGuardRedundant(recipes, query);
    if recipes != [] {
      SearchKeepsCopies(recipes[1..], query, x);
      EmptyQueryGuardRedundant(recipes[1..], query);
      assert recipes == [recipes[0]] + recipes[1..];
    }
  }

  /** A recipe is found exactly when the lower-cased query occurs at some position of
      its lower-cased name. */
  lemma SearchFindsOccurrences(recipes: seq<Recipe>, query: string, x: Recipe)
    ensures x in Search(recipes, query)
            <==> x in recipes && exists i: nat :: OccursAt(Lower(query), Lower(x.name), i)
  {
    ContainsIffOccurs(Lower(query), Lower(x.name));
  }

  /** Filtering depends on the query only through its lower-cased form. */
  lemma {:induction false} FilterCaseInsensitive(recipes: seq<Recipe>, q1: string, q2: string)
    requires Lower(q1) == Lower(q2)
    ensures Filter(recipes, q1) == Filter(recipes, q2)
  {
    if recipes != [] {
      FilterCaseInsensitive(recipes[1..], q1, q2);
    }
  }

  /** Queries that differ only in letter case find the same recipes. */
  lemma SearchCaseInsensitive(recipes: seq<Recipe>, q1: string, q2: string)
    requires Lower(q1) == Lower(q2)
    ensures Search(recipes, q1) == Search(recipes, q2)
  {
    EmptyQueryGuardRedundant(recipes, q1);
    EmptyQueryGuardRedundant(recipes, q2);
    FilterCaseInsensitive(recipes, q1, q2);
  }

  /** Filtering twice with the same query is filtering once. */
  lemma {:induction false} FilterIdempotent(recipes: seq<Recipe>, query: string)
    ensures Filter(Filter(recipes, query), query) == Filter(recipes, query)
  {
    if recipes != [] {
      FilterIdempotent(recipes[1..], query);
      var rest := Filter(recipes[1..], query);
      if Matches(query, recipes[0].name) {
        var r := [recipes[0]] + rest;
        assert Filter(recipes, query) == r;
        assert r[0] == recipes[0] && r[1..] == rest;
        assert Filter(r, query) == [recipes[0]] + Filter(rest, query);
      } else {
        assert Filter(recipes, query) == rest;
      }
    }
  }

  /** Searching the result again with the same query changes nothing. */
  lemma SearchIdempotent(recipes: seq<Recipe>, query: string)
    ensures Search(Search(recipes, query), query) == Search(recipes, query)
  {
    EmptyQueryGuardRedundant(recipes, query);
    EmptyQueryGuardRedundant(Search(recipes, query), query);
    FilterIdempotent(recipes, query);
  }

  /** After an add, a search finds what it found before, then the new recipe if its name matches. */
  lemma SearchAfterAdd(recipes: seq<Recipe>, form: RecipeForm, query: string)
    ensures Search(Add(recipes, form), query)
            == Search(recipes, query) + (if Matches(query, form.name) then [NewRecipe(form)] else [])
  {
    SearchAppend(recipes, [NewRecipe(form)], query);
    SearchSingle(NewRecipe(form), query);
  }
}
