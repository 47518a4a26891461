/** Concrete instances of the behaviour of the add-recipe and home handlers. */
module Scenarios {
  import opened Results
  import opened Text
  import Ingredients
  import opened Recipes
  import opened Store

  lemma SampleLinesBreakFree()
    ensures BreakFree("flour=2 cups") && BreakFree("sugar = 1 cup") && BreakFree("badline")
  {
  }

  lemma StepLinesBreakFree()
    ensures BreakFree("Preheat oven") && BreakFree("Mix batter")
    ensures BreakFree("Mix") && BreakFree("Cook") && BreakFree("")
  {
  }

  lemma PancakeLinesBreakFree()
    ensures BreakFree("flour=1 cup") && BreakFree("milk=1 cup")
  {
  }

  /** Only the first '=' separates: the quantity keeps the second one. */
  lemma QuantityMayContainSeparator()
    ensures Ingredients.ParseLine("a = b=c ") == Some(("a", "b=c"))
  {
    Ingredients.ParseLinePadded("a = b=c ", "a", "b=c", "", " ", " ", " ");
  }

  lemma ParseFlourTwoCups()
    ensures Ingredients.ParseLine("flour=2 cups") == Some(("flour", "2 cups"))
  {
    Ingredients.ParseLinePadded("flour=2 cups", "flour", "2 cups", "", "", "", "");
  }

  lemma ParseSugar()
    ensures Ingredients.ParseLine("sugar = 1 cup") == Some(("sugar", "1 cup"))
  {
    Ingredients.ParseLinePadded("sugar = 1 cup", "sugar", "1 cup", "", " ", " ", "");
  }

  lemma ParseFlourOneCup()
    ensures Ingredients.ParseLine("flour=1 cup") == Some(("flour", "1 cup"))
  {
    Ingredients.ParseLinePadded("flour=1 cup", "flour", "1 cup", "", "", "", "");
  }

  lemma ParseMilk()
    ensures Ingredients.ParseLine("milk=1 cup") == Some(("milk", "1 cup"))
  {
    Ingredients.ParseLinePadded("milk=1 cup", "milk", "1 cup", "", "", "", "");
  }

  lemma ParseSpacedFlour()
    ensures Ingredients.ParseLine("flour = 2 cups") == Some(("flour", "2 cups"))
  {
    Ingredients.ParseLinePadded("flour = 2 cups", "flour", "2 cups", "", " ", " ", "");
  }

  /** Three lines, each followed by the terminator t. */
  lemma ThreeLines(s: string, a: string, b: string, c: string, t: string)
    requires Terminator(t) && BreakFree(a) && BreakFree(b) && BreakFree(c)
    requires s == a + t + (b + t + (c + t))
    ensures SplitLines(s) == [a, b, c]
  {
    var lines := [a, b, c];
    assert lines[1..] == [b, c] && [b, c][1..] == [c] && [c][1..] == [];
    assert c + t + [] == c + t;
    assert JoinLines([c], t) == c + t;
    assert JoinLines([b, c], t) == b + t + (c + t);
    assert JoinLines(lines, t) == a + t + (b + t + (c + t));
    SplitJoinLines(lines, t);
  }

  /** Two lines, each followed by the terminator t. */
  lemma TwoTerminatedLines(s: string, a: string, b: string, t: string)
    requires Terminator(t) && BreakFree(a) && BreakFree(b)
    requires s == a + t + (b + t)
    ensures SplitLines(s) == [a, b]
  {
    var lines := [a, b];
    assert lines[1..] == [b] && [b][1..] == [];
    assert b + t + [] == b + t;
    assert JoinLines([b], t) == b + t;
    assert JoinLines(lines, t) == a + t + (b + t);
    SplitJoinLines(lines, t);
  }

  lemma SampleIngredientText()
    ensures "flour=2 cups\nsugar = 1 cup\nbadline\n" == "flour=2 cups" + "\n" + ("sugar = 1 cup" + "\n" + ("badline" + "\n"))
  {
  }

  lemma SampleIngredientLines()
    ensures SplitLines("flour=2 cups\nsugar = 1 cup\nbadline\n") == ["flour=2 cups", "sugar = 1 cup", "badline"]
  {
    SampleLinesBreakFree();
    SampleIngredientText();
    ThreeLines("flour=2 cups\nsugar = 1 cup\nbadline\n", "flour=2 cups", "sugar = 1 cup", "badline", "\n");
  }

  lemma BadlineHasNoSeparator()
    ensures '=' !in "badline"
  {
  }

  /** Two assignments and a line without '=': the dictionary holds the two assignments. */
  lemma TwoAssignmentsAndNoise(l0: string, l1: string, l2: string, k0: string, v0: string, k1: string, v1: string)
    requires Ingredients.ParseLine(l0) == Some((k0, v0))
    requires Ingredients.ParseLine(l1) == Some((k1, v1))
    requires '=' !in l2
    ensures Ingredients.FromLines([l0, l1, l2]) == map[k0 := v0, k1 := v1]
  {
    TwoAssignments(l0, l1, k0, v0, k1, v1);
    Ingredients.FromLinesSnoc([l0, l1], l2);
    assert [l0, l1] + [l2] == [l0, l1, l2];
  }

  lemma SampleIngredientMap()
    ensures Ingredients.FromLines(["flour=2 cups", "sugar = 1 cup", "badline"])
            == map["flour" := "2 cups", "sugar" := "1 cup"]
  {
    ParseFlourTwoCups();
    ParseSugar();
    BadlineHasNoSeparator();
    TwoAssignmentsAndNoise("flour=2 cups", "sugar = 1 cup", "badline", "flour", "2 cups", "sugar", "1 cup");
  }

  /** Two well-formed lines are parsed and stripped; the line without '=' is dropped. */
  lemma IngredientsSample()
    ensures Ingredients.Parse("flour=2 cups\nsugar = 1 cup\nbadline\n")
            == map["flour" := "2 cups", "sugar" := "1 cup"]
  {
    SampleIngredientLines();
    SampleIngredientMap();
  }

  /** A later line for the same ingredient replaces the earlier quantity. */
  lemma LaterLineOverwrites()
    ensures var m := Ingredients.FromLines(["flour=1 cup", "milk=1 cup", "flour = 2 cups"]);
            "flour" in m && m["flour"] == "2 cups"
  {
    var lines := ["flour=1 cup", "milk=1 cup", "flour = 2 cups"];
    ParseMilk();
    ParseSpacedFlour();
    assert Ingredients.LastDefinition(lines, 2, "flour");
    Ingredients.LastDefinitionWins(lines, 2, "flour");
  }

  /** One step per line, in order; a final newline opens no empty step. */
  lemma StepsSample()
    ensures SplitLines("Preheat oven\nMix batter\n") == ["Preheat oven", "Mix batter"]
  {
    StepLinesBreakFree();
    TwoTerminatedLines("Preheat oven\nMix batter\n", "Preheat oven", "Mix batter", "\n");
  }

  /** A blank line in the steps box is kept as an empty step, also with "\r\n" line ends. */
  lemma BlankStepKept()
    ensures SplitLines("Mix\r\n\r\nCook\r\n") == ["Mix", "", "Cook"]
  {
    StepLinesBreakFree();
    ThreeLines("Mix\r\n\r\nCook\r\n", "Mix", "", "Cook", "\r\n");
  }

  /** "cake" and "CAKE" find the same recipes. */
  lemma CakeQueriesAgree(recipes: seq<Recipe>)
    ensures Search(recipes, "cake") == Search(recipes, "CAKE")
  {
    assert Lower("CAKE") == "cake";
    assert Lower("cake") == "cake";
    SearchCaseInsensitive(recipes, "cake", "CAKE");
  }

  /** Two assignments: the dictionary holds both. */
  lemma TwoAssignments(l0: string, l1: string, k0: string, v0: string, k1: string, v1: string)
    requires Ingredients.ParseLine(l0) == Some((k0, v0))
    requires Ingredients.ParseLine(l1) == Some((k1, v1))
    ensures Ingredients.FromLines([l0, l1]) == map[k0 := v0, k1 := v1]
  {
    assert [l0, l1][..1] == [l0] && [l0][..0] == [];
    assert Ingredients.FromLines([l0]) == map[k0 := v0];
  }

  /** Two lines separated by one terminator t, without a final one. */
  lemma TwoLines(a: string, b: string, t: string)
    requires BreakFree(a) && BreakFree(b) && b != [] && Terminator(t)
    ensures SplitLines(a + t + b) == [a, b]
  {
    SplitLinesStep(a, t, b);
    SplitLinesSingle(b);
  }

  lemma PancakeTexts()
    ensures "flour=1 cup" + "\n" + "milk=1 cup" == "flour=1 cup\nmilk=1 cup"
    ensures "Mix" + "\n" + "Cook" == "Mix\nCook"
    ensures "Mix" + "\r\n" + "Cook" == "Mix\r\nCook"
  {
  }

  lemma PancakeIngredientLines()
    ensures SplitLines("flour=1 cup\nmilk=1 cup") == ["flour=1 cup", "milk=1 cup"]
  {
    PancakeLinesBreakFree();
    PancakeTexts();
    TwoLines("flour=1 cup", "milk=1 cup", "\n");
  }

  lemma PancakeIngredients()
    ensures Ingredients.Parse("flour=1 cup\nmilk=1 cup") == map["flour" := "1 cup", "milk" := "1 cup"]
  {
    PancakeIngredientLines();
    ParseFlourOneCup();
    ParseMilk();
    TwoAssignments("flour=1 cup", "milk=1 cup", "flour", "1 cup", "milk", "1 cup");
  }

  lemma PancakeSteps()
    ensures SplitLines("Mix\nCook") == ["Mix", "Cook"]
  {
    StepLinesBreakFree();
    PancakeTexts();
    TwoLines("Mix", "Cook", "\n");
  }

  /** A browser submits the steps box with "\r\n" line ends and no final one: still one step per line. */
  lemma BrowserSteps()
    ensures SplitLines("Mix\r\nCook") == ["Mix", "Cook"]
  {
    StepLinesBreakFree();
    PancakeTexts();
    TwoLines("Mix", "Cook", "\r\n");
  }

  /** Starting without a recipes file, adding pancakes makes the home page list exactly them. */
  lemma PancakesScenario()
    ensures var form := RecipeForm("Pancakes", "flour=1 cup\nmilk=1 cup", "Mix\nCook", "20 min");
            && AddRecipe(Missing, form).Success?
            && Home(AddRecipe(Missing, form).value, "")
               == Success([Recipe("Pancakes", map["flour" := "1 cup", "milk" := "1 cup"], ["Mix", "Cook"], "20 min")])
  {
    var form := RecipeForm("Pancakes", "flour=1 cup\nmilk=1 cup", "Mix\nCook", "20 min");
    PancakeIngredients();
    PancakeSteps();
    AddToMissingFile(form);
  }
}
