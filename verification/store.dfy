/**
 The recipes file and the two request handlers that use it. The file is reduced to its
 three observable states; every request loads the whole list, and the add handler writes
 the whole list back.
 */
module Store {
  import opened Results
  import opened Recipes

  /** The recipes file: absent, present but not a readable recipe list, or holding a list. */
  datatype File = Missing | Unreadable | Saved(recipes: seq<Recipe>)

  datatype StoreError = ReadError

  /** Loading: a missing file is an empty list, an unreadable one an error. */
  function Load(file: File): (r: Result<seq<Recipe>, StoreError>)
    ensures r.Failure? <==> file.Unreadable?
    ensures file.Missing? ==> r == Success([])
  {
    match file
    case Missing => Success([])
    case Unreadable => Failure(ReadError)
    case Saved(recipes) => Success(recipes)
  }

  /** Saving replaces the whole file with the given list. */
  function Save(recipes: seq<Recipe>): (f: File)
    ensures Load(f) == Success(recipes)
  {
    Saved(recipes)
  }

  /** GET / : the recipes the home page lists for the given search text. */
  function Home(file: File, search: string): (r: Result<seq<Recipe>, StoreError>)
    ensures r.Failure? <==> file.Unreadable?
    ensures r.Success? ==> IsSubsequence(r.value, Load(file).value)
    ensures search == [] ==> r == Load(file)
  {
    match Load(file)
    case Failure(e) => Failure(e)
    case Success(recipes) => Success(Search(recipes, search))
  }

  /** POST /add : load, append the recipe built from the form, save the whole list. */
  function AddRecipe(file: File, form: RecipeForm): (r: Result<File, StoreError>)
    ensures r.Failure? <==> file.Unreadable?
    ensures r.Success? ==> r.value.Saved? && |r.value.recipes| == |Load(file).value| + 1
    ensures r.Success? ==> Load(r.value) == Success(Add(Load(file).value, form))
  {
    match Load(file)
    case Failure(e) => Failure(e)
    case Success(recipes) => Success(Save(Add(recipes, form)))
  }

  /** With no recipes file yet, an add creates a file whose full listing is the one new recipe. */
  lemma AddToMissingFile(form: RecipeForm)
    ensures AddRecipe(Missing, form).Success?
    ensures Home(AddRecipe(Missing, form).value, "") == Success([NewRecipe(form)])
  {
  }

  /** After a successful add, the home page lists what it listed before, followed by the
      new recipe when its name matches the search. */
  lemma HomeAfterAdd(file: File, form: RecipeForm, search: string)
    requires !file.Unreadable?
    ensures AddRecipe(file, form).Success?
    ensures Home(AddRecipe(file, form).value, search)
            == Success(Home(file, search).value
                       + (if Matches(search, form.name) then [NewRecipe(form)] else []))
  {
    SearchAfterAdd(Load(file).value, form, search);
  }
}
