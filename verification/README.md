# CookBook: a verified model of the recipe logic

CookBookAssistant is a small Flask application that keeps cooking recipes in one JSON
file. Its home page lists the recipes and can filter them by name. Its add page takes a
name, an ingredients box, a steps box and a cooking time, and appends a new recipe.

This project models the data logic inside those two request handlers as pure Dafny
functions and proves what that logic promises:

- **Ingredients parser** (`Ingredients`). The ingredients box is split into lines. Lines
  without `=` are dropped. Every other line is cut at its first `=`, both halves are
  stripped of whitespace, and the pair is stored in a dictionary. A later line for the
  same ingredient overwrites an earlier one.
- **Steps splitter**. The steps box is split into lines. Each line becomes one step, in
  order. Blank lines are kept and nothing is stripped.
- **Recipe list** (`Recipes`). Search keeps, in order, the recipes whose lower-cased
  name contains the lower-cased query; an empty query keeps everything. Add appends the
  record built from the form at the end of the list.
- **Recipes file and handlers** (`Store`). The file is missing, unreadable, or holds a
  list. `Home` is `GET /` and `AddRecipe` is `POST /add`, each over that file.

The Python string operations the handlers use are modelled in `Text`: `str.strip()`
(Python's full `str.isspace` set, the predicate `Text.IsSpace`), `str.lower()` (ASCII letters), the substring test `in`,
`str.split("=", 1)` and `str.splitlines()`. `splitlines` breaks on every boundary Python
recognises (the predicate `Text.IsLineBreak`): `\n`, `\r`, `\r\n`, `\v`, `\f`, `\x1c`, `\x1d`, `\x1e`, `\x85`, U+2028 and
U+2029. This matters because browsers submit text boxes with `\r\n` line ends.
`Scenarios` works through concrete examples of the home and add handlers' behaviour.

Files: `results.dfy` (Option, Result), `text.dfy`, `ingredients.dfy`, `recipes.dfy`,
`store.dfy`, `scenarios.dfy`.

## Model

| member | source | states |
|---|---|---|
| Text.Lower | CookBookAssistant.py:87 | `lower()` keeps the length, turns each ASCII capital into its lower-case letter (code point + 32) and keeps every other character |
| Text.LowerIdempotent | CookBookAssistant.py:87 | lowering an already lowered text changes nothing |
| Text.Strip | CookBookAssistant.py:99 | `strip()` returns a slice of its input with only whitespace cut away on both sides, and the result neither starts nor ends with whitespace |
| Text.StripPadded | CookBookAssistant.py:99 | `strip()` cuts away exactly the surrounding whitespace: a word with non-space ends, padded with whitespace only, strips to the word |
| Text.StripIdempotent | CookBookAssistant.py:99 | stripping a stripped text changes nothing |
| Text.Contains | CookBookAssistant.py:87 | the `in` test: the empty needle is in every text, and a needle longer than the text is never in it |
| Text.ContainsIffOccurs | CookBookAssistant.py:87 | the `in` test holds exactly when the needle occurs at some position of the text |
| Text.SplitOnce | CookBookAssistant.py:98 | `split("=", 1)` fails exactly when there is no `=`; otherwise the text is the part before, the `=`, and the part after, and the part before holds no `=` |
| Text.FindBreak | CookBookAssistant.py:94 | the first line boundary of a text; none exactly when the text has no boundary |
| Text.SplitLines | CookBookAssistant.py:94 | `splitlines()` gives no lines for the empty text, at least one otherwise, and no line contains a boundary |
| Text.SplitLinesStep | CookBookAssistant.py:94 | a boundary-free line followed by one boundary (`\r\n` counted once) splits off as one line |
| Text.SplitJoinLines | CookBookAssistant.py:100 | round trip: lines joined with any single boundary split back into exactly those lines, blank and space-padded ones included |
| Text.SplitJoinEach | CookBookAssistant.py:94-100 | round trip for any text box: boundary-free lines, each with its own terminator and the last possibly unterminated, split back into exactly those lines, unless a `\r`, an empty line and a `\n` fuse into one `\r\n` boundary |
| Text.JoinSplitLines | CookBookAssistant.py:100 | round trip the other way: for `\n`-separated text, the lines joined with `\n` rebuild the text, with a final `\n` added if it had none |
| Ingredients.ParseLine | CookBookAssistant.py:97-99 | a line yields a pair exactly when it contains `=` |
| Ingredients.ParseLineAtFirstSeparator | CookBookAssistant.py:97-99 | the pair is the stripped text before the first `=` and the stripped text after it, so the quantity may contain `=` |
| Ingredients.ParseLinePadded | CookBookAssistant.py:97-99 | a line `name = quantity` with whitespace around either part gives the bare name and quantity |
| Ingredients.FromLines | CookBookAssistant.py:95-99 | the dictionary the loop builds has at most one entry per line; its content is stated by the lemmas below |
| Ingredients.Parse | CookBookAssistant.py:94-99 | the dictionary built from the box text has at most one entry per line, and an empty box gives an empty dictionary |
| Ingredients.Assign | CookBookAssistant.py:96-99 | one loop turn: a line without `=` leaves the dictionary unchanged |
| Ingredients.FromLinesAppend | CookBookAssistant.py:95-99 | the dictionary of two batches of lines is the first batch's, overridden by the second batch's |
| Ingredients.LineWithoutSeparatorIgnored | CookBookAssistant.py:96-97 | a line without `=` contributes nothing, wherever it stands |
| Ingredients.KeysComeFromLines | CookBookAssistant.py:95-99 | every key of the dictionary comes from some line that assigns it |
| Ingredients.DefinedKeysPresent | CookBookAssistant.py:96-99 | every line with `=` puts its ingredient name in the dictionary |
| Ingredients.LastDefinitionWins | CookBookAssistant.py:96-99 | for each ingredient the dictionary holds the quantity of the last line naming it |
| Ingredients.ParseJoinedLines | CookBookAssistant.py:94-99 | parsing the box text is parsing its lines, whatever line terminators joined them and whether or not the last line is terminated |
| Recipes.NewRecipe | CookBookAssistant.py:101-106 | the new record keeps the form's name and time verbatim; it has no steps exactly when the steps box is empty, and no step holds a line boundary; an empty ingredients box gives no ingredients |
| Recipes.Add | CookBookAssistant.py:101-106 | the list grows by one; the first N recipes are unchanged; the last has the form's name and time verbatim, the parsed ingredients and the split steps |
| Recipes.StepsAreLines | CookBookAssistant.py:100 | every line of the steps box becomes one step, in order, with blank lines and spaces kept, for any mix of terminators and with or without a final one |
| Recipes.StepsKeepText | CookBookAssistant.py:100 | for a box whose only line boundary is `\n`, the steps joined with `\n` rebuild it, with a final `\n` added if it had none |
| Recipes.Matches | CookBookAssistant.py:87 | the name test: an empty query matches every name, and a query longer than the name matches none |
| Recipes.Filter | CookBookAssistant.py:87 | a recipe is kept exactly when it is in the list and its lowered name contains the lowered query |
| Recipes.FilterIsSubsequence | CookBookAssistant.py:87 | the filter's result is a subsequence of the list: order kept, nothing altered or invented |
| Recipes.Search | CookBookAssistant.py:85-87 | an empty query returns the list unchanged; the result is a subsequence of the list; a recipe is in it exactly when its name matches case-insensitively |
| Recipes.EmptyQueryGuardRedundant | CookBookAssistant.py:86-87 | skipping the filter for an empty query gives the same result as filtering |
| Recipes.SearchAppend | CookBookAssistant.py:87 | searching a concatenation searches each part |
| Recipes.SearchSingle | CookBookAssistant.py:87 | a one-recipe list keeps its recipe exactly when the name matches |
| Recipes.SearchKeepsCopies | CookBookAssistant.py:87 | every copy of a matching recipe is kept and no copy of another |
| Recipes.SearchFindsOccurrences | CookBookAssistant.py:87 | a recipe is found exactly when the lowered query occurs at some position of its lowered name |
| Recipes.SearchCaseInsensitive | CookBookAssistant.py:87 | queries with the same lower-case form find the same recipes |
| Recipes.SearchIdempotent | CookBookAssistant.py:87 | searching the result again with the same query changes nothing |
| Recipes.SearchAfterAdd | CookBookAssistant.py:85-106 | after an add, a search finds what it found before, then the new recipe if its name matches |
| Store.Load | CookBookAssistant.py:11-15 | a missing file loads as the empty list; only an unreadable file is an error |
| Store.Save | CookBookAssistant.py:18-20 | what is saved loads back as exactly the saved list |
| Store.Home | CookBookAssistant.py:83-88 | fails exactly on an unreadable file; lists a subsequence of the stored recipes; with an empty search lists all of them |
| Store.AddRecipe | CookBookAssistant.py:92-107 | fails exactly on an unreadable file; otherwise the saved list is the loaded list with the new recipe appended |
| Store.AddToMissingFile | CookBookAssistant.py:12-15 | with no file yet, an add leaves a file listing just the new recipe |
| Store.HomeAfterAdd | CookBookAssistant.py:84-107 | after an add the home page lists what it listed before, then the new recipe if its name matches |
| Scenarios.QuantityMayContainSeparator | CookBookAssistant.py:98-99 | `a = b=c ` parses to name `a`, quantity `b=c` |
| Scenarios.IngredientsSample | CookBookAssistant.py:94-99 | `flour=2 cups`, `sugar = 1 cup`, `badline` give exactly {flour: 2 cups, sugar: 1 cup} |
| Scenarios.LaterLineOverwrites | CookBookAssistant.py:96-99 | a second `flour` line replaces the first quantity |
| Scenarios.StepsSample | CookBookAssistant.py:100 | `Preheat oven\nMix batter\n` gives two steps, no empty third one |
| Scenarios.BrowserSteps | CookBookAssistant.py:100 | `Mix\r\nCook`, as a browser submits it, gives the two steps `Mix` and `Cook` |
| Scenarios.BlankStepKept | CookBookAssistant.py:100 | with `\r\n` line ends, a blank line becomes an empty step |
| Scenarios.CakeQueriesAgree | CookBookAssistant.py:87 | `cake` and `CAKE` find the same recipes |
| Scenarios.PancakesScenario | CookBookAssistant.py:84-107 | from no file, adding Pancakes makes the home page list exactly that recipe with the parsed ingredients and steps |

## Left out

- Text.Lower: only ASCII `A`-`Z` are lowered. Python's `str.lower()` also lowers other Unicode letters, some into several characters.
- Ingredients.FromLines: the dictionary is a Dafny `map`, so the insertion order a Python dict keeps is not modelled. Order only affects display in the template.
- Store.Load: JSON parsing is not modelled. A file is missing, unreadable, or holds a well-formed recipe list. A file that parses as JSON but holds recipes without some field is outside the model: Python keeps such a file, appends to it and lists it, and fails only where the missing field is read, e.g. `r["name"]` at CookBookAssistant.py:87 when the search is non-empty.
- Store.AddRecipe: write failures of `save_data` (permissions, full disk) are not modelled. Such failures are I/O and leave the file in an unspecified state.
- Flask routing, the `GET /add` form page, redirects, template rendering and server start-up are left out. They are framework plumbing and presentation.
- The form is assumed to carry all four fields. The handler loads the file and parses the ingredients and steps boxes before it reads the `name` and `time` fields, so a missing field makes Flask answer 400 only after that work, but before `save_data` runs: the file is left unchanged. With an unreadable file the load error comes first. An absent `search` parameter is the empty string, as in the source.
- Concurrent requests are not modelled. Two overlapping adds can both load the same list, and the later save drops the other's recipe. This is a property of the deployment, not of the sequential logic.
- Python's `str.isspace` set is modelled in full, but only as of the Unicode tables of current CPython releases.
