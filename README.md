# Recipe Tracker: search box, schema and statuses

A model of the logic in the Recipe Tracker web application, a small
Flask/SQLAlchemy site where accounts keep track of which recipes they own or
have cooked. The modelled parts are:

- **Search suggestions** (`static/js/search.js`). The query is the input's text,
  trimmed and lower-cased. Every recipe name whose lower-cased form contains the
  query becomes a suggestion. Clicking a suggestion copies it into the input.
  The matching is the pure function `Search.Matches`. The handlers are the
  methods of the class `Search.SearchBox`, whose fields `input` and
  `suggestions` they update. Trimming and lower-casing are modelled over ASCII
  in module `Ascii`.
- **The schema** (`models.py`). A database state is a `Schema.Database` value
  with one sequence of rows per table: Recipe, Ingredient, Account,
  `recipe_ingredient` and RecipeAccount. The predicate `Schema.Valid` states
  what the declarations impose:
  - primary keys are unique;
  - usernames are unique;
  - the composite key (recipe_id, account_id) of RecipeAccount is unique;
  - every non-null foreign key names an existing row;
  - names, usernames and passwords fit their declared widths.

  The relationship attributes are functions that derive their results from the
  join rows. Examples are `ingredients` with its `recipes` backref,
  `recipe_links`, `account_links`, and `recipe`/`account` on a link.
  `__repr__` is modelled too.
- **Statuses** (`config.py`). The constants `ZERO`, `OWNED` and `COOKED` and the
  label table `STATUS_CHOICES` are modelled, plus a `Status` enumeration with its
  code and label.

Points where the model follows the code exactly:

- Account usernames are bounded only by the declared `String(20)`. The code
  sets no minimum username length.
- The status column of RecipeAccount is a nullable `Integer` with no check.
  So `Valid` does not restrict it. The predicate `Schema.StatusesFromChoices`
  states the intended restriction separately.
- Both columns of `recipe_ingredient` are nullable. The table has no key, so
  duplicate rows are allowed. The foreign-key part of `Valid` applies only to
  non-null values.

## Model

| member | source | states |
|---|---|---|
| `Config.Code` | config.py:4-6 | Each status is stored as the constant named for it. ZERO means NotOwned, OWNED means Owned and COOKED means Cooked. Each code is a key of STATUS_CHOICES. |
| `Config.Label` | config.py:8-12 | A status's label is the STATUS_CHOICES entry for its code. |
| `Config.FromCode` | config.py:8-12 | A stored integer reads back as a status exactly when it is a key of STATUS_CHOICES. When it does, it is the status stored under that code. |
| `Config.FromLabel` | config.py:9-11 | A string reads back only as the status whose label it is. When it reads back as nothing, no status has that label. |
| `Config.ChoicesDomain` | config.py:4-12 | The keys of STATUS_CHOICES are exactly ZERO, OWNED and COOKED, that is, exactly the integers 0, 1 and 2. |
| `Config.ChoicesLabels` | config.py:4-12 | STATUS_CHOICES gives "Not Owned" for ZERO, "Owned" for OWNED and "Cooked" for COOKED. |
| `Config.CodeRoundTrip` | config.py:4-12 | Code then FromCode gives back the status. FromCode then Code gives back the integer. |
| `Config.LabelInjective` | config.py:9-11 | The three labels are pairwise distinct, so a label names a unique status. |
| `Ascii.Lower` | static/js/search.js:6 | `toLowerCase` keeps the length and lower-cases every position. |
| `Ascii.Trim` | static/js/search.js:6 | `trim` returns a slice of the text that neither starts nor ends with whitespace. Everything it cuts off at either end is whitespace. |
| `Ascii.ContainsFacts` | static/js/search.js:13 | `Contains` models `includes`: a text contains every prefix of itself, and never contains a query longer than itself. |
| `Ascii.TrimEmpty` | static/js/search.js:6-9 | A text trims to the empty query exactly when it is empty or only whitespace. |
| `Ascii.TrimPadLeft` | static/js/search.js:6 | Whitespace put before a text does not change what it trims to. |
| `Ascii.TrimPadRight` | static/js/search.js:6 | Whitespace put after a text does not change what it trims to. |
| `Ascii.TrimLowerCommute` | static/js/search.js:6 | Trimming then lower-casing equals lower-casing then trimming. |
| `Ascii.LowerIdempotent` | static/js/search.js:6 | Lower-casing an already lower-cased text changes nothing. |
| `Search.Normalize` | static/js/search.js:6 | The query is the lower-cased, trimmed input. It equals the trimmed, lower-cased input and is already lower-case. |
| `Search.HitFacts` | static/js/search.js:12-14 | The filter's test `Hit` accepts every name for an empty query. It accepts a name whose lower-cased form starts with the query. It never accepts a name shorter than the query. |
| `Search.Filter` | static/js/search.js:12-14 | Every name kept contains the query once lower-cased. Every recipe name that does so is kept. At most as many names are kept as there are recipes. |
| `Search.Matches` | static/js/search.js:6-14 | An empty or whitespace-only input yields no suggestions. Otherwise every suggestion is a recipe name whose lower-cased form contains the query, and every such name is suggested. There are never more suggestions than recipes. For a non-blank input the suggestions are the filter's output for the normalized query. |
| `Search.MatchesInOrder` | static/js/search.js:12-24 | For a non-blank input the suggestions are the names at the match positions, in list order, one per matching position. Those positions are exactly the indices of matching names. |
| `Search.MatchPositions` | static/js/search.js:12-14 | The positions of the matching names all lie within the recipes list. |
| `Search.MatchPositionsExact` | static/js/search.js:12-14 | The match positions are strictly increasing. A position is among them exactly when the name there matches. |
| `Search.FilterInOrder` | static/js/search.js:12-24 | The suggestions are the names at the match positions, in list order, one per matching position. |
| `Search.NormalizeIgnoresPadding` | static/js/search.js:6 | Whitespace around the input does not change the query. |
| `Search.SameQuerySameSuggestions` | static/js/search.js:6-14 | Two inputs that differ only in letter case and surrounding whitespace give identical suggestions. |
| `Search.SearchBox.constructor` | static/js/search.js:1-3 | The box starts with the page's recipe names, an empty input and no suggestions. |
| `Search.SearchBox.OnInput` | static/js/search.js:5-26 | The input is left unchanged. Afterwards the suggestions are exactly the matches for the current input. The list is cleared first, so nothing accumulates across events. |
| `Search.SearchBox.OnClick` | static/js/search.js:20-23 | Clicking a displayed suggestion sets the input to it and leaves the list empty. |
| `Schema.Valid` | models.py:5-48 | A valid database has unique primary keys and unique usernames. It has one RecipeAccount row per (recipe_id, account_id) pair. Every non-null foreign key names an existing row. Names and passwords are at most 80 characters and usernames at most 20. Its contract states that every RecipeAccount row's recipe and account are found by primary-key lookup. |
| `Schema.IngredientsOf` | models.py:5-16 | `recipe.ingredients` holds exactly the ingredients paired with the recipe by a `recipe_ingredient` row. |
| `Schema.RecipesOf` | models.py:15-16 | The `recipes` backref holds exactly the recipes paired with the ingredient by a `recipe_ingredient` row. |
| `Schema.IngredientsBackref` | models.py:15-16 | An ingredient is among a recipe's ingredients exactly when the recipe is among that ingredient's recipes. |
| `Schema.IngredientLinkNavigable` | models.py:5-9 | In a valid database, every fully filled `recipe_ingredient` row can be seen from both of its ends. |
| `Schema.RecipeLinks` | models.py:18 | `recipe.recipe_links` holds exactly the RecipeAccount rows whose recipe_id is the recipe's id. |
| `Schema.AccountLinks` | models.py:37 | `account.account_links` holds exactly the RecipeAccount rows whose account_id is the account's id. |
| `Schema.RecipeOf` | models.py:47 | In a valid database, `link.recipe` is an existing Recipe whose id is the link's recipe_id. |
| `Schema.AccountOf` | models.py:48 | In a valid database, `link.account` is an existing Account whose id is the link's account_id. |
| `Schema.LinksBackPopulate` | models.py:47-48 | A link is among a recipe's `recipe_links` exactly when its `recipe` is that recipe. The same holds for accounts and `account_links`. |
| `Schema.PairRows` | models.py:40-45 | The rows a composite-key lookup sees are exactly the RecipeAccount rows with both the given recipe_id and the given account_id. |
| `Schema.AtMostOneRowPerPair` | models.py:41-44 | In a valid database there is at most one RecipeAccount row for any (recipe_id, account_id) pair. |
| `Schema.PairIdentifiesRow` | models.py:41-44 | Two rows of a valid database that have the same pair are the same row. |
| `Schema.RecipeLinksDistinctAccounts` | models.py:41-44 | A recipe's links name each account at most once. |
| `Schema.AccountLinksDistinctRecipes` | models.py:41-44 | An account's links name each recipe at most once. |
| `Schema.UsernameIdentifiesAccount` | models.py:34 | Usernames are unique: two accounts of a valid database with the same username are the same account. |
| `Schema.StatusesReadable` | models.py:45 | When every status comes from STATUS_CHOICES, each RecipeAccount row's status reads as a status whose label is the STATUS_CHOICES entry for the stored code. |
| `Schema.StatusOf` | models.py:45 | A status value taken from STATUS_CHOICES reads as the status whose code it is. |
| `Schema.RecipeRepr` | models.py:20-21 | `repr` of a Recipe is "Recipe " followed by its name. |
| `Schema.IngredientRepr` | models.py:28-29 | `repr` of an Ingredient is "Ingredient " followed by its name. |
| `Schema.ReprsDistinguish` | models.py:20-29 | A Recipe repr never equals an Ingredient repr. Two Recipe reprs are equal exactly when the names are. |

## Left out

- app.py is not part of this model. It holds the Flask app, the database URI and secret key, template rendering and `app.run`. It also redeclares a Recipe model that duplicates the one in models.py. Its `/recipe/<id>` route returns the text of its SQL query without running it.
- `static/css/js/search.js` is not part of this model. It is an older copy of the search script that filters an undefined `locs` and calls an undefined `validateLocation`, so it has no behaviour to model.
- Registration, login, sessions, password hashing and reading or writing a recipe's status have no code in models.py, config.py or static/js/search.js, so none of them is modelled.
- Engine behaviour is not modelled. SQLite does not enforce VARCHAR widths, and foreign-key enforcement depends on settings. The model treats the widths and keys as the constraints `Valid` states. Lazy loading is not modelled either.
- `Schema.IngredientsOf`, `Schema.RecipesOf`, `Schema.RecipeLinks`, `Schema.AccountLinks`: these state which rows a collection holds, not its order or repetitions. SQLAlchemy gives no order for these collections.
- `Search.SearchBox`: it works on its fields instead of DOM nodes. DOM details are left out: `innerHTML`, `createElement`, the `li` elements and event registration. The browser writing the typed text into `input` before each input event is left to the caller.
- The recipe names come from the Jinja expression on `static/js/search.js:1`. That substitution is not modelled: the names are the constructor's parameter, one string per recipe.
- `Ascii.Trim`, `Ascii.Lower`: they follow JavaScript's `trim` and `toLowerCase` on ASCII only. Unicode whitespace and case mapping are not modelled.
