/**
 * The relational schema of models.py: the tables Recipe, Ingredient, Account,
 * the association table recipe_ingredient and the association object
 * RecipeAccount, which carries a status per (recipe, account) pair. A database
 * state is a value holding every table as a sequence of rows; `Valid` states
 * the constraints the declarations impose, and the relationship attributes are
 * functions derived from the join rows.
 */
module Schema {
  import opened Wrappers
  import Config

  /** Declared column widths: String(80) names and passwords, String(20) usernames. */
  const NAME_MAX := 80
  const USERNAME_MAX := 20
  const PASSWORD_MAX := 80

  datatype Recipe = Recipe(id: int, name: string)
  datatype Ingredient = Ingredient(id: int, name: string)
  datatype Account = Account(id: int, username: string, password: string)

  /** A row of recipe_ingredient. Neither column is declared non-null, and the table has no key. */
  datatype IngredientLink = IngredientLink(recipeId: Option<int>, ingredientId: Option<int>)

  /** A row of RecipeAccount, keyed by (recipeId, accountId); the status column is nullable. */
  datatype RecipeAccount = RecipeAccount(recipeId: int, accountId: int, status: Option<int>)

  datatype Database = Database(
    recipes: seq<Recipe>,
    ingredients: seq<Ingredient>,
    accounts: seq<Account>,
    recipeIngredient: seq<IngredientLink>,
    recipeAccounts: seq<RecipeAccount>)

  // ---- Keys

  function RecipeKey(r: Recipe): int { r.id }
  function IngredientKey(i: Ingredient): int { i.id }
  function AccountKey(a: Account): int { a.id }
  function UsernameKey(a: Account): string { a.username }
  function PairKey(l: RecipeAccount): (int, int) { (l.recipeId, l.accountId) }

  /** Row filters for RecipeAccount: by recipe, by account, by pair. */
  function ForRecipe(recipeId: int): RecipeAccount -> bool { (l: RecipeAccount) => l.recipeId == recipeId }
  function ForAccount(accountId: int): RecipeAccount -> bool { (l: RecipeAccount) => l.accountId == accountId }
  function ForPair(recipeId: int, accountId: int): RecipeAccount -> bool { (l: RecipeAccount) => PairKey(l) == (recipeId, accountId) }

  /** No two rows of `rows` share a key: a primary key or a unique column. */
  predicate KeysDistinct<T, K(==)>(rows: seq<T>, key: T -> K) {
    forall i, j :: 0 <= i < j < |rows| ==> key(rows[i]) != key(rows[j])
  }

  /** The row of `rows` whose key is `k`, if any: a lookup by primary key. */
  function Find<T, K(==)>(rows: seq<T>, key: T -> K, k: K): (r: Option<T>)
    ensures r.Some? ==> r.value in rows && key(r.value) == k
    ensures r.None? ==> forall x :: x in rows ==> key(x) != k
  {
    if rows == [] then None
    else if key(rows[0]) == k then Some(rows[0])
    else Find(rows[1..], key, k)
  }

  /** The rows of `rows` that satisfy `keep`, in table order. */
  function Where<T>(rows: seq<T>, keep: T -> bool): (r: seq<T>)
    ensures |r| <= |rows|
    ensures forall x :: x in r ==> x in rows && keep(x)
    ensures forall x :: x in rows && keep(x) ==> x in r
  {
    if rows == [] then []
    else (if keep(rows[0]) then [rows[0]] else []) + Where(rows[1..], keep)
  }

  // ---- The constraints of the declarations

  predicate HasRecipe(db: Database, id: int) {
    exists r :: r in db.recipes && r.id == id
  }

  predicate HasIngredient(db: Database, id: int) {
    exists i :: i in db.ingredients && i.id == id
  }

  predicate HasAccount(db: Database, id: int) {
    exists a :: a in db.accounts && a.id == id
  }

  /**
   * A database state that satisfies the declarations: primary keys are
   * unique, usernames are unique, there is one RecipeAccount row per pair,
   * every non-null foreign key names an existing row, and strings fit their
   * declared widths.
   */
  predicate Valid(db: Database)
    ensures Valid(db) ==> forall l :: l in db.recipeAccounts ==>
      Find(db.recipes, RecipeKey, l.recipeId).Some? && Find(db.accounts, AccountKey, l.accountId).Some?
  {
    && KeysDistinct(db.recipes, RecipeKey)
    && KeysDistinct(db.ingredients, IngredientKey)
    && KeysDistinct(db.accounts, AccountKey)
    && KeysDistinct(db.accounts, UsernameKey)
    && KeysDistinct(db.recipeAccounts, PairKey)
    && (forall r :: r in db.recipes ==> |r.name| <= NAME_MAX)
    && (forall i :: i in db.ingredients ==> |i.name| <= NAME_MAX)
    && (forall a :: a in db.accounts ==> |a.username| <= USERNAME_MAX && |a.password| <= PASSWORD_MAX)
    && (forall l :: l in db.recipeIngredient ==>
          (l.recipeId.Some? ==> HasRecipe(db, l.recipeId.value)) &&
          (l.ingredientId.Some? ==> HasIngredient(db, l.ingredientId.value)))
    && (forall l :: l in db.recipeAccounts ==> HasRecipe(db, l.recipeId) && HasAccount(db, l.accountId))
  }

  /** The status column holds one of the codes of STATUS_CHOICES on every row. */
  predicate StatusesFromChoices(db: Database) {
    forall l :: l in db.recipeAccounts ==> l.status.Some? && l.status.value in Config.STATUS_CHOICES
  }

  /** Where every status comes from STATUS_CHOICES, every RecipeAccount row reads as a status with a label. */
  lemma StatusesReadable(db: Database, link: RecipeAccount)
    requires StatusesFromChoices(db) && link in db.recipeAccounts
    ensures link.status.Some? && link.status.value in Config.STATUS_CHOICES
    ensures Config.Label(StatusOf(link)) == Config.STATUS_CHOICES[link.status.value]
  {
  }

  // ---- Generic facts about keys

  /** Under a unique key, two rows with the same key are the same row. */
  lemma KeyIdentifies<T, K>(rows: seq<T>, key: T -> K, x: T, y: T)
    requires KeysDistinct(rows, key)
    requires x in rows && y in rows && key(x) == key(y)
    ensures x == y
  {
    var i :| 0 <= i < |rows| && rows[i] == x;
    var j :| 0 <= j < |rows| && rows[j] == y;
  }

  /** Under a unique key, looking up a row's key finds that row. */
  lemma FindByKey<T, K>(rows: seq<T>, key: T -> K, x: T)
    requires KeysDistinct(rows, key)
    requires x in rows
    ensures Find(rows, key, key(x)) == Some(x)
  {
    KeyIdentifies(rows, key, x, Find(rows, key, key(x)).value);
  }

  /** Selecting rows keeps a unique key unique. */
  lemma {:induction false} WhereKeepsKeysDistinct<T, K>(rows: seq<T>, keep: T -> bool, key: T -> K)
    requires KeysDistinct(rows, key)
    ensures KeysDistinct(Where(rows, keep), key)
  {
    if rows != [] {
      var tail := rows[1..];
      assert KeysDistinct(tail, key) by {
        forall i, j | 0 <= i < j < |tail| ensures key(tail[i]) != key(tail[j]) {
          assert tail[i] == rows[i + 1] && tail[j] == rows[j + 1];
        }
      }
      WhereKeepsKeysDistinct(tail, keep, key);
      var w := Where(tail, keep);
      forall x | x in w ensures key(x) != key(rows[0]) {
        var j :| 0 <= j < |tail| && tail[j] == x;
        assert rows[j + 1] == x;
      }
    }
  }

  // ---- Relationships

  /** `recipe.ingredients`: the ingredients paired with the recipe in recipe_ingredient, in link order. */
  function IngredientsOf(db: Database, recipeId: int): (r: seq<Ingredient>)
    requires KeysDistinct(db.ingredients, IngredientKey)
    ensures forall i :: i in r <==>
      i in db.ingredients && IngredientLink(Some(recipeId), Some(i.id)) in db.recipeIngredient
  {
    JoinIngredients(db, db.recipeIngredient, recipeId)
  }

  function JoinIngredients(db: Database, links: seq<IngredientLink>, recipeId: int): (r: seq<Ingredient>)
    requires KeysDistinct(db.ingredients, IngredientKey)
    ensures forall i :: i in r <==>
      i in db.ingredients && IngredientLink(Some(recipeId), Some(i.id)) in links
  {
    if links == [] then []
    else
      var l := links[0];
      var here :=
        if l.recipeId == Some(recipeId) && l.ingredientId.Some? then
          match Find(db.ingredients, IngredientKey, l.ingredientId.value)
          case Some(i) => [i]
          case None => []
        else [];
      assert forall i :: i in db.ingredients && l == IngredientLink(Some(recipeId), Some(i.id)) ==> i in here by {
        forall i | i in db.ingredients && l == IngredientLink(Some(recipeId), Some(i.id)) ensures i in here {
          FindByKey(db.ingredients, IngredientKey, i);
        }
      }
      here + JoinIngredients(db, links[1..], recipeId)
  }

  /** The `recipes` backref of an ingredient: the recipes paired with it, in link order. */
  function RecipesOf(db: Database, ingredientId: int): (r: seq<Recipe>)
    requires KeysDistinct(db.recipes, RecipeKey)
    ensures forall x :: x in r <==>
      x in db.recipes && IngredientLink(Some(x.id), Some(ingredientId)) in db.recipeIngredient
  {
    JoinRecipes(db, db.recipeIngredient, ingredientId)
  }

  function JoinRecipes(db: Database, links: seq<IngredientLink>, ingredientId: int): (r: seq<Recipe>)
    requires KeysDistinct(db.recipes, RecipeKey)
    ensures forall x :: x in r <==>
      x in db.recipes && IngredientLink(Some(x.id), Some(ingredientId)) in links
  {
    if links == [] then []
    else
      var l := links[0];
      var here :=
        if l.ingredientId == Some(ingredientId) && l.recipeId.Some? then
          match Find(db.recipes, RecipeKey, l.recipeId.value)
          case Some(x) => [x]
          case None => []
        else [];
      assert forall x :: x in db.recipes && l == IngredientLink(Some(x.id), Some(ingredientId)) ==> x in here by {
        forall x | x in db.recipes && l == IngredientLink(Some(x.id), Some(ingredientId)) ensures x in here {
          FindByKey(db.recipes, RecipeKey, x);
        }
      }
      here + JoinRecipes(db, links[1..], ingredientId)
  }

  /** `recipe.recipe_links`: the RecipeAccount rows of the recipe, in table order. */
  function RecipeLinks(db: Database, recipeId: int): (r: seq<RecipeAccount>)
    ensures forall l :: l in r <==> l in db.recipeAccounts && l.recipeId == recipeId
  {
    Where(db.recipeAccounts, ForRecipe(recipeId))
  }

  /** `account.account_links`: the RecipeAccount rows of the account, in table order. */
  function AccountLinks(db: Database, accountId: int): (r: seq<RecipeAccount>)
    ensures forall l :: l in r <==> l in db.recipeAccounts && l.accountId == accountId
  {
    Where(db.recipeAccounts, ForAccount(accountId))
  }

  /** `link.recipe`: the Recipe row a RecipeAccount row points at. */
  function RecipeOf(db: Database, link: RecipeAccount): (r: Recipe)
    requires Valid(db) && link in db.recipeAccounts
    ensures r in db.recipes && r.id == link.recipeId
  {
    Find(db.recipes, RecipeKey, link.recipeId).value
  }

  /** `link.account`: the Account row a RecipeAccount row points at. */
  function AccountOf(db: Database, link: RecipeAccount): (a: Account)
    requires Valid(db) && link in db.recipeAccounts
    ensures a in db.accounts && a.id == link.accountId
  {
    Find(db.accounts, AccountKey, link.accountId).value
  }

  /** A row's status read as one of the three statuses. */
  function StatusOf(link: RecipeAccount): (s: Config.Status)
    requires link.status.Some? && link.status.value in Config.STATUS_CHOICES
    ensures Config.Code(s) == link.status.value
  {
    Config.FromCode(link.status.value).value
  }

  // ---- __repr__

  /** `repr(recipe)`: "Recipe " followed by the name. */
  function RecipeRepr(r: Recipe): (s: string)
    ensures "Recipe " <= s && s[|"Recipe "|..] == r.name
  {
    "Recipe " + r.name
  }

  /** `repr(ingredient)`: "Ingredient " followed by the name. */
  function IngredientRepr(i: Ingredient): (s: string)
    ensures "Ingredient " <= s && s[|"Ingredient "|..] == i.name
  {
    "Ingredient " + i.name
  }

  // ---- Properties of a valid database

  /** The RecipeAccount rows of one (recipe, account) pair: what a lookup by the composite key sees. */
  function PairRows(db: Database, recipeId: int, accountId: int): (r: seq<RecipeAccount>)
    ensures forall l :: l in r <==> l in db.recipeAccounts && l.recipeId == recipeId && l.accountId == accountId
  {
    Where(db.recipeAccounts, ForPair(recipeId, accountId))
  }

  /** The composite primary key: at most one RecipeAccount row per (recipe, account) pair. */
  lemma AtMostOneRowPerPair(db: Database, recipeId: int, accountId: int)
    requires Valid(db)
    ensures |PairRows(db, recipeId, accountId)| <= 1
  {
    WhereKeepsKeysDistinct(db.recipeAccounts, ForPair(recipeId, accountId), PairKey);
    var w := PairRows(db, recipeId, accountId);
    assert forall k :: 0 <= k < |w| ==> PairKey(w[k]) == (recipeId, accountId) by {
      forall k | 0 <= k < |w| ensures PairKey(w[k]) == (recipeId, accountId) {
        assert w[k] in w;
      }
    }
    assert |w| >= 2 ==> PairKey(w[0]) != PairKey(w[1]);
  }

  /** Two RecipeAccount rows for the same pair are the same row. */
  lemma PairIdentifiesRow(db: Database, x: RecipeAccount, y: RecipeAccount)
    requires Valid(db)
    requires x in db.recipeAccounts && y in db.recipeAccounts
    requires x.recipeId == y.recipeId && x.accountId == y.accountId
    ensures x == y
  {
    KeyIdentifies(db.recipeAccounts, PairKey, x, y);
  }

  /** Usernames are unique: two accounts with the same username are the same account. */
  lemma UsernameIdentifiesAccount(db: Database, a: Account, b: Account)
    requires Valid(db)
    requires a in db.accounts && b in db.accounts && a.username == b.username
    ensures a == b
  {
    KeyIdentifies(db.accounts, UsernameKey, a, b);
  }

  /** A recipe's links name each account at most once. */
  lemma RecipeLinksDistinctAccounts(db: Database, recipeId: int)
    requires Valid(db)
    ensures forall i, j :: 0 <= i < j < |RecipeLinks(db, recipeId)| ==>
      RecipeLinks(db, recipeId)[i].accountId != RecipeLinks(db, recipeId)[j].accountId
  {
    WhereKeepsKeysDistinct(db.recipeAccounts, ForRecipe(recipeId), PairKey);
    var r := RecipeLinks(db, recipeId);
    forall i, j | 0 <= i < j < |r| ensures r[i].accountId != r[j].accountId {
      assert r[i] in r && r[j] in r;
      assert PairKey(r[i]) != PairKey(r[j]);
    }
  }

  /** An account's links name each recipe at most once. */
  lemma AccountLinksDistinctRecipes(db: Database, accountId: int)
    requires Valid(db)
    ensures forall i, j :: 0 <= i < j < |AccountLinks(db, accountId)| ==>
      AccountLinks(db, accountId)[i].recipeId != AccountLinks(db, accountId)[j].recipeId
  {
    WhereKeepsKeysDistinct(db.recipeAccounts, ForAccount(accountId), PairKey);
    var r := AccountLinks(db, accountId);
    forall i, j | 0 <= i < j < |r| ensures r[i].recipeId != r[j].recipeId {
      assert r[i] in r && r[j] in r;
      assert PairKey(r[i]) != PairKey(r[j]);
    }
  }

  /**
   * back_populates: every link of a recipe points back at that recipe, every
   * link of an account points back at that account, and every link appears
   * among the links of the recipe and of the account it points at.
   */
  lemma LinksBackPopulate(db: Database, r: Recipe, a: Account, link: RecipeAccount)
    requires Valid(db) && r in db.recipes && a in db.accounts && link in db.recipeAccounts
    ensures link in RecipeLinks(db, r.id) <==> RecipeOf(db, link) == r
    ensures link in AccountLinks(db, a.id) <==> AccountOf(db, link) == a
  {
    if link.recipeId == r.id {
      KeyIdentifies(db.recipes, RecipeKey, r, RecipeOf(db, link));
    }
    if link.accountId == a.id {
      KeyIdentifies(db.accounts, AccountKey, a, AccountOf(db, link));
    }
  }

  /** The `recipes` backref is the inverse of `ingredients`. */
  lemma IngredientsBackref(db: Database, r: Recipe, i: Ingredient)
    requires Valid(db) && r in db.recipes && i in db.ingredients
    ensures i in IngredientsOf(db, r.id) <==> r in RecipesOf(db, i.id)
  {
  }

  /** Every non-null pair in recipe_ingredient is seen from both ends. */
  lemma IngredientLinkNavigable(db: Database, l: IngredientLink)
    requires Valid(db) && l in db.recipeIngredient && l.recipeId.Some? && l.ingredientId.Some?
    ensures exists i :: i in IngredientsOf(db, l.recipeId.value) && i.id == l.ingredientId.value
    ensures exists r :: r in RecipesOf(db, l.ingredientId.value) && r.id == l.recipeId.value
  {
    var i :| i in db.ingredients && i.id == l.ingredientId.value;
    var r :| r in db.recipes && r.id == l.recipeId.value;
    assert l == IngredientLink(Some(r.id), Some(i.id));
    assert i in IngredientsOf(db, r.id);
    assert r in RecipesOf(db, i.id);
  }

  /** The two reprs are told apart by their prefix, and each determines the name. */
  lemma ReprsDistinguish(r: Recipe, r': Recipe, i: Ingredient)
    ensures RecipeRepr(r) != IngredientRepr(i)
    ensures RecipeRepr(r) == RecipeRepr(r') <==> r.name == r'.name
  {
    assert RecipeRepr(r)[0] == 'R' && IngredientRepr(i)[0] == 'I';
  }
}
