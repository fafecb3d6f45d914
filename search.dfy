/**
 * The recipe search box of static/js/search.js. On every input event the
 * query (the input's text, trimmed and lower-cased) is matched against the
 * recipe names; the suggestion list is rebuilt with one entry per matching
 * name, in list order. Clicking a suggestion copies it into the input and
 * empties the list.
 */
module Search {
  import opened Ascii

  /** The query the handler derives from the input's text. */
  function Normalize(raw: string): (q: string)
    ensures q == Trim(Lower(raw))
    ensures Lower(q) == q
  {
    TrimLowerCommute(raw);
    LowerIdempotent(Trim(raw));
    Lower(Trim(raw))
  }

  /** A recipe name matches a query when its lower-cased form contains the query. */
  predicate Hit(name: string, query: string) {
    Contains(Lower(name), query)
  }

  /**
   * What `Hit` decides: an empty query matches every name, a name that starts
   * with the query in any letter case matches, and a match is never shorter
   * than the query.
   */
  lemma HitFacts(name: string, query: string)
    ensures query == [] ==> Hit(name, query)
    ensures query <= Lower(name) ==> Hit(name, query)
    ensures Hit(name, query) ==> |query| <= |name|
  {
    ContainsFacts(Lower(name), query);
  }

  /** The `filter` over the recipe names: the names that match `query`, in list order. */
  function Filter(recipes: seq<string>, query: string): (r: seq<string>)
    ensures |r| <= |recipes|
    ensures forall m :: m in r ==> m in recipes && Hit(m, query)
    ensures forall m :: m in recipes && Hit(m, query) ==> m in r
    decreases |recipes|
  {
    if recipes == [] then []
    else
      var n := |recipes| - 1;
      Filter(recipes[..n], query) + (if Hit(recipes[n], query) then [recipes[n]] else [])
  }

  /**
   * The suggestions an input event produces for the raw input text: none for a
   * blank query, otherwise every recipe name that matches the query.
   */
  function Matches(recipes: seq<string>, raw: string): (r: seq<string>)
    ensures |r| <= |recipes|
    ensures AllSpace(raw) ==> r == []
    ensures forall m :: m in r ==> m in recipes && Hit(m, Normalize(raw))
    ensures !AllSpace(raw) ==> forall m :: m in recipes && Hit(m, Normalize(raw)) ==> m in r
    ensures !AllSpace(raw) ==> r == Filter(recipes, Normalize(raw))
  {
    var query := Normalize(raw);
    TrimEmpty(Lower(raw));
    LowerBlank(raw);
    if query == [] then [] else Filter(recipes, query)
  }

  lemma LowerBlank(raw: string)
    ensures AllSpace(Lower(raw)) <==> AllSpace(raw)
  {
    if !AllSpace(raw) {
      var k :| 0 <= k < |raw| && !IsSpace(raw[k]);
      assert !IsSpace(Lower(raw)[k]);
    }
  }

  /** The positions, in increasing order, of the recipe names that match `query`. */
  ghost function MatchPositions(recipes: seq<string>, query: string): (p: seq<nat>)
    ensures forall k :: 0 <= k < |p| ==> p[k] < |recipes|
    decreases |recipes|
  {
    if recipes == [] then []
    else
      var n := |recipes| - 1;
      MatchPositions(recipes[..n], query) + (if Hit(recipes[n], query) then [n] else [])
  }

  /** The positions of the matches are increasing, and are exactly the positions of matching names. */
  lemma {:induction false} MatchPositionsExact(recipes: seq<string>, query: string)
    ensures forall k, l :: 0 <= k < l < |MatchPositions(recipes, query)| ==>
      MatchPositions(recipes, query)[k] < MatchPositions(recipes, query)[l]
    ensures forall i :: 0 <= i < |recipes| ==>
      (Hit(recipes[i], query) <==> i in MatchPositions(recipes, query))
    decreases |recipes|
  {
    if recipes != [] {
      var n := |recipes| - 1;
      var prefix := recipes[..n];
      MatchPositionsExact(prefix, query);
      var p := MatchPositions(prefix, query);
      var P := MatchPositions(recipes, query);
      assert P == p + (if Hit(recipes[n], query) then [n] else []);
      forall k, l | 0 <= k < l < |P| ensures P[k] < P[l] {
        if l < |p| {
          assert P[k] == p[k] && P[l] == p[l];
        } else {
          assert P[k] == p[k] && P[l] == n;
        }
      }
      forall i | 0 <= i < |recipes| ensures Hit(recipes[i], query) <==> i in P {
        if i < n {
          assert prefix[i] == recipes[i];
          assert i in P <==> i in p;
        }
      }
    }
  }

  /**
   * The filter keeps exactly the matching names, one entry per matching
   * position, in the order of the recipes list.
   */
  lemma {:induction false} FilterInOrder(recipes: seq<string>, query: string)
    ensures |Filter(recipes, query)| == |MatchPositions(recipes, query)|
    ensures forall k :: 0 <= k < |MatchPositions(recipes, query)| ==>
      Filter(recipes, query)[k] == recipes[MatchPositions(recipes, query)[k]]
    decreases |recipes|
  {
    if recipes != [] {
      var n := |recipes| - 1;
      var prefix := recipes[..n];
      FilterInOrder(prefix, query);
      var f, p := Filter(prefix, query), MatchPositions(prefix, query);
      var hit := Hit(recipes[n], query);
      var F, P := Filter(recipes, query), MatchPositions(recipes, query);
      assert F == f + (if hit then [recipes[n]] else []);
      assert P == p + (if hit then [n] else []);
      forall k | 0 <= k < |P| ensures F[k] == recipes[P[k]] {
        if k < |p| {
          assert F[k] == f[k] && P[k] == p[k];
          assert prefix[p[k]] == recipes[p[k]];
        }
      }
    }
  }

  /**
   * For a non-blank input the suggestions are the matching names in the order
   * of the recipes list, one entry per matching position.
   */
  lemma MatchesInOrder(recipes: seq<string>, raw: string)
    requires !AllSpace(raw)
    ensures |Matches(recipes, raw)| == |MatchPositions(recipes, Normalize(raw))|
    ensures forall k :: 0 <= k < |MatchPositions(recipes, Normalize(raw))| ==>
      Matches(recipes, raw)[k] == recipes[MatchPositions(recipes, Normalize(raw))[k]]
    ensures forall k, l :: 0 <= k < l < |MatchPositions(recipes, Normalize(raw))| ==>
      MatchPositions(recipes, Normalize(raw))[k] < MatchPositions(recipes, Normalize(raw))[l]
    ensures forall i :: 0 <= i < |recipes| ==>
      (Hit(recipes[i], Normalize(raw)) <==> i in MatchPositions(recipes, Normalize(raw)))
  {
    FilterInOrder(recipes, Normalize(raw));
    MatchPositionsExact(recipes, Normalize(raw));
  }

  /** Whitespace around the input's text does not change the query. */
  lemma NormalizeIgnoresPadding(a: string, x: string, b: string)
    requires AllSpace(a) && AllSpace(b)
    ensures Normalize(a + x + b) == Normalize(x)
  {
    assert a + x + b == a + (x + b);
    TrimPadLeft(a, x + b);
    TrimPadRight(x, b);
    assert Normalize(a + x + b) == Lower(Trim(a + x + b));
  }

  /**
   * Two inputs that differ only in letter case and in whitespace around them
   * give identical suggestions.
   */
  lemma SameQuerySameSuggestions(recipes: seq<string>, a: string, x: string, b: string, y: string)
    requires AllSpace(a) && AllSpace(b)
    requires Lower(x) == Lower(y)
    ensures Matches(recipes, a + x + b) == Matches(recipes, y)
  {
    NormalizeIgnoresPadding(a, x, b);
    assert Normalize(x) == Normalize(y);
  }

  /**
   * The search box: the input's text and the suggestion list under it. The
   * recipe names are fixed when the page is rendered. The browser writes
   * `input` as the user types and then raises the input event.
   */
  class SearchBox {
    const recipes: seq<string>
    var input: string
    var suggestions: seq<string>

    constructor (recipes: seq<string>)
      ensures this.recipes == recipes
      ensures input == [] && suggestions == []
    {
      this.recipes := recipes;
      input := [];
      suggestions := [];
    }

    /**
     * The input event handler: the list is cleared, and for a non-blank query
     * one suggestion is appended per matching recipe name. Whatever the list
     * held before, it afterwards holds exactly the current matches.
     */
    method OnInput()
      modifies this`suggestions
      ensures suggestions == Matches(recipes, input)
    {
      var query := Lower(Trim(input));
      suggestions := [];
      if query == [] {
        return;
      }
      var matches := Filter(recipes, query);
      for i := 0 to |matches|
        invariant suggestions == matches[..i]
      {
        suggestions := suggestions + [matches[i]];
      }
    }

    /** The click handler of a suggestion: its text goes into the input and the list is emptied. */
    method OnClick(choice: string)
      requires choice in suggestions
      modifies this`input, this`suggestions
      ensures input == choice
      ensures suggestions == []
    {
      input := choice;
      suggestions := [];
    }
  }
}
