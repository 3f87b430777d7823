/**
 * The fixed list of product cards and the two filters of `render`: the free-text
 * search and the category chips.
 */
module Catalog {
  import opened Text

  /** One `.card` element: its `data-*` attributes and its rendered text. */
  datatype Card = Card(
    id: string,
    category: string,
    text: string,
    price: int,
    kcal: int,
    protein: int,
    featured: int)

  /** The category chip that turns the category filter off. */
  const AllCategories: string := "alla"

  /** The card's lower-cased text contains the (already trimmed and lower-cased) query. */
  predicate MatchesQuery(c: Card, query: string)
    ensures MatchesQuery(c, query) <==> exists i :: OccursAt(Lower(c.text), query, i)
  {
    Includes(Lower(c.text), query)
  }

  /** The search filter of `render`: keeps, in order, the cards whose text matches the query. */
  function ByQuery(s: seq<Card>, query: string): (r: seq<Card>)
    ensures |r| <= |s|
  {
    if s == [] then []
    else ByQuery(s[..|s| - 1], query) + (if MatchesQuery(s[|s| - 1], query) then [s[|s| - 1]] else [])
  }

  /** The chip filter of `render`: keeps, in order, the cards of the selected category. */
  function ByCategory(s: seq<Card>, category: string): (r: seq<Card>)
    ensures |r| <= |s|
  {
    if s == [] then []
    else ByCategory(s[..|s| - 1], category) + (if s[|s| - 1].category == category then [s[|s| - 1]] else [])
  }

  /** Both filters in one pass: the reference the two-step pipeline is compared with. */
  predicate Shown(c: Card, query: string, category: string)
  {
    MatchesQuery(c, query) && c.category == category
  }

  function ByBoth(s: seq<Card>, query: string, category: string): seq<Card>
  {
    if s == [] then []
    else ByBoth(s[..|s| - 1], query, category) + (if Shown(s[|s| - 1], query, category) then [s[|s| - 1]] else [])
  }

  /** The text filter keeps exactly the cards that match, each as often as it occurs. */
  lemma {:induction false} ByQueryCount(s: seq<Card>, query: string, c: Card)
    ensures multiset(ByQuery(s, query))[c] == if MatchesQuery(c, query) then multiset(s)[c] else 0
  {
    if s != [] {
      ByQueryCount(s[..|s| - 1], query, c);
      assert s == s[..|s| - 1] + [s[|s| - 1]];
    }
  }

  /** The category filter keeps exactly the cards of that category, each as often as it occurs. */
  lemma {:induction false} ByCategoryCount(s: seq<Card>, category: string, c: Card)
    ensures multiset(ByCategory(s, category))[c] == if c.category == category then multiset(s)[c] else 0
  {
    if s != [] {
      ByCategoryCount(s[..|s| - 1], category, c);
      assert s == s[..|s| - 1] + [s[|s| - 1]];
    }
  }

  /** Soundness and completeness of the text filter. */
  lemma ByQueryMember(s: seq<Card>, query: string, c: Card)
    ensures c in ByQuery(s, query) <==> c in s && MatchesQuery(c, query)
  {
    ByQueryCount(s, query, c);
    assert c in ByQuery(s, query) <==> multiset(ByQuery(s, query))[c] > 0;
    assert c in s <==> multiset(s)[c] > 0;
  }

  /** Soundness and completeness of the category filter. */
  lemma ByCategoryMember(s: seq<Card>, category: string, c: Card)
    ensures c in ByCategory(s, category) <==> c in s && c.category == category
  {
    ByCategoryCount(s, category, c);
    assert c in ByCategory(s, category) <==> multiset(ByCategory(s, category))[c] > 0;
    assert c in s <==> multiset(s)[c] > 0;
  }

  /** An empty query keeps every card in its place, so skipping the text filter for an empty query changes nothing. */
  lemma {:induction false} ByQueryEmpty(s: seq<Card>)
    ensures ByQuery(s, "") == s
  {
    if s != [] {
      ByQueryEmpty(s[..|s| - 1]);
      IncludesEmpty(Lower(s[|s| - 1].text));
      assert s == s[..|s| - 1] + [s[|s| - 1]];
    }
  }

  /** Text filter then category filter is the one-pass filter, order included. */
  lemma {:induction false} QueryThenCategory(s: seq<Card>, query: string, category: string)
    ensures ByCategory(ByQuery(s, query), category) == ByBoth(s, query, category)
  {
    if s != [] {
      var init, last := s[..|s| - 1], s[|s| - 1];
      QueryThenCategory(init, query, category);
      var q := ByQuery(init, query);
      if MatchesQuery(last, query) {
        assert ByQuery(s, query) == q + [last];
        assert (q + [last])[..|q + [last]| - 1] == q;
      } else {
        assert ByQuery(s, query) == q;
      }
    }
  }

  /** Category filter then text filter is the same one-pass filter. */
  lemma {:induction false} CategoryThenQuery(s: seq<Card>, query: string, category: string)
    ensures ByQuery(ByCategory(s, category), query) == ByBoth(s, query, category)
  {
    if s != [] {
      var init, last := s[..|s| - 1], s[|s| - 1];
      CategoryThenQuery(init, query, category);
      var k := ByCategory(init, category);
      if last.category == category {
        assert ByCategory(s, category) == k + [last];
        assert (k + [last])[..|k + [last]| - 1] == k;
      } else {
        assert ByCategory(s, category) == k;
      }
    }
  }

  /** The two filters commute. */
  lemma FiltersCommute(s: seq<Card>, query: string, category: string)
    ensures ByCategory(ByQuery(s, query), category) == ByQuery(ByCategory(s, category), query)
  {
    QueryThenCategory(s, query, category);
    CategoryThenQuery(s, query, category);
  }

  /** Filtering the text a second time with the same query changes nothing. */
  lemma {:induction false} ByQueryIdempotent(s: seq<Card>, query: string)
    ensures ByQuery(ByQuery(s, query), query) == ByQuery(s, query)
  {
    if s != [] {
      var init, last := s[..|s| - 1], s[|s| - 1];
      ByQueryIdempotent(init, query);
      var q := ByQuery(init, query);
      if MatchesQuery(last, query) {
        assert ByQuery(s, query) == q + [last];
        assert (q + [last])[..|q + [last]| - 1] == q;
        assert ByQuery(q + [last], query) == ByQuery(q, query) + [last];
      } else {
        assert ByQuery(s, query) == q;
      }
    }
  }

  /** Filtering by the same category a second time changes nothing. */
  lemma {:induction false} ByCategoryIdempotent(s: seq<Card>, category: string)
    ensures ByCategory(ByCategory(s, category), category) == ByCategory(s, category)
  {
    if s != [] {
      var init, last := s[..|s| - 1], s[|s| - 1];
      ByCategoryIdempotent(init, category);
      var k := ByCategory(init, category);
      if last.category == category {
        assert ByCategory(s, category) == k + [last];
        assert (k + [last])[..|k + [last]| - 1] == k;
        assert ByCategory(k + [last], category) == ByCategory(k, category) + [last];
      } else {
        assert ByCategory(s, category) == k;
      }
    }
  }

  /**
   * The filter stage of `render`: the text filter runs only for a non-empty query, the
   * category filter only when the chip is not "alla". It never lengthens the list.
   */
  function Visible(cards: seq<Card>, query: string, category: string): (r: seq<Card>)
    ensures |r| <= |cards|
  {
    var byText := if query != "" then ByQuery(cards, query) else cards;
    if category != AllCategories then ByCategory(byText, category) else byText
  }

  /** A card is visible exactly when it is in the list, matches the query and passes the chip. */
  lemma VisibleMember(cards: seq<Card>, query: string, category: string, c: Card)
    ensures c in Visible(cards, query, category) <==>
      c in cards && MatchesQuery(c, query) && (category == AllCategories || c.category == category)
  {
    IncludesEmpty(Lower(c.text));
    var byText := if query != "" then ByQuery(cards, query) else cards;
    ByQueryMember(cards, query, c);
    ByCategoryMember(byText, category, c);
  }

  /** The filter stage never invents or duplicates a card: each card occurs at most as often as in the list. */
  lemma VisibleCount(cards: seq<Card>, query: string, category: string, c: Card)
    ensures multiset(Visible(cards, query, category))[c] <= multiset(cards)[c]
  {
    var byText := if query != "" then ByQuery(cards, query) else cards;
    ByQueryCount(cards, query, c);
    ByCategoryCount(byText, category, c);
  }
}
