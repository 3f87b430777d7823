/**
 * What `render` puts in the grid: the visible cards, sorted by the selected key, and
 * whether the empty-state notice is hidden.
 */
module Listing {
  import opened Catalog
  import opened Sorting

  /** The cards `render` appends to the grid, in order: as many as pass the filters. */
  function Rendered(cards: seq<Card>, query: string, category: string, sort: string): (r: seq<Card>)
    ensures |r| == |Visible(cards, query, category)|
  {
    SortByKey(Visible(cards, query, category), KeyOf(sort))
  }

  /** The rendered cards are a permutation of the filtered ones: none duplicated, dropped or invented. */
  lemma RenderedPermutes(cards: seq<Card>, query: string, category: string, sort: string)
    ensures multiset(Rendered(cards, query, category, sort)) == multiset(Visible(cards, query, category))
  {
    SortPermutes(Visible(cards, query, category), KeyOf(sort));
  }

  /** Filter soundness and completeness: a card is rendered exactly when it passes both filters. */
  lemma RenderedMember(cards: seq<Card>, query: string, category: string, sort: string, c: Card)
    ensures c in Rendered(cards, query, category, sort) <==>
      c in cards && MatchesQuery(c, query) && (category == AllCategories || c.category == category)
  {
    var v := Visible(cards, query, category);
    SortPermutes(v, KeyOf(sort));
    VisibleMember(cards, query, category, c);
    assert c in Rendered(cards, query, category, sort) <==> c in multiset(Rendered(cards, query, category, sort));
    assert c in v <==> c in multiset(v);
  }

  /** The order of the grid for each value of the sort select. */
  lemma RenderedOrder(cards: seq<Card>, query: string, category: string, sort: string, i: int, j: int)
    requires 0 <= i < j < |Rendered(cards, query, category, sort)|
    ensures var r := Rendered(cards, query, category, sort);
      (sort == "price-asc" ==> r[i].price <= r[j].price) &&
      (sort == "price-desc" ==> r[i].price >= r[j].price) &&
      (sort == "kcal-asc" ==> r[i].kcal <= r[j].kcal) &&
      (sort == "kcal-desc" ==> r[i].kcal >= r[j].kcal) &&
      (sort == "protein-desc" ==> r[i].protein >= r[j].protein) &&
      (sort !in {"price-asc", "price-desc", "kcal-asc", "kcal-desc", "protein-desc"} ==>
        r[i].featured >= r[j].featured)
  {
    SortOrderByAttribute(Visible(cards, query, category), KeyOf(sort), i, j);
  }

  /** Stability: cards that tie under the selected key keep their order from the filtered list. */
  lemma RenderedStable(cards: seq<Card>, query: string, category: string, sort: string, k: int)
    ensures WithRank(Rendered(cards, query, category, sort), KeyOf(sort), k) ==
            WithRank(Visible(cards, query, category), KeyOf(sort), k)
  {
    SortStable(Visible(cards, query, category), KeyOf(sort), k);
  }

  /** The empty-state notice shows exactly when no card passes the filters. */
  lemma EmptyStateShown(cards: seq<Card>, query: string, category: string, sort: string)
    ensures |Rendered(cards, query, category, sort)| == 0 <==>
      forall c :: c in cards ==> !(MatchesQuery(c, query) && (category == AllCategories || c.category == category))
  {
    var r := Rendered(cards, query, category, sort);
    if |r| > 0 {
      RenderedMember(cards, query, category, sort, r[0]);
    } else {
      forall c | c in cards
        ensures !(MatchesQuery(c, query) && (category == AllCategories || c.category == category))
      {
        RenderedMember(cards, query, category, sort, c);
      }
    }
  }

  /** Sorting by "price-desc" three cards priced 59, 89 and 45 renders them as 89, 59, 45. */
  lemma PriceDescExample(a: Card, b: Card, c: Card)
    requires a.price == 59 && b.price == 89 && c.price == 45
    ensures SortByKey([a, b, c], KeyOf("price-desc")) == [b, a, c]
  {
    var key := KeyOf("price-desc");
    assert [a, b, c][..2] == [a, b];
    assert [a, b][..1] == [a];
    assert SortByKey([a], key) == [a];
    assert SortByKey([a, b], key) == Insert([a], b, key) == [b, a];
    assert [b, a][..1] == [b];
    assert Insert([b], c, key) == [b, c];
  }
}
