/**
 * The page script's shared `state` record together with the parts of the page its
 * handlers write: the card grid, the empty-state notice, the favorite buttons, the
 * document's theme and the two local-storage keys.
 */
module App {
  import opened Wrappers
  import opened Text
  import opened Catalog
  import opened Sorting
  import opened Listing
  import opened Theme
  import opened Favorites

  /** The ids of the cards in `s`. */
  ghost function Ids(s: seq<Card>): set<string>
  {
    set c | c in s :: c.id
  }

  lemma IdsSnoc(s: seq<Card>, i: int)
    requires 0 <= i < |s|
    ensures Ids(s[..i + 1]) == Ids(s[..i]) + {s[i].id}
  {
    assert s[..i + 1] == s[..i] + [s[i]];
  }

  /** Sorting moves cards but keeps the set of ids on the page. */
  lemma SortedIds(s: seq<Card>, key: SortKey)
    ensures Ids(SortByKey(s, key)) == Ids(s)
  {
    SortPermutes(s, key);
    forall c | c in SortByKey(s, key) ensures c in s {
      assert c in multiset(SortByKey(s, key));
    }
    forall c | c in s ensures c in SortByKey(s, key) {
      assert c in multiset(s);
    }
  }

  /** With no query and the "alla" chip, every card is visible. */
  lemma VisibleAll(cards: seq<Card>)
    ensures Visible(cards, "", AllCategories) == cards
  {
  }

  /**
   * Every button of a card in `shown` shows that card's membership in `favorites`; the
   * buttons of other cards are as they were in `before`.
   */
  ghost predicate SyncedFrom(before: map<string, FavoriteButton>, shown: seq<Card>,
                             favorites: seq<string>, after: map<string, FavoriteButton>)
  {
    (forall id :: id in after <==> id in before || id in Ids(shown)) &&
    (forall id :: id in after ==>
       after[id] == if id in Ids(shown) then ButtonFor(id in favorites) else before[id])
  }

  /** A second sync over a list with the same ids leaves the first sync's outcome in place. */
  lemma SyncedAgain(before: map<string, FavoriteButton>, shown: seq<Card>, favorites: seq<string>,
                    mid: map<string, FavoriteButton>, again: seq<Card>, after: map<string, FavoriteButton>)
    requires SyncedFrom(before, shown, favorites, mid)
    requires SyncedFrom(mid, again, favorites, after)
    requires Ids(again) == Ids(shown)
    ensures SyncedFrom(before, shown, favorites, after)
  {
  }

  /** The first render shows every card, so it keeps the ids of the markup. */
  lemma InitialIds(cards: seq<Card>)
    ensures Ids(Rendered(cards, "", AllCategories, "featured")) == Ids(cards)
    ensures |Rendered(cards, "", AllCategories, "featured")| == |cards|
  {
    VisibleAll(cards);
    SortedIds(cards, KeyOf("featured"));
  }

  /** Start-up syncs the buttons twice, once over the markup and once in the first render, to the same effect. */
  lemma StartSynced(cards: seq<Card>, favorites: seq<string>, synced: map<string, FavoriteButton>,
                    grid: seq<Card>, after: map<string, FavoriteButton>)
    requires SyncedFrom(map[], cards, favorites, synced)
    requires grid == Rendered(cards, "", AllCategories, "featured")
    requires SyncedFrom(synced, grid, favorites, after)
    ensures SyncedFrom(map[], cards, favorites, after)
    ensures |grid| == |cards|
  {
    InitialIds(cards);
    SyncedAgain(map[], cards, favorites, synced, grid, after);
  }

  class Page {
    /** The `.card` elements of the markup, in markup order; fixed for the page's life. */
    const cards: seq<Card>

    // The `state` record.
    var query: string
    var category: string
    var sort: string
    var favorites: seq<string>
    var theme: string

    // The local-storage keys "favorites" and "theme".
    var storedFavorites: Option<seq<string>>
    var storedTheme: Option<string>

    // The page: the grid's children, `#emptyState.hidden`, the favorite buttons by card
    // id, `data-theme` on the document element and the toggle's `aria-pressed`.
    var grid: seq<Card>
    var emptyHidden: bool
    var buttons: map<string, FavoriteButton>
    var documentTheme: string
    var togglePressed: bool

    /** The favorites behave as a set: no id twice. */
    ghost predicate Valid()
      reads this`favorites
    {
      NoDup(favorites)
    }

    /** The script's declarations: the `state` defaults and the values read from local storage. */
    constructor (cards: seq<Card>, storedFavorites: Option<seq<string>>, storedTheme: Option<string>)
      ensures Valid()
      ensures this.cards == cards
      ensures query == "" && category == AllCategories && sort == "featured"
      ensures favorites == Load(storedFavorites) && theme == InitialTheme(storedTheme)
      ensures this.storedFavorites == storedFavorites && this.storedTheme == storedTheme
      ensures grid == cards && buttons == map[]
    {
      this.cards := cards;
      query, category, sort := "", AllCategories, "featured";
      favorites := Load(storedFavorites);
      theme := InitialTheme(storedTheme);
      this.storedFavorites, this.storedTheme := storedFavorites, storedTheme;
      grid := cards;
      buttons := map[];
    }

    /**
     * The script's start-up calls on the freshly loaded page: `applyTheme()`,
     * `syncFavoriteButtons()` over the markup's cards, then `render()`.
     */
    method Start(prefersDark: bool)
      requires query == "" && category == AllCategories && sort == "featured"
      requires grid == cards && buttons == map[]
      modifies this`documentTheme, this`togglePressed, this`grid, this`emptyHidden, this`buttons
      ensures documentTheme == Resolve(theme, prefersDark) && togglePressed == Pressed(documentTheme)
      ensures grid == Rendered(cards, "", AllCategories, "featured")
      ensures emptyHidden == (|cards| > 0)
      ensures SyncedFrom(map[], cards, favorites, buttons)
    {
      ApplyTheme(prefersDark);
      SyncFavoriteButtons();
      ghost var synced := buttons;
      Render(false);
      StartSynced(cards, favorites, synced, grid, buttons);
    }

    /** `applyTheme()`: writes the resolved mode and the toggle's pressed state. */
    method ApplyTheme(prefersDark: bool)
      modifies this`documentTheme, this`togglePressed
      ensures documentTheme == Resolve(theme, prefersDark)
      ensures togglePressed == Pressed(documentTheme)
    {
      var mode := if theme == "auto" then (if prefersDark then "dark" else "light") else theme;
      documentTheme := mode;
      togglePressed := mode == "dark";
    }

    /** The theme toggle's click handler: advance the cycle, persist it, apply it. */
    method ClickThemeToggle(prefersDark: bool)
      modifies this`theme, this`storedTheme, this`documentTheme, this`togglePressed
      ensures theme == Advance(old(theme)) && storedTheme == Some(theme)
      ensures documentTheme == Resolve(theme, prefersDark)
      ensures togglePressed == Pressed(documentTheme)
    {
      var idx := IndexOf(Order, theme);
      theme := Order[(idx + 1) % |Order|];
      storedTheme := Some(theme);
      ApplyTheme(prefersDark);
    }

    /** `syncFavoriteButtons()`: every button on the page shows its card's membership. */
    method SyncFavoriteButtons()
      modifies this`buttons
      ensures SyncedFrom(old(buttons), grid, favorites, buttons)
    {
      var i := 0;
      while i < |grid|
        invariant 0 <= i <= |grid|
        invariant SyncedFrom(old(buttons), grid[..i], favorites, buttons)
      {
        var id := grid[i].id;
        IdsSnoc(grid, i);
        buttons := buttons[id := ButtonFor(id in favorites)];
        i := i + 1;
      }
      assert grid[..i] == grid;
    }

    /** A click on a card's favorite button: toggle its id, persist the list, resync the buttons. */
    method ClickFavorite(id: string)
      requires Valid()
      modifies this`favorites, this`storedFavorites, this`buttons
      ensures Valid()
      ensures favorites == Toggle(old(favorites), id)
      ensures storedFavorites == Some(favorites)
      ensures SyncedFrom(old(buttons), grid, favorites, buttons)
    {
      ToggleNoDup(favorites, id);
      if id in favorites {
        favorites := Remove(favorites, id);
      } else {
        favorites := favorites + [id];
      }
      storedFavorites := Some(favorites);
      SyncFavoriteButtons();
    }

    /** `render(sortOnly)`: filter, sort in place, refill the grid, set the empty-state notice. */
    method Render(sortOnly: bool)
      modifies this`grid, this`emptyHidden, this`buttons
      ensures grid == Rendered(cards, query, category, sort)
      ensures emptyHidden == (|grid| > 0)
      ensures sortOnly ==> buttons == old(buttons)
      ensures !sortOnly ==> SyncedFrom(old(buttons), grid, favorites, buttons)
    {
      var items := cards;
      if query != "" {
        items := ByQuery(items, query);
      }
      if category != AllCategories {
        items := ByCategory(items, category);
      }
      var a := new Card[|items|](i requires 0 <= i < |items| => items[i]);
      assert a[..] == items;
      SortInPlace(a, KeyOf(sort));
      grid := a[..];
      emptyHidden := |grid| > 0;
      if !sortOnly {
        SyncFavoriteButtons();
      }
    }

    /** The search box's input handler: store the trimmed, lower-cased value and render. */
    method InputSearch(value: string)
      modifies this`query, this`grid, this`emptyHidden, this`buttons
      ensures query == Lower(Trim(value))
      ensures grid == Rendered(cards, query, category, sort)
      ensures emptyHidden == (|grid| > 0)
      ensures SyncedFrom(old(buttons), grid, favorites, buttons)
    {
      query := Lower(Trim(value));
      Render(false);
    }

    /** A category chip's click handler: select its `data-filter` and render. */
    method ClickChip(filter: string)
      modifies this`category, this`grid, this`emptyHidden, this`buttons
      ensures category == filter
      ensures grid == Rendered(cards, query, category, sort)
      ensures emptyHidden == (|grid| > 0)
      ensures SyncedFrom(old(buttons), grid, favorites, buttons)
    {
      category := filter;
      Render(false);
    }

    /** The sort select's change handler: store the value and re-render without resyncing buttons. */
    method ChangeSort(value: string)
      modifies this`sort, this`grid, this`emptyHidden, this`buttons
      ensures sort == value
      ensures grid == Rendered(cards, query, category, sort)
      ensures emptyHidden == (|grid| > 0)
      ensures buttons == old(buttons)
    {
      sort := value;
      Render(true);
    }
  }
}
