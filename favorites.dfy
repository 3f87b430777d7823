/**
 * The favorites set: a JavaScript `Set` of card ids, which iterates in insertion order,
 * persisted as the list of its members in that order.
 */
module Favorites {
  import opened Wrappers

  /** A `Set`'s contents in iteration order: no id twice. */
  ghost predicate NoDup(xs: seq<string>)
  {
    forall i, j :: 0 <= i < j < |xs| ==> xs[i] != xs[j]
  }

  /** `Set.prototype.delete`: the other ids keep their order. */
  function Remove(xs: seq<string>, id: string): (r: seq<string>)
    ensures forall y :: y in r <==> y in xs && y != id
  {
    if xs == [] then []
    else if xs[0] == id then Remove(xs[1..], id)
    else [xs[0]] + Remove(xs[1..], id)
  }

  /** Deleting from a duplicate-free list leaves it duplicate-free. */
  lemma {:induction false} RemoveNoDup(xs: seq<string>, id: string)
    requires NoDup(xs)
    ensures NoDup(Remove(xs, id))
  {
    if xs != [] {
      NoDupTail(xs);
      RemoveNoDup(xs[1..], id);
      if xs[0] != id {
        NoDupCons(xs[0], Remove(xs[1..], id));
      }
    }
  }

  lemma NoDupTail(xs: seq<string>)
    requires xs != [] && NoDup(xs)
    ensures NoDup(xs[1..]) && xs[0] !in xs[1..]
  {
  }

  lemma NoDupCons(x: string, xs: seq<string>)
    requires NoDup(xs) && x !in xs
    ensures NoDup([x] + xs)
  {
    var ys := [x] + xs;
    forall i, j | 0 <= i < j < |ys| ensures ys[i] != ys[j] {
      assert ys[j] == xs[j - 1];
      if i > 0 {
        assert ys[i] == xs[i - 1];
      }
    }
  }

  /** The grid's click handler: delete the id if present, add it (at the end) otherwise. */
  function Toggle(xs: seq<string>, id: string): (r: seq<string>)
    ensures id in r <==> id !in xs
    ensures forall y :: y != id ==> (y in r <==> y in xs)
  {
    if id in xs then Remove(xs, id) else xs + [id]
  }

  /** Toggling keeps the list free of duplicates, so the persisted list holds each member once. */
  lemma ToggleNoDup(xs: seq<string>, id: string)
    requires NoDup(xs)
    ensures NoDup(Toggle(xs, id))
  {
    if id in xs {
      RemoveNoDup(xs, id);
    }
  }

  /** Toggling twice restores the membership of every id. */
  lemma ToggleTwiceMembers(xs: seq<string>, id: string, y: string)
    ensures y in Toggle(Toggle(xs, id), id) <==> y in xs
  {
  }

  /** Adding an absent id and deleting it again gives back the same list, order included. */
  lemma {:induction false} RemoveAppended(xs: seq<string>, id: string)
    requires id !in xs
    ensures Remove(xs + [id], id) == xs
  {
    if xs != [] {
      assert (xs + [id])[1..] == xs[1..] + [id];
      RemoveAppended(xs[1..], id);
    }
  }

  /** For an id that was not a favorite, toggling twice restores the persisted list exactly. */
  lemma ToggleTwiceAbsent(xs: seq<string>, id: string)
    requires id !in xs
    ensures Toggle(Toggle(xs, id), id) == xs
  {
    RemoveAppended(xs, id);
  }

  /** For an id that was a favorite, toggling twice moves it to the end: ["a", "b"] becomes ["b", "a"]. */
  lemma ToggleTwiceReorders()
    ensures Toggle(Toggle(["a", "b"], "a"), "a") == ["b", "a"]
  {
    assert Remove(["a", "b"], "a") == ["b"];
  }

  /** Building a `Set` from a list: adds the ids in order, skipping those already present. */
  function AddAll(acc: seq<string>, xs: seq<string>): (r: seq<string>)
    ensures forall y :: y in r <==> y in acc || y in xs
    ensures NoDup(acc) ==> NoDup(r)
    decreases |xs|
  {
    if xs == [] then acc
    else if xs[0] in acc then AddAll(acc, xs[1..])
    else AddAll(acc + [xs[0]], xs[1..])
  }

  /** The start-up value: a set built from the stored list, or the empty set when nothing is stored. */
  function Load(stored: Option<seq<string>>): (favorites: seq<string>)
    ensures NoDup(favorites)
    ensures stored.None? ==> favorites == []
    ensures stored.Some? ==> forall y :: y in favorites <==> y in stored.value
  {
    AddAll([], if stored.Some? then stored.value else [])
  }

  /** Adding a list with no repeats and nothing in common with `acc` appends it. */
  lemma {:induction false} AddAllFresh(acc: seq<string>, xs: seq<string>)
    requires NoDup(xs)
    requires forall y :: y in xs ==> y !in acc
    ensures AddAll(acc, xs) == acc + xs
    decreases |xs|
  {
    if xs != [] {
      AddAllFresh(acc + [xs[0]], xs[1..]);
      assert acc + [xs[0]] + xs[1..] == acc + xs;
    }
  }

  /** Reloading the persisted list gives back the same favorites in the same order. */
  lemma LoadPersisted(favorites: seq<string>)
    requires NoDup(favorites)
    ensures Load(Some(favorites)) == favorites
  {
    AddAllFresh([], favorites);
  }

  /** The state of one `.favorite` button. */
  datatype FavoriteButton = FavoriteButton(active: bool, icon: string, ariaLabel: string)

  const FilledHeart: string := "❤"
  const EmptyHeart: string := "♡"
  const RemoveLabel: string := "Ta bort favorit"
  const AddLabel: string := "Lägg till som favorit"

  /** `syncFavoriteButtons` for one button: the `is-active` class, the icon and the label agree. */
  function ButtonFor(active: bool): (b: FavoriteButton)
    ensures b.active == active
    ensures b.icon == FilledHeart <==> active
    ensures b.ariaLabel == RemoveLabel <==> active
    ensures b.icon == (if active then FilledHeart else EmptyHeart)
    ensures b.ariaLabel == (if active then RemoveLabel else AddLabel)
  {
    if active then FavoriteButton(true, FilledHeart, RemoveLabel)
    else FavoriteButton(false, EmptyHeart, AddLabel)
  }

  /** A button's look tells membership apart: two membership values never look the same. */
  lemma ButtonDistinguishes(a: bool, b: bool)
    ensures ButtonFor(a) == ButtonFor(b) <==> a == b
  {
    assert ButtonFor(a).active == a;
  }
}
