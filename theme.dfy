/**
 * The theme toggle: the stored preference cycles auto, dark, light, and is resolved
 * against the system's dark-mode preference into the document's `data-theme`.
 */
module Theme {
  import opened Wrappers

  /** The cycle order of the toggle. */
  const Order: seq<string> := ["auto", "dark", "light"]

  /** `Array.prototype.indexOf`: the first index of `t` in `xs`, or -1 when it is absent. */
  function IndexOf(xs: seq<string>, t: string): (r: int)
    ensures -1 <= r < |xs|
    ensures r == -1 <==> t !in xs
    ensures r >= 0 ==> xs[r] == t && t !in xs[..r]
  {
    if xs == [] then -1
    else if xs[0] == t then 0
    else
      var k := IndexOf(xs[1..], t);
      assert xs[1..] == xs[..|xs|][1..];
      if k < 0 then -1
      else
        assert xs[..k + 1] == [xs[0]] + xs[1..][..k];
        k + 1
  }

  /** The click handler's step: the entry after the current theme's index, wrapping around. */
  function Advance(theme: string): (next: string)
    ensures next in Order
  {
    Order[(IndexOf(Order, theme) + 1) % |Order|]
  }

  /** The three recognised states advance auto to dark, dark to light, light to auto. */
  lemma AdvanceCycle()
    ensures Advance("auto") == "dark" && Advance("dark") == "light" && Advance("light") == "auto"
  {
    assert IndexOf(Order, "auto") == 0;
    assert IndexOf(Order, "dark") == 1;
    assert IndexOf(Order, "light") == 2;
  }

  /** A stored value outside the cycle is not found by `indexOf` (-1), so it advances to "auto". */
  lemma AdvanceUnknown(theme: string)
    requires theme !in Order
    ensures Advance(theme) == "auto"
  {
  }

  /** Three clicks bring a recognised theme back to where it started. */
  lemma AdvancePeriod3(theme: string)
    requires theme in Order
    ensures Advance(Advance(Advance(theme))) == theme
  {
    AdvanceCycle();
  }

  /** Clicks never stop in a state: one or two clicks from a recognised theme always change it. */
  lemma AdvanceMoves(theme: string)
    requires theme in Order
    ensures Advance(theme) != theme && Advance(Advance(theme)) != theme
  {
    AdvanceCycle();
  }

  /** The start-up theme: a missing or empty stored value means "auto". */
  function InitialTheme(stored: Option<string>): (theme: string)
    ensures theme != ""
    ensures stored.Some? && stored.value != "" ==> theme == stored.value
    ensures stored.None? || stored.value == "" ==> theme == "auto"
  {
    match stored
    case Some(t) => if t != "" then t else "auto"
    case None => "auto"
  }

  /** A theme the toggle persisted is the one the next page load starts with. */
  lemma InitialThemeRestores(theme: string)
    requires theme in Order
    ensures InitialTheme(Some(Advance(theme))) == Advance(theme)
    ensures InitialTheme(Some(theme)) == theme
  {
  }

  /** The mode `applyTheme` writes to `data-theme`: the system preference for "auto", the stored theme otherwise. */
  function Resolve(theme: string, prefersDark: bool): (mode: string)
    ensures mode != "auto"
    ensures theme != "auto" ==> mode == theme
    ensures theme == "auto" ==> (mode == "dark" <==> prefersDark) && (mode == "light" <==> !prefersDark)
    ensures theme in Order ==> mode == "dark" || mode == "light"
  {
    if theme == "auto" then (if prefersDark then "dark" else "light") else theme
  }

  /** A resolved mode is already concrete: resolving it again, under any system preference, keeps it. */
  lemma ResolveFixed(theme: string, prefersDark: bool, laterPrefersDark: bool)
    ensures Resolve(Resolve(theme, prefersDark), laterPrefersDark) == Resolve(theme, prefersDark)
  {
  }

  /** The toggle's `aria-pressed`: set exactly for the dark mode. */
  predicate Pressed(mode: string)
  {
    mode == "dark"
  }

  /** The toggle shows pressed exactly for an explicit dark theme, or for "auto" on a dark system. */
  lemma PressedIff(theme: string, prefersDark: bool)
    ensures Pressed(Resolve(theme, prefersDark)) <==> theme == "dark" || (theme == "auto" && prefersDark)
  {
  }
}
