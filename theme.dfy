/** The colour scheme chosen at start-up from the stored theme (App.tsx,
    `RootStack`), and the stored-theme read it relies on (src/Storage.ts). */
module Theme {
  import opened Wrappers

  const Light := "light"
  const Dark := "dark"
  const System := "system"

  const DarkBackground := "#121212"
  const LightBackground := "#ffffff"

  /** `isValidTheme`: membership in the three scheme names. */
  predicate IsValidTheme(s: string) {
    s in [Light, Dark, System]
  }

  lemma ValidThemes(s: string)
    ensures IsValidTheme(s) <==> s == "light" || s == "dark" || s == "system"
  {
  }

  /** A JavaScript `a || b` on strings: the empty string is falsy. */
  function OrElse(a: string, b: string): (r: string)
    ensures a != [] ==> r == a
    ensures a == [] ==> r == b
  {
    if a != [] then a else b
  }

  /** `getTheme`: the `theme` key of the store, `undefined` when absent,
      with `"light"` for an absent or empty value. */
  function GetTheme(stored: Option<string>): (r: string)
    ensures r != []
    ensures stored.Some? && stored.value != [] ==> r == stored.value
    ensures stored.None? || stored.value == [] ==> r == Light
  {
    match stored
    case Some(s) => OrElse(s, Light)
    case None => Light
  }

  /** The scheme handed to `setColorScheme`: the saved theme (again with a
      `"light"` fallback) when it is one of the three names, else `"light"`. */
  function ColorScheme(stored: Option<string>): (r: string)
    ensures IsValidTheme(r)
  {
    var saved := OrElse(GetTheme(stored), Light);
    if IsValidTheme(saved) then saved else Light
  }

  /** A valid stored name is used as it is; anything else (absent, empty or
      unknown) becomes `"light"`. */
  lemma ColorSchemeFallback(stored: Option<string>)
    ensures stored.Some? && IsValidTheme(stored.value) ==> ColorScheme(stored) == stored.value
    ensures stored.None? || !IsValidTheme(stored.value) ==> ColorScheme(stored) == Light
  {
  }

  /** The second `|| 'light'` in App.tsx never changes anything, since
      `getTheme` is never empty. */
  lemma SecondFallbackRedundant(stored: Option<string>)
    ensures OrElse(GetTheme(stored), Light) == GetTheme(stored)
  {
  }

  /** The navigator's background colour. */
  function Background(stored: Option<string>): (r: string)
    ensures r == DarkBackground <==> GetTheme(stored) == Dark
    ensures r == LightBackground <==> GetTheme(stored) != Dark
  {
    if GetTheme(stored) == Dark then DarkBackground else LightBackground
  }

  /** A `"system"` theme gets the light background even when the device
      scheme is dark: the background ignores the colour scheme it set. */
  lemma SystemGetsLightBackground()
    ensures ColorScheme(Some(System)) == System
    ensures Background(Some(System)) == LightBackground
  {
    assert IsValidTheme(System);
  }
}
