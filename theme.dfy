/**
 * The appearance provider: the `isDark` flag, its persistence under the
 * `theme` key as the strings "dark" and "light", and the guard that the
 * context is only read inside the provider.
 */
module ThemeContext {
  import opened Wrappers
  import opened Storage

  /** The colours of one appearance. */
  datatype Palette = Palette(
    background: string, card: string, text: string, textSecondary: string, textTertiary: string,
    primary: string, danger: string, success: string, border: string, shadow: string)

  const LightTheme := Palette("#f8f9fa", "#ffffff", "#2c3e50", "#7f8c8d", "#95a5a6",
                              "#3498db", "#e74c3c", "#27AE60", "#e0e0e0", "rgba(0,0,0,0.1)")

  const DarkTheme := Palette("#1a1a2e", "#16213e", "#eaeaea", "#a0a0a0", "#7f8c8d",
                             "#3498db", "#e74c3c", "#27AE60", "#2d2d44", "rgba(0,0,0,0.3)")

  /** The string stored for a flag value. */
  function ThemeName(isDark: bool): (name: string)
    ensures name == "dark" || name == "light"
    ensures name == "dark" <==> isDark
  {
    if isDark then "dark" else "light"
  }

  /** The active theme: the dark palette exactly when `isDark`. */
  function ActiveTheme(isDark: bool): (p: Palette)
    ensures p == DarkTheme <==> isDark
    ensures p == LightTheme <==> !isDark
  {
    if isDark then DarkTheme else LightTheme
  }

  /**
   * The flag after `loadTheme`: `saved === 'dark'` when a value is stored;
   * unchanged when nothing is stored or the read throws.
   */
  function LoadedIsDark(cells: map<Key, Payload>, readFails: bool, current: bool): (r: bool)
    ensures readFails || ThemeKey !in cells ==> r == current
    ensures !readFails && ThemeKey in cells ==> (r <==> cells[ThemeKey] == TextPayload("dark"))
  {
    match LookupIn(cells, ThemeKey, readFails)
    case Found(p) => p == TextPayload("dark")
    case _ => current
  }

  /** A stored name reads back as the flag it was written for. */
  lemma ThemeNameRoundTrip(cells: map<Key, Payload>, isDark: bool, current: bool)
    ensures LoadedIsDark(Stored(cells, ThemeKey, TextPayload(ThemeName(isDark)), false), false, current) == isDark
  {
  }

  /** What `ThemeContext.Provider` hands to its children. */
  datatype ContextValue = ContextValue(theme: Palette, isDark: bool)

  /** `useTheme`: the context inside a provider; an error outside one. */
  function UseTheme(context: Option<ContextValue>): (r: Result<ContextValue, string>)
    ensures r.Failure? <==> context.None?
    ensures r.Success? ==> r.value == context.value
    ensures r.Failure? ==> r.error == "useTheme must be used within a ThemeProvider"
  {
    match context
    case None => Failure("useTheme must be used within a ThemeProvider")
    case Some(c) => Success(c)
  }

  class ThemeProvider {
    const store: Store
    var isDark: bool

    /** Starts light; the mount effect then runs `LoadTheme`. */
    constructor (store: Store)
      ensures this.store == store && !isDark
      ensures Value() == ContextValue(LightTheme, false)
    {
      this.store := store;
      isDark := false;
    }

    /** The value the provider passes down. */
    function Value(): (v: ContextValue)
      reads this
      ensures v.isDark == isDark && (v.theme == DarkTheme <==> isDark)
    {
      ContextValue(ActiveTheme(isDark), isDark)
    }

    /** `loadTheme`. */
    method LoadTheme(readFails: bool)
      modifies this
      ensures isDark == LoadedIsDark(store.cells, readFails, old(isDark))
      ensures readFails || ThemeKey !in store.cells ==> isDark == old(isDark)
      ensures !readFails && ThemeKey in store.cells ==> (isDark <==> store.cells[ThemeKey] == TextPayload("dark"))
    {
      var saved := store.GetItem(ThemeKey, readFails);
      if saved.Found? {
        isDark := saved.payload == TextPayload("dark");
      }
    }

    /** `toggleTheme`: flips the flag, then stores its name; a failed write keeps the flip. */
    method ToggleTheme(writeFails: bool)
      modifies this, store
      ensures isDark == !old(isDark)
      ensures store.cells == Stored(old(store.cells), ThemeKey, TextPayload(ThemeName(isDark)), writeFails)
    {
      var newTheme := !isDark;
      isDark := newTheme;
      var _ := store.SetItem(ThemeKey, TextPayload(ThemeName(newTheme)), writeFails);
    }
  }

  /**
   * Toggling twice restores the flag and leaves its own name stored, so a
   * later `loadTheme` yields the same flag.
   */
  method ToggleTwice(provider: ThemeProvider) returns (reloaded: bool)
    modifies provider, provider.store
    ensures provider.isDark == old(provider.isDark)
    ensures ThemeKey in provider.store.cells && provider.store.cells[ThemeKey] == TextPayload(ThemeName(provider.isDark))
    ensures reloaded == provider.isDark
  {
    provider.ToggleTheme(false);
    provider.ToggleTheme(false);
    provider.LoadTheme(false);
    reloaded := provider.isDark;
  }
}
