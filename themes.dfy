/** Theme resolution (`useTheme`): the stored preference, dark mode, and write-back. */
module Themes {
  import opened Types

  datatype Theme = Light | Dark | System

  /** The storage key the theme is kept under. */
  const ThemeKey := "theme"

  function ThemeName(t: Theme): string
  {
    match t
    case Light => "light"
    case Dark => "dark"
    case System => "system"
  }

  predicate IsThemeName(s: string)
  {
    s == "light" || s == "dark" || s == "system"
  }

  /**
   * The initial theme: the stored value when storage can be read and holds
   * one of the three names, `System` otherwise.
   */
  function InitialTheme(hasStorage: bool, stored: Option<string>): Theme
  {
    if hasStorage && stored.Some? && stored.value != "" && IsThemeName(stored.value) then
      if stored.value == "light" then Light
      else if stored.value == "dark" then Dark
      else System
    else System
  }

  /** A stored theme name becomes the initial theme. */
  lemma StoredNameRestored(t: Theme)
    ensures InitialTheme(true, Some(ThemeName(t))) == t
  {
  }

  /** Missing storage, a missing value or any other string falls back to `System`. */
  lemma OtherValuesFallBack(hasStorage: bool, stored: Option<string>)
    requires !hasStorage || stored == None || !IsThemeName(stored.value)
    ensures InitialTheme(hasStorage, stored) == System
  {
  }

  /** The initial theme is a given theme exactly when that theme's name was read, or by fallback. */
  lemma InitialThemeExactly(hasStorage: bool, stored: Option<string>, t: Theme)
    ensures InitialTheme(hasStorage, stored) == t <==>
            (hasStorage && stored == Some(ThemeName(t))) ||
            (t == System && !(hasStorage && stored.Some? && IsThemeName(stored.value)))
  {
  }

  /** Whether the page is drawn dark. */
  function IsDark(theme: Theme, prefersDark: bool): bool
  {
    theme == Dark || (theme == System && prefersDark)
  }

  lemma DarkIsDark(prefersDark: bool)
    ensures IsDark(Dark, prefersDark)
  {
  }

  lemma LightIsLight(prefersDark: bool)
    ensures !IsDark(Light, prefersDark)
  {
  }

  lemma SystemFollowsPreference(prefersDark: bool)
    ensures IsDark(System, prefersDark) == prefersDark
  {
  }

  function Lookup(storage: map<string, string>, key: string): Option<string>
  {
    if key in storage then Some(storage[key]) else None
  }

  /** The parts of the browser the theme touches: local storage and the root's `dark` class. */
  class Browser {
    var storage: map<string, string>
    var darkClass: bool

    constructor (storage: map<string, string>)
      ensures this.storage == storage && !darkClass
    {
      this.storage := storage;
      darkClass := false;
    }
  }

  /**
   * The effect run after every theme change: toggles the `dark` class and
   * writes the theme back, so the next start reads the same theme.
   */
  method ApplyTheme(browser: Browser, theme: Theme, prefersDark: bool)
    modifies browser
    ensures browser.darkClass == IsDark(theme, prefersDark)
    ensures browser.storage == old(browser.storage)[ThemeKey := ThemeName(theme)]
    ensures InitialTheme(true, Lookup(browser.storage, ThemeKey)) == theme
  {
    browser.darkClass := IsDark(theme, prefersDark);
    browser.storage := browser.storage[ThemeKey := ThemeName(theme)];
    StoredNameRestored(theme);
  }

  /** The hook's state: the current theme, kept in step with the browser. */
  class ThemeState {
    var theme: Theme

    /**
     * Mounting: read the stored preference (when storage is available), then
     * run the effect once.
     */
    constructor (browser: Browser, hasStorage: bool, prefersDark: bool)
      modifies browser
      ensures theme == InitialTheme(hasStorage, Lookup(old(browser.storage), ThemeKey))
      ensures browser.darkClass == IsDark(theme, prefersDark)
      ensures browser.storage == old(browser.storage)[ThemeKey := ThemeName(theme)]
    {
      theme := InitialTheme(hasStorage, Lookup(browser.storage, ThemeKey));
      new;
      ApplyTheme(browser, theme, prefersDark);
    }

    /**
     * `setTheme` followed by the effect. Setting the theme it already has is
     * no state change, so the effect (keyed on the theme) does not run: the
     * `dark` class and storage stay as they were.
     */
    method SetTheme(t: Theme, browser: Browser, prefersDark: bool)
      modifies this, browser
      ensures theme == t
      ensures t != old(theme) ==> browser.darkClass == IsDark(t, prefersDark)
      ensures t != old(theme) ==> browser.storage == old(browser.storage)[ThemeKey := ThemeName(t)]
      ensures t != old(theme) ==> InitialTheme(true, Lookup(browser.storage, ThemeKey)) == t
      ensures t == old(theme) ==> browser.darkClass == old(browser.darkClass) && browser.storage == old(browser.storage)
    {
      if t != theme {
        theme := t;
        ApplyTheme(browser, t, prefersDark);
      }
    }
  }
}
