/** The light/dark theme controller: the body's `theme-dark` class is the
    displayed theme, and the `sa-theme` storage key remembers the last theme
    applied. */
module Theme {
  import opened Wrappers
  import opened Storage

  const THEME_KEY := "sa-theme"
  const DARK_CLASS := "theme-dark"

  datatype Theme = Light | Dark {
    /** The string written to storage for this theme. */
    function Name(): string {
      match this
      case Light => "light"
      case Dark => "dark"
    }

    function Flip(): Theme {
      match this
      case Light => Dark
      case Dark => Light
    }
  }

  /** The body's class list and the page's storage. */
  datatype ThemeState = ThemeState(bodyClasses: set<string>, store: Store)
  {
    /** What the user sees: dark exactly when the body carries the class. */
    function Displayed(): Theme {
      if DARK_CLASS in bodyClasses then Dark else Light
    }
  }

  /** `applyTheme(theme)`: the class is present iff `theme` is "dark", the
      theme string is persisted as given, and nothing else changes. */
  function ApplyTheme(s: ThemeState, theme: string): (r: ThemeState)
    ensures DARK_CLASS in r.bodyClasses <==> theme == "dark"
    ensures r.bodyClasses - {DARK_CLASS} == s.bodyClasses - {DARK_CLASS}
    ensures Get(r.store, THEME_KEY) == Some(theme)
    ensures forall k :: k != THEME_KEY ==> Get(r.store, k) == Get(s.store, k)
  {
    var classes := if theme == "dark" then s.bodyClasses + {DARK_CLASS} else s.bodyClasses - {DARK_CLASS};
    ThemeState(classes, Set(s.store, THEME_KEY, theme))
  }

  /** Any string other than "dark", stored garbage included, displays light. */
  lemma ApplyOtherIsLight(s: ThemeState, theme: string)
    requires theme != "dark"
    ensures ApplyTheme(s, theme).Displayed() == Light
  {
  }

  /** Applying a theme names it faithfully: the display is the theme applied. */
  lemma ApplyNamedTheme(s: ThemeState, t: Theme)
    ensures ApplyTheme(s, t.Name()).Displayed() == t
  {
  }

  /** Applying the same theme a second time changes nothing. */
  lemma ApplyIdempotent(s: ThemeState, theme: string)
    ensures ApplyTheme(ApplyTheme(s, theme), theme) == ApplyTheme(s, theme)
  {
  }

  /** `initTheme`: a non-empty stored theme is applied as it is; otherwise the
      system preference picks dark or light. */
  function InitTheme(s: ThemeState, prefersDark: bool): (r: ThemeState)
    ensures Truthy(Get(s.store, THEME_KEY)) ==> Get(r.store, THEME_KEY) == Get(s.store, THEME_KEY)
    ensures Truthy(Get(s.store, THEME_KEY)) ==> (r.Displayed() == Dark <==> s.store[THEME_KEY] == "dark")
    ensures !Truthy(Get(s.store, THEME_KEY)) ==> r.Displayed() == (if prefersDark then Dark else Light)
    ensures !Truthy(Get(s.store, THEME_KEY)) ==> Get(r.store, THEME_KEY) == Some(r.Displayed().Name())
    ensures r.bodyClasses - {DARK_CLASS} == s.bodyClasses - {DARK_CLASS}
    ensures forall k :: k != THEME_KEY ==> Get(r.store, k) == Get(s.store, k)
  {
    match Get(s.store, THEME_KEY)
    case Some(stored) =>
      if stored != "" then ApplyTheme(s, stored)
      else ApplyTheme(s, if prefersDark then "dark" else "light")
    case None =>
      ApplyTheme(s, if prefersDark then "dark" else "light")
  }

  /** At startup without a usable stored value the display follows the
      system preference. */
  lemma InitFollowsPreference(s: ThemeState, prefersDark: bool)
    requires !Truthy(Get(s.store, THEME_KEY))
    ensures InitTheme(s, prefersDark).Displayed() == (if prefersDark then Dark else Light)
    ensures Get(InitTheme(s, prefersDark).store, THEME_KEY) == Some(if prefersDark then "dark" else "light")
  {
  }

  /** The theme a click of the toggle applies: light when the body is dark,
      dark otherwise. */
  function NextTheme(s: ThemeState): (t: Theme)
    ensures t == s.Displayed().Flip()
  {
    if DARK_CLASS in s.bodyClasses then Light else Dark
  }

  /** A click of a toggle button. */
  function Toggle(s: ThemeState): (r: ThemeState)
    ensures r.Displayed() == s.Displayed().Flip()
    ensures r.bodyClasses - {DARK_CLASS} == s.bodyClasses - {DARK_CLASS}
    ensures Get(r.store, THEME_KEY) == Some(r.Displayed().Name())
    ensures forall k :: k != THEME_KEY ==> Get(r.store, k) == Get(s.store, k)
  {
    ApplyTheme(s, NextTheme(s).Name())
  }

  /** After any click the stored theme is "light" or "dark" and agrees with
      the display, whatever startup stored before. */
  lemma ToggleStoresValidTheme(s: ThemeState)
    ensures Get(Toggle(s).store, THEME_KEY) in {Some("light"), Some("dark")}
    ensures Toggle(s).store[THEME_KEY] == "dark" <==> DARK_CLASS in Toggle(s).bodyClasses
  {
  }

  /** Two clicks restore the original body classes. */
  lemma ToggleTwiceRestoresClasses(s: ThemeState)
    ensures Toggle(Toggle(s)).bodyClasses == s.bodyClasses
  {
  }
}
