/** The light/dark theme rules of script.js: which theme a toggle picks,
    which icon the toggle button shows, and which theme the page starts in. */
module Theme {
  import opened Wrappers

  /** The key under which the preference is persisted in local storage. */
  const StorageKey := "theme"

  /** JavaScript truthiness of a string that may be missing: both a missing
      value (null) and the empty string are falsy, so `x || y` falls back to y. */
  predicate Truthy(v: Option<string>)
  {
    v.Some? && v.value != ""
  }

  /** `localStorage.getItem('theme')`: the stored value, or null. */
  function StoredTheme(storage: map<string, string>): Option<string>
  {
    if StorageKey in storage then Some(storage[StorageKey]) else None
  }

  /** Icon text of the toggle button: the icon of the theme one would switch to. */
  function IconFor(theme: string): string
  {
    if theme == "dark" then "light_mode" else "dark_mode"
  }

  /** The theme `toggleTheme` applies, given the current `data-theme`
      attribute: a missing or empty attribute reads as 'light'; 'light' turns
      into 'dark' and anything else into 'light'. */
  function Toggled(current: Option<string>): (next: string)
    ensures next == "dark" <==> !Truthy(current) || current.value == "light"
    ensures next == "light" <==> Truthy(current) && current.value != "light"
  {
    var shown := if Truthy(current) then current.value else "light";
    if shown == "light" then "dark" else "light"
  }

  /** The theme chosen when the script loads: the stored preference when it
      is truthy, otherwise the operating system's dark-mode flag. */
  function InitialTheme(saved: Option<string>, osPrefersDark: bool): (theme: string)
    ensures theme != ""
    ensures Truthy(saved) ==> theme == saved.value
    ensures !Truthy(saved) ==> (theme == "dark" <==> osPrefersDark)
    ensures !Truthy(saved) ==> (theme == "light" <==> !osPrefersDark)
  {
    if Truthy(saved) then saved.value
    else if osPrefersDark then "dark" else "light"
  }

  /** Toggling twice from 'light' or 'dark' gives back both the attribute and
      the persisted map it started from, when the two agreed. */
  lemma ToggleTwiceRestores(theme: string, storage: map<string, string>)
    requires theme == "light" || theme == "dark"
    requires StoredTheme(storage) == Some(theme)
    ensures Toggled(Some(Toggled(Some(theme)))) == theme
    ensures storage[StorageKey := Toggled(Some(theme))][StorageKey := Toggled(Some(Toggled(Some(theme))))] == storage
  {
  }

  /** Once the initial theme has been persisted, the next page load starts in
      the same theme whatever the operating system then prefers. */
  lemma InitialThemeSurvivesReload(saved: Option<string>, osPrefersDark: bool, osPrefersDarkLater: bool)
    ensures InitialTheme(Some(InitialTheme(saved, osPrefersDark)), osPrefersDarkLater) == InitialTheme(saved, osPrefersDark)
  {
  }
}
