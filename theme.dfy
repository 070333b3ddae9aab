/**
 * theme-init.js: the colour theme a page starts with, from the value stored
 * under `junat-theme` (`None` when `localStorage.getItem` returns null) and
 * the `(prefers-color-scheme: light)` media query (`None` when
 * `window.matchMedia` is unavailable). Reading the storage may itself throw
 * (storage blocked); the script then skips everything up to its `catch`.
 */
module Theme {
  import opened Wrappers

  datatype Scheme = Light | Dark

  function Name(t: Scheme): string {
    match t
    case Light => "light"
    case Dark => "dark"
  }

  /** The theme a stored string names; only "light" and "dark" are themes. */
  function Parse(s: string): (t: Option<Scheme>)
    ensures t.Some? <==> s == "light" || s == "dark"
    ensures t.Some? ==> Name(t.value) == s
  {
    if s == "light" then Some(Light) else if s == "dark" then Some(Dark) else None
  }

  /** `Parse` inverts `Name`. */
  lemma ParseName(t: Scheme)
    ensures Parse(Name(t)) == Some(t)
  {
  }

  /** A stored value is used only when it names a theme. */
  predicate IsValidStored(stored: Option<string>) {
    stored.Some? && Parse(stored.value).Some?
  }

  /** `window.matchMedia && window.matchMedia(...).matches`, read as a truth value. */
  function PrefersLight(matchMedia: Option<bool>): (light: bool)
    ensures light <==> matchMedia == Some(true)
  {
    match matchMedia
    case None => false
    case Some(matches) => matches
  }

  /** The theme written to `data-theme` of the document element. */
  function InitialTheme(stored: Option<string>, matchMedia: Option<bool>): (theme: string)
    ensures theme == "light" || theme == "dark"
    ensures IsValidStored(stored) ==> theme == stored.value
    ensures !IsValidStored(stored) ==> (theme == "light" <==> matchMedia == Some(true))
    ensures !IsValidStored(stored) && matchMedia.None? ==> theme == "dark"
  {
    if stored == Some("light") || stored == Some("dark") then stored.value
    else if PrefersLight(matchMedia) then "light"
    else "dark"
  }

  /** Storing the chosen theme and starting again yields it, whatever the media query says then. */
  lemma InitialThemeStable(stored: Option<string>, matchMedia: Option<bool>, later: Option<bool>)
    ensures InitialTheme(Some(InitialTheme(stored, matchMedia)), later) == InitialTheme(stored, matchMedia)
  {
  }

  /** The `content` of the `theme-color` meta element for a theme. */
  function MetaColor(theme: string): (color: string)
    ensures color == "#f8fafc" || color == "#121826"
    ensures color == "#f8fafc" <==> theme == "light"
  {
    if theme == "light" then "#f8fafc" else "#121826"
  }

  /** `localStorage.getItem` threw, e.g. a SecurityError when storage is blocked. */
  datatype StorageError = StorageError

  /** What the script applies: the `data-theme` value and the meta colour. */
  datatype Applied = Applied(theme: string, metaColor: string)

  /**
   * The whole `try` block: a storage read that throws jumps to the `catch`,
   * so no theme and no meta colour are applied at all; otherwise the chosen
   * theme and its colour are.
   */
  function ThemeInit(read: Result<Option<string>, StorageError>, matchMedia: Option<bool>): (applied: Option<Applied>)
    ensures applied.None? <==> read.Err?
    ensures applied.Some? ==> applied.value.theme == "light" || applied.value.theme == "dark"
    ensures applied.Some? && IsValidStored(read.value) ==> applied.value.theme == read.value.value
    ensures applied.Some? ==> (applied.value.metaColor == "#f8fafc" <==> applied.value.theme == "light")
  {
    match read
    case Err(_) => None
    case Ok(stored) =>
      var theme := InitialTheme(stored, matchMedia);
      Some(Applied(theme, MetaColor(theme)))
  }
}
