/**
 * The page's light/dark flag and its persistence under one key of the browser's
 * key-value store. The store is modelled as a map from keys to strings.
 */
module Theme {
  import opened Wrappers

  const ThemeKey := "words-theme"
  const DarkMarker := "dark"
  const LightMarker := "light"

  /** `localStorage.getItem(key)`: the stored string, or `null` when the key is absent. */
  function GetItem(storage: map<string, string>, key: string): (v: Option<string>)
    ensures v.Some? <==> key in storage
    ensures v.Some? ==> storage[key] == v.value
  {
    if key in storage then Some(storage[key]) else None
  }

  /** The marker written for a flag: `newTheme ? 'dark' : 'light'`. */
  function Marker(isDark: bool): (m: string)
    ensures m == DarkMarker || m == LightMarker
    ensures m == LightMarker <==> !isDark
  {
    if isDark then DarkMarker else LightMarker
  }

  /**
   * The mount effect's restore rule: the flag becomes light only when the stored
   * value is exactly `'light'`; otherwise it keeps its current value.
   */
  function Restore(saved: Option<string>, isDark: bool): (r: bool)
    ensures !r <==> !isDark || saved == Some(LightMarker)
  {
    if saved == Some(LightMarker) then false else isDark
  }

  /** The flag a fresh page shows: light only for the exact marker, dark for a missing key or any other value. */
  lemma FreshPageTheme(saved: Option<string>)
    ensures Restore(saved, true) == (saved != Some(LightMarker))
    ensures Restore(None, true)
    ensures forall v :: v != LightMarker ==> Restore(Some(v), true)
  {
  }

  /** The flag and the store, as far as the theme is concerned. */
  datatype ThemeState = ThemeState(isDark: bool, storage: map<string, string>)

  /** The stored marker agrees with the flag. */
  predicate Persisted(t: ThemeState)
  {
    GetItem(t.storage, ThemeKey) == Some(Marker(t.isDark))
  }

  /** `toggleTheme`: negate the flag and store the marker of the new flag under the theme key. */
  function Toggle(t: ThemeState): (u: ThemeState)
    ensures u.isDark == !t.isDark
    ensures Persisted(u)
    ensures u.storage.Keys == t.storage.Keys + {ThemeKey}
    ensures forall k :: k in t.storage && k != ThemeKey ==> u.storage[k] == t.storage[k]
  {
    var newTheme := !t.isDark;
    ThemeState(newTheme, t.storage[ThemeKey := Marker(newTheme)])
  }

  /** Reloading the page after a toggle restores the flag that was toggled to. */
  lemma ToggleSurvivesReload(t: ThemeState)
    ensures Restore(GetItem(Toggle(t).storage, ThemeKey), true) == Toggle(t).isDark
  {
  }

  /**
   * Two toggles give back the flag and leave the marker of that flag stored;
   * when the marker already agreed with the flag, the whole state is back as it was.
   */
  lemma ToggleTwice(t: ThemeState)
    ensures Toggle(Toggle(t)).isDark == t.isDark
    ensures Persisted(Toggle(Toggle(t)))
    ensures Persisted(t) ==> Toggle(Toggle(t)) == t
  {
    var u := Toggle(Toggle(t));
    if Persisted(t) {
      assert u.storage == t.storage;
    }
  }
}
