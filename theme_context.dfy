/** The light/dark theme (client/src/context/ThemeContext.tsx): the provider reads the mode
    stored under "themeMode", persists the mode whenever it changes, and flips it on toggle.
    The stored value is read with a type cast only, so the mode is any string here; the
    browser's localStorage is a map that the provider owns. */
module ThemeContext {
  import opened Wrappers

  const StorageKey := "themeMode"
  const Light := "light"
  const Dark := "dark"
  const OutsideProvider := "useThemeContext must be used inside ThemeProvider"

  /** `storedMode || 'light'`: a stored non-empty mode is used as it is, anything else gives
      light. */
  function InitialMode(stored: Option<string>): (mode: string)
    ensures mode != ""
    ensures stored.Some? && stored.value != "" ==> mode == stored.value
    ensures stored.None? || stored.value == "" ==> mode == Light
  {
    if stored.Some? && stored.value != "" then stored.value else Light
  }

  /** The updater of `toggleTheme`: light becomes dark, and every other mode becomes light. */
  function Toggled(prev: string): (next: string)
    ensures next == Light || next == Dark
    ensures next == Dark <==> prev == Light
  {
    if prev == Light then Dark else Light
  }

  /** Toggling twice restores exactly the two proper modes; any other stored value ends as dark. */
  lemma ToggleTwice(prev: string)
    ensures Toggled(Toggled(prev)) == prev <==> prev == Light || prev == Dark
    ensures prev != Light && prev != Dark ==> Toggled(Toggled(prev)) == Dark
  {
  }

  /** The value the provider hands down. The toggle function itself is the provider's method. */
  datatype ThemeContextValue = ThemeContextValue(mode: string)

  /** `useThemeContext`: the context if a provider supplies one, otherwise an error. */
  function UseThemeContext(context: Option<ThemeContextValue>): (r: Result<ThemeContextValue, string>)
    ensures r.Success? <==> context.Some?
    ensures r.Success? ==> r.value == context.value
    ensures r.Failure? ==> r.error == OutsideProvider
  {
    if context.None? then Failure(OutsideProvider) else Success(context.value)
  }

  /** What a provider mounted on `storage` reads back as its initial mode. */
  function StoredMode(storage: map<string, string>): Option<string>
  {
    if StorageKey in storage then Some(storage[StorageKey]) else None
  }

  class ThemeProvider {
    var mode: string
    var storage: map<string, string>

    /** The effect on `[mode]` has run: the current mode is stored, and a provider mounted again
        on this storage starts in the same mode. */
    ghost predicate Valid()
      reads this
    {
      StoredMode(storage) == Some(mode) && InitialMode(StoredMode(storage)) == mode
    }

    /** Mounting: the mode is read from storage, then the effect writes it back. */
    constructor (storage: map<string, string>)
      ensures Valid()
      ensures mode == InitialMode(StoredMode(storage))
      ensures this.storage == storage[StorageKey := mode]
    {
      var initial := InitialMode(StoredMode(storage));
      mode := initial;
      this.storage := storage[StorageKey := initial];
    }

    /** `toggleTheme`: the mode flips and the new mode is stored; no other key changes. */
    method ToggleTheme()
      requires Valid()
      modifies this
      ensures Valid()
      ensures mode == Toggled(old(mode))
      ensures storage == old(storage)[StorageKey := mode]
    {
      var newMode := Toggled(mode);
      storage := storage[StorageKey := newMode];
      mode := newMode;
    }

    /** The value the provider hands to its children: the mode a child reads is the one stored,
        so a provider mounted again on this storage starts in it. */
    function Context(): (context: ThemeContextValue)
      reads this
      ensures Valid() ==> StoredMode(storage) == Some(context.mode)
      ensures Valid() ==> InitialMode(StoredMode(storage)) == context.mode
    {
      ThemeContextValue(mode)
    }
  }
}
