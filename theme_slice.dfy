/** `src/store/themeSlice.store.js`: dark mode, chosen by hand or taken from
    the system. The system preference (`prefers-color-scheme: dark`) is a parameter. */
module ThemeSlice {

  /** The theme slice of the store. */
  class ThemeStore {
    var darkMode: bool
    var useSystemTheme: bool

    constructor()
      ensures !darkMode && useSystemTheme
    {
      darkMode := false;
      useSystemTheme := true;
    }

    /** `setDarkMode`: a manual choice, which stops following the system.
        The new state depends on the argument only, so repeating the call changes nothing. */
    method SetDarkMode(dark: bool)
      modifies this
      ensures darkMode == dark && !useSystemTheme
    {
      darkMode := dark;
      useSystemTheme := false;
    }

    /** `setUseSystemTheme`: follow the system again, starting from its current preference.
        The new state depends on the preference only, so repeating the call changes nothing. */
    method SetUseSystemTheme(systemPrefersDark: bool)
      modifies this
      ensures useSystemTheme && darkMode == systemPrefersDark
    {
      useSystemTheme := true;
      darkMode := systemPrefersDark;
    }
  }
}
