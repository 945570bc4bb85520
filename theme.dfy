/** The dark-mode flag kept in the page's session state and flipped by the checkbox. */
module Theme {
  import opened Wrappers

  /** The part of `st.session_state` the page uses: the `dark_mode` entry, None while absent. */
  class SessionState {
    var darkMode: Option<bool>

    /** A new session holds no `dark_mode` entry yet. */
    constructor ()
      ensures darkMode == None
    {
      darkMode := None;
    }

    /** `if 'dark_mode' not in st.session_state: st.session_state.dark_mode = False`. */
    method InitDarkMode()
      modifies this
      ensures old(darkMode).None? ==> darkMode == Some(false)
      ensures old(darkMode).Some? ==> darkMode == old(darkMode)
    {
      if darkMode.None? {
        darkMode := Some(false);
      }
    }

    /** `toggle_theme`: negates the flag; the entry must exist, as the page sets it up first. */
    method ToggleTheme()
      requires darkMode.Some?
      modifies this
      ensures darkMode == Some(!old(darkMode.value))
    {
      darkMode := Some(!darkMode.value);
    }
  }

  /** Toggling twice restores the flag. */
  method ToggleTwice(s: SessionState)
    requires s.darkMode.Some?
    modifies s
    ensures s.darkMode == old(s.darkMode)
  {
    s.ToggleTheme();
    s.ToggleTheme();
  }

  /** A fresh session, initialised as the page does at start-up, is in light mode; one toggle makes it dark. */
  method StartAndToggle() returns (before: bool, after: bool)
    ensures !before && after
  {
    var s := new SessionState();
    s.InitDarkMode();
    before := s.darkMode.value;
    s.ToggleTheme();
    after := s.darkMode.value;
  }
}
