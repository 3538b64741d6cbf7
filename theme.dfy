/** The light/dark theme: how the initial theme is chosen, what a click on
    the toggle control does, and what the control then shows.

    The page state that matters is the root element's `data-theme`
    attribute, the value persisted under the key "theme" and the toggle
    control's glyph, `aria-label` and `title`. The stored value and the
    system's dark-mode flag are inputs; the written value is part of the
    resulting state. */
module Theme {

  datatype Option<T> = None | Some(value: T)

  const Dark := "dark"
  const Light := "light"

  /** Glyphs and texts of the toggle control. The control names the theme
      a click would switch TO: a sun while the page is dark, a moon otherwise. */
  const Sun := "\U{2600}\U{FE0F}"
  const Moon := "\U{1F319}"
  const ToLightLabel := "Switch to Light Mode"
  const ToDarkLabel := "Switch to Dark Mode"
  const ToLightTitle := "تفعيل الوضع المضيء"
  const ToDarkTitle := "تفعيل الوضع الليلي"

  /** What the toggle control shows: its content, `aria-label` and `title`. */
  datatype ToggleDisplay = ToggleDisplay(glyph: string, ariaLabel: string, title: string)

  /** The page's theme state.
      theme:   the `data-theme` attribute of the root element;
      stored:  the value under the storage key "theme" (None when unset);
      control: the toggle control's display, None when the page has no control. */
  datatype ThemeState = ThemeState(theme: string, stored: Option<string>, control: Option<ToggleDisplay>)

  /** The theme applied at start-up: a stored value wins unless it is absent
      or the empty string (both are falsy for `||`); otherwise the system's
      dark-mode preference decides. */
  function InitialTheme(stored: Option<string>, prefersDark: bool): (t: string)
    ensures stored.Some? && stored.value != "" ==> t == stored.value
    ensures stored.None? || stored.value == "" ==> (t == Dark <==> prefersDark) && (t == Light <==> !prefersDark)
    ensures t != ""
  {
    if stored.Some? && stored.value != "" then stored.value
    else if prefersDark then Dark
    else Light
  }

  /** The display for a given theme. */
  function DisplayFor(theme: string): (d: ToggleDisplay)
    ensures d.glyph == Sun <==> theme == Dark
    ensures d.glyph == Moon <==> theme != Dark
    ensures d.ariaLabel == ToLightLabel <==> theme == Dark
    ensures d.ariaLabel == ToDarkLabel <==> theme != Dark
    ensures d.title == ToLightTitle <==> theme == Dark
    ensures d.title == ToDarkTitle <==> theme != Dark
  {
    if theme == Dark then ToggleDisplay(Sun, ToLightLabel, ToLightTitle)
    else ToggleDisplay(Moon, ToDarkLabel, ToDarkTitle)
  }

  /** `updateThemeIcon`: redraws the control for the given theme; without a
      control there is nothing to redraw. */
  function UpdateThemeIcon(control: Option<ToggleDisplay>, theme: string): (r: Option<ToggleDisplay>)
    ensures control.None? <==> r.None?
    ensures r.Some? ==> r.value.glyph == (if theme == Dark then Sun else Moon)
    ensures r.Some? ==> r.value.ariaLabel == (if theme == Dark then ToLightLabel else ToDarkLabel)
    ensures r.Some? ==> r.value.title == (if theme == Dark then ToLightTitle else ToDarkTitle)
  {
    if control.None? then None else Some(DisplayFor(theme))
  }

  /** Start-up: apply the initial theme and redraw the control. Nothing is written to storage. */
  function Initialize(stored: Option<string>, prefersDark: bool, control: Option<ToggleDisplay>): (s: ThemeState)
    ensures s.theme == InitialTheme(stored, prefersDark)
    ensures s.stored == stored
    ensures control.None? ==> s.control.None?
    ensures control.Some? ==> s.control == Some(DisplayFor(s.theme))
  {
    var theme := InitialTheme(stored, prefersDark);
    ThemeState(theme, stored, UpdateThemeIcon(control, theme))
  }

  /** The target of a toggle: "light" when the page is dark, "dark" for any other value. */
  function Opposite(theme: string): (t: string)
    ensures t == Light <==> theme == Dark
    ensures t == Dark <==> theme != Dark
  {
    if theme == Dark then Light else Dark
  }

  /** A click on the toggle control. The handler exists only when the control does. */
  function Toggle(s: ThemeState): (s': ThemeState)
    requires s.control.Some?
    ensures s'.theme == Opposite(s.theme) && s'.theme != s.theme
    ensures s'.stored == Some(s'.theme)
    ensures s'.control == Some(DisplayFor(s'.theme))
  {
    var target := Opposite(s.theme);
    ThemeState(target, Some(target), UpdateThemeIcon(s.control, target))
  }

  /** A state in which the stored value and the control agree with the applied theme. */
  predicate Settled(s: ThemeState)
  {
    s.stored == Some(s.theme) && s.control == Some(DisplayFor(s.theme))
  }

  /** Corollary of `Toggle`'s contract: every state a toggle produces is settled. */
  lemma ToggleSettles(s: ThemeState)
    requires s.control.Some?
    ensures Settled(Toggle(s))
  {
  }

  /** Two toggles from a settled "light" or "dark" state restore it entirely. */
  lemma ToggleInvolutive(s: ThemeState)
    requires s.theme == Light || s.theme == Dark
    requires Settled(s)
    ensures Toggle(Toggle(s)) == s
  {
  }

  /** From any theme, two toggles end on "dark" if it started "dark" and on
      "light" otherwise: a stored value other than the two themes is not restored. */
  lemma ToggleTwiceTheme(s: ThemeState)
    requires s.control.Some?
    ensures Toggle(Toggle(s)).theme == (if s.theme == Dark then Dark else Light)
    ensures Toggle(Toggle(s)).stored == Some(Toggle(Toggle(s)).theme)
  {
  }
}
