# Portfolio page script, modelled in Dafny

A model of the behaviour of `js/script.js`, the one script of a personal
portfolio site. Under its DOM wiring the script runs four small state
machines, and each one is modelled here over abstract state: class lists
become sets of class names, and the element lists become arrays.

- **Theme** (`theme.dfy`, module `Theme`, pure). This covers the theme chosen at
  start-up from the stored preference or the system's dark-mode flag, the toggle
  click that flips and persists the theme, and the toggle control's glyph,
  `aria-label` and `title`. The page's theme state is a value: `ThemeState`
  holds the `data-theme` attribute, the stored value and the control's display.
- **Portfolio filter** (`portfolio_filter.dfy`, module `PortfolioFilter`). The
  class `FilterBar` holds the buttons and items as arrays. Its `Click` method
  updates them in place with the two loops of the source, and is proved
  against the functions `ActivateOnly` and `ApplyFilter`.
- **Reveal on scroll** (`reveal.dfy`, module `RevealOnScroll`). The class
  `RevealEngine` holds the marked elements and the set still observed. Its
  callback adds "show-el" to every intersecting target and stops observing it.
  The callback is proved against the function `Revealed`. It keeps the
  invariant that an element is either still observed or already revealed.
- **Mobile menu** (`mobile_menu.dfy`, module `MobileMenu`). The class `Menu`
  holds the panel's class list and the trigger's glyph. A trigger click
  toggles "active". A link click forces the panel closed.
- `class_list.dfy` (module `ClassList`) holds the `classList` operations
  `add`, `remove` and `toggle` as set operations.

Inputs from the browser are parameters: the stored value, the dark-mode
flag, the clicked button's index and the intersection reports. The value
written to storage is part of the resulting theme state.

## Model

| member | source | states |
|---|---|---|
| Theme.InitialTheme | js/script.js:26-30 | the start-up theme is the stored value when it is a non-empty string; an absent or empty value falls back to "dark" exactly when the system prefers dark, else "light"; never empty |
| Theme.Initialize | js/script.js:29-31 | start-up applies the initial theme and writes nothing to storage; an absent control stays absent, and a present one shows the full display (glyph, label and title) of the applied theme |
| Theme.DisplayFor | js/script.js:45-47 | sun glyph, "Switch to Light Mode" and the Arabic light-mode title exactly when the theme is "dark"; moon, "Switch to Dark Mode" and the dark-mode title for every other value |
| Theme.UpdateThemeIcon | js/script.js:42-48 | an absent control stays absent (nothing changes); a present one gets the glyph, label and title of the theme |
| Theme.Opposite | js/script.js:35 | the toggle target is "light" exactly when the current theme is "dark", and "dark" for any other value |
| Theme.Toggle | js/script.js:34-39 | a click applies the opposite theme, which always differs from the old one; the persisted value equals the newly applied theme; the control shows the new theme's display |
| Theme.ToggleSettles | js/script.js:35-38 | corollary of `Toggle`: after any toggle the stored value and the control agree with the applied theme |
| Theme.ToggleInvolutive | js/script.js:35-38 | from a settled "light" or "dark" state, two toggles give back exactly the starting state |
| Theme.ToggleTwiceTheme | js/script.js:35-38 | from any theme two toggles end on "dark" if it was "dark" and on "light" otherwise, so a foreign stored value is not restored |
| ClassList.Add | js/script.js:59 | `classList.add` (also at lines 78, 85, 88): the class is present afterwards and every other class is kept, nothing else added |
| ClassList.Remove | js/script.js:76 | `classList.remove` (also at lines 84, 87, 108): the class is absent afterwards and every other class is kept |
| ClassList.Toggle | js/script.js:101 | `classList.toggle` flips membership of the class and leaves every other class alone |
| ClassList.ToggleTwice | js/script.js:101 | toggling a class twice restores the class list |
| PortfolioFilter.Classify | js/script.js:83-89 | an item gets "show" exactly when the value is "all" or one of its classes, and "hide" exactly otherwise; its other classes are unchanged |
| PortfolioFilter.ApplyFilter | js/script.js:82-90 | every item is classified independently by the clicked value, and the item list keeps its length and order |
| PortfolioFilter.DeactivateAll | js/script.js:76 | afterwards no button is "active", and each button's other classes and filter value are as before |
| PortfolioFilter.ActivateOnly | js/script.js:76-78 | after a click exactly one button, the clicked one, carries "active"; no other class and no filter value of any button changes |
| PortfolioFilter.ClassifyIdempotent | js/script.js:83-89 | classifying an item twice with a value other than "hide" is the same as classifying it once |
| PortfolioFilter.UnmatchedValueHidesAll | js/script.js:82-90 | a value that is not "all" and is no item's class leaves every item hidden and none shown |
| PortfolioFilter.ClickIdempotent | js/script.js:74-91 | a second click on the same button (value other than "hide") leaves buttons and items as the first click left them |
| PortfolioFilter.HideValueNotIdempotent | js/script.js:83-89 | with the value "hide" a second click changes the items again, so idempotence needs the "hide" exclusion |
| PortfolioFilter.DesignThenAll | js/script.js:82-90 | items {design, web}, {web}, {design}: "design" shows the first and third and hides the second; "all" afterwards shows all three |
| PortfolioFilter.FilterBar.Click | js/script.js:74-91 | the in-place update makes the buttons `ActivateOnly` of the old buttons and the items `ApplyFilter` of the old items with the clicked button's value |
| RevealOnScroll.Revealed | js/script.js:57-62 | after a batch, an element has gained "show-el" exactly when some intersecting report targets it; all other elements are unchanged |
| RevealOnScroll.RevealIdempotent | js/script.js:57-62 | handling the same batch again changes nothing, so each element is revealed at most once |
| RevealOnScroll.RevealEngine.constructor | js/script.js:65-66 | at start-up every marked element is observed, and the invariant holds |
| RevealOnScroll.RevealEngine.OnIntersect | js/script.js:56-63 | the elements become `Revealed` of the old ones; the observed set loses exactly the intersecting targets and never grows; every intersecting target is revealed and no longer observed; the invariant that an element is observed or revealed is kept |
| MobileMenu.TriggerFlips | js/script.js:101-102 | corollary of `ClassList.Toggle` and `GlyphFor`: a trigger click flips the panel's open flag, and the glyph is ✕ exactly when the panel is now open, ☰ exactly when closed |
| MobileMenu.Menu.TriggerClick | js/script.js:100-103 | the panel's "active" flag flips, no other class changes, and the glyph afterwards shows the new state |
| MobileMenu.Menu.LinkClick | js/script.js:107-110 | the panel is closed with ☰ whatever the prior state; its other classes are unchanged |
| MobileMenu.TriggerTwice | js/script.js:100-103 | two trigger clicks restore the panel; afterwards the glyph always agrees with the panel, so it is restored whenever it agreed before |

## Left out

- The loading screen (js/script.js:12-22). It is two fire-and-forget timers that fade the cover after 800 ms and hide it 500 ms later. No state is kept beyond those two style writes.
- DOM querying, listener registration and rendering through `innerHTML`, `setAttribute` and `title`. The elements are records and class sets. A listener that exists only when its element does is a precondition (`Theme.Toggle`) or the existence of the object (`Menu`).
- `localStorage` and `matchMedia` are browser services. The stored value (`Option<string>`, None for null) and the dark-mode flag are parameters. The written value is the `stored` field of the resulting state.
- The observer's geometry (threshold 0.1, root margin -50px) is left out. Each report's `isIntersecting` flag is given.
- RevealOnScroll.RevealEngine.OnIntersect requires every reported target to be still observed. This is the browser's guarantee for an observer. Reports for elements that were never observed are not modelled.
- Elements are identified by their index among the marked elements, or among the buttons and items. The model does not capture one DOM element appearing in two of these lists.
- A `data-filter` attribute that is absent (null) is not modelled. The filter value is always a string.
- PortfolioFilter.ClickIdempotent: idempotence is stated for filter values other than "hide". With "hide" it does not hold (see `HideValueNotIdempotent`), because the classification adds and removes that same class.
