# Portfolio page script — Dafny model

This project models the stateful logic of `script.js`, the interactive layer of a static
portfolio page. The model covers four parts:

- **Theme.** The light/dark theme is kept in the document's `data-theme` attribute, in local
  storage under the key `theme`, and in the toggle button's icon text.
- **Mobile menu.** The hamburger button and the nav menu carry an `active` class. Opening the
  menu locks body scrolling and installs two keydown listeners: a focus-trap closure and the
  Escape handler.
- **Focus trap.** Tab and Shift+Tab wrap around inside the open menu.
- **Nav links.** Clicking a link scrolls to its section and activates that link. Scroll-spy
  sets the links' `active` flags from the scroll offset and the sections' layout offsets.

The modules follow the script's parts:

- `Theme`: the pure light/dark choice, the icon rule and the initial-theme expression.
- `FocusTrap`: the trap closure's wrap rule as a pure function.
- `Menu`: the menu state machine. Its spec functions work over a `MenuState` value, and its
  lemmas state the invariants: the class flags, the scroll lock and the installed listeners
  move together, and no trap closure leaks.
- `ScrollSpy`: the scroll-spy rule. `Sweep` follows the nested `forEach` loops exactly as
  written. `SpyResult` is a last-match reference definition, and a lemma shows the two agree.
  The module also holds the link-click scroll target.
- `Portfolio`: the class `PortfolioUI`. Its fields stand in for the DOM, and its methods are
  the script's functions and event handlers, written imperatively. Each method's `ensures`
  ties the new state to the spec functions above, and its `Valid()` invariant holds on every
  path the script can reach.

The DOM is abstract. Optional elements are booleans, such as `hasNavMenu`. Listeners are a set
of closure numbers plus one flag for the shared `handleEscapeKey` function. Each call to
`setupFocusTrap` creates a new closure, so it gets a new number. Adding `handleEscapeKey`
again does nothing, because it is the same function reference. Focus is a `Focus` value.

What `script.js` does, where one might expect otherwise:

- Scroll-spy uses the probe `scrollY + 100` and the interval
  `[offsetTop - 100, offsetTop - 100 + offsetHeight)`. It uses no nav-height or
  viewport-based reference point.
- Every matching section rewrites the flags, so the last match wins, not the first.
- When no section matches, the flags stay unchanged. The script has no "default to the first
  section" rule and no end-of-page rule. So "exactly one link is active" does not hold for
  every scroll offset. What the model proves is that scroll-spy never leaves two links active
  when the hrefs are distinct and at most one link was active before.
- The script has no outside-click dismissal, no live listener for changes to the OS theme,
  no skip link, no Enter/Space handling for the theme toggle and no `scrolled` class.
- A stored empty string counts as "no preference", and so does an empty `data-theme`
  attribute, because of JavaScript's `||`. Any stored value other than `light` or `dark` is
  applied as it is. Toggling from such a value gives `light`.
- Without a `#nav-menu` element, `toggleMobileMenu()` always opens, because
  `!undefined` is `true`. It then locks scrolling but installs no listener.

## Model

| member | source | states |
|---|---|---|
| Theme.Toggled | script.js:15-18 | the toggle picks 'dark' exactly when the attribute is missing, empty or 'light', and 'light' exactly otherwise |
| Theme.InitialTheme | script.js:21-22 | a truthy stored value wins; otherwise the theme is 'dark' iff the OS prefers dark and 'light' iff it does not; the result is never empty |
| Theme.ToggleTwiceRestores | script.js:15-18 | toggling twice from 'light' or 'dark' restores the attribute and the stored map |
| Theme.InitialThemeSurvivesReload | script.js:21-23 | once persisted, the initial theme is chosen again on the next load whatever the OS then prefers |
| FocusTrap.TrapStep | script.js:64-78 | the default is prevented iff the key is Tab and focus is on the first item (Shift) or the last item (no Shift); focus then moves to the last or the first item, and otherwise stays where it was |
| FocusTrap.TrapKeepsFocusInMenu | script.js:64-78 | focus inside the menu stays inside the menu |
| FocusTrap.WrapRoundTrip | script.js:67-77 | Shift+Tab from the first item followed by Tab returns to the first item, and the reverse from the last item |
| Menu.SetupTrap | script.js:55-87 | defines `setupFocusTrap`: without a nav menu nothing changes; otherwise a fresh trap closure becomes the handler and is registered, the Escape handler is registered, and the first item is focused when there is one |
| Menu.RemoveTrap | script.js:96-102 | defines `removeFocusTrap`: the closure the handler variable refers to is unregistered, the variable cleared, and the Escape handler unregistered |
| Menu.Toggle | script.js:33-48 | defines `toggleMobileMenu(open)`: the open state is `open` or the negated menu class; the existing elements' classes and the scroll lock follow it, then the trap is set up or removed |
| Menu.Escape | script.js:89-94 | defines `handleEscapeKey`: Escape on an active nav menu closes it and focuses the hamburger when present; otherwise nothing changes |
| Menu.TrapKey | script.js:64-78 | defines the trap closure's effect: the wrap rule applied to the focused item, and whether the default was prevented |
| Menu.KeyDown | script.js:80-83 | defines a document keydown: the registered trap closure runs, then the Escape handler if registered |
| Theme.IconFor | script.js:10 | defines the icon text: 'light_mode' for the 'dark' theme, 'dark_mode' otherwise |
| Theme.StoredTheme | script.js:21 | defines `localStorage.getItem('theme')`: the stored value, or none when the key is absent |
| ScrollSpy.Step | script.js:135-146 | defines one section of the outer loop: a section whose interval holds the probe rewrites all flags to those for its id; any other leaves them |
| ScrollSpy.Sweep | script.js:131-148 | defines the outer loop as written: the sections processed in document order, each by `Step` |
| Menu.ToggleKeepsConsistent | script.js:33-48 | every toggle except re-opening an open menu keeps the flags, the scroll lock and the listeners in step, with at most one trap closure |
| Menu.OpeningAnOpenMenuLeaks | script.js:55-80 | opening an open menu registers a second trap closure and loses the reference to the first, so the state is no longer consistent |
| Menu.ClosingReleasesEverything | script.js:96-102 | closing by any path clears both classes and the scroll lock and leaves no trap closure and no Escape listener |
| Menu.OpeningInstallsOneOfEach | script.js:55-86 | opening a closed menu sets the classes and the scroll lock, installs exactly one trap closure and the Escape listener, and focuses the first item |
| Menu.HamburgerToggleUndoesItself | script.js:33-50 | with a nav menu, two hamburger toggles restore the classes, the scroll lock and the number of listeners |
| Menu.EscapeClosesOpenMenu | script.js:89-94 | Escape while the menu is open closes it, removes both listeners and focuses the hamburger button |
| Menu.ClosedMenuIgnoresKeys | script.js:89-94 | while the menu is closed, no key changes anything, and `handleEscapeKey` is a no-op |
| Menu.TabWrapsInOpenMenu | script.js:64-80 | in an open menu, Tab on the last item moves to the first and Shift+Tab on the first moves to the last, both preventing the default |
| Menu.KeyDownKeepsConsistent | script.js:64-94 | a keydown event keeps the menu state consistent |
| ScrollSpy.FlagsFor | script.js:140-145 | after the inner loop, link i is active iff its href is `#` + id, for every link |
| ScrollSpy.LastMatch | script.js:134-147 | returns the index of a section whose interval holds the probe with no later such section, or None iff no section's interval holds it |
| ScrollSpy.SweepIsLastMatch | script.js:131-148 | the in-order loop leaves the old flags when nothing matches and otherwise the flags of the last matching section |
| ScrollSpy.NoMatchKeepsFlags | script.js:134-147 | if no interval holds `scrollY + 100`, the link flags are unchanged |
| ScrollSpy.MatchActivatesLastSection | script.js:134-147 | if section j is the last whose interval holds `scrollY + 100`, exactly the links whose href is `#` + its id are active |
| ScrollSpy.ScrollSpyKeepsAtMostOneActive | script.js:131-148 | with distinct hrefs and at most one link active before, scroll-spy never leaves two links active |
| ScrollSpy.FindTarget | script.js:108-109 | finds the first section whose `#id` is the link's href, or None iff no section has it |
| Portfolio.PortfolioUI.constructor | script.js:21-23 | the object holds the given markup (icon, hamburger, menu, focusable count, link hrefs, section ids); loading applies and persists the initial theme and sets the icon to match; scroll-spy runs once over the given layout (script.js:158); the menu is closed with no classes, no scroll lock, no listeners, focus elsewhere and no scroll target |
| Portfolio.PortfolioUI.SetTheme | script.js:7-13 | the attribute becomes the theme, storage maps 'theme' to it, and the icon (if present) reads 'light_mode' iff the theme is 'dark', otherwise 'dark_mode'; the menu state is untouched |
| Portfolio.PortfolioUI.ToggleTheme | script.js:15-18 | the attribute and the stored value become the toggled theme, and the invariant is kept |
| Portfolio.PortfolioUI.InitializeTheme | script.js:21-23 | the attribute becomes the initial theme computed from the old storage and the OS flag, and it is persisted |
| Portfolio.PortfolioUI.ToggleMobileMenu | script.js:33-48 | the new menu state is the toggle of the old one; the invariant holds afterwards iff this call did not re-open an open menu |
| Portfolio.PortfolioUI.SetupFocusTrap | script.js:55-87 | with a nav menu, registers a fresh trap closure and the Escape handler and focuses the first item; without one, does nothing |
| Portfolio.PortfolioUI.RemoveFocusTrap | script.js:96-102 | unregisters the closure the variable refers to, clears the variable and unregisters the Escape handler |
| Portfolio.PortfolioUI.FocusTrapHandler | script.js:64-78 | applies the wrap rule to the focused item and reports whether the default was prevented |
| Portfolio.PortfolioUI.HandleEscapeKey | script.js:89-94 | Escape on an active menu closes it and focuses the hamburger button; anything else changes nothing |
| Portfolio.PortfolioUI.FocusMoved | script.js:68-73 | the element the trap compares with `document.activeElement` becomes the newly focused one; nothing else changes |
| Portfolio.PortfolioUI.KeyDown | script.js:80-83 | a keydown runs the registered trap closure and then the Escape handler, and keeps the invariant |
| Portfolio.PortfolioUI.ClickNavLink | script.js:105-125 | given the sections' current layout, afterwards exactly the clicked link is active, the menu is closed with no listeners, and the scroll target is the target's top minus 80 when the target exists |
| Portfolio.PortfolioUI.ActivateLinksFor | script.js:140-145 | the link flags become the flags for the section id |
| Portfolio.PortfolioUI.UpdateActiveLink | script.js:131-148 | given the sections' current layout, the link flags become the in-order sweep of the sections at probe `scrollY + 100` |

## Left out

- The `requestAnimationFrame` debouncing of scroll-spy (script.js:150-157) is host scheduling. `UpdateActiveLink` is called directly.
- The IntersectionObserver fade-in (script.js:161-180) is driven by the browser's geometry, with a float threshold and a root margin. Its only logic is to add `visible` and then unobserve.
- DOM lookup and listener plumbing (`getElementById`, `querySelectorAll`, the `addEventListener` calls at script.js:25, 50 and 105-106) are left out. Elements are booleans fixed at construction. The hamburger click is `ToggleMobileMenu(None)`, and the theme-toggle click is `ToggleTheme()`.
- `matchMedia` and `localStorage` are not modelled as real APIs. The OS dark-mode preference is a boolean parameter, and storage is a map. A storage exception is not modelled.
- Smooth scrolling is not modelled. `window.scrollTo` only records the requested `top` in `scrollTarget`, and `scrollY` is a parameter of `UpdateActiveLink`.
- The browser's tab order is not modelled. When the trap does not prevent Tab, the browser moves focus; a caller reports the new focus with `FocusMoved`, as it reports `scrollY` and the layout. `KeyDown` alone leaves focus where it was.
- Fractional `scrollY` values are not modelled. Offsets are integers.
- Section ids are fixed at load, as the node list at script.js:128 is collected once. The ids are assumed not to change afterwards, but the offsets are read afresh on each scroll and click.
- Portfolio.PortfolioUI.ClickNavLink: `document.querySelector(href)` is modelled as a search among the `section[id]` elements only. An element with that id that is not a section is not found. An href that is not a valid selector would make the browser throw, and the model does not capture that.
- Portfolio.PortfolioUI.KeyDown: stated only for states where the invariant holds, so at most one trap closure is registered. After a leak, each leaked closure would also run, and the model does not cover that.
