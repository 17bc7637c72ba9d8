/** The mobile-menu state machine of script.js as functions over a value:
    the 'active' classes of the hamburger button and the nav menu, the body
    scroll lock, the keydown listeners installed on the document, and focus. */
module Menu {
  import opened Wrappers
  import FocusTrap

  /** Which parts of the markup exist: `#hamburger`, `#nav-menu`, and how
      many focusable descendants the menu has. */
  datatype Markup = Markup(hasHamburger: bool, hasNavMenu: bool, focusableCount: nat)

  /** Where keyboard focus is, as far as the menu code cares. */
  datatype Focus = Elsewhere | MenuItem(index: nat) | HamburgerButton

  /** `trapHandler` is the module-level `focusTrapHandler` variable; each
      trap closure is a fresh function, named here by a number below
      `nextClosure`. `installed` holds the trap closures registered as
      document keydown listeners; `escapeInstalled` says whether the single
      `handleEscapeKey` function is registered (adding it twice adds it once). */
  datatype MenuState = MenuState(
    menuActive: bool,
    hamburgerActive: bool,
    overflowHidden: bool,
    trapHandler: Option<nat>,
    installed: set<nat>,
    escapeInstalled: bool,
    nextClosure: nat,
    focus: Focus)

  function TrapSet(h: Option<nat>): set<nat>
  {
    if h.Some? then {h.value} else {}
  }

  /** The state every reachable page is in: the class flags, the scroll lock
      and the installed listeners move together, and no trap closure leaks. */
  ghost predicate Consistent(d: Markup, m: MenuState)
  {
    && (d.hasNavMenu ==> m.overflowHidden == m.menuActive)
    && (d.hasHamburger ==> m.hamburgerActive == m.overflowHidden)
    && (!d.hasNavMenu ==> !m.menuActive)
    && (m.trapHandler.Some? <==> m.menuActive)
    && (m.escapeInstalled <==> m.menuActive)
    && m.installed == TrapSet(m.trapHandler)
    && (m.trapHandler.Some? ==> m.trapHandler.value < m.nextClosure)
    && (m.focus.MenuItem? ==> m.focus.index < d.focusableCount)
  }

  /** `open ?? !navMenu?.classList.contains('active')`: without a nav menu the
      optional chain yields undefined and its negation is true. */
  function IsOpenAfter(d: Markup, m: MenuState, open: Option<bool>): bool
  {
    if open.Some? then open.value else !(d.hasNavMenu && m.menuActive)
  }

  /** `setupFocusTrap`: with a nav menu, registers a fresh trap closure and
      the Escape handler and focuses the first focusable item. */
  function SetupTrap(d: Markup, m: MenuState): MenuState
  {
    if !d.hasNavMenu then m
    else m.(trapHandler := Some(m.nextClosure),
             installed := m.installed + {m.nextClosure},
             escapeInstalled := true,
             nextClosure := m.nextClosure + 1,
             focus := if d.focusableCount > 0 then MenuItem(0) else m.focus)
  }

  /** `removeFocusTrap`: unregisters the closure the variable refers to and
      the Escape handler. */
  function RemoveTrap(m: MenuState): MenuState
  {
    var m1 := if m.trapHandler.Some? then m.(installed := m.installed - {m.trapHandler.value}, trapHandler := None) else m;
    m1.(escapeInstalled := false)
  }

  /** `toggleMobileMenu(open)`. */
  function Toggle(d: Markup, m: MenuState, open: Option<bool>): MenuState
  {
    var isOpen := IsOpenAfter(d, m, open);
    var m1 := m.(hamburgerActive := if d.hasHamburger then isOpen else m.hamburgerActive,
                 menuActive := if d.hasNavMenu then isOpen else m.menuActive,
                 overflowHidden := isOpen);
    if isOpen then SetupTrap(d, m1) else RemoveTrap(m1)
  }

  /** `handleEscapeKey`: Escape while the menu is active closes it and
      focuses the hamburger button. */
  function Escape(d: Markup, m: MenuState, key: string): MenuState
  {
    if key == "Escape" && d.hasNavMenu && m.menuActive then
      var m1 := Toggle(d, m, Some(false));
      if d.hasHamburger then m1.(focus := HamburgerButton) else m1
    else m
  }

  function FocusIndex(f: Focus): Option<nat>
  {
    if f.MenuItem? then Some(f.index) else None
  }

  /** The trap closure's effect on focus, and whether it prevented the default. */
  function TrapKey(d: Markup, m: MenuState, key: string, shiftKey: bool): (MenuState, bool)
  {
    var o := FocusTrap.TrapStep(d.focusableCount, FocusIndex(m.focus), key, shiftKey);
    (if o.prevented then m.(focus := MenuItem(o.active.value)) else m, o.prevented)
  }

  /** A keydown event reaching the document: the trap closure runs first (it
      was registered first), then the Escape handler. On a consistent state
      at most one trap closure is registered. */
  function KeyDown(d: Markup, m: MenuState, key: string, shiftKey: bool): (MenuState, bool)
    requires Consistent(d, m)
  {
    var t := if m.installed != {} then TrapKey(d, m, key, shiftKey) else (m, false);
    (if t.0.escapeInstalled then Escape(d, t.0, key) else t.0, t.1)
  }

  /** Every toggle that does not re-open an open menu keeps the state consistent. */
  lemma ToggleKeepsConsistent(d: Markup, m: MenuState, open: Option<bool>)
    requires Consistent(d, m)
    requires !(open == Some(true) && m.menuActive)
    ensures Consistent(d, Toggle(d, m, open))
  {
  }

  /** `toggleMobileMenu(true)` on an open menu installs a second trap closure
      and loses the reference to the first, which can then never be removed. */
  lemma OpeningAnOpenMenuLeaks(d: Markup, m: MenuState)
    requires Consistent(d, m)
    requires m.menuActive
    ensures var m1 := Toggle(d, m, Some(true));
      |m1.installed| == 2 && m.trapHandler.value in m1.installed && m1.trapHandler != m.trapHandler
    ensures !Consistent(d, Toggle(d, m, Some(true)))
  {
  }

  /** Closing by any path (hamburger, nav link, Escape) leaves no class, no
      scroll lock and no keydown listener behind. */
  lemma ClosingReleasesEverything(d: Markup, m: MenuState, open: Option<bool>)
    requires Consistent(d, m)
    requires !IsOpenAfter(d, m, open)
    ensures var m1 := Toggle(d, m, open);
      && !m1.menuActive && !m1.overflowHidden && (d.hasHamburger ==> !m1.hamburgerActive)
      && m1.trapHandler.None? && m1.installed == {} && !m1.escapeInstalled
  {
  }

  /** Opening a closed menu installs exactly one trap closure and the Escape
      handler, locks scrolling and focuses the first item. */
  lemma OpeningInstallsOneOfEach(d: Markup, m: MenuState, open: Option<bool>)
    requires Consistent(d, m) && d.hasNavMenu
    requires !m.menuActive && IsOpenAfter(d, m, open)
    ensures var m1 := Toggle(d, m, open);
      && m1.menuActive && m1.overflowHidden && (d.hasHamburger ==> m1.hamburgerActive)
      && |m1.installed| == 1 && m1.trapHandler.Some? && m1.trapHandler.value in m1.installed
      && m1.escapeInstalled
      && (d.focusableCount > 0 ==> m1.focus == MenuItem(0))
  {
  }

  /** With a nav menu, two hamburger toggles restore the classes, the scroll
      lock and the listener count (the trap closure itself is a new function,
      and focus is not restored). */
  lemma HamburgerToggleUndoesItself(d: Markup, m: MenuState)
    requires Consistent(d, m) && d.hasNavMenu
    ensures var m2 := Toggle(d, Toggle(d, m, None), None);
      && m2.menuActive == m.menuActive && m2.hamburgerActive == m.hamburgerActive
      && m2.overflowHidden == m.overflowHidden && |m2.installed| == |m.installed|
      && m2.escapeInstalled == m.escapeInstalled
  {
  }

  /** Escape while the menu is open closes it and focuses the hamburger. */
  lemma EscapeClosesOpenMenu(d: Markup, m: MenuState, shiftKey: bool)
    requires Consistent(d, m) && m.menuActive
    ensures var r := KeyDown(d, m, "Escape", shiftKey);
      && !r.1 && !r.0.menuActive && !r.0.overflowHidden
      && r.0.installed == {} && !r.0.escapeInstalled
      && (d.hasHamburger ==> r.0.focus == HamburgerButton)
  {
  }

  /** While the menu is closed no listener is installed, so no key (Escape
      included) changes anything; `handleEscapeKey` itself is a no-op too. */
  lemma ClosedMenuIgnoresKeys(d: Markup, m: MenuState, key: string, shiftKey: bool)
    requires Consistent(d, m) && !m.menuActive
    ensures KeyDown(d, m, key, shiftKey) == (m, false)
    ensures Escape(d, m, key) == m
  {
  }

  /** Tab on the last item of an open menu wraps to the first; Shift+Tab on
      the first wraps to the last; both prevent the default. */
  lemma TabWrapsInOpenMenu(d: Markup, m: MenuState)
    requires Consistent(d, m) && m.menuActive && d.focusableCount > 0
    ensures m.focus == MenuItem(d.focusableCount - 1) ==>
      KeyDown(d, m, "Tab", false) == (m.(focus := MenuItem(0)), true)
    ensures m.focus == MenuItem(0) ==>
      KeyDown(d, m, "Tab", true) == (m.(focus := MenuItem(d.focusableCount - 1)), true)
  {
  }

  /** Keys keep the state consistent. */
  lemma KeyDownKeepsConsistent(d: Markup, m: MenuState, key: string, shiftKey: bool)
    requires Consistent(d, m)
    ensures Consistent(d, KeyDown(d, m, key, shiftKey).0)
  {
  }
}
