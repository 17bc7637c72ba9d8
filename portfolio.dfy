/** The page state script.js drives, as one object: the document's
    `data-theme` attribute, local storage and the theme icon; the classes
    and listeners of the mobile menu; focus; the nav links' 'active' flags;
    and the last smooth-scroll target requested. */
module Portfolio {
  import opened Wrappers
  import Theme
  import Menu
  import ScrollSpy

  class PortfolioUI {
    // The markup, which the script never changes.
    const hasThemeIcon: bool
    const hasHamburger: bool
    const hasNavMenu: bool
    const focusableCount: nat
    const linkHrefs: seq<string>
    // The ids of the `section[id]` elements, collected once at load; their
    // offsets are passed to each scroll and click, as layout can change.
    const sectionIds: seq<string>
    const linkActive: array<bool>

    // Theme state.
    var dataTheme: Option<string>
    var storage: map<string, string>
    var iconText: string

    // Mobile menu state and the document's keydown listeners.
    var menuActive: bool
    var hamburgerActive: bool
    var bodyOverflowHidden: bool
    var focusTrapHandler: Option<nat>
    var keydownTraps: set<nat>
    var escapeInstalled: bool
    var nextClosure: nat
    var focus: Menu.Focus

    // The `top` of the last `window.scrollTo` call.
    var scrollTarget: Option<int>

    function MenuMarkup(): Menu.Markup
    {
      Menu.Markup(hasHamburger, hasNavMenu, focusableCount)
    }

    ghost function MenuView(): Menu.MenuState
      reads this
    {
      Menu.MenuState(menuActive, hamburgerActive, bodyOverflowHidden, focusTrapHandler,
                     keydownTraps, escapeInstalled, nextClosure, focus)
    }

    /** The attribute, the stored preference and the icon agree. */
    ghost predicate ThemeApplied()
      reads this
    {
      && dataTheme.Some?
      && Theme.StoredTheme(storage) == dataTheme
      && (hasThemeIcon ==> iconText == Theme.IconFor(dataTheme.value))
    }

    ghost predicate Valid()
      reads this
    {
      && linkActive.Length == |linkHrefs|
      && ThemeApplied()
      && Menu.Consistent(MenuMarkup(), MenuView())
    }

    /** Loading the script: the theme is initialised (script.js:21-23) and
        scroll-spy runs once (script.js:158) over the sections' current
        layout. The markup carries no 'active' class on the hamburger or the
        menu and no scroll lock; the links' flags come from `markupActive`. */
    constructor (hasThemeIcon: bool, hasHamburger: bool, hasNavMenu: bool, focusableCount: nat,
                 linkHrefs: seq<string>, markupActive: seq<bool>, sections: seq<ScrollSpy.Section>,
                 savedStorage: map<string, string>, iconText: string, osPrefersDark: bool, scrollY: int)
      requires |markupActive| == |linkHrefs|
      ensures Valid() && fresh(linkActive)
      ensures this.hasThemeIcon == hasThemeIcon && this.hasHamburger == hasHamburger
      ensures this.hasNavMenu == hasNavMenu && this.focusableCount == focusableCount
      ensures this.linkHrefs == linkHrefs && this.sectionIds == ScrollSpy.Ids(sections)
      ensures dataTheme == Some(Theme.InitialTheme(Theme.StoredTheme(savedStorage), osPrefersDark))
      ensures storage == savedStorage[Theme.StorageKey := dataTheme.value]
      ensures hasThemeIcon ==> this.iconText == Theme.IconFor(dataTheme.value)
      ensures !hasThemeIcon ==> this.iconText == iconText
      ensures !menuActive && !hamburgerActive && !bodyOverflowHidden
      ensures focusTrapHandler == None && keydownTraps == {} && !escapeInstalled
      ensures focus == Menu.Elsewhere && scrollTarget == None
      ensures linkActive[..] == ScrollSpy.Sweep(markupActive, this.linkHrefs, sections, ScrollSpy.Probe(scrollY))
    {
      this.hasThemeIcon := hasThemeIcon;
      this.hasHamburger := hasHamburger;
      this.hasNavMenu := hasNavMenu;
      this.focusableCount := focusableCount;
      this.linkHrefs := linkHrefs;
      sectionIds := ScrollSpy.Ids(sections);
      linkActive := new bool[|markupActive|](i requires 0 <= i < |markupActive| => markupActive[i]);
      dataTheme := None;
      storage := savedStorage;
      this.iconText := iconText;
      menuActive, hamburgerActive, bodyOverflowHidden := false, false, false;
      focusTrapHandler, keydownTraps, escapeInstalled := None, {}, false;
      nextClosure, focus := 0, Menu.Elsewhere;
      scrollTarget := None;
      new;
      assert linkActive[..] == markupActive;
      InitializeTheme(osPrefersDark);
      UpdateActiveLink(scrollY, sections);
    }

    /** `setTheme`: writes the attribute, the icon (when present) and storage. */
    method SetTheme(theme: string)
      modifies this
      ensures dataTheme == Some(theme)
      ensures storage == old(storage)[Theme.StorageKey := theme]
      ensures hasThemeIcon ==> (iconText == "light_mode" <==> theme == "dark")
      ensures hasThemeIcon ==> (iconText == "dark_mode" <==> theme != "dark")
      ensures !hasThemeIcon ==> iconText == old(iconText)
      ensures ThemeApplied()
      ensures MenuView() == old(MenuView()) && scrollTarget == old(scrollTarget)
    {
      dataTheme := Some(theme);
      if hasThemeIcon {
        iconText := Theme.IconFor(theme);
      }
      storage := storage[Theme.StorageKey := theme];
    }

    /** `toggleTheme`: 'light' (or no attribute) becomes 'dark', anything else 'light'. */
    method ToggleTheme()
      requires Valid()
      modifies this
      ensures dataTheme == Some(Theme.Toggled(old(dataTheme)))
      ensures storage == old(storage)[Theme.StorageKey := dataTheme.value]
      ensures !hasThemeIcon ==> iconText == old(iconText)
      ensures Valid() && MenuView() == old(MenuView()) && scrollTarget == old(scrollTarget)
    {
      var current := if dataTheme.Some? && dataTheme.value != "" then dataTheme.value else "light";
      SetTheme(if current == "light" then "dark" else "light");
    }

    /** The top-level theme initialisation: the stored value or the OS flag,
        applied and persisted. */
    method InitializeTheme(osPrefersDark: bool)
      modifies this
      ensures dataTheme == Some(Theme.InitialTheme(Theme.StoredTheme(old(storage)), osPrefersDark))
      ensures storage == old(storage)[Theme.StorageKey := dataTheme.value]
      ensures !hasThemeIcon ==> iconText == old(iconText)
      ensures ThemeApplied() && MenuView() == old(MenuView()) && scrollTarget == old(scrollTarget)
    {
      var saved := if Theme.StorageKey in storage then storage[Theme.StorageKey] else "";
      var theme := if saved != "" then saved else if osPrefersDark then "dark" else "light";
      SetTheme(theme);
    }

    /** `toggleMobileMenu(open)`. The state stays valid unless an open menu is
        opened again, which leaks a trap closure; the script's own callers
        pass only `false` or nothing. */
    method ToggleMobileMenu(open: Option<bool>)
      requires Valid()
      modifies this
      ensures MenuView() == Menu.Toggle(MenuMarkup(), old(MenuView()), open)
      ensures Valid() <==> !(open == Some(true) && old(menuActive))
      ensures dataTheme == old(dataTheme) && storage == old(storage) && iconText == old(iconText)
      ensures scrollTarget == old(scrollTarget)
    {
      var isOpen := if open.Some? then open.value else !(hasNavMenu && menuActive);
      if hasHamburger {
        hamburgerActive := isOpen;
      }
      if hasNavMenu {
        menuActive := isOpen;
      }
      bodyOverflowHidden := isOpen;
      if isOpen {
        SetupFocusTrap();
      } else {
        RemoveFocusTrap();
      }
      ghost var before := old(MenuView());
      if open == Some(true) && before.menuActive {
        Menu.OpeningAnOpenMenuLeaks(MenuMarkup(), before);
      } else {
        Menu.ToggleKeepsConsistent(MenuMarkup(), before, open);
      }
    }

    /** `setupFocusTrap`: a fresh trap closure and the Escape handler are
        registered and the first focusable item is focused. */
    method SetupFocusTrap()
      modifies this
      ensures MenuView() == Menu.SetupTrap(MenuMarkup(), old(MenuView()))
      ensures dataTheme == old(dataTheme) && storage == old(storage) && iconText == old(iconText)
      ensures scrollTarget == old(scrollTarget)
    {
      if !hasNavMenu {
        return;
      }
      var handler := nextClosure;
      nextClosure := nextClosure + 1;
      focusTrapHandler := Some(handler);
      keydownTraps := keydownTraps + {handler};
      escapeInstalled := true;
      if focusableCount > 0 {
        focus := Menu.MenuItem(0);
      }
    }

    /** `removeFocusTrap`. */
    method RemoveFocusTrap()
      modifies this
      ensures MenuView() == Menu.RemoveTrap(old(MenuView()))
      ensures dataTheme == old(dataTheme) && storage == old(storage) && iconText == old(iconText)
      ensures scrollTarget == old(scrollTarget)
    {
      if focusTrapHandler.Some? {
        keydownTraps := keydownTraps - {focusTrapHandler.value};
        focusTrapHandler := None;
      }
      escapeInstalled := false;
    }

    /** The trap closure installed by `setupFocusTrap`. */
    method FocusTrapHandler(key: string, shiftKey: bool) returns (prevented: bool)
      requires Valid()
      modifies this
      ensures (MenuView(), prevented) == Menu.TrapKey(MenuMarkup(), old(MenuView()), key, shiftKey)
      ensures Valid() && dataTheme == old(dataTheme) && storage == old(storage)
      ensures iconText == old(iconText) && scrollTarget == old(scrollTarget)
    {
      prevented := false;
      if key != "Tab" {
        return;
      }
      if shiftKey {
        if focusableCount > 0 && focus == Menu.MenuItem(0) {
          prevented := true;
          focus := Menu.MenuItem(focusableCount - 1);
        }
      } else {
        if focusableCount > 0 && focus == Menu.MenuItem(focusableCount - 1) {
          prevented := true;
          focus := Menu.MenuItem(0);
        }
      }
    }

    /** `handleEscapeKey`. */
    method HandleEscapeKey(key: string)
      requires Valid()
      modifies this
      ensures MenuView() == Menu.Escape(MenuMarkup(), old(MenuView()), key)
      ensures Valid() && dataTheme == old(dataTheme) && storage == old(storage)
      ensures iconText == old(iconText) && scrollTarget == old(scrollTarget)
    {
      if key == "Escape" && hasNavMenu && menuActive {
        ToggleMobileMenu(Some(false));
        if hasHamburger {
          focus := Menu.HamburgerButton;
        }
      }
    }

    /** The browser moved focus, for instance by a Tab the trap did not
        prevent; the trap compares against wherever focus now is. */
    method FocusMoved(f: Menu.Focus)
      requires Valid()
      requires f.MenuItem? ==> f.index < focusableCount
      modifies this
      ensures MenuView() == old(MenuView()).(focus := f)
      ensures Valid() && dataTheme == old(dataTheme) && storage == old(storage)
      ensures iconText == old(iconText) && scrollTarget == old(scrollTarget)
    {
      focus := f;
    }

    /** A keydown event on the document runs the registered listeners in
        registration order: the trap closure, then `handleEscapeKey`. */
    method KeyDown(key: string, shiftKey: bool) returns (prevented: bool)
      requires Valid()
      modifies this
      ensures (MenuView(), prevented) == Menu.KeyDown(MenuMarkup(), old(MenuView()), key, shiftKey)
      ensures Valid() && dataTheme == old(dataTheme) && storage == old(storage)
      ensures iconText == old(iconText) && scrollTarget == old(scrollTarget)
    {
      prevented := false;
      if keydownTraps != {} {
        prevented := FocusTrapHandler(key, shiftKey);
      }
      if escapeInstalled {
        HandleEscapeKey(key);
      }
    }

    /** The click handler of nav link `k`, with the sections' current layout:
        scroll to the target (when the page has one) 80 pixels above its top,
        close the menu, and make exactly this link active. */
    method ClickNavLink(k: nat, sections: seq<ScrollSpy.Section>)
      requires Valid() && k < |linkHrefs|
      requires ScrollSpy.Ids(sections) == sectionIds
      modifies this, linkActive
      ensures Valid()
      ensures forall i :: 0 <= i < linkActive.Length ==> (linkActive[i] <==> i == k)
      ensures MenuView() == Menu.Toggle(MenuMarkup(), old(MenuView()), Some(false))
      ensures !menuActive && !bodyOverflowHidden && keydownTraps == {} && !escapeInstalled
      ensures var t := ScrollSpy.FindTarget(sections, linkHrefs[k]);
        scrollTarget == if t.Some? then Some(sections[t.value].offsetTop - ScrollSpy.HeaderHeight) else old(scrollTarget)
      ensures dataTheme == old(dataTheme) && storage == old(storage) && iconText == old(iconText)
    {
      var target := ScrollSpy.FindTarget(sections, linkHrefs[k]);
      if target.Some? {
        scrollTarget := Some(sections[target.value].offsetTop - ScrollSpy.HeaderHeight);
      }
      ghost var before := MenuView();
      ToggleMobileMenu(Some(false));
      Menu.ClosingReleasesEverything(MenuMarkup(), before, Some(false));
      var i := 0;
      while i < linkActive.Length
        modifies linkActive
        invariant 0 <= i <= linkActive.Length
        invariant forall j :: 0 <= j < i ==> !linkActive[j]
      {
        linkActive[i] := false;
        i := i + 1;
      }
      linkActive[k] := true;
    }

    /** The inner `forEach` of `updateActiveLink`: each link is cleared and
        re-activated when its href is `#id`. */
    method ActivateLinksFor(id: string)
      requires linkActive.Length == |linkHrefs|
      modifies linkActive
      ensures linkActive[..] == ScrollSpy.FlagsFor(linkHrefs, id)
    {
      var j := 0;
      while j < linkActive.Length
        invariant 0 <= j <= linkActive.Length
        invariant forall k :: 0 <= k < j ==> (linkActive[k] <==> linkHrefs[k] == ScrollSpy.Href(id))
      {
        linkActive[j] := false;
        if linkHrefs[j] == ScrollSpy.Href(id) {
          linkActive[j] := true;
        }
        j := j + 1;
      }
    }

    /** `updateActiveLink` at scroll offset `scrollY`, with the sections'
        current layout. */
    method UpdateActiveLink(scrollY: int, sections: seq<ScrollSpy.Section>)
      requires linkActive.Length == |linkHrefs|
      requires ScrollSpy.Ids(sections) == sectionIds
      modifies linkActive
      ensures linkActive[..] == ScrollSpy.Sweep(old(linkActive[..]), linkHrefs, sections, ScrollSpy.Probe(scrollY))
    {
      var probe := ScrollSpy.Probe(scrollY);
      var i := 0;
      assert sections[i..] == sections;
      while i < |sections|
        invariant 0 <= i <= |sections|
        invariant ScrollSpy.Sweep(linkActive[..], linkHrefs, sections[i..], probe)
               == ScrollSpy.Sweep(old(linkActive[..]), linkHrefs, sections, probe)
      {
        var top := sections[i].offsetTop - ScrollSpy.SectionLead;
        var bottom := top + sections[i].offsetHeight;
        assert sections[i..][1..] == sections[i + 1..];
        if probe >= top && probe < bottom {
          ActivateLinksFor(sections[i].id);
        }
        i := i + 1;
      }
    }
  }
}
