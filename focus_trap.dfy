/** The keydown rule of the mobile menu's focus trap: Tab on the last
    focusable item wraps to the first, Shift+Tab on the first wraps to the
    last, and in both cases the browser's default move is prevented. */
module FocusTrap {
  import opened Wrappers

  /** What the handler did: the index of the focused menu item afterwards
      (None when focus is outside the menu) and whether it prevented the
      default action. */
  datatype TrapOutcome = TrapOutcome(active: Option<nat>, prevented: bool)

  /** `count` is the number of focusable items in the menu and `active` the
      index of the focused one, if any. With no focusable item the first and
      last are undefined, which the focused element never equals. */
  function TrapStep(count: nat, active: Option<nat>, key: string, shiftKey: bool): (r: TrapOutcome)
    ensures r.prevented <==> key == "Tab" && count > 0 && active == Some(if shiftKey then 0 else count - 1)
    ensures r.prevented ==> r.active == Some(if shiftKey then count - 1 else 0)
    ensures !r.prevented ==> r.active == active
  {
    if key != "Tab" then TrapOutcome(active, false)
    else if shiftKey then
      if count > 0 && active == Some(0) then TrapOutcome(Some(count - 1), true)
      else TrapOutcome(active, false)
    else
      if count > 0 && active == Some(count - 1) then TrapOutcome(Some(0), true)
      else TrapOutcome(active, false)
  }

  /** Focus inside the menu stays inside it. */
  lemma TrapKeepsFocusInMenu(count: nat, active: Option<nat>, key: string, shiftKey: bool)
    requires active.Some? ==> active.value < count
    ensures var r := TrapStep(count, active, key, shiftKey);
      r.active.Some? ==> r.active.value < count
  {
  }

  /** Shift+Tab from the first item and then Tab from where it lands come
      back to the first item, and the reverse from the last item. */
  lemma WrapRoundTrip(count: nat)
    requires count > 0
    ensures TrapStep(count, TrapStep(count, Some(0), "Tab", true).active, "Tab", false) == TrapOutcome(Some(0), true)
    ensures TrapStep(count, TrapStep(count, Some(count - 1), "Tab", false).active, "Tab", true) == TrapOutcome(Some(count - 1), true)
  {
  }
}
