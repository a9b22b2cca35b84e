/**
 * The navigation-chrome visibility controller shared by both web-view
 * components: `showNavigation`, the `hideTimeoutRef` handle and the pending
 * `setTimeout` callbacks, driven by touches and by the clock.
 */
module Visibility {
  import opened Wrappers

  /** The auto-hide delay, in milliseconds. */
  const HideDelay: int := 3000

  /** What the embedded browser reports on every navigation. */
  datatype NavState = NavState(url: string, title: string, canGoBack: bool, canGoForward: bool)

  /** A command sent to the embedded browser. */
  datatype WebCommand = GoBackCommand | GoForwardCommand

  class NavChrome {
    /** Whether the header and bottom controls are shown. */
    var showNavigation: bool
    /** The current time; callbacks due at or before it have run. */
    var clock: int
    /** The pending timer callbacks: handle to due time. */
    var timers: map<nat, int>
    /** `hideTimeoutRef.current`; 0 stands for `null` (real handles are positive). */
    var hideTimeoutRef: nat
    /** The next handle `setTimeout` hands out. */
    var nextHandle: nat
    /** Whether the owning component is still mounted. */
    var live: bool
    /** Hide callbacks that ran after the owning component was torn down. */
    var lateFires: nat

    /**
     * The only pending callback, if any, is the one `hideTimeoutRef` names,
     * and it is due in the future.
     */
    ghost predicate Valid()
      reads this
    {
      && 0 < nextHandle && hideTimeoutRef < nextHandle
      && forall h :: h in timers ==> h == hideTimeoutRef && h != 0 && clock < timers[h]
    }

    /** The due time of the pending hide callback. At most one is ever pending. */
    function Pending(): (d: Option<int>)
      reads this
      requires Valid()
      ensures d.None? ==> timers == map[]
      ensures d.Some? ==> timers == map[hideTimeoutRef := d.value] && clock < d.value
    {
      if hideTimeoutRef in timers then Some(timers[hideTimeoutRef]) else None
    }

    /** Controls start shown with no timer armed. */
    constructor (t: int)
      ensures Valid() && showNavigation && Pending() == None
      ensures clock == t && live && lateFires == 0
    {
      showNavigation := true;
      clock := t;
      timers := map[];
      hideTimeoutRef := 0;
      nextHandle := 1;
      live := true;
      lateFires := 0;
    }

    /** `startHideTimer`: clears the timer `hideTimeoutRef` names, then arms a new 3000 ms one. */
    method StartHideTimer()
      requires Valid()
      modifies this
      ensures Valid() && Pending() == Some(clock + HideDelay)
      ensures showNavigation == old(showNavigation) && clock == old(clock)
      ensures live == old(live) && lateFires == old(lateFires)
    {
      if hideTimeoutRef != 0 {
        timers := timers - {hideTimeoutRef};
      }
      var h := nextHandle;
      nextHandle := nextHandle + 1;
      timers := timers[h := clock + HideDelay];
      hideTimeoutRef := h;
    }

    /** `hideNavigation`. */
    method HideNavigation()
      requires Valid()
      modifies this`showNavigation
      ensures Valid() && !showNavigation
    {
      showNavigation := false;
    }

    /** `showNavigationControls`: shows the controls and re-arms the timer. */
    method ShowNavigationControls()
      requires Valid()
      modifies this
      ensures Valid() && showNavigation && Pending() == Some(clock + HideDelay)
      ensures clock == old(clock) && live == old(live) && lateFires == old(lateFires)
    {
      showNavigation := true;
      StartHideTimer();
    }

    /**
     * `handleWebViewTouch`: when hidden, show and re-arm; when shown, only
     * re-arm. Either way the controls end up shown with a fresh countdown.
     */
    method HandleTouch()
      requires Valid()
      modifies this
      ensures Valid() && showNavigation && Pending() == Some(clock + HideDelay)
      ensures clock == old(clock) && live == old(live) && lateFires == old(lateFires)
    {
      if !showNavigation {
        ShowNavigationControls();
      } else {
        StartHideTimer();
      }
    }

    /** `clearTimeout(hideTimeoutRef.current)`, guarded by a non-null handle. */
    method CancelHideTimer()
      requires Valid()
      modifies this
      ensures Valid() && Pending() == None
      ensures showNavigation == old(showNavigation) && clock == old(clock)
      ensures live == old(live) && lateFires == old(lateFires)
    {
      if hideTimeoutRef != 0 {
        timers := timers - {hideTimeoutRef};
      }
    }

    /** The owning component unmounts; later state updates from callbacks are dropped. */
    method TearDown()
      requires Valid()
      modifies this`live
      ensures Valid() && !live
    {
      live := false;
    }

    /**
     * Time advances to `t`. A hide callback due by then runs: it hides the
     * controls, or, once the owner is torn down, runs against nothing.
     */
    method Tick(t: int)
      requires Valid() && clock <= t
      modifies this
      ensures Valid() && clock == t && live == old(live) && hideTimeoutRef == old(hideTimeoutRef)
      ensures old(Pending()).Some? && old(Pending()).value <= t ==>
        && Pending() == None
        && (if live then !showNavigation && lateFires == old(lateFires)
            else showNavigation == old(showNavigation) && lateFires == old(lateFires) + 1)
      ensures !(old(Pending()).Some? && old(Pending()).value <= t) ==>
        Pending() == old(Pending()) && showNavigation == old(showNavigation) && lateFires == old(lateFires)
    {
      if hideTimeoutRef in timers && timers[hideTimeoutRef] <= t {
        timers := timers - {hideTimeoutRef};
        if live {
          HideNavigation();
        } else {
          lateFires := lateFires + 1;
        }
      }
      clock := t;
    }
  }
}
