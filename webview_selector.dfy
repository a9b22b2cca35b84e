/**
 * A second web-view screen, which the app shell never imports: the same
 * chrome controller, no storage and no URL tracking. It always loads the
 * site's home page. Its unmount cleanup tests a field that is never set, so the
 * pending hide timer outlives the component.
 */
module WebViewSelector {
  import opened Wrappers
  import opened Entries
  import opened Visibility

  class SelectorView {
    const site: Site
    /** The page the browser loads: always the site's url, never a resume URL. */
    const sourceUrl: string
    const chrome: NavChrome
    var canGoBack: bool
    var canGoForward: bool

    ghost predicate Valid()
      reads this, chrome
    {
      chrome.Valid()
    }

    /** The first render: controls shown, no timer, no history. */
    constructor (site: Site, t: int)
      ensures Valid() && fresh(chrome) && this.site == site
      ensures sourceUrl == site.url
      ensures !canGoBack && !canGoForward
      ensures chrome.showNavigation && chrome.Pending() == None && chrome.clock == t
      ensures chrome.live && chrome.lateFires == 0
    {
      this.site := site;
      sourceUrl := site.url;
      chrome := new NavChrome(t);
      canGoBack, canGoForward := false, false;
    }

    /** The mount effect: arm the hide timer. */
    method Mount()
      requires Valid()
      modifies chrome
      ensures Valid() && chrome.Pending() == Some(chrome.clock + HideDelay)
      ensures chrome.showNavigation == old(chrome.showNavigation) && chrome.clock == old(chrome.clock)
      ensures chrome.live == old(chrome.live) && chrome.lateFires == old(chrome.lateFires)
    {
      chrome.StartHideTimer();
    }

    /**
     * The unmount cleanup as written: it tests `hideNavigation.current`, a
     * property of a function that is always undefined, so `clearTimeout` is
     * never reached and the pending timer stays armed.
     */
    method Unmount()
      requires Valid()
      modifies chrome
      ensures Valid() && !chrome.live
      ensures chrome.timers == old(chrome.timers) && chrome.Pending() == old(chrome.Pending())
      ensures chrome.showNavigation == old(chrome.showNavigation) && chrome.clock == old(chrome.clock)
      ensures chrome.lateFires == old(chrome.lateFires)
    {
      chrome.TearDown();
    }

    /** The cleanup as intended: clear the timer `hideTimeoutRef` names, then tear down. */
    method UnmountIntended()
      requires Valid()
      modifies chrome
      ensures Valid() && !chrome.live && chrome.Pending() == None
      ensures chrome.showNavigation == old(chrome.showNavigation) && chrome.clock == old(chrome.clock)
      ensures chrome.lateFires == old(chrome.lateFires)
    {
      chrome.CancelHideTimer();
      chrome.TearDown();
    }

    /** A touch on the page content. */
    method Touch()
      requires Valid()
      modifies chrome
      ensures Valid() && chrome.showNavigation && chrome.Pending() == Some(chrome.clock + HideDelay)
      ensures chrome.clock == old(chrome.clock) && chrome.live == old(chrome.live) && chrome.lateFires == old(chrome.lateFires)
    {
      chrome.HandleTouch();
    }

    /** Time advances; a due hide callback runs, against nothing once torn down. */
    method Tick(t: int)
      requires Valid() && chrome.clock <= t
      modifies chrome
      ensures Valid() && chrome.clock == t && chrome.live == old(chrome.live)
      ensures chrome.hideTimeoutRef == old(chrome.hideTimeoutRef)
      ensures old(chrome.Pending()).Some? && old(chrome.Pending()).value <= t ==>
        && chrome.Pending() == None
        && (if chrome.live then !chrome.showNavigation && chrome.lateFires == old(chrome.lateFires)
            else chrome.showNavigation == old(chrome.showNavigation) && chrome.lateFires == old(chrome.lateFires) + 1)
      ensures !(old(chrome.Pending()).Some? && old(chrome.Pending()).value <= t) ==>
        chrome.Pending() == old(chrome.Pending()) && chrome.showNavigation == old(chrome.showNavigation)
        && chrome.lateFires == old(chrome.lateFires)
    {
      chrome.Tick(t);
    }

    /** `handleNavigationStateChange`: copies the two flags and nothing else. */
    method HandleNavigationStateChange(nav: NavState)
      requires Valid()
      modifies this
      ensures Valid()
      ensures canGoBack == nav.canGoBack && canGoForward == nav.canGoForward
    {
      canGoBack := nav.canGoBack;
      canGoForward := nav.canGoForward;
    }

    /** `goBack`: asks the browser to go back only when it can. */
    method GoBack() returns (cmd: Option<WebCommand>)
      ensures cmd.Some? <==> canGoBack
      ensures cmd.Some? ==> cmd.value == GoBackCommand
    {
      cmd := if canGoBack then Some(GoBackCommand) else None;
    }

    /** `goForward`: asks the browser to go forward only when it can. */
    method GoForward() returns (cmd: Option<WebCommand>)
      ensures cmd.Some? <==> canGoForward
      ensures cmd.Some? ==> cmd.value == GoForwardCommand
    {
      cmd := if canGoForward then Some(GoForwardCommand) else None;
    }
  }

  /**
   * Mounted at 0 and closed at 1000: the timer armed at mount still fires at
   * 3000, against the torn-down component.
   */
  method HideFiresAfterUnmount(site: Site) returns (lateFires: nat)
    ensures lateFires == 1
  {
    var view := new SelectorView(site, 0);
    view.Mount();
    view.Tick(1000);
    view.Unmount();
    view.Tick(3000);
    lateFires := view.chrome.lateFires;
  }

  /** With the intended cleanup, nothing fires after unmount, however far time advances. */
  method NoHideAfterIntendedUnmount(site: Site, t: int) returns (lateFires: nat)
    ensures lateFires == 0
  {
    var view := new SelectorView(site, 0);
    view.Mount();
    view.Tick(1000);
    view.UnmountIntended();
    if t >= 1000 {
      view.Tick(t);
    }
    lateFires := view.chrome.lateFires;
  }
}
