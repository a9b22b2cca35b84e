/**
 * The reader screen: one viewing session over one site. It records every
 * visit in the store, favourites the current page on request and drives the
 * navigation-chrome controller.
 */
module WebViewReader {
  import opened Wrappers
  import opened Entries
  import opened EntryLists
  import opened Storage
  import opened Visibility

  /** The page a session opens on: the resume URL when set, else the site's home. */
  function InitialUrl(site: Site): (u: string)
    ensures site.continueFromUrl != "" ==> u == site.continueFromUrl
    ensures site.continueFromUrl == "" ==> u == site.url
  {
    Or(site.continueFromUrl, site.url)
  }

  class ReaderSession {
    const site: Site
    const store: Store
    const chrome: NavChrome
    var canGoBack: bool
    var canGoForward: bool
    var currentUrl: string
    var pageTitle: string

    ghost predicate Valid()
      reads this, chrome
    {
      chrome.Valid()
    }

    /** The first render: nothing recorded yet, controls shown, no timer. */
    constructor (site: Site, store: Store, t: int)
      ensures Valid() && fresh(chrome)
      ensures this.site == site && this.store == store
      ensures !canGoBack && !canGoForward && currentUrl == InitialUrl(site) && pageTitle == ""
      ensures chrome.showNavigation && chrome.Pending() == None && chrome.clock == t
      ensures chrome.live && chrome.lateFires == 0
    {
      this.site := site;
      this.store := store;
      chrome := new NavChrome(t);
      canGoBack, canGoForward := false, false;
      currentUrl := InitialUrl(site);
      pageTitle := "";
    }

    /**
     * The mount effects: record the opening URL as last visited and in the
     * history under the site's name, then arm the hide timer.
     */
    method Mount(visitWriteFails: bool, historyIo: Io)
      requires Valid()
      modifies store, chrome
      ensures Valid()
      ensures store.cells == AfterVisit(old(store.cells), site, currentUrl, site.name, chrome.clock, visitWriteFails, historyIo)
      ensures old(store.Valid()) ==> store.Valid()
      ensures chrome.showNavigation == old(chrome.showNavigation) && chrome.Pending() == Some(chrome.clock + HideDelay)
      ensures chrome.clock == old(chrome.clock) && chrome.live == old(chrome.live) && chrome.lateFires == old(chrome.lateFires)
    {
      RecordVisit(currentUrl, site.name, visitWriteFails, historyIo);
      chrome.StartHideTimer();
    }

    /** The unmount cleanup: clears the pending timer, so no hide runs after teardown. */
    method Unmount()
      requires Valid()
      modifies chrome
      ensures Valid() && chrome.Pending() == None && !chrome.live
      ensures chrome.showNavigation == old(chrome.showNavigation) && chrome.clock == old(chrome.clock)
      ensures chrome.lateFires == old(chrome.lateFires)
    {
      chrome.CancelHideTimer();
      chrome.TearDown();
    }

    /** A touch on the page content. */
    method Touch()
      requires Valid()
      modifies chrome
      ensures Valid() && chrome.showNavigation && chrome.Pending() == Some(chrome.clock + HideDelay)
      ensures chrome.clock == old(chrome.clock) && chrome.live == old(chrome.live) && chrome.lateFires == old(chrome.lateFires)
    {
      chrome.HandleTouch();
    }

    /** Time advances; a due hide callback runs. */
    method Tick(t: int)
      requires Valid() && chrome.clock <= t
      modifies chrome
      ensures Valid() && chrome.clock == t && chrome.live == old(chrome.live)
      ensures chrome.hideTimeoutRef == old(chrome.hideTimeoutRef)
      ensures old(chrome.Pending()).Some? && old(chrome.Pending()).value <= t ==>
        && chrome.Pending() == None
        && (if chrome.live then !chrome.showNavigation && chrome.lateFires == old(chrome.lateFires)
            else chrome.showNavigation == old(chrome.showNavigation) && chrome.lateFires == old(chrome.lateFires) + 1)
      ensures !(old(chrome.Pending()).Some? && old(chrome.Pending()).value <= t) ==>
        chrome.Pending() == old(chrome.Pending()) && chrome.showNavigation == old(chrome.showNavigation)
        && chrome.lateFires == old(chrome.lateFires)
    {
      chrome.Tick(t);
    }

    /**
     * `handleNavigationStateChange`: copies the browser's flags and url, keeps
     * the reported title (or ''), and records the page as last visited and in
     * the history under its title, or the site's name when it has none.
     */
    method HandleNavigationStateChange(nav: NavState, visitWriteFails: bool, historyIo: Io)
      requires Valid()
      modifies this, store
      ensures Valid()
      ensures canGoBack == nav.canGoBack && canGoForward == nav.canGoForward
      ensures currentUrl == nav.url && pageTitle == nav.title
      ensures store.cells == AfterVisit(old(store.cells), site, nav.url, Or(nav.title, site.name), chrome.clock, visitWriteFails, historyIo)
      ensures old(store.Valid()) ==> store.Valid()
      ensures unchanged(chrome)
    {
      canGoBack := nav.canGoBack;
      canGoForward := nav.canGoForward;
      currentUrl := nav.url;
      pageTitle := Or(nav.title, "");
      RecordVisit(nav.url, Or(nav.title, site.name), visitWriteFails, historyIo);
    }

    /** `saveLastVisited(site, url)` then `saveToHistory(site, url, title)`, both at the current time. */
    method RecordVisit(url: string, title: string, visitWriteFails: bool, historyIo: Io)
      modifies store
      ensures store.cells == AfterVisit(old(store.cells), site, url, title, chrome.clock, visitWriteFails, historyIo)
      ensures old(store.Valid()) ==> store.Valid()
    {
      ghost var before := store.cells;
      store.SaveLastVisited(site, url, chrome.clock, visitWriteFails);
      var _ := store.SaveToHistory(site, url, title, chrome.clock, historyIo);
      if ListsValid(before) {
        VisitKeepsInvariant(before, site, url, title, chrome.clock, visitWriteFails, historyIo);
      }
    }

    /** `goBack`: asks the browser to go back only when it can. */
    method GoBack() returns (cmd: Option<WebCommand>)
      ensures cmd.Some? <==> canGoBack
      ensures cmd.Some? ==> cmd.value == GoBackCommand
    {
      cmd := if canGoBack then Some(GoBackCommand) else None;
    }

    /** `goForward`: asks the browser to go forward only when it can. */
    method GoForward() returns (cmd: Option<WebCommand>)
      ensures cmd.Some? <==> canGoForward
      ensures cmd.Some? ==> cmd.value == GoForwardCommand
    {
      cmd := if canGoForward then Some(GoForwardCommand) else None;
    }

    /**
     * `handleAddToFavorites`: favourites the current page under its title,
     * or the site's name when it has none. The hide timer is not touched.
     */
    method HandleAddToFavorites(io: Io)
      requires Valid()
      modifies store
      ensures Valid()
      ensures store.cells == Stored(old(store.cells), FavoritesKey,
        ListPayload(MoveToFront(EntriesOf(LookupIn(old(store.cells), FavoritesKey, io.readFails)),
                                NewEntry(site, currentUrl, Or(pageTitle, site.name), chrome.clock))),
        io.writeFails)
      ensures old(store.Valid()) ==> store.Valid()
      ensures unchanged(chrome)
    {
      var _ := store.AddToFavorites(site, currentUrl, Or(pageTitle, site.name), chrome.clock, io);
    }
  }

  /**
   * Debounce: armed at mount (t = 0) and touched at 2900, the controls are
   * still shown at 5800 and hidden at 5900.
   */
  method DebounceTimeline(site: Site) returns (shownAt5800: bool, shownAt5900: bool)
    ensures shownAt5800 && !shownAt5900
  {
    var store := new Store(map[]);
    var session := new ReaderSession(site, store, 0);
    session.Mount(false, Io(false, false));
    session.Tick(2900);
    session.Touch();
    session.Tick(5800);
    shownAt5800 := session.chrome.showNavigation;
    session.Tick(5900);
    shownAt5900 := session.chrome.showNavigation;
  }

  /** After unmount no hide callback runs, however far time advances. */
  method NoHideAfterUnmount(site: Site, t: int) returns (lateFires: nat)
    ensures lateFires == 0
  {
    var store := new Store(map[]);
    var session := new ReaderSession(site, store, 0);
    session.Mount(false, Io(false, false));
    session.Unmount();
    if t >= 0 {
      session.Tick(t);
    }
    lateFires := session.chrome.lateFires;
  }

  /**
   * A session opens on MangaDex, follows a link to a title page and
   * favourites it: last visited is the title page, the history holds both
   * pages newest first, and the favourites hold the title page alone.
   */
  method MangaDexSession() returns (last: Option<VisitRecord>, history: seq<Entry>, favorites: seq<Entry>)
    ensures last.Some? && last.value.url == "https://mangadex.org/title/42"
    ensures |history| == 2
    ensures history[0].url == "https://mangadex.org/title/42" && history[0].title == "One Piece"
    ensures history[1].url == "https://mangadex.org" && history[1].title == "MangaDex"
    ensures |favorites| == 1
    ensures favorites[0].url == "https://mangadex.org/title/42" && favorites[0].title == "One Piece"
  {
    var site := Site("1", "MangaDex", "Popular manga reader community", "https://mangadex.org", "#FF6B35", "", "");
    var store := new Store(map[]);
    var session := new ReaderSession(site, store, 0);
    session.Mount(false, Io(false, false));
    session.Tick(1000);
    session.HandleNavigationStateChange(NavState("https://mangadex.org/title/42", "One Piece", true, false), false, Io(false, false));
    session.HandleAddToFavorites(Io(false, false));
    last := store.GetLastVisited(false);
    history := store.GetHistory(false);
    favorites := store.GetFavorites(false);
  }
}
