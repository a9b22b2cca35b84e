/** The screen switch of the app shell: home, reader or favorites. */
module App {
  import opened Wrappers
  import opened Entries
  import WebViewReader

  datatype Screen = Home | Reader | Favorites

  /** A screen component the shell renders. */
  datatype View = SiteSelectorView | ReaderView(site: Site) | FavoritesView

  /** `{ ...site, continueFromUrl: url }`. */
  function ResumeAt(site: Site, url: string): (r: Site)
    ensures r.continueFromUrl == url
    ensures r.(continueFromUrl := site.continueFromUrl) == site
  {
    site.(continueFromUrl := url)
  }

  /**
   * The three render conditions, in source order: the reader needs both the
   * reader screen and a site; the other two need only their screen.
   */
  function Rendered(screen: Screen, site: Option<Site>): (vs: seq<View>)
    ensures |vs| <= 1
    ensures (exists s :: ReaderView(s) in vs) <==> screen == Reader && site.Some?
    ensures site.Some? && screen == Reader ==> vs == [ReaderView(site.value)]
    ensures SiteSelectorView in vs <==> screen == Home
    ensures FavoritesView in vs <==> screen == Favorites
  {
    (if screen == Reader && site.Some? then [ReaderView(site.value)] else [])
    + (if screen == Home then [SiteSelectorView] else [])
    + (if screen == Favorites then [FavoritesView] else [])
  }

  /**
   * A site picked from the favorites opens the reader on the picked url;
   * an empty url is falsy, so the reader falls back to the site's home.
   */
  lemma ResumedReaderOpensAtUrl(site: Site, url: string)
    ensures url != "" ==> WebViewReader.InitialUrl(ResumeAt(site, url)) == url
    ensures url == "" ==> WebViewReader.InitialUrl(ResumeAt(site, url)) == site.url
  {
  }

  class AppShell {
    var currentScreen: Screen
    var currentSite: Option<Site>

    constructor ()
      ensures currentScreen == Home && currentSite == None
      ensures Rendered(currentScreen, currentSite) == [SiteSelectorView]
    {
      currentScreen := Home;
      currentSite := None;
    }

    /** `handleSiteSelect`: open the reader on `site`. */
    method HandleSiteSelect(site: Site)
      modifies this
      ensures currentSite == Some(site) && currentScreen == Reader
      ensures Rendered(currentScreen, currentSite) == [ReaderView(site)]
    {
      currentSite := Some(site);
      currentScreen := Reader;
    }

    /** `handleBackToHome`: drop the site and go home. */
    method HandleBackToHome()
      modifies this
      ensures currentSite == None && currentScreen == Home
      ensures Rendered(currentScreen, currentSite) == [SiteSelectorView]
    {
      currentSite := None;
      currentScreen := Home;
    }

    /** `handleShowFavorites`: only the screen changes. */
    method HandleShowFavorites()
      modifies this
      ensures currentScreen == Favorites && currentSite == old(currentSite)
      ensures Rendered(currentScreen, currentSite) == [FavoritesView]
    {
      currentScreen := Favorites;
    }

    /** `handleCloseFavorites`: only the screen changes. */
    method HandleCloseFavorites()
      modifies this
      ensures currentScreen == Home && currentSite == old(currentSite)
      ensures Rendered(currentScreen, currentSite) == [SiteSelectorView]
    {
      currentScreen := Home;
    }

    /** `handleSelectFromFavorites`: open the reader on a copy of `site` resuming at `url`. */
    method HandleSelectFromFavorites(site: Site, url: string)
      modifies this
      ensures currentScreen == Reader && currentSite == Some(ResumeAt(site, url))
      ensures currentSite.value.continueFromUrl == url
      ensures currentSite.value == site.(continueFromUrl := currentSite.value.continueFromUrl)
      ensures Rendered(currentScreen, currentSite) == [ReaderView(ResumeAt(site, url))]
    {
      currentSite := Some(ResumeAt(site, url));
      currentScreen := Reader;
    }
  }
}
