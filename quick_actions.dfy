/**
 * The quick-actions panel: "continue reading" from the last visited page, and
 * the three most recent favourites. No screen of the app renders it; its props
 * (`onSiteSelect`, `onShowFavorites`) are the ones the shell hands its home
 * screen, so the panel is modelled as wired to `App.AppShell.HandleSiteSelect`.
 */
module QuickActions {
  import opened Wrappers
  import opened Entries
  import opened EntryLists
  import opened Storage
  import WebViewReader
  import App

  /** How many favourites the panel shows. */
  const RecentCount: nat := 3

  /** `handleContinueReading`: the site to open, resuming at the last visited url; nothing without a record. */
  function ContinueTarget(lastVisited: Option<VisitRecord>): (r: Option<Site>)
    ensures r.None? <==> lastVisited.None?
    ensures r.Some? ==> r.value.continueFromUrl == lastVisited.value.url
    ensures r.Some? ==> r.value.(continueFromUrl := lastVisited.value.site.continueFromUrl) == lastVisited.value.site
  {
    match lastVisited
    case None => None
    case Some(v) => Some(App.ResumeAt(v.site, v.url))
  }

  /** The favourite tap handler: the favourite's site, resuming at its url. */
  function FavoriteTarget(favorite: Entry): (r: Site)
    ensures r.continueFromUrl == favorite.url
    ensures r.(continueFromUrl := favorite.site.continueFromUrl) == favorite.site
  {
    App.ResumeAt(favorite.site, favorite.url)
  }

  /** The title shown for a favourite: its own, or its site's name when empty. */
  function FavoriteLabel(favorite: Entry): (shown: string)
    ensures favorite.title != "" ==> shown == favorite.title
    ensures favorite.title == "" ==> shown == favorite.site.name
  {
    Or(favorite.title, favorite.site.name)
  }

  /** The empty-render guard: nothing is drawn without a last visit and without favourites. */
  function RendersNothing(lastVisited: Option<VisitRecord>, recentFavorites: seq<Entry>): (nothing: bool)
    ensures nothing ==> lastVisited.None? && recentFavorites == []
    ensures lastVisited.Some? || recentFavorites != [] ==> !nothing
  {
    lastVisited.None? && |recentFavorites| == 0
  }

  /** Continue reading reopens the reader on the page last visited, every other site field kept. */
  lemma ContinueResumesAtLastVisit(v: VisitRecord)
    requires v.url != ""
    ensures ContinueTarget(Some(v)).Some?
    ensures WebViewReader.InitialUrl(ContinueTarget(Some(v)).value) == v.url
    ensures ContinueTarget(Some(v)).value.(continueFromUrl := v.site.continueFromUrl) == v.site
  {
  }

  /** Tapping a favourite opens the reader on its url, exactly as picking it on the favorites screen does. */
  lemma FavoriteTapResumesAtFavorite(favorite: Entry)
    requires favorite.url != ""
    ensures WebViewReader.InitialUrl(FavoriteTarget(favorite)) == favorite.url
    ensures FavoriteTarget(favorite) == App.ResumeAt(favorite.site, favorite.url)
  {
  }

  /**
   * Continue reading, with `onSiteSelect` wired to the shell's
   * `handleSiteSelect`: the shell renders the reader alone, opening on the
   * last visited url.
   */
  method ContinueThroughShell(shell: App.AppShell, v: VisitRecord) returns (target: Site)
    requires v.url != ""
    modifies shell
    ensures App.Rendered(shell.currentScreen, shell.currentSite) == [App.ReaderView(target)]
    ensures WebViewReader.InitialUrl(target) == v.url
    ensures target.(continueFromUrl := v.site.continueFromUrl) == v.site
  {
    target := ContinueTarget(Some(v)).value;
    shell.HandleSiteSelect(target);
  }

  class QuickPanel {
    var lastVisited: Option<VisitRecord>
    var recentFavorites: seq<Entry>

    constructor ()
      ensures lastVisited == None && recentFavorites == []
      ensures RendersNothing(lastVisited, recentFavorites)
    {
      lastVisited := None;
      recentFavorites := [];
    }

    /**
     * `loadQuickData`: reads the last visit and the favourites (each read may
     * fail) and keeps the first three favourites, in stored order.
     */
    method LoadQuickData(store: Store, visitReadFails: bool, favoritesReadFails: bool)
      modifies this
      ensures lastVisited == VisitOf(LookupIn(store.cells, LastVisitedKey, visitReadFails))
      ensures var favorites := EntriesOf(LookupIn(store.cells, FavoritesKey, favoritesReadFails));
        && |recentFavorites| == Min(RecentCount, |favorites|)
        && recentFavorites == favorites[..|recentFavorites|]
      ensures RendersNothing(lastVisited, recentFavorites) <==>
        lastVisited.None? && EntriesOf(LookupIn(store.cells, FavoritesKey, favoritesReadFails)) == []
    {
      var lastSite := store.GetLastVisited(visitReadFails);
      var favorites := store.GetFavorites(favoritesReadFails);
      lastVisited := lastSite;
      recentFavorites := Take(favorites, RecentCount);
    }

    /** `handleContinueReading` on the loaded state. */
    method HandleContinueReading() returns (selected: Option<Site>)
      ensures selected.None? <==> lastVisited.None?
      ensures selected == ContinueTarget(lastVisited)
    {
      selected := ContinueTarget(lastVisited);
    }
  }
}
