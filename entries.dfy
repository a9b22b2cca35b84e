/**
 * The record shapes shared by the reading-state store and its callers:
 * a catalog site, a last-visited record and a favorite/history entry.
 */
module Entries {

  /**
   * A catalog site. The store only echoes it back. `continueFromUrl` is the
   * optional resume URL that the shell spreads into a copy of the site;
   * the empty string stands for "absent", since the code only looks at its
   * truthiness.
   */
  datatype Site = Site(
    id: string,
    name: string,
    description: string,
    url: string,
    color: string,
    icon: string,
    continueFromUrl: string)

  /** `{site, url, timestamp}`: site S was open at URL U at time T. */
  datatype VisitRecord = VisitRecord(site: Site, url: string, timestamp: int)

  /**
   * A favorite or history entry. `id` is the clock reading whose decimal
   * rendering the source uses as the id string.
   */
  datatype Entry = Entry(id: int, site: Site, url: string, title: string, timestamp: int)

  /** The entry built by the store at clock reading `now`. */
  function NewEntry(site: Site, url: string, title: string, now: int): (e: Entry)
    ensures e.site == site && e.url == url && e.title == title
    ensures e.id == e.timestamp == now
  {
    Entry(now, site, url, title, now)
  }

  /** JavaScript's `a || b` on strings: the empty string is the only falsy one. */
  function Or(a: string, b: string): (r: string)
    ensures a != "" ==> r == a
    ensures a == "" ==> r == b
  {
    if a != "" then a else b
  }
}
