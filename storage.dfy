/**
 * The reading-state store: the device's key-value medium and the
 * read-modify-write operations over its three keys. Every call to the medium
 * may fail; the caller says which ones do (the `readFails`/`writeFails`
 * flags), and the operations swallow each failure and fall back to a default.
 */
module Storage {
  import opened Wrappers
  import opened Entries
  import opened EntryLists

  /** The keys of the medium: the three store keys and the theme key. */
  datatype Key = LastVisitedKey | FavoritesKey | HistoryKey | ThemeKey

  /** The string each key is stored under. */
  function KeyName(k: Key): (name: string)
  {
    match k
    case LastVisitedKey => "lastVisited"
    case FavoritesKey => "favorites"
    case HistoryKey => "readingHistory"
    case ThemeKey => "theme"
  }

  /**
   * No two keys share a stored name. This is what lets the medium be keyed
   * by the `Key` datatype instead of by strings: a write under one key never
   * touches another.
   */
  lemma KeyNamesDistinct(k1: Key, k2: Key)
    ensures KeyName(k1) == KeyName(k2) ==> k1 == k2
  {
  }

  /**
   * What a key holds: a serialised last-visited record, a serialised entry
   * list, a raw string (the theme), or a payload that does not parse.
   */
  datatype Payload = VisitPayload(visit: VisitRecord) | ListPayload(entries: seq<Entry>) | TextPayload(text: string) | Corrupt

  /** What `getItem` gives: an exception, `null`, or the stored payload. */
  datatype Lookup = ReadFailed | Missing | Found(payload: Payload)

  /** Whether the read and the write of one read-modify-write call fail. */
  datatype Io = Io(readFails: bool, writeFails: bool)

  function LookupIn(cells: map<Key, Payload>, key: Key, readFails: bool): (r: Lookup)
    ensures r.ReadFailed? <==> readFails
    ensures r.Found? <==> !readFails && key in cells
    ensures r.Found? ==> r.payload == cells[key]
  {
    if readFails then ReadFailed else if key in cells then Found(cells[key]) else Missing
  }

  /** `setItem`: on failure the medium keeps its old contents. */
  function Stored(cells: map<Key, Payload>, key: Key, p: Payload, writeFails: bool): (r: map<Key, Payload>)
    ensures writeFails ==> r == cells
    ensures !writeFails ==> key in r && r[key] == p
    ensures forall k :: k != key ==> (k in r <==> k in cells) && (k in cells ==> r[k] == cells[k])
  {
    if writeFails then cells else cells[key := p]
  }

  /** A successful write is read back as written, and leaves every other key reading as before. */
  lemma ReadAfterWrite(cells: map<Key, Payload>, key: Key, p: Payload, k: Key)
    ensures LookupIn(Stored(cells, key, p, false), k, false) == if k == key then Found(p) else LookupIn(cells, k, false)
  {
  }

  /** `getLastVisited`'s answer for what `getItem` gave. */
  function VisitOf(l: Lookup): (r: Option<VisitRecord>)
    ensures r.Some? <==> l.Found? && l.payload.VisitPayload?
    ensures r.Some? ==> r.value == l.payload.visit
  {
    match l
    case Found(VisitPayload(v)) => Some(v)
    case _ => None
  }

  /** `getFavorites`/`getHistory`'s answer for what `getItem` gave. */
  function EntriesOf(l: Lookup): (r: seq<Entry>)
    ensures l.Found? && l.payload.ListPayload? ==> r == l.payload.entries
    ensures !(l.Found? && l.payload.ListPayload?) ==> r == []
  {
    match l
    case Found(ListPayload(es)) => es
    case _ => []
  }

  /** The store invariant: distinct urls in both lists, history within capacity. */
  ghost predicate ListsValid(cells: map<Key, Payload>)
  {
    && (FavoritesKey in cells && cells[FavoritesKey].ListPayload? ==> UrlsDistinct(cells[FavoritesKey].entries))
    && (HistoryKey in cells && cells[HistoryKey].ListPayload? ==>
          UrlsDistinct(cells[HistoryKey].entries) && |cells[HistoryKey].entries| <= HistoryCapacity)
  }

  /** What `saveLastVisited` then `saveToHistory` leave in the medium: the pair of writes every visit makes. */
  function AfterVisit(cells: map<Key, Payload>, site: Site, url: string, title: string, now: int,
                      visitWriteFails: bool, historyIo: Io): (r: map<Key, Payload>)
    ensures forall k :: k != LastVisitedKey && k != HistoryKey ==> (k in r <==> k in cells) && (k in cells ==> r[k] == cells[k])
    ensures visitWriteFails ==> (LastVisitedKey in r <==> LastVisitedKey in cells)
    ensures visitWriteFails && LastVisitedKey in cells ==> r[LastVisitedKey] == cells[LastVisitedKey]
    ensures !visitWriteFails ==> LastVisitedKey in r && r[LastVisitedKey] == VisitPayload(VisitRecord(site, url, now))
    ensures historyIo.writeFails ==> (HistoryKey in r <==> HistoryKey in cells)
    ensures historyIo.writeFails && HistoryKey in cells ==> r[HistoryKey] == cells[HistoryKey]
    ensures !historyIo.writeFails ==> HistoryKey in r
    ensures !historyIo.writeFails ==> r[HistoryKey] == ListPayload(WithHistoryEntry(EntriesOf(LookupIn(cells, HistoryKey, historyIo.readFails)), NewEntry(site, url, title, now)))
  {
    var c := Stored(cells, LastVisitedKey, VisitPayload(VisitRecord(site, url, now)), visitWriteFails);
    Stored(c, HistoryKey,
           ListPayload(WithHistoryEntry(EntriesOf(LookupIn(c, HistoryKey, historyIo.readFails)), NewEntry(site, url, title, now))),
           historyIo.writeFails)
  }

  /** A successful visit is what `getLastVisited` returns next, heads the history, and leaves favorites alone. */
  lemma VisitIsRecorded(cells: map<Key, Payload>, site: Site, url: string, title: string, now: int)
    ensures var after := AfterVisit(cells, site, url, title, now, false, Io(false, false));
      && VisitOf(LookupIn(after, LastVisitedKey, false)) == Some(VisitRecord(site, url, now))
      && EntriesOf(LookupIn(after, HistoryKey, false))[0] == NewEntry(site, url, title, now)
      && LacksUrl(EntriesOf(LookupIn(after, HistoryKey, false))[1..], url)
      && LookupIn(after, FavoritesKey, false) == LookupIn(cells, FavoritesKey, false)
  {
  }

  /** A visit keeps the store invariant. */
  lemma VisitKeepsInvariant(cells: map<Key, Payload>, site: Site, url: string, title: string, now: int,
                            visitWriteFails: bool, historyIo: Io)
    requires ListsValid(cells)
    ensures ListsValid(AfterVisit(cells, site, url, title, now, visitWriteFails, historyIo))
  {
    var c := Stored(cells, LastVisitedKey, VisitPayload(VisitRecord(site, url, now)), visitWriteFails);
    WithHistoryEntryKeepsInvariant(EntriesOf(LookupIn(c, HistoryKey, historyIo.readFails)), NewEntry(site, url, title, now));
  }

  /** The device's key-value medium, with the store operations over it. */
  class Store {
    var cells: map<Key, Payload>

    constructor (initial: map<Key, Payload>)
      ensures cells == initial
    {
      cells := initial;
    }

    ghost predicate Valid()
      reads this
    {
      ListsValid(cells)
    }

    /** `AsyncStorage.getItem`. */
    method GetItem(key: Key, readFails: bool) returns (r: Lookup)
      ensures r == LookupIn(cells, key, readFails)
    {
      if readFails {
        r := ReadFailed;
      } else if key in cells {
        r := Found(cells[key]);
      } else {
        r := Missing;
      }
    }

    /** `AsyncStorage.setItem`; `ok` is false when it throws. */
    method SetItem(key: Key, p: Payload, writeFails: bool) returns (ok: bool)
      modifies this
      ensures ok == !writeFails
      ensures cells == Stored(old(cells), key, p, writeFails)
    {
      ok := !writeFails;
      if ok {
        cells := cells[key := p];
      }
    }

    /** `saveLastVisited`: overwrites the singleton record; a failed write is swallowed. */
    method SaveLastVisited(site: Site, url: string, now: int, writeFails: bool)
      modifies this
      ensures cells == Stored(old(cells), LastVisitedKey, VisitPayload(VisitRecord(site, url, now)), writeFails)
      ensures old(Valid()) ==> Valid()
    {
      var _ := SetItem(LastVisitedKey, VisitPayload(VisitRecord(site, url, now)), writeFails);
    }

    /** `getLastVisited`: the stored record, or none when absent, unreadable or the read fails. */
    method GetLastVisited(readFails: bool) returns (r: Option<VisitRecord>)
      ensures r.Some? <==> !readFails && LastVisitedKey in cells && cells[LastVisitedKey].VisitPayload?
      ensures r.Some? ==> r.value == cells[LastVisitedKey].visit
    {
      var l := GetItem(LastVisitedKey, readFails);
      r := VisitOf(l);
    }

    /** `getFavorites`: the stored list, or `[]` when absent, unreadable or the read fails. */
    method GetFavorites(readFails: bool) returns (r: seq<Entry>)
      ensures readFails || FavoritesKey !in cells || !cells[FavoritesKey].ListPayload? ==> r == []
      ensures !readFails && FavoritesKey in cells && cells[FavoritesKey].ListPayload? ==> r == cells[FavoritesKey].entries
    {
      var l := GetItem(FavoritesKey, readFails);
      r := EntriesOf(l);
    }

    /** `getHistory`: the stored list, or `[]` when absent, unreadable or the read fails. */
    method GetHistory(readFails: bool) returns (r: seq<Entry>)
      ensures readFails || HistoryKey !in cells || !cells[HistoryKey].ListPayload? ==> r == []
      ensures !readFails && HistoryKey in cells && cells[HistoryKey].ListPayload? ==> r == cells[HistoryKey].entries
    {
      var l := GetItem(HistoryKey, readFails);
      r := EntriesOf(l);
    }

    /**
     * `addToFavorites`: reads the list through `getFavorites`, moves the new
     * entry to the front and writes the list back; returns it, or `[]` when
     * the write fails.
     */
    method AddToFavorites(site: Site, url: string, title: string, now: int, io: Io) returns (r: seq<Entry>)
      modifies this
      ensures var updated := MoveToFront(EntriesOf(LookupIn(old(cells), FavoritesKey, io.readFails)), NewEntry(site, url, title, now));
        && cells == Stored(old(cells), FavoritesKey, ListPayload(updated), io.writeFails)
        && r == (if io.writeFails then [] else updated)
      ensures !io.writeFails ==> r[0] == NewEntry(site, url, title, now) && LacksUrl(r[1..], url)
      ensures old(Valid()) ==> Valid()
    {
      var existing := GetFavorites(io.readFails);
      var updated := MoveToFront(existing, NewEntry(site, url, title, now));
      if old(Valid()) {
        MoveToFrontKeepsDistinct(existing, NewEntry(site, url, title, now));
      }
      var ok := SetItem(FavoritesKey, ListPayload(updated), io.writeFails);
      r := if ok then updated else [];
    }

    /**
     * `removeFromFavorites`: reads the list, drops the entries for `url` and
     * writes the list back; returns it, or `[]` when the write fails.
     */
    method RemoveFromFavorites(url: string, io: Io) returns (r: seq<Entry>)
      modifies this
      ensures var updated := WithoutUrl(EntriesOf(LookupIn(old(cells), FavoritesKey, io.readFails)), url);
        && cells == Stored(old(cells), FavoritesKey, ListPayload(updated), io.writeFails)
        && r == (if io.writeFails then [] else updated)
      ensures LacksUrl(r, url)
      ensures old(Valid()) ==> Valid()
    {
      var existing := GetFavorites(io.readFails);
      var updated := WithoutUrl(existing, url);
      if old(Valid()) {
        WithoutUrlKeepsDistinct(existing, url);
      }
      var ok := SetItem(FavoritesKey, ListPayload(updated), io.writeFails);
      r := if ok then updated else [];
    }

    /**
     * `saveToHistory`: reads the list through `getHistory`, drops the older
     * entry for `url`, puts the new one first and keeps the first 50. A read
     * failure reads as `[]`, so the history is overwritten with the new entry
     * alone.
     */
    method SaveToHistory(site: Site, url: string, title: string, now: int, io: Io) returns (r: seq<Entry>)
      modifies this
      ensures var updated := WithHistoryEntry(EntriesOf(LookupIn(old(cells), HistoryKey, io.readFails)), NewEntry(site, url, title, now));
        && cells == Stored(old(cells), HistoryKey, ListPayload(updated), io.writeFails)
        && r == (if io.writeFails then [] else updated)
      ensures io.readFails && !io.writeFails ==> cells[HistoryKey] == ListPayload([NewEntry(site, url, title, now)])
      ensures old(Valid()) ==> Valid()
    {
      var existing := GetHistory(io.readFails);
      var updated := WithHistoryEntry(existing, NewEntry(site, url, title, now));
      if old(Valid()) {
        WithHistoryEntryKeepsInvariant(existing, NewEntry(site, url, title, now));
      }
      var ok := SetItem(HistoryKey, ListPayload(updated), io.writeFails);
      r := if ok then updated else [];
    }
  }
}
