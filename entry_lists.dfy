/**
 * The list transforms of the reading-state store: drop every entry with a
 * given url, move a new entry to the front, and cap the history at 50.
 * Both lists are kept most-recently-touched first with pairwise distinct urls.
 */
module EntryLists {
  import opened Entries

  /** The history keeps at most this many entries. */
  const HistoryCapacity: nat := 50

  /** Within a list, no two entries share a url. */
  ghost predicate UrlsDistinct(es: seq<Entry>)
  {
    forall i, j :: 0 <= i < j < |es| ==> es[i].url != es[j].url
  }

  /** No entry of `es` has url `u`. */
  ghost predicate LacksUrl(es: seq<Entry>, u: string)
  {
    forall i :: 0 <= i < |es| ==> es[i].url != u
  }

  /** `a` is obtained from `b` by deleting elements: same relative order. */
  ghost predicate IsSubsequence(a: seq<Entry>, b: seq<Entry>)
    decreases |b|
  {
    if a == [] then true
    else if b == [] then false
    else (a[0] == b[0] && IsSubsequence(a[1..], b[1..])) || IsSubsequence(a, b[1..])
  }

  /** `es.filter(x => x.url !== u)`. */
  function WithoutUrl(es: seq<Entry>, u: string): (r: seq<Entry>)
    ensures |r| <= |es|
    ensures LacksUrl(r, u)
    ensures forall x :: x in r <==> x in es && x.url != u
  {
    if es == [] then []
    else if es[0].url != u then [es[0]] + WithoutUrl(es[1..], u)
    else WithoutUrl(es[1..], u)
  }

  /** Filtering keeps every entry with another url as often as it occurred, and drops the rest. */
  lemma {:induction false} WithoutUrlCounts(es: seq<Entry>, u: string, x: Entry)
    ensures multiset(WithoutUrl(es, u))[x] == if x.url != u then multiset(es)[x] else 0
  {
    if es != [] {
      WithoutUrlCounts(es[1..], u, x);
      assert es == [es[0]] + es[1..];
    }
  }

  /** `[e, ...es.filter(x => x.url !== e.url)]`: put `e` first, drop older entries for its url. */
  function MoveToFront(es: seq<Entry>, e: Entry): (r: seq<Entry>)
    ensures |r| >= 1 && r[0] == e
    ensures LacksUrl(r[1..], e.url)
    ensures forall x :: x in r <==> x == e || (x in es && x.url != e.url)
  {
    [e] + WithoutUrl(es, e.url)
  }

  function Min(a: int, b: int): (r: int)
    ensures r <= a && r <= b && (r == a || r == b)
  {
    if a <= b then a else b
  }

  /** `s.slice(0, n)`. */
  function Take(s: seq<Entry>, n: nat): (r: seq<Entry>)
    ensures |r| == Min(n, |s|)
    ensures r == s[..|r|]
  {
    if |s| <= n then s else s[..n]
  }

  /** `[e, ...filtered].slice(0, 50)`: dedup first, then cap. */
  function WithHistoryEntry(es: seq<Entry>, e: Entry): (r: seq<Entry>)
    ensures 1 <= |r| <= HistoryCapacity && r[0] == e
    ensures LacksUrl(r[1..], e.url)
    ensures |r| == Min(HistoryCapacity, 1 + |WithoutUrl(es, e.url)|)
    ensures r == MoveToFront(es, e)[..|r|]
  {
    Take(MoveToFront(es, e), HistoryCapacity)
  }

  /** `s` in reverse order. */
  function Reversed(s: seq<Entry>): (r: seq<Entry>)
    ensures |r| == |s|
    ensures forall i :: 0 <= i < |s| ==> r[i] == s[|s| - 1 - i]
  {
    if s == [] then [] else [s[|s| - 1]] + Reversed(s[..|s| - 1])
  }

  /** The favorites list after adding `adds` in order to an empty list. */
  function FavoritesAfter(adds: seq<Entry>): (r: seq<Entry>)
  {
    if adds == [] then [] else MoveToFront(FavoritesAfter(adds[..|adds| - 1]), adds[|adds| - 1])
  }

  /** The history after saving `adds` in order to an empty history. */
  function HistoryAfter(adds: seq<Entry>): (r: seq<Entry>)
  {
    if adds == [] then [] else WithHistoryEntry(HistoryAfter(adds[..|adds| - 1]), adds[|adds| - 1])
  }

  // ---------------------------------------------------------------------
  // Removal

  /** The filter keeps the survivors in their original relative order. */
  lemma {:induction false} WithoutUrlIsSubsequence(es: seq<Entry>, u: string)
    ensures IsSubsequence(WithoutUrl(es, u), es)
  {
    if es != [] {
      WithoutUrlIsSubsequence(es[1..], u);
      var r := WithoutUrl(es, u);
      if es[0].url != u {
        assert r[1..] == WithoutUrl(es[1..], u);
      } else if r != [] {
        assert r == WithoutUrl(es[1..], u);
      }
    }
  }

  /** Removing a url from a list with distinct urls keeps them distinct. */
  lemma {:induction false} WithoutUrlKeepsDistinct(es: seq<Entry>, u: string)
    requires UrlsDistinct(es)
    ensures UrlsDistinct(WithoutUrl(es, u))
  {
    if es != [] {
      assert UrlsDistinct(es[1..]);
      WithoutUrlKeepsDistinct(es[1..], u);
      if es[0].url != u {
        var rest := WithoutUrl(es[1..], u);
        var r := [es[0]] + rest;
        forall j | 0 < j < |r|
          ensures r[0].url != r[j].url
        {
          assert r[j] in rest;
          assert r[j] in es[1..];
          var k :| 0 <= k < |es[1..]| && es[1..][k] == r[j];
          assert es[k + 1] == r[j];
        }
      }
    }
  }

  /** Filtering out a url that does not occur returns the list unchanged. */
  lemma {:induction false} WithoutAbsentUrl(es: seq<Entry>, u: string)
    requires LacksUrl(es, u)
    ensures WithoutUrl(es, u) == es
  {
    if es != [] {
      WithoutAbsentUrl(es[1..], u);
      assert es == [es[0]] + es[1..];
    }
  }

  /** `removeFromFavorites(u)` twice is the same as once. */
  lemma {:induction false} WithoutUrlIdempotent(es: seq<Entry>, u: string)
    ensures WithoutUrl(WithoutUrl(es, u), u) == WithoutUrl(es, u)
  {
    WithoutAbsentUrl(WithoutUrl(es, u), u);
  }

  /** On a list with distinct urls that holds `u`, removal drops exactly one entry. */
  lemma {:induction false} WithoutPresentUrlShrinksByOne(es: seq<Entry>, u: string, i: nat)
    requires UrlsDistinct(es)
    requires i < |es| && es[i].url == u
    ensures |WithoutUrl(es, u)| == |es| - 1
  {
    if i == 0 {
      assert LacksUrl(es[1..], u);
      WithoutAbsentUrl(es[1..], u);
    } else {
      assert UrlsDistinct(es[1..]);
      WithoutPresentUrlShrinksByOne(es[1..], u, i - 1);
    }
  }

  // ---------------------------------------------------------------------
  // Favorites

  /** Adding a favorite keeps the urls pairwise distinct. */
  lemma MoveToFrontKeepsDistinct(es: seq<Entry>, e: Entry)
    requires UrlsDistinct(es)
    ensures UrlsDistinct(MoveToFront(es, e))
  {
    WithoutUrlKeepsDistinct(es, e.url);
    var r := MoveToFront(es, e);
    assert r[1..] == WithoutUrl(es, e.url);
  }

  /** After the new head come the other-url entries, in their original relative order. */
  lemma MoveToFrontKeepsOthersInOrder(es: seq<Entry>, e: Entry)
    ensures IsSubsequence(MoveToFront(es, e)[1..], es)
    ensures forall x :: x in es && x.url != e.url ==> x in MoveToFront(es, e)[1..]
  {
    WithoutUrlIsSubsequence(es, e.url);
    assert MoveToFront(es, e)[1..] == WithoutUrl(es, e.url);
  }

  /** Adding the same url twice leaves one entry for it: the second one, in front. */
  lemma SameUrlTwice(es: seq<Entry>, e1: Entry, e2: Entry)
    requires e1.url == e2.url
    ensures MoveToFront(MoveToFront(es, e1), e2) == MoveToFront(es, e2)
  {
    var once := MoveToFront(es, e1);
    assert once[1..] == WithoutUrl(es, e1.url);
    assert WithoutUrl(once, e2.url) == WithoutUrl(once[1..], e2.url);
    WithoutUrlIdempotent(es, e2.url);
  }

  /** Favorites added with distinct urls come back newest first. */
  lemma {:induction false} FavoritesNewestFirst(adds: seq<Entry>)
    requires UrlsDistinct(adds)
    ensures FavoritesAfter(adds) == Reversed(adds)
  {
    if adds != [] {
      var n := |adds|;
      var p, e := adds[..n - 1], adds[n - 1];
      assert UrlsDistinct(p);
      FavoritesNewestFirst(p);
      LacksUrlOfLast(adds);
      WithoutAbsentUrl(Reversed(p), e.url);
    }
  }

  /** When urls are distinct, the last entry's url is not among the reversed prefix. */
  lemma LacksUrlOfLast(adds: seq<Entry>)
    requires UrlsDistinct(adds) && adds != []
    ensures LacksUrl(Reversed(adds[..|adds| - 1]), adds[|adds| - 1].url)
  {
    var n := |adds|;
    var rp := Reversed(adds[..n - 1]);
    forall i | 0 <= i < |rp|
      ensures rp[i].url != adds[n - 1].url
    {
      assert rp[i] == adds[n - 2 - i];
    }
  }

  // ---------------------------------------------------------------------
  // History

  /** Saving to history keeps the urls distinct and the length within capacity. */
  lemma WithHistoryEntryKeepsInvariant(es: seq<Entry>, e: Entry)
    requires UrlsDistinct(es)
    ensures UrlsDistinct(WithHistoryEntry(es, e))
    ensures |WithHistoryEntry(es, e)| <= HistoryCapacity
  {
    MoveToFrontKeepsDistinct(es, e);
  }

  /** Dedup runs before the cap: an existing url never costs an eviction. */
  lemma DedupBeforeCap(es: seq<Entry>, e: Entry, i: nat)
    requires UrlsDistinct(es) && |es| <= HistoryCapacity
    requires i < |es| && es[i].url == e.url
    ensures WithHistoryEntry(es, e) == MoveToFront(es, e)
    ensures |WithHistoryEntry(es, e)| == |es|
  {
    WithoutPresentUrlShrinksByOne(es, e.url, i);
  }

  /** Saving distinct urls in sequence keeps the 50 most recent, newest first. */
  lemma {:induction false} HistoryKeepsNewest(adds: seq<Entry>)
    requires UrlsDistinct(adds)
    ensures HistoryAfter(adds) == Take(Reversed(adds), HistoryCapacity)
  {
    if adds != [] {
      var n := |adds|;
      var p, e := adds[..n - 1], adds[n - 1];
      assert UrlsDistinct(p);
      HistoryKeepsNewest(p);
      var rp := Reversed(p);
      var hp := Take(rp, HistoryCapacity);
      LacksUrlOfLast(adds);
      assert LacksUrl(hp, e.url);
      WithoutAbsentUrl(hp, e.url);
      assert Reversed(adds) == [e] + rp;
      var lhs := WithHistoryEntry(hp, e);
      var rhs := Take([e] + rp, HistoryCapacity);
      assert |lhs| == |rhs|;
      forall i | 0 <= i < |lhs|
        ensures lhs[i] == rhs[i]
      {
        if i > 0 {
          assert lhs[i] == hp[i - 1];
        }
      }
    }
  }

  /** Sixty distinct urls saved in sequence: the last fifty remain, newest first, the first ten are evicted. */
  lemma SixtySaves(adds: seq<Entry>)
    requires |adds| == 60 && UrlsDistinct(adds)
    ensures |HistoryAfter(adds)| == 50
    ensures forall i :: 0 <= i < 50 ==> HistoryAfter(adds)[i] == adds[59 - i]
    ensures forall i :: 0 <= i < 10 ==> adds[i] !in HistoryAfter(adds)
  {
    HistoryKeepsNewest(adds);
  }
}
