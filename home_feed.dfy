/**
 * hollowscan_app/screens/HomeScreen.js: the deal feed's logic apart from
 * its layout. How old a deal looks ("5m ago"), how taps on the category
 * filter change the selection, which category the feed asks for, and how
 * pages of deals are fetched, appended and topped up by live updates.
 * Times are milliseconds since the epoch; the fetched pages are inputs.
 */
module HomeFeed {
  import opened Wrappers
  import opened Text
  import opened Seqs

  /** Deals per page (`LIMIT`). */
  const PageSize: nat := 10

  // ---------------------------------------------------------------------
  // Relative time

  /** The label `getRelativeTime` shows: the last one is the calendar date. */
  datatype Age = JustNow | MinutesAgo(minutes: nat) | HoursAgo(hours: nat) | DaysAgo(days: nat) | OnDate

  /** `getRelativeTime`: no timestamp or under a minute is "Just now", then whole minutes, hours, days, and after a week the date. */
  function RelativeTime(stamp: Option<int>, now: int): Age {
    if stamp.None? then JustNow
    else
      var seconds := (now - stamp.value) / 1000;
      if seconds < 60 then JustNow
      else if seconds < 3600 then MinutesAgo(seconds / 60)
      else if seconds < 86400 then HoursAgo(seconds / 3600)
      else if seconds < 604800 then DaysAgo(seconds / 86400)
      else OnDate
  }

  /** The text of a label other than the date. */
  function AgeText(a: Age): string
    requires !a.OnDate?
  {
    match a
    case JustNow => "Just now"
    case MinutesAgo(m) => NatToString(m) + "m ago"
    case HoursAgo(h) => NatToString(h) + "h ago"
    case DaysAgo(d) => NatToString(d) + "d ago"
  }

  /** Each label counts whole units of the elapsed time, and stays below the next unit. */
  lemma RelativeTimeBuckets(stamp: int, now: int)
    ensures var seconds := (now - stamp) / 1000;
      match RelativeTime(Some(stamp), now)
      case JustNow => seconds < 60
      case MinutesAgo(m) => 1 <= m < 60 && m * 60 <= seconds < (m + 1) * 60
      case HoursAgo(h) => 1 <= h < 24 && h * 3600 <= seconds < (h + 1) * 3600
      case DaysAgo(d) => 1 <= d < 7 && d * 86400 <= seconds < (d + 1) * 86400
      case OnDate => seconds >= 604800
  {
  }

  /** A deal stamped in the future, or less than a minute ago, is "Just now". */
  lemma RecentIsJustNow(stamp: int, now: int)
    requires now - stamp < 60000
    ensures RelativeTime(Some(stamp), now) == JustNow
  {
  }

  // ---------------------------------------------------------------------
  // Category selection

  const All: string := "ALL"

  /**
   * Tapping "All Categories" toggles ALL and drops every subcategory: the
   * result is a well-formed selection with ALL in it exactly when ALL was
   * not selected before.
   */
  function TapAll(prev: seq<string>): (next: seq<string>)
    ensures Selection(next)
    ensures All in next <==> All !in prev
    ensures forall c :: c in next ==> c == All
  {
    if All in prev then [] else [All]
  }

  /** Tapping subcategory `sub`: replaces ALL, removes a selected `sub` (back to ALL when none is left), or appends it. */
  function TapSub(prev: seq<string>, sub: string): seq<string>
    requires sub != All
  {
    if All in prev then [sub]
    else if sub in prev then
      var updated := Without(prev, sub);
      if |updated| == 0 then [All] else updated
    else prev + [sub]
  }

  /** `prev.filter(c => c !== sub)`. */
  function Without(s: seq<string>, sub: string): (r: seq<string>)
    ensures forall c :: c in r <==> c in s && c != sub
    ensures |r| <= |s|
  {
    if s == [] then []
    else (if s[0] == sub then [] else [s[0]]) + Without(s[1..], sub)
  }

  /** The selections the filter can reach: ALL alone, nothing, or distinct subcategories without ALL. */
  predicate Selection(sel: seq<string>) {
    sel == [All] || sel == [] || (All !in sel && NoDuplicates(sel))
  }

  lemma {:induction false} WithoutKeepsDistinct(s: seq<string>, sub: string)
    requires NoDuplicates(s)
    ensures NoDuplicates(Without(s, sub))
  {
    if s != [] {
      WithoutKeepsDistinct(s[1..], sub);
      var rest := Without(s[1..], sub);
      var r := Without(s, sub);
      if s[0] != sub {
        assert s[0] !in s[1..];
        forall i, j | 0 <= i < j < |r| ensures r[i] != r[j] {
          if i == 0 {
            assert r[j] == rest[j - 1];
          } else {
            assert r[i] == rest[i - 1] && r[j] == rest[j - 1];
          }
        }
      }
    }
  }

  /**
   * A subcategory tap never leaves the selection empty, and toggles the
   * subcategory: it is selected afterwards exactly when it was not before,
   * or when ALL was; the filter only ever reaches well-formed selections.
   */
  lemma TapSubToggles(prev: seq<string>, sub: string)
    requires sub != All
    requires Selection(prev)
    ensures TapSub(prev, sub) != []
    ensures sub in TapSub(prev, sub) <==> sub !in prev || All in prev
    ensures Selection(TapSub(prev, sub))
    ensures All in TapSub(prev, sub) ==> TapSub(prev, sub) == [All]
  {
    var next := TapSub(prev, sub);
    if All !in prev {
      if sub in prev {
        WithoutKeepsDistinct(prev, sub);
      } else {
        forall i, j | 0 <= i < j < |next| ensures next[i] != next[j] {
          if j == |prev| {
            assert next[i] in prev;
          }
        }
      }
    }
  }

  /** The "All Categories" tap keeps the selection well-formed and undoes itself from ALL alone. */
  lemma TapAllTwice(prev: seq<string>)
    ensures Selection(TapAll(prev))
    ensures prev == [All] ==> TapAll(TapAll(prev)) == prev
  {
  }

  /** `catParam`: ALL when ALL is selected, else the first selection unless it is missing or empty, then ALL. */
  function CategoryParam(sel: seq<string>): (r: string)
    ensures r == All || (All !in sel && sel != [] && r == sel[0] && r != "")
    ensures All in sel ==> r == All
  {
    if All in sel then All
    else if sel != [] && sel[0] != "" then sel[0]
    else All
  }

  // ---------------------------------------------------------------------
  // Paging

  /** A deal of the feed, as far as this model needs one. */
  datatype Deal = Deal(id: string, title: string)

  class Feed {
    var alerts: seq<Deal>
    var offset: int
    var hasMore: bool
    var isLoading: bool
    var isLoadingMore: bool

    constructor ()
      ensures alerts == [] && offset == 0 && hasMore && !isLoading && !isLoadingMore
    {
      alerts := [];
      offset := 0;
      hasMore := true;
      isLoading := false;
      isLoadingMore := false;
    }

    /**
     * `fetchAlerts`: a page that arrives (`Some`) replaces the list on a
     * reset and is appended otherwise, and more is expected exactly when
     * the page was full; a failed fetch changes nothing.
     */
    method FetchAlerts(page: Option<seq<Deal>>, reset: bool)
      modifies this
      ensures page.None? ==> alerts == old(alerts) && hasMore == old(hasMore)
      ensures page.Some? ==> alerts == (if reset then [] else old(alerts)) + page.value
      ensures page.Some? ==> (hasMore <==> |page.value| == PageSize)
      ensures offset == old(offset) && isLoading == old(isLoading) && isLoadingMore == old(isLoadingMore)
    {
      if page.Some? {
        if reset {
          alerts := page.value;
        } else {
          alerts := alerts + page.value;
        }
        hasMore := |page.value| == PageSize;
      }
    }

    /** `fetchInitialData`'s feed part: from offset 0, the first page replaces the list. */
    method FetchInitialData(page: Option<seq<Deal>>)
      modifies this
      ensures offset == 0 && !isLoading
      ensures page.None? ==> alerts == old(alerts) && hasMore
      ensures page.Some? ==> alerts == page.value && (hasMore <==> |page.value| == PageSize)
      ensures isLoadingMore == old(isLoadingMore)
    {
      isLoading := true;
      offset := 0;
      hasMore := true;
      FetchAlerts(page, true);
      isLoading := false;
    }

    /**
     * `handleLoadMore`: with nothing more to load or a load under way it
     * does nothing; otherwise the offset moves on by one page, the page
     * fetched from there is appended, and the load ends.
     */
    method HandleLoadMore(page: Option<seq<Deal>>) returns (requested: Option<int>)
      modifies this
      ensures old(!hasMore || isLoadingMore || isLoading) ==>
        requested.None? && alerts == old(alerts) && offset == old(offset) && hasMore == old(hasMore)
        && isLoadingMore == old(isLoadingMore)
      ensures old(hasMore && !isLoadingMore && !isLoading) ==>
        && requested == Some(old(offset) + PageSize) && offset == old(offset) + PageSize
        && alerts == old(alerts) + (if page.Some? then page.value else [])
        && (page.Some? ==> (hasMore <==> |page.value| == PageSize))
        && !isLoadingMore
      ensures isLoading == old(isLoading)
    {
      if !hasMore || isLoadingMore || isLoading {
        return None;
      }
      isLoadingMore := true;
      var nextOffset := offset + PageSize;
      offset := nextOffset;
      FetchAlerts(page, false);
      requested := Some(nextOffset);
      isLoadingMore := false;
    }

    /** A live update: the new deals go on top of the list. */
    method ReceiveNewProducts(newProducts: seq<Deal>)
      modifies this
      ensures alerts == newProducts + old(alerts)
      ensures offset == old(offset) && hasMore == old(hasMore)
      ensures isLoading == old(isLoading) && isLoadingMore == old(isLoadingMore)
    {
      alerts := newProducts + alerts;
    }
  }

  /** The list after a first page and then load-mores whose pages all arrived, in order. */
  function Loaded(first: seq<Deal>, more: seq<seq<Deal>>): seq<Deal> {
    if more == [] then first else Loaded(first, more[..|more| - 1]) + more[|more| - 1]
  }

  /** While every page is full, the list after `k` load-mores holds exactly `k + 1` pages, which the offsets point at. */
  lemma {:induction false} LoadedLength(first: seq<Deal>, more: seq<seq<Deal>>)
    requires |first| == PageSize
    requires forall k :: 0 <= k < |more| ==> |more[k]| == PageSize
    ensures |Loaded(first, more)| == (|more| + 1) * PageSize
    ensures forall k :: 0 <= k < |more| ==> Loaded(first, more)[(k + 1) * PageSize..(k + 2) * PageSize] == more[k]
  {
    if more != [] {
      var init := more[..|more| - 1];
      LoadedLength(first, init);
      var before := Loaded(first, init);
      var r := Loaded(first, more);
      forall k | 0 <= k < |more| ensures r[(k + 1) * PageSize..(k + 2) * PageSize] == more[k] {
        if k < |init| {
          assert r[(k + 1) * PageSize..(k + 2) * PageSize] == before[(k + 1) * PageSize..(k + 2) * PageSize];
          assert init[k] == more[k];
        } else {
          assert r[(k + 1) * PageSize..] == more[k];
        }
      }
    }
  }
}
