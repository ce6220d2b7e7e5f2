/**
 * hollowscan_app/context/UserContext.js: the free tier's daily quota of
 * product views. A free user may open at most four different products a
 * day; reopening one already seen that day is always allowed. Days are
 * whole numbers (the value `toDateString` names); the list of the day's
 * products is kept both in the screen state and in device storage.
 */
module DailyViews {
  import opened Seqs

  /** `FREE_PRODUCT_LIMIT`. */
  const FreeProductLimit: int := 4

  /** One day's record: the day, and the products viewed on it in order. */
  datatype Views = Views(date: int, products: seq<string>)

  /** The `daily_views` entry of device storage: absent, unreadable, or a record. */
  datatype Stored = Missing | Corrupt | Saved(views: Views)

  /** How many more products may be opened: a count, or `Infinity` for premium users. */
  datatype Remaining = Unlimited | Count(n: int)

  /** The answer of `trackProductView`. */
  datatype Verdict = Verdict(allowed: bool, remaining: Remaining)

  /** A record the quota rules can produce: within the limit, each product once. */
  predicate WithinQuota(v: Views) {
    |v.products| <= FreeProductLimit && NoDuplicates(v.products)
  }

  /** The record a check starts from: the stored one if it is today's, else an empty one for today. */
  function Current(stored: Views, today: int): Views {
    if stored.date != today then Views(today, []) else stored
  }

  /** The record after a free user opens `productId`, and whether it was allowed. */
  function Viewed(v: Views, productId: string): (bool, Views) {
    if productId in v.products then (true, v)
    else if |v.products| >= FreeProductLimit then (false, v)
    else (true, v.(products := v.products + [productId]))
  }

  /** A product is allowed exactly when already seen today or the day's list is not full; the list then holds it. */
  lemma ViewedAllows(v: Views, productId: string)
    ensures Viewed(v, productId).0 <==> productId in v.products || |v.products| < FreeProductLimit
    ensures Viewed(v, productId).0 <==> productId in Viewed(v, productId).1.products
    ensures Viewed(v, productId).1.date == v.date
  {
  }

  /** The quota rules keep a record within the limit and free of repeats. */
  lemma ViewedKeepsQuota(v: Views, productId: string)
    requires WithinQuota(v)
    ensures WithinQuota(Viewed(v, productId).1)
  {
    var r := Viewed(v, productId).1;
    if r != v {
      forall i, j | 0 <= i < j < |r.products| ensures r.products[i] != r.products[j] {
        if j == |v.products| {
          assert r.products[i] in v.products;
        }
      }
    }
  }

  /** Opening products one after another on one day, from `v`. */
  function ViewedAll(v: Views, ids: seq<string>): Views {
    if ids == [] then v else Viewed(ViewedAll(v, ids[..|ids| - 1]), ids[|ids| - 1]).1
  }

  /** Over a day, the list stays within the quota, and every product allowed on the way is in it. */
  lemma {:induction false} ViewedAllQuota(v: Views, ids: seq<string>)
    requires WithinQuota(v)
    ensures WithinQuota(ViewedAll(v, ids))
    ensures forall k :: 0 <= k < |ids| && Viewed(ViewedAll(v, ids[..k]), ids[k]).0 ==> ids[k] in ViewedAll(v, ids).products
    ensures forall p :: p in v.products ==> p in ViewedAll(v, ids).products
  {
    if ids != [] {
      var init := ids[..|ids| - 1];
      var last := ids[|ids| - 1];
      ViewedAllQuota(v, init);
      var before := ViewedAll(v, init);
      ViewedKeepsQuota(before, last);
      ViewedAllows(before, last);
      forall k | 0 <= k < |ids| && Viewed(ViewedAll(v, ids[..k]), ids[k]).0 ensures ids[k] in ViewedAll(v, ids).products {
        if k < |init| {
          assert ids[..k] == init[..k];
          assert ids[k] == init[k];
        } else {
          assert ids[..k] == init;
        }
      }
    }
  }

  class UserProvider {
    var isPremium: bool
    /** The screen state `dailyViews`. */
    var dailyViews: Views
    /** The `daily_views` entry of device storage. */
    var stored: Stored

    constructor (isPremium: bool, today: int, stored: Stored)
      ensures this.isPremium == isPremium && dailyViews == Views(today, []) && this.stored == stored
    {
      this.isPremium := isPremium;
      dailyViews := Views(today, []);
      this.stored := stored;
    }

    /**
     * `trackProductView`: premium users pass without a record; an unreadable
     * record answers "allowed, -1"; otherwise the stored record (or an empty
     * one when it is missing or from another day) decides, and a newly
     * allowed product is appended and written to both copies.
     */
    method TrackProductView(productId: string, today: int) returns (verdict: Verdict)
      modifies this
      ensures isPremium ==> verdict == Verdict(true, Unlimited) && dailyViews == old(dailyViews) && stored == old(stored)
      ensures !isPremium && old(stored).Corrupt? ==> verdict == Verdict(true, Count(-1)) && dailyViews == old(dailyViews) && stored == old(stored)
      ensures !isPremium && !old(stored).Corrupt? ==>
        var cur := Current(if old(stored).Saved? then old(stored).views else Views(today, []), today);
        var (allowed, after) := Viewed(cur, productId);
        && verdict.allowed == allowed
        && verdict.remaining == Count(if allowed then FreeProductLimit - |after.products| else 0)
        && (if after == cur then dailyViews == old(dailyViews) && stored == old(stored)
            else dailyViews == after && stored == Saved(after))
      ensures isPremium == old(isPremium)
    {
      if isPremium {
        return Verdict(true, Unlimited);
      }
      if stored.Corrupt? {
        return Verdict(true, Count(-1));
      }
      var current := if stored.Saved? then stored.views else Views(today, []);
      if current.date != today {
        current := Views(today, []);
      }
      if productId in current.products {
        return Verdict(true, Count(FreeProductLimit - |current.products|));
      }
      if |current.products| >= FreeProductLimit {
        return Verdict(false, Count(0));
      }
      current := current.(products := current.products + [productId]);
      dailyViews := current;
      stored := Saved(current);
      verdict := Verdict(true, Count(FreeProductLimit - |current.products|));
    }

    /** `getRemainingViews`: the views left today, never negative. */
    function GetRemainingViews(): (n: int)
      reads this
      ensures n >= 0
      ensures n == 0 <==> |dailyViews.products| >= FreeProductLimit
      ensures n + |dailyViews.products| == FreeProductLimit || n == 0
    {
      if FreeProductLimit - |dailyViews.products| > 0 then FreeProductLimit - |dailyViews.products| else 0
    }

    /** `resetDailyViews`: an empty record for today, in both copies. */
    method ResetDailyViews(today: int)
      modifies this
      ensures dailyViews == Views(today, []) && stored == Saved(Views(today, []))
      ensures isPremium == old(isPremium)
    {
      dailyViews := Views(today, []);
      stored := Saved(dailyViews);
    }
  }

  /** A free user opening a product twice on one day: the second time is allowed and changes nothing. */
  lemma ViewedTwice(v: Views, productId: string)
    ensures Viewed(Viewed(v, productId).1, productId).1 == Viewed(v, productId).1
    ensures Viewed(v, productId).0 ==> Viewed(Viewed(v, productId).1, productId).0
  {
  }

  /** A stored record from an earlier day does not count against today. */
  lemma NewDayStartsEmpty(stored: Views, today: int, productId: string)
    requires stored.date != today
    ensures Viewed(Current(stored, today), productId) == (true, Views(today, [productId]))
  {
    assert [] + [productId] == [productId];
  }
}
