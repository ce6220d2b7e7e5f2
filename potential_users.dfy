/**
 * test_potential_users.py: the part of `SubscriptionManager` that follows
 * people who started the bot without subscribing ("potential users") and
 * decides when to remind them. Times are seconds since the epoch; the
 * stored ISO-8601 strings and the clock are not part of this model.
 */
module PotentialUsers {
  import opened Wrappers
  import opened Text
  import opened Seqs

  const SecondsPerDay: int := 86400
  /** A reminder is due after this many whole days. */
  const ReminderDays: int := 14
  /** Every redemption in this variant is worth 30 days, whatever the code says. */
  const RedeemDays: int := 30

  /** One entry of `potential_users`. */
  datatype Prospect = Prospect(username: string, firstSeen: int, lastReminder: Option<int>)

  /** `timedelta.days` of `later - earlier`: whole days, rounded down. */
  function WholeDays(later: int, earlier: int): int {
    (later - earlier) / SecondsPerDay
  }

  /** The test `get_potential_users_needing_reminder` applies to one prospect. */
  predicate NeedsReminder(p: Prospect, now: int) {
    var since := if p.lastReminder.None? then p.firstSeen else p.lastReminder.value;
    WholeDays(now, since) >= ReminderDays
  }

  /** A reminder is due exactly when 14 full days have passed since the last one, or since first contact when there was none. */
  lemma NeedsReminderIff(p: Prospect, now: int)
    ensures NeedsReminder(p, now) <==>
      now - (if p.lastReminder.None? then p.firstSeen else p.lastReminder.value) >= ReminderDays * SecondsPerDay
  {
    var since := if p.lastReminder.None? then p.firstSeen else p.lastReminder.value;
    var d := now - since;
    assert d == (d / SecondsPerDay) * SecondsPerDay + d % SecondsPerDay;
  }

  /** The prospects of `order` that need a reminder, in dictionary order. */
  function Due(order: seq<string>, potential: map<string, Prospect>, now: int): seq<string>
    requires forall u :: u in order ==> u in potential
  {
    if order == [] then []
    else
      var u := order[|order| - 1];
      Due(order[..|order| - 1], potential, now) + if NeedsReminder(potential[u], now) then [u] else []
  }

  /** Exactly the prospects that need a reminder are listed, each in dictionary order. */
  lemma {:induction false} DueExactly(order: seq<string>, potential: map<string, Prospect>, now: int)
    requires forall u :: u in order ==> u in potential
    ensures forall u :: u in Due(order, potential, now) <==> u in order && NeedsReminder(potential[u], now)
    ensures IsSubsequence(Due(order, potential, now), order)
  {
    if order == [] {
      EmptySubsequence(order);
    } else {
      var init := order[..|order| - 1];
      var u := order[|order| - 1];
      DueExactly(init, potential, now);
      SubsequenceSnoc(Due(init, potential, now), init, u, NeedsReminder(potential[u], now));
      assert init + [u] == order;
      assert Due(order, potential, now) ==
        if NeedsReminder(potential[u], now) then Due(init, potential, now) + [u] else Due(init, potential, now);
      forall v ensures v in order <==> v in init || v == u {
        assert v in order <==> v in init + [u];
      }
    }
  }

  /** The prospects after `track_potential_user(uid, username)` at time `now`. */
  function Tracked(users: map<string, int>, potential: map<string, Prospect>, uid: string, username: Option<string>, now: int)
    : map<string, Prospect>
  {
    if uid in users || uid in potential then potential
    else potential[uid := Prospect(if Truthy(username) then username.value else "Unknown", now, None)]
  }

  /** Tracking again changes nothing: the first contact time stays, whatever the later calls say. */
  lemma TrackedOnce(users: map<string, int>, potential: map<string, Prospect>, uid: string,
                    name1: Option<string>, t1: int, name2: Option<string>, t2: int)
    ensures Tracked(users, Tracked(users, potential, uid, name1, t1), uid, name2, t2) == Tracked(users, potential, uid, name1, t1)
    ensures uid !in users ==> uid in Tracked(users, potential, uid, name1, t1)
    ensures uid in potential ==> Tracked(users, potential, uid, name1, t1)[uid] == potential[uid]
    ensures uid !in users && uid !in potential ==> Tracked(users, potential, uid, name1, t1)[uid].firstSeen == t1
  {
  }

  /** `order` without `uid`, the rest in order. */
  function Without(order: seq<string>, uid: string): (r: seq<string>)
    ensures forall u :: u in r <==> u in order && u != uid
  {
    if order == [] then []
    else Without(order[..|order| - 1], uid) + if order[|order| - 1] == uid then [] else [order[|order| - 1]]
  }

  lemma {:induction false} WithoutKeepsDistinct(order: seq<string>, uid: string)
    requires NoDuplicates(order)
    ensures NoDuplicates(Without(order, uid))
  {
    if order != [] {
      var init := order[..|order| - 1];
      var last := order[|order| - 1];
      WithoutKeepsDistinct(init, uid);
      var r := Without(order, uid);
      var prev := Without(init, uid);
      if last != uid {
        assert last !in init;
        forall i, j | 0 <= i < j < |r| ensures r[i] != r[j] {
          if j == |prev| {
            assert r[i] in prev;
          }
        }
      }
    }
  }

  class SubscriptionManager {
    /** Subscribers and their expiry. */
    var users: map<string, int>
    var codes: map<string, int>
    var potential: map<string, Prospect>
    /** The insertion order of `potential`'s keys, which is its iteration order. */
    var potentialOrder: seq<string>

    ghost predicate Valid()
      reads this
    {
      && NoDuplicates(potentialOrder)
      && (forall u :: u in potential <==> u in potentialOrder)
    }

    /** A fresh manager: no users, one code `TESTCODE` worth 30 days, no prospects. */
    constructor ()
      ensures Valid()
      ensures users == map[] && codes == map["TESTCODE" := 30] && potential == map[] && potentialOrder == []
    {
      users := map[];
      codes := map["TESTCODE" := 30];
      potential := map[];
      potentialOrder := [];
    }

    /** `track_potential_user`: someone who is neither a subscriber nor already a prospect becomes one, seen now. */
    method TrackPotentialUser(uid: string, username: Option<string>, now: int)
      requires Valid()
      modifies this
      ensures Valid()
      ensures potential == Tracked(old(users), old(potential), uid, username, now)
      ensures potentialOrder == if uid in old(users) || uid in old(potential) then old(potentialOrder) else old(potentialOrder) + [uid]
      ensures users == old(users) && codes == old(codes)
    {
      if uid !in users && uid !in potential {
        potential := potential[uid := Prospect(if username.Some? && username.value != "" then username.value else "Unknown", now, None)];
        potentialOrder := potentialOrder + [uid];
      }
    }

    /**
     * `redeem_code`: an unknown code changes nothing; a known one is used
     * up, makes `uid` a subscriber for 30 days from now, and stops
     * treating them as a prospect.
     */
    method RedeemCode(uid: string, username: Option<string>, code: string, now: int) returns (ok: bool)
      requires Valid()
      modifies this
      ensures Valid()
      ensures ok <==> code in old(codes)
      ensures !ok ==> users == old(users) && codes == old(codes) && potential == old(potential) && potentialOrder == old(potentialOrder)
      ensures ok ==> codes == old(codes) - {code} && users == old(users)[uid := now + RedeemDays * SecondsPerDay]
      ensures ok ==> potential == old(potential) - {uid} && potentialOrder == Without(old(potentialOrder), uid)
    {
      if code !in codes {
        return false;
      }
      codes := codes - {code};
      users := users[uid := now + RedeemDays * SecondsPerDay];
      if uid in potential {
        potential := potential - {uid};
      }
      WithoutKeepsDistinct(potentialOrder, uid);
      potentialOrder := Without(potentialOrder, uid);
      ok := true;
    }

    /** `get_potential_users_needing_reminder`: the prospects due for a reminder, in dictionary order. */
    method PotentialUsersNeedingReminder(now: int) returns (needing: seq<string>)
      requires Valid()
      ensures needing == Due(potentialOrder, potential, now)
    {
      needing := [];
      var order := potentialOrder;
      for i := 0 to |order|
        invariant needing == Due(order[..i], potential, now)
      {
        var uid := order[i];
        var data := potential[uid];
        if data.lastReminder.None? {
          if WholeDays(now, data.firstSeen) >= ReminderDays {
            needing := needing + [uid];
          }
        } else if WholeDays(now, data.lastReminder.value) >= ReminderDays {
          needing := needing + [uid];
        }
        assert order[..i + 1][..i] == order[..i];
      }
      assert order[..|order|] == order;
    }
  }

  /**
   * `run_test`: a new user becomes a prospect; redeeming TESTCODE makes
   * them a subscriber and no longer a prospect; a prospect first seen 15
   * days ago is due a reminder; starting the bot again as a subscriber
   * does not make anyone a prospect.
   */
  method RunTest(now: int) returns (sm: SubscriptionManager, needing: seq<string>)
    ensures sm.Valid()
    ensures "123" in sm.users && "123" !in sm.potential
    ensures "456" in needing
  {
    sm := new SubscriptionManager();
    sm.TrackPotentialUser("123", Some("Josh"), now);
    assert "123" in sm.potential;
    var ok := sm.RedeemCode("123", Some("Josh"), "TESTCODE", now);
    assert "123" !in sm.potential && "123" in sm.users;
    sm.TrackPotentialUser("456", Some("Potential"), now);
    sm.potential := sm.potential["456" := sm.potential["456"].(firstSeen := now - 15 * SecondsPerDay)];
    needing := sm.PotentialUsersNeedingReminder(now);
    DueExactly(sm.potentialOrder, sm.potential, now);
    NeedsReminderIff(sm.potential["456"], now);
    sm.TrackPotentialUser("123", Some("Josh"), now);
  }
}
