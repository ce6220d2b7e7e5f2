/**
 * telegram_bot_old.py, `SubscriptionManager`: access codes worth a number
 * of days, the subscriber table they feed, eligibility for alerts, and
 * pausing. Times are seconds since the epoch; the stored table writes them
 * as ISO-8601 strings, whose parsing is not part of this model.
 */
module Subscriptions {
  import opened Wrappers
  import opened Text
  import opened Seqs

  const SecondsPerDay: int := 86400

  /** One entry of `users`: `expiry`, `username`, `alerts_paused`, `joined_at`. */
  datatype Subscriber = Subscriber(expiry: int, username: string, alertsPaused: bool, joinedAt: int)

  /** The `users` dictionary: its records and the order its keys were inserted in. */
  datatype UserTable = UserTable(order: seq<string>, records: map<string, Subscriber>) {
    ghost predicate WellFormed() {
      NoDuplicates(order) && forall u :: u in records <==> u in order
    }
  }

  /** The expiry that redeeming `days` gives: counted from the current expiry while it lies in the future, else from now. */
  function ExtendedExpiry(current: Option<Subscriber>, days: int, now: int): int {
    var start := if current.Some? && current.value.expiry > now then current.value.expiry else now;
    start + days * SecondsPerDay
  }

  /** The new expiry is `days` after the later of now and the old expiry. */
  lemma ExtendedExpiryIsFromLater(current: Option<Subscriber>, days: int, now: int)
    ensures var start := ExtendedExpiry(current, days, now) - days * SecondsPerDay;
      && start >= now
      && (current.Some? ==> start >= current.value.expiry)
      && (start == now || (current.Some? && start == current.value.expiry))
  {
  }

  /** The record `redeem_code` writes for `uid`. */
  function Redeemed(users: map<string, Subscriber>, uid: string, username: Option<string>, days: int, now: int): Subscriber {
    var current := if uid in users then Some(users[uid]) else None;
    Subscriber(
      ExtendedExpiry(current, days, now),
      if Truthy(username) then username.value else "Unknown",
      false,
      if uid in users then users[uid].joinedAt else now)
  }

  /** Not expired and not paused: the test `get_active_users` applies. */
  predicate Eligible(s: Subscriber, now: int) {
    s.expiry > now && !s.alertsPaused
  }

  /** A redemption of at least one day leaves the user eligible, keeps their join time and un-pauses them. */
  lemma RedeemedIsEligible(users: map<string, Subscriber>, uid: string, username: Option<string>, days: int, now: int)
    requires days >= 1
    ensures Eligible(Redeemed(users, uid, username, days, now), now)
    ensures uid in users ==> Redeemed(users, uid, username, days, now).joinedAt == users[uid].joinedAt
    ensures uid in users && users[uid].expiry > now ==>
      Redeemed(users, uid, username, days, now).expiry > users[uid].expiry
  {
  }

  /** The users of `order` that are eligible, in table order. */
  function ActiveIn(order: seq<string>, users: map<string, Subscriber>, now: int): seq<string>
    requires forall u :: u in order ==> u in users
  {
    if order == [] then []
    else
      var u := order[|order| - 1];
      ActiveIn(order[..|order| - 1], users, now) + (if Eligible(users[u], now) then [u] else [])
  }

  /** `get_active_users` returns exactly the eligible users, in table order. */
  lemma {:induction false} ActiveInExactly(order: seq<string>, users: map<string, Subscriber>, now: int)
    requires forall u :: u in order ==> u in users
    ensures forall u :: u in ActiveIn(order, users, now) <==> u in order && Eligible(users[u], now)
    ensures IsSubsequence(ActiveIn(order, users, now), order)
  {
    if order == [] {
      EmptySubsequence(order);
    } else {
      var init := order[..|order| - 1];
      var u := order[|order| - 1];
      ActiveInExactly(init, users, now);
      SubsequenceSnoc(ActiveIn(init, users, now), init, u, Eligible(users[u], now));
      assert init + [u] == order;
      assert ActiveIn(order, users, now) ==
        if Eligible(users[u], now) then ActiveIn(init, users, now) + [u] else ActiveIn(init, users, now);
      forall v ensures v in order <==> v in init || v == u {
        assert v in order <==> v in init + [u];
      }
    }
  }

  /** The table after `toggle_pause(uid)`: the flag flipped for a known user, nothing for an unknown one. */
  function Toggled(users: map<string, Subscriber>, uid: string): map<string, Subscriber> {
    if uid in users then users[uid := users[uid].(alertsPaused := !users[uid].alertsPaused)] else users
  }

  /** Toggling twice restores the table; a toggle changes only the one flag. */
  lemma ToggleTwice(users: map<string, Subscriber>, uid: string)
    ensures Toggled(Toggled(users, uid), uid) == users
    ensures Toggled(users, uid).Keys == users.Keys
    ensures forall u :: u in users && u != uid ==> Toggled(users, uid)[u] == users[u]
    ensures uid in users ==> Toggled(users, uid)[uid].alertsPaused == !users[uid].alertsPaused
  {
    if uid in users {
      var s := users[uid];
      assert Toggled(Toggled(users, uid), uid) == users[uid := s.(alertsPaused := s.alertsPaused)];
    }
  }

  class SubscriptionManager {
    var users: UserTable
    var codes: map<string, int>

    ghost predicate Valid()
      reads this
    {
      users.WellFormed()
    }

    /** `_load_state`: each table is the stored one when it could be downloaded and parsed, else empty. */
    constructor (storedUsers: Option<UserTable>, storedCodes: Option<map<string, int>>)
      requires storedUsers.Some? ==> storedUsers.value.WellFormed()
      ensures Valid()
      ensures users == storedUsers.GetOr(UserTable([], map[]))
      ensures codes == storedCodes.GetOr(map[])
    {
      users := storedUsers.GetOr(UserTable([], map[]));
      codes := storedCodes.GetOr(map[]);
    }

    /** `generate_code`: the random hex token, upper-cased, becomes a code worth `days`. */
    method GenerateCode(days: int, token: string) returns (code: string)
      requires Valid()
      modifies this
      ensures Valid()
      ensures code == Upper(token) && code in codes && codes[code] == days
      ensures codes == old(codes)[code := days] && users == old(users)
    {
      code := Upper(token);
      codes := codes[code := days];
    }

    /**
     * `redeem_code`: an unknown code changes nothing; a known one is used
     * up and (re)writes the user's record.
     */
    method RedeemCode(uid: string, username: Option<string>, code: string, now: int) returns (ok: bool)
      requires Valid()
      modifies this
      ensures Valid()
      ensures ok <==> code in old(codes)
      ensures !ok ==> users == old(users) && codes == old(codes)
      ensures ok ==> code !in codes && codes == old(codes) - {code}
      ensures ok ==> users.records == old(users.records)[uid := Redeemed(old(users.records), uid, username, old(codes)[code], now)]
      ensures ok ==> users.order == if uid in old(users.records) then old(users.order) else old(users.order) + [uid]
    {
      if code !in codes {
        return false;
      }
      var days := codes[code];
      codes := codes - {code};
      var start := now;
      if uid in users.records && users.records[uid].expiry > now {
        start := users.records[uid].expiry;
      }
      var joined := if uid in users.records then users.records[uid].joinedAt else now;
      var record := Subscriber(start + days * SecondsPerDay, if username.Some? && username.value != "" then username.value else "Unknown", false, joined);
      var order := if uid in users.records then users.order else users.order + [uid];
      users := UserTable(order, users.records[uid := record]);
      ok := true;
    }

    /** `get_active_users`: the eligible users, in table order. */
    method GetActiveUsers(now: int) returns (active: seq<string>)
      requires Valid()
      ensures active == ActiveIn(users.order, users.records, now)
    {
      active := [];
      var order := users.order;
      for i := 0 to |order|
        invariant active == ActiveIn(order[..i], users.records, now)
      {
        var data := users.records[order[i]];
        if data.expiry > now && !data.alertsPaused {
          active := active + [order[i]];
        }
        assert order[..i + 1][..i] == order[..i];
      }
      assert order[..|order|] == order;
    }

    /** `is_active`: a known user whose expiry lies in the future, paused or not. */
    function IsActive(uid: string, now: int): (r: bool)
      reads this
      ensures r ==> uid in users.records
    {
      uid in users.records && users.records[uid].expiry > now
    }

    /** `toggle_pause`: flips the flag of a known user and returns the new value; `false` for an unknown user. */
    method TogglePause(uid: string) returns (paused: bool)
      requires Valid()
      modifies this
      ensures Valid()
      ensures users.records == Toggled(old(users.records), uid)
      ensures users.order == old(users.order) && codes == old(codes)
      ensures uid in old(users.records) ==> paused == !old(users.records)[uid].alertsPaused
      ensures uid !in old(users.records) ==> !paused
    {
      if uid !in users.records {
        return false;
      }
      var current := users.records[uid].alertsPaused;
      users := users.(records := users.records[uid := users.records[uid].(alertsPaused := !current)]);
      paused := !current;
    }
  }

  /** An active user (per `is_active`) is broadcast to exactly when they have not paused alerts. */
  lemma ActiveUsersAreUnpausedActive(m: SubscriptionManager, uid: string, now: int)
    requires m.Valid()
    ensures uid in ActiveIn(m.users.order, m.users.records, now) <==> m.IsActive(uid, now) && !m.users.records[uid].alertsPaused
  {
    ActiveInExactly(m.users.order, m.users.records, now);
  }
}
