/**
 * telegram_bot_old.py, `MessagePoller`: a timestamp cursor into the
 * message store plus the set of content hashes already broadcast, both
 * saved to storage after every non-empty page.
 *
 * The REST query and the storage download are inputs; the clock is the
 * integer `now` in seconds; `scraped_at` values are integers too.
 */
module Poller {
  import opened Wrappers
  import opened Text
  import opened Seqs
  import opened Messages

  /** How far back a cold start looks: one hour. */
  const ColdStartLookback: int := 3600
  /** How far back a poll looks when the cursor has been lost: five minutes. */
  const LostCursorLookback: int := 300
  /** At most this many hashes are written to storage. */
  const SavedHashLimit: nat := 1000

  /** What `download_file` gave for `bot_cursor.json`. */
  datatype StoredCursor =
    | NoBlob
    | Unreadable
    | Blob(lastScrapedAt: Option<int>, sentHashes: seq<string>)

  /** The answer of the REST query: an exception, or a status code with the rows in `scraped_at` order. */
  datatype Response = Raised | Answer(status: int, rows: seq<Message>)

  /** The non-empty content hashes of some rows. */
  function HashSet(rows: seq<Message>): set<string> {
    if rows == [] then {}
    else
      var m := rows[|rows| - 1];
      HashSet(rows[..|rows| - 1]) + (if Truthy(m.contentHash) then {m.contentHash.value} else {})
  }

  /** Every non-empty hash of a row is in the set. */
  lemma {:induction false} HashSetHasRow(rows: seq<Message>, k: nat)
    requires k < |rows| && Truthy(rows[k].contentHash)
    ensures rows[k].contentHash.value in HashSet(rows)
  {
    if k < |rows| - 1 {
      HashSetHasRow(rows[..|rows| - 1], k);
    }
  }

  /** The rows that `poll_new_messages` returns: those with a hash seen neither before the page nor earlier on it. */
  function Kept(rows: seq<Message>, sent: set<string>): seq<Message> {
    if rows == [] then []
    else
      var init := rows[..|rows| - 1];
      var m := rows[|rows| - 1];
      Kept(init, sent)
        + (if Truthy(m.contentHash) && m.contentHash.value !in sent + HashSet(init) then [m] else [])
  }

  lemma PollStep(init: seq<Message>, m: Message, sent: set<string>)
    ensures Kept(init + [m], sent) == Kept(init, sent)
      + (if Truthy(m.contentHash) && m.contentHash.value !in sent + HashSet(init) then [m] else [])
    ensures HashSet(init + [m]) == HashSet(init) + (if Truthy(m.contentHash) then {m.contentHash.value} else {})
  {
    assert (init + [m])[..|init|] == init;
  }

  /** No two messages share a hash, and each hash is non-empty. */
  predicate DistinctHashes(ms: seq<Message>) {
    && (forall k :: 0 <= k < |ms| ==> Truthy(ms[k].contentHash))
    && (forall a, b :: 0 <= a < b < |ms| ==> ms[a].contentHash != ms[b].contentHash)
  }

  /** What is returned is an in-order selection of the page. */
  lemma {:induction false} KeptInOrder(rows: seq<Message>, sent: set<string>)
    ensures IsSubsequence(Kept(rows, sent), rows)
  {
    if rows == [] {
      EmptySubsequence(rows);
    } else {
      var init := rows[..|rows| - 1];
      var m := rows[|rows| - 1];
      KeptInOrder(init, sent);
      var keep := Truthy(m.contentHash) && m.contentHash.value !in sent + HashSet(init);
      SubsequenceSnoc(Kept(init, sent), init, m, keep);
      assert init + [m] == rows;
      assert Kept(rows, sent) == if keep then Kept(init, sent) + [m] else Kept(init, sent);
    }
  }

  /** The hashes of what is returned are exactly the page's hashes that were not sent before. */
  lemma {:induction false} KeptHashes(rows: seq<Message>, sent: set<string>)
    ensures HashSet(Kept(rows, sent)) == HashSet(rows) - sent
  {
    if rows != [] {
      var init := rows[..|rows| - 1];
      var m := rows[|rows| - 1];
      KeptHashes(init, sent);
      var prev := Kept(init, sent);
      assert init + [m] == rows;
      PollStep(init, m, sent);
      if Truthy(m.contentHash) && m.contentHash.value !in sent + HashSet(init) {
        PollStep(prev, m, {});
        assert Kept(rows, sent) == prev + [m];
        assert HashSet(Kept(rows, sent)) == (HashSet(init) - sent) + {m.contentHash.value};
      } else {
        assert Kept(rows, sent) == prev;
      }
    }
  }

  /** One message per hash is returned, never one with an empty hash or a hash sent before. */
  lemma {:induction false} KeptDistinct(rows: seq<Message>, sent: set<string>)
    ensures DistinctHashes(Kept(rows, sent))
    ensures forall k :: 0 <= k < |Kept(rows, sent)| ==> Kept(rows, sent)[k].contentHash.value !in sent
  {
    if rows != [] {
      var init := rows[..|rows| - 1];
      var m := rows[|rows| - 1];
      KeptDistinct(init, sent);
      KeptHashes(init, sent);
      var prev := Kept(init, sent);
      if Truthy(m.contentHash) && m.contentHash.value !in sent + HashSet(init) {
        var r := prev + [m];
        assert Kept(rows, sent) == r;
        forall a, b | 0 <= a < b < |r| ensures r[a].contentHash != r[b].contentHash {
          assert r[a] == prev[a];
          if b == |prev| {
            HashSetHasRow(prev, a);
          } else {
            assert r[b] == prev[b];
          }
        }
      }
    }
  }

  /** The cursor a poll queries from: a lost cursor becomes five minutes ago. */
  function QueryCursor(cursor: Option<int>, now: int): (c: Option<int>)
    ensures c.Some?
    ensures cursor.Some? ==> c == cursor
    ensures cursor.None? ==> now - c.value == LostCursorLookback
  {
    if cursor.None? then Some(now - LostCursorLookback) else cursor
  }

  class MessagePoller {
    var lastScrapedAt: Option<int>
    var sentHashes: set<string>
    /** The last saved `bot_cursor.json`, if any. */
    ghost var savedCursor: Option<int>
    ghost var savedHashes: set<string>
    ghost var saves: nat

    ghost predicate SavedWithinLimit()
      reads this
    {
      savedHashes <= sentHashes && |savedHashes| <= SavedHashLimit
    }

    /**
     * `_init_cursor`: the stored cursor and hashes when a blob could be read;
     * a missing timestamp, or no readable blob, means one hour ago.
     */
    constructor (stored: StoredCursor, now: int)
      ensures stored.Blob? ==> sentHashes == set h | h in stored.sentHashes
      ensures !stored.Blob? ==> sentHashes == {}
      ensures stored.Blob? && stored.lastScrapedAt.Some? ==> lastScrapedAt == stored.lastScrapedAt
      ensures !(stored.Blob? && stored.lastScrapedAt.Some?) ==> lastScrapedAt == Some(now - ColdStartLookback)
      ensures saves == 0 && SavedWithinLimit()
    {
      var cursor: Option<int> := None;
      var hashes: set<string> := {};
      if stored.Blob? {
        cursor := stored.lastScrapedAt;
        hashes := set h | h in stored.sentHashes;
      }
      if cursor.None? {
        cursor := Some(now - ColdStartLookback);
      }
      lastScrapedAt := cursor;
      sentHashes := hashes;
      savedCursor := None;
      savedHashes := {};
      saves := 0;
    }

    /** `_save_cursor`: the cursor and at most 1000 of the hashes, in the set's own iteration order, which is not modelled. */
    method SaveCursor()
      modifies this
      ensures lastScrapedAt == old(lastScrapedAt) && sentHashes == old(sentHashes)
      ensures savedCursor == lastScrapedAt && saves == old(saves) + 1
      ensures savedHashes <= sentHashes
      ensures |savedHashes| == if |sentHashes| < SavedHashLimit then |sentHashes| else SavedHashLimit
    {
      var n: nat := if |sentHashes| < SavedHashLimit then |sentHashes| else SavedHashLimit;
      SubsetOfSize(sentHashes, n);
      ghost var kept: set<string> :| kept <= sentHashes && |kept| == n;
      savedHashes := kept;
      savedCursor := lastScrapedAt;
      saves := saves + 1;
    }

    /** The hash filter of `poll_new_messages`: each row with a new non-empty hash is kept and its hash recorded. */
    method FilterPage(rows: seq<Message>) returns (newRows: seq<Message>)
      modifies this
      ensures newRows == Kept(rows, old(sentHashes))
      ensures sentHashes == old(sentHashes) + HashSet(rows)
      ensures lastScrapedAt == old(lastScrapedAt) && saves == old(saves)
    {
      newRows := [];
      ghost var before := sentHashes;
      for i := 0 to |rows|
        invariant newRows == Kept(rows[..i], before)
        invariant sentHashes == before + HashSet(rows[..i])
        invariant lastScrapedAt == old(lastScrapedAt) && saves == old(saves)
      {
        var msg := rows[i];
        assert rows[..i + 1] == rows[..i] + [msg];
        PollStep(rows[..i], msg, before);
        var contentHash := msg.contentHash;
        if contentHash.Some? && contentHash.value != "" && contentHash.value !in sentHashes {
          newRows := newRows + [msg];
          sentHashes := sentHashes + {contentHash.value};
        }
      }
      assert rows[..|rows|] == rows;
    }

    /**
     * `poll_new_messages`: the rows of a 200 answer whose hash is new, in
     * order; the cursor moves to the `scraped_at` of the page's last row
     * whenever the page is non-empty. Anything else returns nothing and
     * leaves the hashes alone.
     */
    method PollNewMessages(response: Response, now: int) returns (newRows: seq<Message>)
      modifies this
      ensures response.Answer? && response.status == 200 ==>
        && newRows == Kept(response.rows, old(sentHashes))
        && sentHashes == old(sentHashes) + HashSet(response.rows)
      ensures !(response.Answer? && response.status == 200) ==> newRows == [] && sentHashes == old(sentHashes)
      ensures lastScrapedAt ==
        if response.Answer? && response.status == 200 && response.rows != []
        then response.rows[|response.rows| - 1].scrapedAt
        else QueryCursor(old(lastScrapedAt), now)
      ensures saves == if response.Answer? && response.status == 200 && response.rows != [] then old(saves) + 1 else old(saves)
      ensures saves > old(saves) ==> savedCursor == lastScrapedAt && SavedWithinLimit()
    {
      if lastScrapedAt.None? {
        lastScrapedAt := Some(now - LostCursorLookback);
      }
      if response.Raised? || response.status != 200 {
        return [];
      }
      var rows := response.rows;
      newRows := FilterPage(rows);
      if rows != [] {
        lastScrapedAt := rows[|rows| - 1].scrapedAt;
        SaveCursor();
      }
    }
  }
}
