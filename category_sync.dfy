/**
 * final_sync.py: turning the scraped channel list into category rows for
 * the database. Each channel yields a country code and a subcategory name;
 * a (country, name) pair is sent once, the first time it is met, and the
 * rows go out in batches of fifty. Reading the file and the HTTP calls are
 * not part of this model: the channel list is an input, whether each
 * request raises is a parameter, and the batches are the output.
 */
module CategorySync {
  import opened Wrappers
  import opened Text
  import opened Seqs

  /** Rows per request. */
  const BatchSize: nat := 50

  /** One entry of the channel list, with its optional `category` and `name` keys. */
  datatype Channel = Channel(category: Option<string>, name: Option<string>)

  /** One row of the `categories` table. */
  datatype CategoryRow = CategoryRow(countryCode: string, categoryName: string, displayName: string, active: bool)

  /** The category assumed for a channel without one. */
  const DefaultCategory := "US Stores"
  const UkMark := "UK"
  const CanadaMark := "CANADA"
  const CaSpaceMark := "CA "
  const CaStoresMark := "CA STORES"

  /** The country a channel's category names, looked for in its upper-cased form: UK, then Canada, else US. */
  function CountryOf(category: Option<string>): (r: string)
    ensures r == "UK" || r == "CA" || r == "US"
  {
    var raw := Upper(category.GetOr(DefaultCategory));
    if Contains(raw, UkMark) then "UK"
    else if Contains(raw, CanadaMark) || Contains(raw, CaSpaceMark) || Contains(raw, CaStoresMark) then "CA"
    else "US"
  }

  /** A text lacking one of the characters of `sub` does not contain `sub`. */
  lemma MissingCharNotContained(s: string, sub: string, k: nat)
    requires k < |sub| && sub[k] !in s
    ensures !Contains(s, sub)
  {
    forall i: nat | i <= |s| ensures !OccursAt(s, sub, i) {
      if i + |sub| <= |s| {
        assert s[i..i + |sub|][k] == s[i + k];
      }
    }
  }

  /** The default category, upper-cased, has neither a `C` nor a `K`. */
  lemma DefaultLetters()
    ensures 'C' !in Upper(DefaultCategory) && 'K' !in Upper(DefaultCategory)
  {
    var s := DefaultCategory;
    assert 'c' !in s && 'C' !in s && 'k' !in s && 'K' !in s;
    UpperLacks(s, 'C');
    UpperLacks(s, 'K');
  }

  /** An upper-case letter is in the upper-cased text only if the letter, in either case, was in the text. */
  lemma UpperLacks(s: string, up: char)
    requires 'A' <= up <= 'Z' && up !in s && (up as int + 32) as char !in s
    ensures up !in Upper(s)
  {
    var r := Upper(s);
    forall i | 0 <= i < |r| ensures r[i] != up {
      assert r[i] == UpperChar(s[i]);
      assert s[i] != up && s[i] != (up as int + 32) as char;
    }
  }

  /** A channel without a category is a US one. */
  lemma MissingCategoryIsUS()
    ensures CountryOf(None) == "US"
  {
    var raw := Upper(DefaultCategory);
    DefaultLetters();
    MissingCharNotContained(raw, UkMark, 1);
    MissingCharNotContained(raw, CanadaMark, 0);
    MissingCharNotContained(raw, CaSpaceMark, 0);
    MissingCharNotContained(raw, CaStoresMark, 0);
  }

  /** The subcategory of a channel without a name. */
  const UnknownName := "Unknown"

  /** The row a channel would give. */
  function RowFor(c: Channel): (r: CategoryRow)
    ensures r.displayName == r.countryCode + " " + r.categoryName && r.active
    ensures r.categoryName == c.name.GetOr(UnknownName)
  {
    var country := CountryOf(c.category);
    var name := c.name.GetOr(UnknownName);
    CategoryRow(country, name, country + " " + name, true)
  }

  /** The pair rows are told apart by. */
  function Key(r: CategoryRow): (string, string) {
    (r.countryCode, r.categoryName)
  }

  function KeysOf(rows: seq<CategoryRow>): set<(string, string)> {
    set r | r in rows :: Key(r)
  }

  /** The first row for each pair, in order: what the `seen` set lets through. */
  function FirstPerKey(rows: seq<CategoryRow>): seq<CategoryRow> {
    if rows == [] then []
    else
      var prev := FirstPerKey(rows[..|rows| - 1]);
      var row := rows[|rows| - 1];
      if Key(row) in KeysOf(prev) then prev else prev + [row]
  }

  /** Every channel's row, duplicates included. */
  function AllRows(channels: seq<Channel>): seq<CategoryRow> {
    Mapped(RowFor, channels)
  }

  lemma KeysOfSnoc(rows: seq<CategoryRow>, row: CategoryRow)
    ensures KeysOf(rows + [row]) == KeysOf(rows) + {Key(row)}
  {
    assert forall r :: r in rows + [row] <==> r in rows || r == row;
  }

  /** The rows the loop builds from `channels`. */
  function Rows(channels: seq<Channel>): seq<CategoryRow> {
    FirstPerKey(AllRows(channels))
  }

  /** No two kept rows share a pair, every pair is kept, and the kept rows keep their order. */
  lemma {:induction false} FirstPerKeyFacts(rows: seq<CategoryRow>)
    ensures forall i, j :: 0 <= i < j < |FirstPerKey(rows)| ==> Key(FirstPerKey(rows)[i]) != Key(FirstPerKey(rows)[j])
    ensures forall k :: 0 <= k < |rows| ==> Key(rows[k]) in KeysOf(FirstPerKey(rows))
    ensures IsSubsequence(FirstPerKey(rows), rows)
  {
    if rows == [] {
      EmptySubsequence(rows);
    } else {
      var init := rows[..|rows| - 1];
      var row := rows[|rows| - 1];
      FirstPerKeyFacts(init);
      var prev := FirstPerKey(init);
      var r := FirstPerKey(rows);
      SubsequenceSnoc(prev, init, row, Key(row) !in KeysOf(prev));
      assert init + [row] == rows;
      forall i, j | 0 <= i < j < |r| ensures Key(r[i]) != Key(r[j]) {
        if j == |prev| {
          assert r[i] in prev;
        }
      }
      forall k | 0 <= k < |rows| ensures Key(rows[k]) in KeysOf(r) {
        if k < |init| {
          assert rows[k] == init[k];
          var w :| w in prev && Key(w) == Key(init[k]);
          assert w in r;
        } else if Key(row) !in KeysOf(prev) {
          assert row in r;
        }
      }
    }
  }

  /** A row whose pair no earlier row has is kept. */
  lemma {:induction false} FirstPerKeyKeeps(rows: seq<CategoryRow>, k: nat)
    requires k < |rows|
    requires forall j :: 0 <= j < k ==> Key(rows[j]) != Key(rows[k])
    ensures rows[k] in FirstPerKey(rows)
  {
    var init := rows[..|rows| - 1];
    var prev := FirstPerKey(init);
    if k < |init| {
      FirstPerKeyKeeps(init, k);
    } else {
      FirstPerKeyFacts(init);
      SubsequenceMembers(prev, init);
      forall w | w in prev ensures Key(w) != Key(rows[k]) {
        var j :| 0 <= j < |init| && init[j] == w;
      }
    }
  }

  /** No two rows share a pair, every channel's pair is sent, and the rows keep the channels' order. */
  lemma RowsUnique(channels: seq<Channel>)
    ensures forall i, j :: 0 <= i < j < |Rows(channels)| ==> Key(Rows(channels)[i]) != Key(Rows(channels)[j])
    ensures forall k :: 0 <= k < |channels| ==> Key(RowFor(channels[k])) in KeysOf(Rows(channels))
    ensures IsSubsequence(Rows(channels), AllRows(channels))
  {
    FirstPerKeyFacts(AllRows(channels));
  }

  /** The first channel with a given pair is the one whose row is sent. */
  lemma FirstWins(channels: seq<Channel>, k: nat)
    requires k < |channels|
    requires forall j :: 0 <= j < k ==> Key(RowFor(channels[j])) != Key(RowFor(channels[k]))
    ensures RowFor(channels[k]) in Rows(channels)
  {
    FirstPerKeyKeeps(AllRows(channels), k);
  }

  /** Every row sent is the row of some channel. */
  lemma RowsFrom(channels: seq<Channel>)
    ensures forall w :: w in Rows(channels) ==> exists j :: 0 <= j < |channels| && w == RowFor(channels[j])
  {
    var all := AllRows(channels);
    FirstPerKeyFacts(all);
    SubsequenceMembers(Rows(channels), all);
    forall w | w in Rows(channels) ensures exists j :: 0 <= j < |channels| && w == RowFor(channels[j]) {
      var j :| 0 <= j < |all| && all[j] == w;
    }
  }

  lemma RowsNext(channels: seq<Channel>, i: nat)
    requires i < |channels|
    ensures var prev := Rows(channels[..i]);
      var row := RowFor(channels[i]);
      Rows(channels[..i + 1]) == if Key(row) in KeysOf(prev) then prev else prev + [row]
  {
    AllRowsNext(channels, i);
    FirstPerKeySnoc(AllRows(channels[..i]), RowFor(channels[i]));
  }

  lemma AllRowsNext(channels: seq<Channel>, i: nat)
    requires i < |channels|
    ensures AllRows(channels[..i + 1]) == AllRows(channels[..i]) + [RowFor(channels[i])]
  {
    MappedNext(RowFor, channels, i);
  }

  lemma FirstPerKeySnoc(rows: seq<CategoryRow>, row: CategoryRow)
    ensures var prev := FirstPerKey(rows);
      FirstPerKey(rows + [row]) == if Key(row) in KeysOf(prev) then prev else prev + [row]
  {
    assert (rows + [row])[..|rows|] == rows;
  }

  /** The category-building loop of `sync`, with its `seen` set of pairs. */
  method BuildRows(channels: seq<Channel>) returns (rows: seq<CategoryRow>)
    ensures rows == Rows(channels)
  {
    rows := [];
    var seen: set<(string, string)> := {};
    for i := 0 to |channels|
      invariant rows == Rows(channels[..i])
      invariant seen == KeysOf(rows)
    {
      var c := channels[i];
      var country := CountryOf(c.category);
      var subName := c.name.GetOr(UnknownName);
      RowsNext(channels, i);
      if (country, subName) in seen {
        continue;
      }
      var row := CategoryRow(country, subName, country + " " + subName, true);
      assert row == RowFor(c);
      KeysOfSnoc(rows, row);
      seen := seen + {(country, subName)};
      rows := rows + [row];
    }
    assert channels[..|channels|] == channels;
  }

  /** All batches joined back together. */
  function Flatten(batches: seq<seq<CategoryRow>>): seq<CategoryRow> {
    if batches == [] then [] else Flatten(batches[..|batches| - 1]) + batches[|batches| - 1]
  }

  /** The batching loop of `sync`: consecutive slices of fifty that cover the rows once, in order. */
  method Batches(rows: seq<CategoryRow>) returns (batches: seq<seq<CategoryRow>>)
    ensures Flatten(batches) == rows
    ensures forall k :: 0 <= k < |batches| ==> 0 < |batches[k]| <= BatchSize
    ensures forall k :: 0 <= k < |batches| - 1 ==> |batches[k]| == BatchSize
    ensures |batches| == (|rows| + BatchSize - 1) / BatchSize
  {
    batches := [];
    var i := 0;
    while i < |rows|
      invariant 0 <= i <= |rows|
      invariant i < |rows| ==> i == |batches| * BatchSize
      invariant Flatten(batches) == rows[..i]
      invariant forall k :: 0 <= k < |batches| ==> 0 < |batches[k]| <= BatchSize
      invariant i < |rows| ==> forall k :: 0 <= k < |batches| ==> |batches[k]| == BatchSize
      invariant forall k :: 0 <= k < |batches| - 1 ==> |batches[k]| == BatchSize
      invariant |batches| == (i + BatchSize - 1) / BatchSize
      decreases |rows| - i
    {
      var j := if i + BatchSize < |rows| then i + BatchSize else |rows|;
      var batch := rows[i..j];
      assert rows[..j] == rows[..i] + batch;
      assert (batches + [batch])[..|batches|] == batches;
      batches := batches + [batch];
      i := j;
    }
    assert rows[..|rows|] == rows;
  }

  /**
   * `sync` from the channel list to the requests: none at all when there are
   * no rows. `raises(k)` says whether posting batch `k` raises; the
   * exception handler wraps the whole loop, so the batches after it are
   * never posted. `sent` holds the batches posted, in order, ending with
   * the one that raised if one did. A failed status code is only reported
   * and the loop goes on.
   */
  method Sync(channels: seq<Channel>, raises: nat -> bool) returns (batches: seq<seq<CategoryRow>>, sent: seq<seq<CategoryRow>>)
    ensures Flatten(batches) == Rows(channels)
    ensures batches == [] <==> Rows(channels) == []
    ensures forall k :: 0 <= k < |batches| ==> 0 < |batches[k]| <= BatchSize
    ensures |sent| <= |batches| && sent == batches[..|sent|]
    ensures forall k :: 0 <= k < |sent| - 1 ==> !raises(k)
    ensures |sent| < |batches| ==> sent != [] && raises(|sent| - 1)
    ensures batches != [] ==> sent != []
  {
    var rows := BuildRows(channels);
    if rows == [] {
      return [], [];
    }
    batches := Batches(rows);
    sent := Post(batches, raises);
  }

  /** The posting loop: each batch is sent in turn, and a request that raises ends the run. */
  method Post(batches: seq<seq<CategoryRow>>, raises: nat -> bool) returns (sent: seq<seq<CategoryRow>>)
    ensures |sent| <= |batches| && sent == batches[..|sent|]
    ensures forall k :: 0 <= k < |sent| - 1 ==> !raises(k)
    ensures |sent| < |batches| ==> sent != [] && raises(|sent| - 1)
    ensures batches != [] ==> sent != []
  {
    sent := [];
    for k := 0 to |batches|
      invariant sent == batches[..k]
      invariant forall j :: 0 <= j < k ==> !raises(j)
    {
      sent := sent + [batches[k]];
      if raises(k) {
        return;
      }
    }
  }
}
