/**
 * verify_deduplication.py: the relay's second de-duplication scheme. A
 * message is skipped when its id has been examined before, or when its
 * content signature (retailer, title and price, lower-cased and hashed)
 * is one of the three most recent signatures sent.
 *
 * MD5 is the function value `digest` the poller is built with.
 */
module DedupWindow {
  import opened Wrappers
  import opened Text
  import opened Seqs
  import opened Messages
  import LinkParser

  /** The number of recent signatures remembered. */
  const WindowSize: nat := 3

  // ---------------------------------------------------------------------
  // The content signature

  /** The local `parse_tag_line` of this file: the first segment that is neither a ping nor a region. */
  function ProductCode(parts: seq<string>): (r: Option<string>)
    ensures r.Some? ==> r.value in parts
    ensures r.None? ==> forall k :: 0 <= k < |parts| ==> IsPingOrRegion(parts[k])
  {
    if parts == [] then None
    else if !IsPingOrRegion(parts[0]) then Some(parts[0])
    else ProductCode(parts[1..])
  }

  predicate IsPingOrRegion(part: string) {
    StartsWith(part, LinkParser.PingMark) || (StartsWith(part, LinkParser.RegionOpen) && EndsWith(part, LinkParser.RegionClose))
  }

  const NoneText := "None"
  const ArgosMark := "Argos"
  const ArgosInstore := "Argos Instore"
  const Separator := "|"
  const PriceMark := "price"

  /** How Python's f-string writes an optional value: a missing one is `None`. */
  function Shown(s: Option<string>): string {
    if s.Some? then s.value else NoneText
  }

  /** The retailer part: the embed author's name, else "Argos Instore" when the content mentions Argos. */
  function Retailer(m: Message): string {
    if m.embed.Present? && m.embed.value.author.Some? then m.embed.value.author.value.name.GetOr("")
    else if Contains(m.content, ArgosMark) then ArgosInstore
    else ""
  }

  /** The title part: the embed title, else the product code of the content read as a tag line. */
  function Title(m: Message): string {
    var title := if m.embed.Present? then m.embed.value.title.GetOr("") else "";
    if title == "" && m.content != "" then Shown(ProductCode(LinkParser.Segments(m.content)))
    else title
  }

  /** Whether a field's name (missing counts as empty) mentions a price. */
  predicate IsPriceField(f: Field) {
    ContainsLower(f.name.GetOr(""), PriceMark)
  }

  /** The value of the first price field, or empty when there is none. */
  function FirstPrice(fields: seq<Field>): string {
    if fields == [] then ""
    else if IsPriceField(fields[0]) then fields[0].value.GetOr("")
    else FirstPrice(fields[1..])
  }

  /** The price is the value of the first field whose name mentions a price. */
  lemma {:induction false} FirstPriceIsFirst(fields: seq<Field>)
    ensures (forall k :: 0 <= k < |fields| ==> !IsPriceField(fields[k])) ==> FirstPrice(fields) == ""
    ensures forall k ::
      (0 <= k < |fields| && IsPriceField(fields[k]) && forall j :: 0 <= j < k ==> !IsPriceField(fields[j]))
      ==> FirstPrice(fields) == fields[k].value.GetOr("")
  {
    if fields != [] {
      FirstPriceIsFirst(fields[1..]);
      forall k | 0 <= k < |fields| && IsPriceField(fields[k]) && (forall j :: 0 <= j < k ==> !IsPriceField(fields[j]))
        ensures FirstPrice(fields) == fields[k].value.GetOr("")
      {
        if k > 0 {
          assert !IsPriceField(fields[0]);
          assert fields[k] == fields[1..][k - 1];
          forall j | 0 <= j < k - 1 ensures !IsPriceField(fields[1..][j]) {
            assert fields[1..][j] == fields[j + 1];
          }
        }
      }
    }
  }

  function Price(m: Message): string {
    if m.embed.Present? then FirstPrice(m.embed.value.fields) else ""
  }

  /** The string that is hashed: `retailer|title|price`, lower-cased and stripped. */
  function RawSignature(m: Message): string {
    Strip(Lower(Retailer(m) + Separator + Title(m) + Separator + Price(m)))
  }

  /** The hashed signature `_get_content_signature` gives a message. */
  function Signature(digest: string -> string, m: Message): string {
    digest(RawSignature(m))
  }

  /** The signing function of a poller built with `digest`. */
  function Signer(digest: string -> string): Message -> string {
    m => Signature(digest, m)
  }

  lemma SignerSigns(digest: string -> string, m: Message)
    ensures Signer(digest)(m) == Signature(digest, m)
  {
  }

  /** A signing function that ignores message ids, as every `Signer` does. */
  ghost predicate IgnoresIds(sign: Message -> string) {
    forall m: Message, id: Option<string> :: sign(m.(id := id)) == sign(m)
  }

  /** The signature depends on nothing but the retailer, title and price parts. */
  lemma SignatureFromParts(a: Message, b: Message)
    requires Retailer(a) == Retailer(b) && Title(a) == Title(b) && Price(a) == Price(b)
    ensures RawSignature(a) == RawSignature(b)
  {
  }

  /** Two messages that differ only in their id have the same signature. */
  lemma SignatureIgnoresId(m: Message, id: Option<string>)
    ensures RawSignature(m.(id := id)) == RawSignature(m)
  {
    var m' := m.(id := id);
    PartsFromContent(m', m);
    SignatureFromParts(m', m);
  }

  /** The three parts read nothing but the content and the embed. */
  lemma PartsFromContent(a: Message, b: Message)
    requires a.content == b.content && a.embed == b.embed
    ensures Retailer(a) == Retailer(b) && Title(a) == Title(b) && Price(a) == Price(b)
  {
  }

  lemma SignerIgnoresIds(digest: string -> string)
    ensures IgnoresIds(Signer(digest))
  {
    forall m: Message, id: Option<string> ensures Signer(digest)(m.(id := id)) == Signer(digest)(m) {
      SignatureIgnoresId(m, id);
    }
  }

  // ---------------------------------------------------------------------
  // filter_messages and update_cursor, as functions of the state

  /** The ids a run of messages marks as examined: every non-empty one. */
  function IdsOf(msgs: seq<Message>): set<string> {
    if msgs == [] then {}
    else
      var m := msgs[|msgs| - 1];
      IdsOf(msgs[..|msgs| - 1]) + if Truthy(m.id) then {m.id.value} else {}
  }

  lemma {:induction false} IdsOfHas(msgs: seq<Message>, k: nat)
    requires k < |msgs| && Truthy(msgs[k].id)
    ensures msgs[k].id.value in IdsOf(msgs)
  {
    if k < |msgs| - 1 {
      IdsOfHas(msgs[..|msgs| - 1], k);
    }
  }

  /** Whether the last of `init + [m]` is returned: a new id and a signature outside the window. */
  predicate Accepts(init: seq<Message>, m: Message, sent: set<string>, recent: seq<string>, sign: Message -> string) {
    Truthy(m.id) && m.id.value !in sent + IdsOf(init) && sign(m) !in recent
  }

  /** What `filter_messages` returns. */
  function Accepted(msgs: seq<Message>, sent: set<string>, recent: seq<string>, sign: Message -> string): seq<Message> {
    if msgs == [] then []
    else
      var init := msgs[..|msgs| - 1];
      var m := msgs[|msgs| - 1];
      Accepted(init, sent, recent, sign) + if Accepts(init, m, sent, recent, sign) then [m] else []
  }

  lemma AcceptedStep(init: seq<Message>, m: Message, sent: set<string>, recent: seq<string>, sign: Message -> string)
    ensures Accepted(init + [m], sent, recent, sign)
      == Accepted(init, sent, recent, sign) + if Accepts(init, m, sent, recent, sign) then [m] else []
    ensures IdsOf(init + [m]) == IdsOf(init) + if Truthy(m.id) then {m.id.value} else {}
  {
    assert (init + [m])[..|init|] == init;
  }

  /** `AcceptedStep` for the prefixes of `msgs` a loop walks through. */
  lemma AcceptedNext(msgs: seq<Message>, i: nat, sent: set<string>, recent: seq<string>, sign: Message -> string)
    requires i < |msgs|
    ensures Accepted(msgs[..i + 1], sent, recent, sign)
      == Accepted(msgs[..i], sent, recent, sign) + if Accepts(msgs[..i], msgs[i], sent, recent, sign) then [msgs[i]] else []
    ensures IdsOf(msgs[..i + 1]) == IdsOf(msgs[..i]) + if Truthy(msgs[i].id) then {msgs[i].id.value} else {}
  {
    assert msgs[..i + 1] == msgs[..i] + [msgs[i]];
    AcceptedStep(msgs[..i], msgs[i], sent, recent, sign);
  }

  /**
   * One message examined: the ids recorded grow by its id, and it is kept
   * exactly when `Accepted` takes it.
   */
  lemma FilterStep(msgs: seq<Message>, i: nat, sent: set<string>, recent: seq<string>, sign: Message -> string,
                   sentBefore: set<string>, sentAfter: set<string>, keep: bool)
    requires i < |msgs| && sentBefore == sent + IdsOf(msgs[..i])
    requires keep <==> Truthy(msgs[i].id) && msgs[i].id.value !in sentBefore && sign(msgs[i]) !in recent
    requires sentAfter == sentBefore + if Truthy(msgs[i].id) then {msgs[i].id.value} else {}
    ensures sentAfter == sent + IdsOf(msgs[..i + 1])
    ensures Accepted(msgs[..i + 1], sent, recent, sign) == Accepted(msgs[..i], sent, recent, sign) + if keep then [msgs[i]] else []
  {
    AcceptedNext(msgs, i, sent, recent, sign);
    if Truthy(msgs[i].id) {
      if msgs[i].id.value in sentBefore {
        SeenAgain(sent, IdsOf(msgs[..i]), msgs[i].id.value);
      } else {
        SeenFirst(sent, IdsOf(msgs[..i]), msgs[i].id.value);
      }
    }
  }

  /** Recording an id already examined changes nothing. */
  lemma SeenAgain(sent: set<string>, ids: set<string>, id: string)
    requires id in sent + ids
    ensures sent + (ids + {id}) == sent + ids
  {
  }

  lemma SeenFirst(sent: set<string>, ids: set<string>, id: string)
    ensures sent + (ids + {id}) == sent + ids + {id}
  {
  }

  /** The returned messages are an in-order selection of the input. */
  lemma {:induction false} AcceptedInOrder(msgs: seq<Message>, sent: set<string>, recent: seq<string>, sign: Message -> string)
    ensures IsSubsequence(Accepted(msgs, sent, recent, sign), msgs)
  {
    if msgs == [] {
      EmptySubsequence(msgs);
    } else {
      var init := msgs[..|msgs| - 1];
      var m := msgs[|msgs| - 1];
      AcceptedInOrder(init, sent, recent, sign);
      var keep := Accepts(init, m, sent, recent, sign);
      SubsequenceSnoc(Accepted(init, sent, recent, sign), init, m, keep);
      assert init + [m] == msgs;
      assert Accepted(msgs, sent, recent, sign)
        == if keep then Accepted(init, sent, recent, sign) + [m] else Accepted(init, sent, recent, sign);
    }
  }

  /** A returned message has an id not examined before and a signature outside the window. */
  lemma {:induction false} AcceptedSound(msgs: seq<Message>, sent: set<string>, recent: seq<string>, sign: Message -> string)
    ensures forall m :: m in Accepted(msgs, sent, recent, sign) ==>
      Truthy(m.id) && m.id.value !in sent && sign(m) !in recent
  {
    if msgs != [] {
      AcceptedSound(msgs[..|msgs| - 1], sent, recent, sign);
    }
  }

  /**
   * A message is returned when its id is non-empty and new — not examined
   * before the call nor earlier in the same call — and its signature is
   * outside the window.
   */
  lemma {:induction false} AcceptedComplete(msgs: seq<Message>, sent: set<string>, recent: seq<string>, sign: Message -> string, k: nat)
    requires k < |msgs|
    requires Accepts(msgs[..k], msgs[k], sent, recent, sign)
    ensures msgs[k] in Accepted(msgs, sent, recent, sign)
  {
    var init := msgs[..|msgs| - 1];
    if k < |msgs| - 1 {
      assert init[..k] == msgs[..k];
      AcceptedComplete(init, sent, recent, sign, k);
    }
  }

  /** No two returned messages share an id. */
  lemma {:induction false} AcceptedDistinctIds(msgs: seq<Message>, sent: set<string>, recent: seq<string>, sign: Message -> string)
    ensures forall a, b :: 0 <= a < b < |Accepted(msgs, sent, recent, sign)| ==>
      Accepted(msgs, sent, recent, sign)[a].id != Accepted(msgs, sent, recent, sign)[b].id
  {
    if msgs != [] {
      var init := msgs[..|msgs| - 1];
      var m := msgs[|msgs| - 1];
      var prev := Accepted(init, sent, recent, sign);
      AcceptedDistinctIds(init, sent, recent, sign);
      if Accepts(init, m, sent, recent, sign) {
        var r := prev + [m];
        forall a, b | 0 <= a < b < |r| ensures r[a].id != r[b].id {
          if b == |prev| {
            AcceptedIdsExamined(init, sent, recent, sign, a);
          }
        }
      }
    }
  }

  /** Every returned message's id is among those examined. */
  lemma {:induction false} AcceptedIdsExamined(msgs: seq<Message>, sent: set<string>, recent: seq<string>, sign: Message -> string, a: nat)
    requires a < |Accepted(msgs, sent, recent, sign)|
    ensures Accepted(msgs, sent, recent, sign)[a].id.Some?
    ensures Accepted(msgs, sent, recent, sign)[a].id.value in IdsOf(msgs)
  {
    var init := msgs[..|msgs| - 1];
    var m := msgs[|msgs| - 1];
    var prev := Accepted(init, sent, recent, sign);
    if a < |prev| {
      AcceptedIdsExamined(init, sent, recent, sign, a);
    }
  }

  /** The last `WindowSize` elements, as `s[-3:]`. */
  function Newest(s: seq<string>): (r: seq<string>)
    ensures |r| == if |s| < WindowSize then |s| else WindowSize
    ensures r == s[|s| - |r|..]
  {
    if |s| <= WindowSize then s else s[|s| - WindowSize..]
  }

  /** The window after `update_cursor` for a message with signature `sig`. */
  function Window(recent: seq<string>, sig: string): seq<string> {
    if sig in recent then recent else Newest(recent + [sig])
  }

  /** Within the bound and without repeats. */
  predicate WindowShaped(recent: seq<string>) {
    |recent| <= WindowSize && NoDuplicates(recent)
  }

  /** The window stays within three distinct signatures, and the new one is in it. */
  lemma WindowKeepsShape(recent: seq<string>, sig: string)
    requires WindowShaped(recent)
    ensures WindowShaped(Window(recent, sig))
    ensures sig in Window(recent, sig)
  {
    if sig !in recent {
      var s := recent + [sig];
      assert NoDuplicates(s);
      var r := Newest(s);
      forall i, j | 0 <= i < j < |r| ensures r[i] != r[j] {
        assert r[i] == s[|s| - |r| + i] && r[j] == s[|s| - |r| + j];
      }
      assert r[|r| - 1] == sig;
    }
  }

  /** A new signature goes in as the newest; what stays is the newest of the rest. */
  lemma WindowOrder(recent: seq<string>, sig: string)
    requires sig !in recent
    ensures Window(recent, sig) == Newest(recent + [sig])
    ensures Window(recent, sig)[|Window(recent, sig)| - 1] == sig
  {
  }

  /** With a full window, a new signature evicts the oldest one. */
  lemma WindowEvictsOldest(recent: seq<string>, sig: string)
    requires WindowShaped(recent) && |recent| == WindowSize && sig !in recent
    ensures recent[0] !in Window(recent, sig)
    ensures Window(recent, sig) == recent[1..] + [sig]
  {
    var r := Window(recent, sig);
    assert r == recent[1..] + [sig];
    forall i | 0 <= i < |r| ensures r[i] != recent[0] {
      if i < |r| - 1 {
        assert r[i] == recent[i + 1];
      }
    }
  }

  // ---------------------------------------------------------------------
  // The poller

  class DedupPoller {
    const digest: string -> string
    var sentIds: set<string>
    var recentSignatures: seq<string>

    constructor (digest: string -> string)
      ensures this.digest == digest
      ensures sentIds == {} && recentSignatures == []
    {
      this.digest := digest;
      sentIds := {};
      recentSignatures := [];
    }

    /** `_get_content_signature`: the hash of the raw signature, the price found by the first matching field. */
    method ContentSignature(m: Message) returns (sig: string)
      ensures sig == Signer(digest)(m)
    {
      var price := "";
      if m.embed.Present? {
        var fields := m.embed.value.fields;
        var i := 0;
        while i < |fields|
          invariant i <= |fields|
          invariant FirstPrice(fields) == FirstPrice(fields[i..])
        {
          if IsPriceField(fields[i]) {
            price := fields[i].value.GetOr("");
            assert fields[i..][0] == fields[i];
            break;
          }
          assert fields[i..][1..] == fields[i + 1..];
          i := i + 1;
        }
        assert price == FirstPrice(fields);
      }
      sig := digest(Strip(Lower(Retailer(m) + Separator + Title(m) + Separator + price)));
    }

    /** `filter_messages`: every examined id is recorded; a message with a recent signature is recorded but skipped. */
    method FilterMessages(messages: seq<Message>) returns (newMessages: seq<Message>)
      modifies this
      ensures newMessages == Accepted(messages, old(sentIds), recentSignatures, Signer(digest))
      ensures sentIds == old(sentIds) + IdsOf(messages)
      ensures recentSignatures == old(recentSignatures)
    {
      newMessages := [];
      ghost var before := sentIds;
      ghost var sign := Signer(digest);
      for i := 0 to |messages|
        invariant newMessages == Accepted(messages[..i], before, recentSignatures, sign)
        invariant sentIds == before + IdsOf(messages[..i])
        invariant recentSignatures == old(recentSignatures)
      {
        var msg := messages[i];
        ghost var sentBefore := sentIds;
        var keep := Examine(msg);
        FilterStep(messages, i, before, recentSignatures, sign, sentBefore, sentIds, keep);
        if keep {
          newMessages := newMessages + [msg];
        }
      }
      assert messages[..|messages|] == messages;
    }

    /**
     * One pass of the loop of `filter_messages`: a message without an id,
     * or with one examined before, is skipped; otherwise its id is recorded
     * and it is kept unless its signature is in the window.
     */
    method Examine(msg: Message) returns (keep: bool)
      modifies this
      ensures keep <==> Truthy(msg.id) && msg.id.value !in old(sentIds) && Signer(digest)(msg) !in recentSignatures
      ensures sentIds == old(sentIds) + if Truthy(msg.id) then {msg.id.value} else {}
      ensures recentSignatures == old(recentSignatures)
    {
      var msgId := msg.id;
      if !Truthy(msgId) || msgId.value in sentIds {
        return false;
      }
      var sig := ContentSignature(msg);
      if sig in recentSignatures {
        sentIds := sentIds + {msgId.value};
        return false;
      }
      sentIds := sentIds + {msgId.value};
      return true;
    }

    /** `update_cursor`: a new signature is appended and the window cut to the newest three. */
    method UpdateCursor(m: Message)
      modifies this
      ensures recentSignatures == Window(old(recentSignatures), Signature(digest, m))
      ensures sentIds == old(sentIds)
    {
      var sig := ContentSignature(m);
      SignerSigns(digest, m);
      if sig !in recentSignatures {
        recentSignatures := recentSignatures + [sig];
        recentSignatures := Newest(recentSignatures);
      }
    }
  }

  // ---------------------------------------------------------------------
  // run_test

  const PokemonContent := "Argos | Pokémon Box | £10"
  const PokemonTitle := "Pokémon Box"
  const PokemonPrice := "£10"
  const ZeldaContent := "Argos | Zelda Box | £50"
  const ZeldaTitle := "Zelda Box"
  const ZeldaPrice := "£50"
  const ItemPrice := "1"
  const PriceName := "Price"

  function Pokemon(id: string): Message {
    Message(Some(id), PokemonContent, None, None,
      Present(Embed(None, Some(PokemonTitle), None, [Field(Some(PriceName), Some(PokemonPrice))], [], [], None, None, None)), None)
  }

  function Zelda(): Message {
    Message(Some("103"), ZeldaContent, None, None,
      Present(Embed(None, Some(ZeldaTitle), None, [Field(Some(PriceName), Some(ZeldaPrice))], [], [], None, None, None)), None)
  }

  function Item(id: string, title: string): Message {
    Message(Some(id), "", None, None,
      Present(Embed(None, Some(title), None, [Field(Some(PriceName), Some(ItemPrice))], [], [], None, None, None)), None)
  }

  lemma PriceFieldNamed()
    ensures IsPriceField(Field(Some(PriceName), None))
  {
    assert Lower(PriceName) == PriceMark;
    assert OccursAt(Lower(PriceName), PriceMark, 0);
  }

  lemma PokemonParts(id: string)
    ensures Retailer(Pokemon(id)) == ArgosInstore
    ensures Title(Pokemon(id)) == PokemonTitle
    ensures Price(Pokemon(id)) == PokemonPrice
  {
    assert OccursAt(Pokemon(id).content, "Argos", 0);
    PriceFieldNamed();
    assert IsPriceField(Pokemon(id).embed.value.fields[0]);
  }

  lemma ZeldaParts()
    ensures Retailer(Zelda()) == ArgosInstore
    ensures Title(Zelda()) == ZeldaTitle
    ensures Price(Zelda()) == ZeldaPrice
  {
    assert OccursAt(Zelda().content, "Argos", 0);
    PriceFieldNamed();
    assert IsPriceField(Zelda().embed.value.fields[0]);
  }

  lemma ItemParts(id: string, title: string)
    ensures Retailer(Item(id, title)) == ""
    ensures title != "" ==> Title(Item(id, title)) == title
    ensures Price(Item(id, title)) == ItemPrice
  {
    PriceFieldNamed();
    assert IsPriceField(Item(id, title).embed.value.fields[0]);
  }

  const Item4Title := "Item 4"
  const Item5Title := "Item 5"

  /** The raw signature of each message of `ms`. */
  function RawsOf(ms: seq<Message>): (r: seq<string>)
    ensures |r| == |ms| && forall k :: 0 <= k < |ms| ==> r[k] == RawSignature(ms[k])
  {
    if ms == [] then [] else [RawSignature(ms[0])] + RawsOf(ms[1..])
  }

  /** The four different messages of `run_test`: 101, 103 and the items 104 and 105. */
  function TestMessages(): seq<Message> {
    [Pokemon("101"), Zelda(), Item("104", Item4Title), Item("105", Item5Title)]
  }

  /** Their raw signatures. */
  function TestRaws(): seq<string> {
    RawsOf(TestMessages())
  }

  /** What the test takes MD5 to do: give different strings of `raws` different digests. */
  ghost predicate InjectiveOn(digest: string -> string, raws: seq<string>) {
    forall i, j :: 0 <= i < |raws| && 0 <= j < |raws| && raws[i] != raws[j] ==> digest(raws[i]) != digest(raws[j])
  }

  /** Lower-casing keeps the length, and a string whose ends are not whitespace is not stripped. */
  lemma StripLowerKeeps(x: string)
    requires x != [] && !IsSpace(LowerChar(x[0])) && !IsSpace(LowerChar(x[|x| - 1]))
    ensures Strip(Lower(x)) == Lower(x)
    ensures |Strip(Lower(x))| == |x|
  {
    var y := Lower(x);
    assert y[0] == LowerChar(x[0]) && y[|y| - 1] == LowerChar(x[|x| - 1]);
    StripTrimmed(y);
  }

  lemma PokemonRaw(id: string)
    ensures |RawSignature(Pokemon(id))| == 29
  {
    PokemonParts(id);
    var x := ArgosInstore + Separator + PokemonTitle + Separator + PokemonPrice;
    assert x[0] == 'A' && x[|x| - 1] == '0';
    StripLowerKeeps(x);
  }

  lemma ZeldaRaw()
    ensures |RawSignature(Zelda())| == 27
  {
    ZeldaParts();
    var x := ArgosInstore + Separator + ZeldaTitle + Separator + ZeldaPrice;
    assert x[0] == 'A' && x[|x| - 1] == '0';
    StripLowerKeeps(x);
  }

  /** An item's raw signature is `|item n|1`: nine characters, the item number at index 6. */
  lemma ItemRaw(id: string, title: string)
    requires |title| == 6
    ensures |RawSignature(Item(id, title))| == 9
    ensures RawSignature(Item(id, title))[6] == LowerChar(title[5])
  {
    ItemParts(id, title);
    var x := "" + Separator + title + Separator + ItemPrice;
    assert RawSignature(Item(id, title)) == Strip(Lower(x));
    ItemLine(title, x);
  }

  /** `|` + a six-character title + `|1`, lower-cased and stripped, keeps its nine characters. */
  lemma ItemLine(title: string, x: string)
    requires |title| == 6 && x == "" + Separator + title + Separator + ItemPrice
    ensures |Strip(Lower(x))| == 9 && Strip(Lower(x))[6] == LowerChar(title[5])
  {
    assert |x| == 9 && x[0] == '|' && x[8] == '1' && x[6] == title[5];
    StripLowerKeeps(x);
  }

  /**
   * The four different messages of `run_test` have pairwise different raw
   * signatures: 101's is 29 characters long, 103's 27, and the two items'
   * 9, differing in the item number.
   */
  lemma TestRawsDistinct()
    ensures forall i, j :: 0 <= i < j < |TestRaws()| ==> TestRaws()[i] != TestRaws()[j]
  {
    var r := TestRaws();
    var ms := TestMessages();
    assert r[0] == RawSignature(ms[0]) && r[1] == RawSignature(ms[1]);
    assert r[2] == RawSignature(ms[2]) && r[3] == RawSignature(ms[3]);
    PokemonRaw("101");
    ZeldaRaw();
    ItemRaw("104", Item4Title);
    ItemRaw("105", Item5Title);
    assert LowerChar(Item4Title[5]) == '4' && LowerChar(Item5Title[5]) == '5';
    DistinctByShape(r);
  }

  /** Four strings of lengths 29, 27, 9 and 9, the last two differing at index 6, differ pairwise. */
  lemma DistinctByShape(r: seq<string>)
    requires |r| == 4 && |r[0]| == 29 && |r[1]| == 27 && |r[2]| == 9 && |r[3]| == 9
    requires r[2][6] == '4' && r[3][6] == '5'
    ensures forall i, j :: 0 <= i < j < |r| ==> r[i] != r[j]
  {
  }

  /** The sign tells the signatures of `msgs` apart, as MD5 does for different strings. */
  predicate Separates(sign: Message -> string, msgs: seq<Message>) {
    forall i, j :: 0 <= i < j < |msgs| ==> sign(msgs[i]) != sign(msgs[j])
  }

  /** A digest that tells the test's raw signatures apart tells its four messages apart. */
  lemma TestMessagesSeparate(digest: string -> string)
    requires InjectiveOn(digest, TestRaws())
    ensures Separates(Signer(digest), TestMessages())
  {
    TestRawsDistinct();
    SeparatesFromRaws(digest, TestMessages(), TestRaws());
  }

  /** Messages whose raw signatures differ pairwise, under a digest injective on them, sign differently. */
  lemma SeparatesFromRaws(digest: string -> string, ms: seq<Message>, raws: seq<string>)
    requires raws == RawsOf(ms)
    requires forall i, j :: 0 <= i < j < |raws| ==> raws[i] != raws[j]
    requires InjectiveOn(digest, raws)
    ensures Separates(Signer(digest), ms)
  {
    forall i, j | 0 <= i < j < |ms| ensures Signer(digest)(ms[i]) != Signer(digest)(ms[j]) {
      assert raws[i] != raws[j];
    }
  }

  lemma SeparatesFour(sign: Message -> string, a: Message, b: Message, c: Message, d: Message)
    requires Separates(sign, [a, b, c, d])
    ensures sign(a) != sign(b) && sign(a) != sign(c)
    ensures sign(a) != sign(d) && sign(b) != sign(c)
    ensures sign(b) != sign(d) && sign(c) != sign(d)
  {
    var ms := [a, b, c, d];
    assert ms[0] == a && ms[1] == b && ms[2] == c && ms[3] == d;
  }

  /** `run_test`, cycle 1: message 101 is sent and its signature enters the empty window. */
  lemma RunTestFirstCycle(digest: string -> string)
    ensures Accepted([Pokemon("101")], {}, [], Signer(digest)) == [Pokemon("101")]
    ensures Window([], Signature(digest, Pokemon("101"))) == [Signature(digest, Pokemon("101"))]
  {
    CycleAccepts(Signer(digest), Pokemon("101"), {}, []);
    WindowStarts(Signature(digest, Pokemon("101")));
  }

  /**
   * `run_test`, cycles 2 and 3, for a digest that tells the test's
   * signatures apart: the copy 102 of message 101 is skipped, and 103 is
   * sent.
   */
  lemma RunTestEarlyCycles(digest: string -> string)
    requires InjectiveOn(digest, TestRaws())
    ensures Accepted([Pokemon("102")], {"101"}, [Signature(digest, Pokemon("101"))], Signer(digest)) == []
    ensures Accepted([Zelda()], {"101", "102"}, [Signature(digest, Pokemon("101"))], Signer(digest)) == [Zelda()]
  {
    SignerIgnoresIds(digest);
    TestMessagesSeparate(digest);
    var ms := TestMessages();
    SeparatesFour(Signer(digest), ms[0], ms[1], ms[2], ms[3]);
    SignerSigns(digest, ms[0]);
    EarlyCycles(Signer(digest), ms[0], ms[1]);
    assert ms[0].(id := Some("102")) == Pokemon("102");
  }

  /** Cycles 2 and 3 for any id-blind signing function and two messages it tells apart. */
  lemma EarlyCycles(sign: Message -> string, msg1: Message, msg3: Message)
    requires IgnoresIds(sign)
    requires msg1.id == Some("101") && msg3.id == Some("103")
    requires sign(msg1) != sign(msg3)
    ensures Accepted([msg1.(id := Some("102"))], {"101"}, [sign(msg1)], sign) == []
    ensures Accepted([msg3], {"101", "102"}, [sign(msg1)], sign) == [msg3]
  {
    CopySkipped(sign, msg1);
    CycleAccepts(sign, msg3, {"101", "102"}, [sign(msg1)]);
  }

  /**
   * `run_test`, cycles 4 and 5, for a digest that tells the test's
   * signatures apart: the items 104 and 105 push 101's signature out of
   * the window, and its copy 106 is then sent again.
   */
  lemma RunTestLateCycles(digest: string -> string)
    requires InjectiveOn(digest, TestRaws())
    ensures Window(Window(Window([Signature(digest, Pokemon("101"))], Signature(digest, Zelda())),
                          Signature(digest, Item("104", Item4Title))), Signature(digest, Item("105", Item5Title)))
      == [Signature(digest, Zelda()), Signature(digest, Item("104", Item4Title)), Signature(digest, Item("105", Item5Title))]
    ensures Accepted([Pokemon("106")], {"101", "102", "103"},
                     [Signature(digest, Zelda()), Signature(digest, Item("104", Item4Title)), Signature(digest, Item("105", Item5Title))],
                     Signer(digest))
      == [Pokemon("106")]
  {
    SignerIgnoresIds(digest);
    TestMessagesSeparate(digest);
    var ms := TestMessages();
    SignerSigns(digest, ms[0]);
    SignerSigns(digest, ms[1]);
    SignerSigns(digest, ms[2]);
    SignerSigns(digest, ms[3]);
    LateCycles(Signer(digest), ms[0], ms[1], ms[2], ms[3]);
    assert ms[0].(id := Some("106")) == Pokemon("106");
  }

  /** Cycles 4 and 5 for any id-blind signing function and four messages it tells apart. */
  lemma LateCycles(sign: Message -> string, msg1: Message, msg3: Message, msg4: Message, msg5: Message)
    requires IgnoresIds(sign)
    requires msg1.id == Some("101")
    requires Separates(sign, [msg1, msg3, msg4, msg5])
    ensures Window(Window(Window([sign(msg1)], sign(msg3)), sign(msg4)), sign(msg5))
      == [sign(msg3), sign(msg4), sign(msg5)]
    ensures Accepted([msg1.(id := Some("106"))], {"101", "102", "103"},
                     [sign(msg3), sign(msg4), sign(msg5)], sign)
      == [msg1.(id := Some("106"))]
  {
    var s1, s3, s4, s5 := sign(msg1), sign(msg3), sign(msg4), sign(msg5);
    SeparatesFour(sign, msg1, msg3, msg4, msg5);
    WindowFills([s1], s3);
    WindowFills([s1, s3], s4);
    WindowEvictsOldest([s1, s3, s4], s5);
    CopyAccepted(sign, msg1, s3, s4, s5);
  }

  /** Cycle 2 of `run_test`: a copy of a message whose signature is in the window. */
  lemma CopySkipped(sign: Message -> string, msg1: Message)
    requires IgnoresIds(sign) && msg1.id == Some("101")
    ensures Accepted([msg1.(id := Some("102"))], {"101"}, [sign(msg1)], sign) == []
  {
    assert sign(msg1.(id := Some("102"))) == sign(msg1);
    CycleSkips(sign, msg1.(id := Some("102")), {"101"}, [sign(msg1)]);
  }

  /** Cycle 5 of `run_test`: a copy of a message whose signature has left the window. */
  lemma CopyAccepted(sign: Message -> string, msg1: Message, s3: string, s4: string, s5: string)
    requires IgnoresIds(sign) && msg1.id == Some("101")
    requires sign(msg1) !in [s3, s4, s5]
    ensures Accepted([msg1.(id := Some("106"))], {"101", "102", "103"}, [s3, s4, s5], sign) == [msg1.(id := Some("106"))]
  {
    assert sign(msg1.(id := Some("106"))) == sign(msg1);
    CycleAccepts(sign, msg1.(id := Some("106")), {"101", "102", "103"}, [s3, s4, s5]);
  }

  /** One message with a new id and a new signature is returned and its id recorded. */
  lemma CycleAccepts(sign: Message -> string, m: Message, sent: set<string>, recent: seq<string>)
    requires Truthy(m.id) && m.id.value !in sent && sign(m) !in recent
    ensures Accepted([m], sent, recent, sign) == [m]
    ensures sent + IdsOf([m]) == sent + {m.id.value}
  {
    AcceptedSingle(m, sent, recent, sign);
  }

  /** One message with a recent signature is skipped, but its id is recorded. */
  lemma CycleSkips(sign: Message -> string, m: Message, sent: set<string>, recent: seq<string>)
    requires Truthy(m.id) && sign(m) in recent
    ensures Accepted([m], sent, recent, sign) == []
    ensures sent + IdsOf([m]) == sent + {m.id.value}
  {
    AcceptedSingle(m, sent, recent, sign);
  }

  /** A window with room takes a new signature at its end. */
  lemma WindowFills(recent: seq<string>, sig: string)
    requires |recent| < WindowSize && sig !in recent
    ensures Window(recent, sig) == recent + [sig]
  {
  }

  /** An empty window takes the first signature alone. */
  lemma WindowStarts(sig: string)
    ensures Window([], sig) == [sig]
  {
    assert [] + [sig] == [sig];
  }

  lemma AcceptedSingle(m: Message, sent: set<string>, recent: seq<string>, sign: Message -> string)
    ensures Accepted([m], sent, recent, sign) == if Accepts([], m, sent, recent, sign) then [m] else []
    ensures IdsOf([m]) == if Truthy(m.id) then {m.id.value} else {}
  {
    AcceptedStep([], m, sent, recent, sign);
    assert [] + [m] == [m];
  }
}
