/**
 * telegram_bot_old.py, `broadcast_job`: one poll, the duplicate-source
 * filter, then every formatted message to every active user, each
 * delivery guarded so that a failure is logged and the loop goes on.
 *
 * The Telegram API is the parameter `send`: given the message index, the
 * chat and the request, it answers `None` for success or the text of the
 * error raised. The message layout is the parameter `render`, `None` when
 * formatting raises. The job's result is the log of what it did.
 */
module Broadcast {
  import opened Wrappers
  import opened Text
  import opened Seqs
  import opened Messages
  import opened Subscriptions
  import opened Poller
  import opened TelegramFormat

  /** Telegram's limit on a photo caption. */
  const CaptionLimit: nat := 1024

  datatype Request =
    | SendPhoto(photo: string, caption: string, keyboard: Option<seq<seq<Button>>>)
    | SendMediaGroup(photos: seq<string>)
    | SendMessage(text: string, keyboard: Option<seq<seq<Button>>>)

  /** How the error of a failed delivery is reported. */
  datatype FailureKind = InvalidChat | BotBlocked | BadRequest | OtherError

  datatype Event =
    | FormatFailed(msg: nat)
    | Call(msg: nat, uid: string, request: Request, error: Option<string>)
    | GaveUp(msg: nat, uid: string, kind: FailureKind)

  type Sender = (nat, string, Request) -> Option<string>

  const UserNotFound := "user not found"
  const ChatIdInvalid := "chat_id_invalid"
  const BotWasBlocked := "bot was blocked"
  const BadRequestText := "bad request"

  /** Which kind of failure the lower-cased error text names. */
  function Classify(error: string): FailureKind {
    var lower := Lower(error);
    if Contains(lower, UserNotFound) || Contains(lower, ChatIdInvalid) then InvalidChat
    else if Contains(lower, BotWasBlocked) then BotBlocked
    else if Contains(lower, BadRequestText) then BadRequest
    else OtherError
  }

  /** The text-only delivery, also the fallback of the photo delivery. */
  function TextDelivery(i: nat, uid: string, text: string, kb: Option<seq<seq<Button>>>, send: Sender): seq<Event> {
    var req := SendMessage(text, kb);
    var err := send(i, uid, req);
    [Call(i, uid, req, err)] + if err.Some? then [GaveUp(i, uid, Classify(err.value))] else []
  }

  /**
   * The delivery of message `i` to `uid`: with images, the first one with
   * the caption cut to 1024 characters, then images 2 and 3 as an album;
   * if either call fails, the text alone. Without images, the text alone.
   */
  function DeliverTo(i: nat, uid: string, text: string, images: seq<string>, kb: Option<seq<seq<Button>>>, send: Sender): seq<Event> {
    if images == [] then TextDelivery(i, uid, text, kb, send)
    else
      var photo := SendPhoto(images[0], Take(text, CaptionLimit), kb);
      var photoErr := send(i, uid, photo);
      if photoErr.Some? then [Call(i, uid, photo, photoErr)] + TextDelivery(i, uid, text, kb, send)
      else if |images| == 1 then [Call(i, uid, photo, None)]
      else
        var album := SendMediaGroup(Prefix(images[1..], 2));
        var albumErr := send(i, uid, album);
        [Call(i, uid, photo, None), Call(i, uid, album, albumErr)]
        + if albumErr.Some? then TextDelivery(i, uid, text, kb, send) else []
  }

  /** The deliveries of message `i`, with its images and keyboard, to each of `users`, in order. */
  function UserEvents(i: nat, text: string, images: seq<string>, kb: Option<seq<seq<Button>>>, users: seq<string>, send: Sender): seq<Event> {
    if users == [] then []
    else
      UserEvents(i, text, images, kb, users[..|users| - 1], send)
      + DeliverTo(i, users[|users| - 1], text, images, kb, send)
  }

  /** What happens to message `i`: a logged format failure, or a delivery to every user. */
  function MessageEvents(i: nat, m: Message, users: seq<string>, render: Message -> Option<string>, send: Sender): seq<Event> {
    match render(m)
    case None => [FormatFailed(i)]
    case Some(text) => UserEvents(i, text, AlertImages(m.embed.Object()), KeyboardOf(m.embed.Object()), users, send)
  }

  /** The log of the delivery loops over `msgs`. */
  function JobEvents(msgs: seq<Message>, users: seq<string>, render: Message -> Option<string>, send: Sender): seq<Event> {
    if msgs == [] then []
    else
      JobEvents(msgs[..|msgs| - 1], users, render, send)
      + MessageEvents(|msgs| - 1, msgs[|msgs| - 1], users, render, send)
  }

  /** The messages not from a duplicate source, in order. */
  function Relayed(msgs: seq<Message>): seq<Message> {
    if msgs == [] then []
    else Relayed(msgs[..|msgs| - 1]) + (if IsDuplicateSource(msgs[|msgs| - 1]) then [] else [msgs[|msgs| - 1]])
  }

  /** Whether the filter of `broadcast_job` raises on some message of `msgs`. */
  predicate AnyRaises(msgs: seq<Message>) {
    exists k :: 0 <= k < |msgs| && FilterRaises(msgs[k])
  }

  /**
   * The filter's list comprehension as written: `None` when
   * `is_duplicate_source` raises on one of the messages.
   */
  function RelayedAsWritten(msgs: seq<Message>): Option<seq<Message>> {
    if msgs == [] then Some([])
    else
      var m := msgs[|msgs| - 1];
      match RelayedAsWritten(msgs[..|msgs| - 1])
      case None => None
      case Some(init) =>
        match DuplicateSourceAsWritten(m)
        case None => None
        case Some(dup) => Some(init + if dup then [] else [m])
  }

  /**
   * The comprehension raises exactly when one message makes the filter
   * raise; otherwise it keeps what the intended filter keeps.
   */
  lemma {:induction false} RelayedAsWrittenRaises(msgs: seq<Message>)
    ensures RelayedAsWritten(msgs).None? <==> AnyRaises(msgs)
    ensures RelayedAsWritten(msgs).Some? ==> RelayedAsWritten(msgs).value == Relayed(msgs)
  {
    if msgs != [] {
      var init := msgs[..|msgs| - 1];
      var m := msgs[|msgs| - 1];
      RelayedAsWrittenRaises(init);
      if AnyRaises(init) {
        var k :| 0 <= k < |init| && FilterRaises(init[k]);
        assert msgs[k] == init[k];
      } else if FilterRaises(m) {
        assert msgs[|msgs| - 1] == m;
      } else {
        forall k | 0 <= k < |msgs| ensures !FilterRaises(msgs[k]) {
          if k < |init| {
            assert msgs[k] == init[k];
          }
        }
      }
    }
  }

  /** The nested delivery loops: each message formatted once, then sent to each user in turn. */
  method DeliverAll(msgs: seq<Message>, users: seq<string>, render: Message -> Option<string>, send: Sender)
    returns (log: seq<Event>)
    ensures log == JobEvents(msgs, users, render, send)
  {
    log := [];
    for i := 0 to |msgs|
      invariant log == JobEvents(msgs[..i], users, render, send)
    {
      var msg := msgs[i];
      assert msgs[..i + 1][..i] == msgs[..i];
      var rendered := render(msg);
      if rendered.None? {
        log := log + [FormatFailed(i)];
        continue;
      }
      var text := rendered.value;
      var deliveries := DeliverMessage(i, msg, text, users, send);
      assert MessageEvents(i, msg, users, render, send) == deliveries;
      log := log + deliveries;
    }
    assert msgs[..|msgs|] == msgs;
  }

  /** The inner loop: message `i` to each user in turn. */
  method DeliverMessage(i: nat, msg: Message, text: string, users: seq<string>, send: Sender)
    returns (events: seq<Event>)
    ensures events == UserEvents(i, text, AlertImages(msg.embed.Object()), KeyboardOf(msg.embed.Object()), users, send)
  {
    var images := AlertImages(msg.embed.Object());
    var keyboard := KeyboardOf(msg.embed.Object());
    events := [];
    for j := 0 to |users|
      invariant events == UserEvents(i, text, images, keyboard, users[..j], send)
    {
      assert users[..j + 1][..j] == users[..j];
      var delivery := Deliver(i, users[j], text, images, keyboard, send);
      events := events + delivery;
    }
    assert users[..|users|] == users;
  }

  /** One guarded delivery, step by step as the handler makes its calls. */
  method Deliver(i: nat, uid: string, text: string, images: seq<string>, kb: Option<seq<seq<Button>>>, send: Sender)
    returns (events: seq<Event>)
    ensures events == DeliverTo(i, uid, text, images, kb, send)
  {
    events := [];
    var fallback := true;
    if images != [] {
      var photo := SendPhoto(images[0], Take(text, CaptionLimit), kb);
      var err := send(i, uid, photo);
      events := events + [Call(i, uid, photo, err)];
      fallback := err.Some?;
      if err.None? && |images| > 1 {
        var album := SendMediaGroup(Prefix(images[1..], 2));
        err := send(i, uid, album);
        events := events + [Call(i, uid, album, err)];
        fallback := err.Some?;
      }
    }
    if fallback {
      var req := SendMessage(text, kb);
      var err := send(i, uid, req);
      events := events + [Call(i, uid, req, err)];
      if err.Some? {
        events := events + [GaveUp(i, uid, Classify(err.value))];
      }
    }
  }

  /**
   * `broadcast_job`: poll; keep the messages not from a duplicate source;
   * stop when there are none or nobody is active; otherwise deliver. When
   * the filter raises, the job's outer handler logs the error and the
   * cycle ends with nothing sent, although the poll has already recorded
   * the page's hashes and moved the cursor.
   */
  method BroadcastJob(poller: MessagePoller, sm: SubscriptionManager, response: Response, now: int,
                      render: Message -> Option<string>, send: Sender)
    returns (relayed: seq<Message>, active: seq<string>, log: seq<Event>)
    requires sm.Valid()
    modifies poller
    ensures response.Answer? && response.status == 200 ==>
      && poller.sentHashes == old(poller.sentHashes) + HashSet(response.rows)
      && relayed == if AnyRaises(Kept(response.rows, old(poller.sentHashes))) then []
                    else Relayed(Kept(response.rows, old(poller.sentHashes)))
    ensures !(response.Answer? && response.status == 200) ==> relayed == []
    ensures relayed != [] ==> active == ActiveIn(sm.users.order, sm.users.records, now)
    ensures relayed == [] || active == [] ==> log == []
    ensures relayed != [] && active != [] ==> log == JobEvents(relayed, active, render, send)
  {
    active := [];
    log := [];
    var newMsgs := poller.PollNewMessages(response, now);
    relayed := [];
    for i := 0 to |newMsgs|
      invariant RelayedAsWritten(newMsgs[..i]) == Some(relayed)
    {
      assert newMsgs[..i + 1][..i] == newMsgs[..i];
      var dup := DuplicateSourceAsWritten(newMsgs[i]);
      if dup.None? {
        assert FilterRaises(newMsgs[i]);
        relayed := [];
        return;
      }
      assert newMsgs[..i + 1][i] == newMsgs[i];
      assert RelayedAsWritten(newMsgs[..i + 1]) == Some(relayed + if dup.value then [] else [newMsgs[i]]);
      if !dup.value {
        relayed := relayed + [newMsgs[i]];
      } else {
        assert relayed + [] == relayed;
      }
    }
    assert newMsgs[..|newMsgs|] == newMsgs;
    RelayedAsWrittenRaises(newMsgs);
    if relayed == [] {
      return;
    }
    active := sm.GetActiveUsers(now);
    if active == [] {
      return;
    }
    log := DeliverAll(relayed, active, render, send);
  }

  // -----------------------------------------------------------------------
  // Properties

  /** Exactly the messages that are not from a duplicate source go out, in order. */
  lemma {:induction false} RelayedExactly(msgs: seq<Message>)
    ensures forall m :: m in Relayed(msgs) <==> m in msgs && !IsDuplicateSource(m)
    ensures IsSubsequence(Relayed(msgs), msgs)
  {
    if msgs == [] {
      EmptySubsequence(msgs);
    } else {
      var init := msgs[..|msgs| - 1];
      var m := msgs[|msgs| - 1];
      RelayedExactly(init);
      SubsequenceSnoc(Relayed(init), init, m, !IsDuplicateSource(m));
      assert init + [m] == msgs;
      assert Relayed(msgs) == if IsDuplicateSource(m) then Relayed(init) else Relayed(init) + [m];
      forall x ensures x in msgs <==> x in init || x == m {
        assert x in msgs <==> x in init + [m];
      }
    }
  }

  const PlainText := "hi"
  const PlainAuthor := "Alice"
  const AlertTitle := "Box"

  /** A plain chat message, stored with `"embed": null`. */
  function PlainMessage(): Message {
    Message(Some("1"), PlainText, None, Some(PlainAuthor), Null, Some("h1"))
  }

  /** A deal alert with an embed. */
  function EmbedAlert(): Message {
    Message(Some("2"), "", None, Some(PlainAuthor),
      Present(Embed(None, Some(AlertTitle), None, [], [], [], None, None, None)), Some("h2"))
  }

  /**
   * A page holding a plain message and an alert: as written the filter
   * raises, so `BroadcastJob` relays nothing and logs nothing; the
   * intended filter relays both.
   */
  lemma NullEmbedLosesCycle()
    ensures AnyRaises([PlainMessage(), EmbedAlert()])
    ensures RelayedAsWritten([PlainMessage(), EmbedAlert()]).None?
    ensures Relayed([PlainMessage(), EmbedAlert()]) == [PlainMessage(), EmbedAlert()]
  {
    var msgs := [PlainMessage(), EmbedAlert()];
    assert !ContainsLower(PlainAuthor, Pinger);
    assert !ContainsLower(PlainText, Pinger);
    assert !ContainsLower("", Pinger);
    assert FilterRaises(msgs[0]);
    RelayedAsWrittenRaises(msgs);
    assert msgs[..1] == [PlainMessage()];
    assert [] + [PlainMessage()] == [PlainMessage()];
  }

  /** Every delivery starts with a call to the user for that message, whatever the API answers. */
  lemma DeliverToStartsWithCall(i: nat, uid: string, text: string, images: seq<string>, kb: Option<seq<seq<Button>>>, send: Sender)
    ensures DeliverTo(i, uid, text, images, kb, send) != []
    ensures DeliverTo(i, uid, text, images, kb, send)[0].Call?
    ensures DeliverTo(i, uid, text, images, kb, send)[0].msg == i && DeliverTo(i, uid, text, images, kb, send)[0].uid == uid
  {
  }

  /** Each event of a delivery concerns that message and that user. */
  lemma DeliverToConcerns(i: nat, uid: string, text: string, images: seq<string>, kb: Option<seq<seq<Button>>>, send: Sender)
    ensures forall e :: e in DeliverTo(i, uid, text, images, kb, send) ==> !e.FormatFailed? && e.msg == i && e.uid == uid
  {
    var t := TextDelivery(i, uid, text, kb, send);
    assert forall e :: e in t ==> !e.FormatFailed? && e.msg == i && e.uid == uid;
    if images != [] {
      var photo := SendPhoto(images[0], Take(text, CaptionLimit), kb);
      var photoErr := send(i, uid, photo);
      if photoErr.Some? {
        assert DeliverTo(i, uid, text, images, kb, send) == [Call(i, uid, photo, photoErr)] + t;
      } else if |images| > 1 {
        var album := SendMediaGroup(Prefix(images[1..], 2));
        var albumErr := send(i, uid, album);
        assert DeliverTo(i, uid, text, images, kb, send)
          == [Call(i, uid, photo, None), Call(i, uid, album, albumErr)] + if albumErr.Some? then t else [];
      }
    }
  }

  /** Only the last event can be a give-up, and it follows the failed text message whose error it reports. */
  predicate GiveUpReported(d: seq<Event>, text: string, kb: Option<seq<seq<Button>>>) {
    && d != []
    && (forall k :: 0 <= k < |d| - 1 ==> !d[k].GaveUp?)
    && (d[|d| - 1].GaveUp? ==>
          && |d| >= 2 && d[|d| - 2].Call? && d[|d| - 2].request == SendMessage(text, kb) && d[|d| - 2].error.Some?
          && d[|d| - 1].kind == Classify(d[|d| - 2].error.value))
  }

  lemma TextDeliveryReported(i: nat, uid: string, text: string, kb: Option<seq<seq<Button>>>, send: Sender)
    ensures GiveUpReported(TextDelivery(i, uid, text, kb, send), text, kb)
  {
  }

  /** Calls that never give up, placed before a reported delivery, keep it reported. */
  lemma ReportedAfterCalls(p: seq<Event>, t: seq<Event>, text: string, kb: Option<seq<seq<Button>>>)
    requires forall k :: 0 <= k < |p| ==> !p[k].GaveUp?
    requires GiveUpReported(t, text, kb)
    ensures GiveUpReported(p + t, text, kb)
  {
    var d := p + t;
    forall k | 0 <= k < |d| - 1 ensures !d[k].GaveUp? {
      if k >= |p| {
        assert d[k] == t[k - |p|];
      }
    }
    assert d[|d| - 1] == t[|t| - 1];
    if |t| >= 2 {
      assert d[|d| - 2] == t[|t| - 2];
    }
  }

  /** A delivery gives up, reporting the error of the text message, only as its last event. */
  lemma DeliverToReported(i: nat, uid: string, text: string, images: seq<string>, kb: Option<seq<seq<Button>>>, send: Sender)
    ensures GiveUpReported(DeliverTo(i, uid, text, images, kb, send), text, kb)
  {
    var t := TextDelivery(i, uid, text, kb, send);
    TextDeliveryReported(i, uid, text, kb, send);
    if images != [] {
      var photo := SendPhoto(images[0], Take(text, CaptionLimit), kb);
      var photoErr := send(i, uid, photo);
      if photoErr.Some? {
        ReportedAfterCalls([Call(i, uid, photo, photoErr)], t, text, kb);
      } else if |images| > 1 {
        var album := SendMediaGroup(Prefix(images[1..], 2));
        var albumErr := send(i, uid, album);
        if albumErr.Some? {
          ReportedAfterCalls([Call(i, uid, photo, None), Call(i, uid, album, albumErr)], t, text, kb);
        }
      }
    }
  }

  /** The text-only delivery sends text messages only. */
  lemma TextDeliveryIsText(i: nat, uid: string, text: string, kb: Option<seq<seq<Button>>>, send: Sender)
    ensures forall e :: e in TextDelivery(i, uid, text, kb, send) && e.Call? ==> e.request.SendMessage?
  {
  }

  /** A photo carries the first image and at most 1024 caption characters. */
  lemma DeliverToPhoto(i: nat, uid: string, text: string, images: seq<string>, kb: Option<seq<seq<Button>>>, send: Sender)
    ensures forall e :: e in DeliverTo(i, uid, text, images, kb, send) && e.Call? && e.request.SendPhoto? ==>
      images != [] && e.request.photo == images[0] && |e.request.caption| <= CaptionLimit
  {
    DeliverToCalls(i, uid, text, images, kb, send);
  }

  /** An album carries the second and, when there is one, the third image, and nothing else. */
  lemma DeliverToAlbum(i: nat, uid: string, text: string, images: seq<string>, kb: Option<seq<seq<Button>>>, send: Sender)
    ensures forall e :: e in DeliverTo(i, uid, text, images, kb, send) && e.Call? && e.request.SendMediaGroup? ==>
      1 <= |e.request.photos| <= 2 && 1 + |e.request.photos| <= |images| && e.request.photos == images[1..1 + |e.request.photos|]
  {
    DeliverToCalls(i, uid, text, images, kb, send);
  }

  /** The requests a delivery makes besides text messages: the photo, then the album. */
  lemma DeliverToCalls(i: nat, uid: string, text: string, images: seq<string>, kb: Option<seq<seq<Button>>>, send: Sender)
    ensures forall e :: e in DeliverTo(i, uid, text, images, kb, send) && e.Call? && !e.request.SendMessage? ==>
      images != [] &&
      (e.request == SendPhoto(images[0], Take(text, CaptionLimit), kb) ||
       (|images| > 1 && e.request == SendMediaGroup(Prefix(images[1..], 2))))
  {
    var t := TextDelivery(i, uid, text, kb, send);
    TextDeliveryIsText(i, uid, text, kb, send);
    if images != [] {
      var photo := SendPhoto(images[0], Take(text, CaptionLimit), kb);
      var photoErr := send(i, uid, photo);
      if photoErr.Some? {
        assert DeliverTo(i, uid, text, images, kb, send) == [Call(i, uid, photo, photoErr)] + t;
      } else if |images| > 1 {
        var album := SendMediaGroup(Prefix(images[1..], 2));
        var albumErr := send(i, uid, album);
        assert DeliverTo(i, uid, text, images, kb, send)
          == [Call(i, uid, photo, None), Call(i, uid, album, albumErr)] + if albumErr.Some? then t else [];
      }
    }
  }

  /** Every user is sent message `i`: some call to them is logged. */
  lemma {:induction false} UserEventsReach(i: nat, text: string, images: seq<string>, kb: Option<seq<seq<Button>>>, users: seq<string>, send: Sender, j: nat)
    requires j < |users|
    ensures exists e :: e in UserEvents(i, text, images, kb, users, send) && e.Call? && e.msg == i && e.uid == users[j]
  {
    var init := users[..|users| - 1];
    var before := UserEvents(i, text, images, kb, init, send);
    var d := DeliverTo(i, users[|users| - 1], text, images, kb, send);
    assert UserEvents(i, text, images, kb, users, send) == before + d;
    if j < |init| {
      UserEventsReach(i, text, images, kb, init, send, j);
      var e :| e in before && e.Call? && e.msg == i && e.uid == init[j];
      assert e in before + d;
    } else {
      DeliverToStartsWithCall(i, users[|users| - 1], text, images, kb, send);
      assert d[0] in before + d;
    }
  }

  /**
   * Failure isolation: every message that formats reaches a send call for
   * every active user, whatever the other messages and the other users'
   * sends did.
   */
  lemma {:induction false} EveryoneIsTried(msgs: seq<Message>, users: seq<string>, render: Message -> Option<string>, send: Sender, i: nat, j: nat)
    requires i < |msgs| && j < |users| && render(msgs[i]).Some?
    ensures exists e :: e in JobEvents(msgs, users, render, send) && e.Call? && e.msg == i && e.uid == users[j]
  {
    var init := msgs[..|msgs| - 1];
    var before := JobEvents(init, users, render, send);
    var these := MessageEvents(|msgs| - 1, msgs[|msgs| - 1], users, render, send);
    assert JobEvents(msgs, users, render, send) == before + these;
    if i < |init| {
      EveryoneIsTried(init, users, render, send, i, j);
      var e :| e in before && e.Call? && e.msg == i && e.uid == users[j];
      assert e in before + these;
    } else {
      var m := msgs[i];
      var text := render(m).value;
      assert these == UserEvents(i, text, AlertImages(m.embed.Object()), KeyboardOf(m.embed.Object()), users, send);
      UserEventsReach(i, text, AlertImages(m.embed.Object()), KeyboardOf(m.embed.Object()), users, send, j);
      var e :| e in these && e.Call? && e.msg == i && e.uid == users[j];
      assert e in before + these;
    }
  }

  lemma {:induction false} UserEventsConcern(i: nat, text: string, images: seq<string>, kb: Option<seq<seq<Button>>>, users: seq<string>, send: Sender)
    ensures forall e :: e in UserEvents(i, text, images, kb, users, send) ==> !e.FormatFailed? && e.msg == i && e.uid in users
  {
    if users != [] {
      var init := users[..|users| - 1];
      var u := users[|users| - 1];
      UserEventsConcern(i, text, images, kb, init, send);
      DeliverToConcerns(i, u, text, images, kb, send);
      assert forall x :: x in init ==> x in users;
    }
  }

  /**
   * A message that fails to format is logged once and sent to nobody;
   * every call goes to an active user about a message that formatted.
   */
  lemma {:induction false} FormatFailuresSkipOnlyTheirMessage(msgs: seq<Message>, users: seq<string>, render: Message -> Option<string>, send: Sender)
    ensures forall i :: 0 <= i < |msgs| ==> (FormatFailed(i) in JobEvents(msgs, users, render, send) <==> render(msgs[i]).None?)
    ensures forall e :: e in JobEvents(msgs, users, render, send) ==> e.msg < |msgs|
    ensures forall e :: e in JobEvents(msgs, users, render, send) && !e.FormatFailed? ==>
      e.msg < |msgs| && render(msgs[e.msg]).Some? && e.uid in users
  {
    if msgs != [] {
      var init := msgs[..|msgs| - 1];
      var last := |msgs| - 1;
      var m := msgs[last];
      FormatFailuresSkipOnlyTheirMessage(init, users, render, send);
      var before := JobEvents(init, users, render, send);
      var these := MessageEvents(last, m, users, render, send);
      assert JobEvents(msgs, users, render, send) == before + these;
      if render(m).Some? {
        UserEventsConcern(last, render(m).value, AlertImages(m.embed.Object()), KeyboardOf(m.embed.Object()), users, send);
      }
      forall i | 0 <= i < |msgs|
        ensures FormatFailed(i) in before + these <==> render(msgs[i]).None?
      {
        if i < last {
          assert msgs[i] == init[i];
          assert FormatFailed(i) !in these;
        } else {
          assert FormatFailed(i) !in before;
        }
      }
      forall e: Event | e in before + these && !e.FormatFailed?
        ensures e.msg < |msgs| && render(msgs[e.msg]).Some? && e.uid in users
      {
        if e in before {
          assert msgs[e.msg] == init[e.msg];
        }
      }
    }
  }
}
