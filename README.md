# Deal alert relay: a Dafny model

This project models the logic at the heart of a deal-alert system. A
browser-driven archiver scrapes Discord deal channels and stores each
message with a content hash. A Telegram bot polls the stored messages.
It drops repeats and messages signed by a duplicate source, formats each
alert (cleaned text, up to three images, a keyboard of link buttons) and
sends it to every active subscriber. A React Native app shows the same
deals in a feed, lets users save products and limits free users to four
product views a day.

The model covers:

- **TelegramFormat, Poller, Subscriptions, Broadcast.** The relay in
  `telegram_bot_old.py`:
  - text cleaning;
  - image choice;
  - link sorting and button layout;
  - duplicate-source detection;
  - the cursor-and-hash poller;
  - subscription codes, expiry and pausing;
  - the broadcast loop with its failure isolation.
- **LinkParser.** `link_parser.py`: markdown link extraction, link
  categories, embed link collection, tag-line parsing, button captions and
  emoji prefixes. The copies of these helpers in `telegram_bot_old.py` and
  `app_old.py` are modelled once, here. The copies differ only where the bot
  never uses the difference (see "## Left out").
- **DedupWindow.** The content-signature poller of `verify_deduplication.py`
  and its `run_test` scenario.
- **PotentialUsers.** The prospect tracking of `test_potential_users.py`
  and its `run_test` scenario.
- **Archiver.** The state helpers of `app_old.py`: the log buffer, alert
  cooldown, per-channel error counting, `clean_text` and the per-channel id
  bookkeeping of the scan loop.
- **DailyViews, SavedList, HomeFeed.** The app's `UserContext.js` (daily
  view quota), `SavedContext.js` (saved products) and `HomeScreen.js`
  (relative times, category filter, paging, live updates).
- **CategorySync, ImageUrl, EnvFile.**
  - `final_sync.py`: channel list to category rows, in batches of 50.
  - `test_image_optimization.py`: image URL rewriting.
  - `inspect_latest_message.py`: `.env` loading and the latest-message
    inspection.

Code that updates state in place is modelled by classes whose fields are
that state. Examples are the poller, the subscription manager, the
archiver state and the app's providers. Their methods are proved against
specification functions, and lemmas state the properties of those
functions. Pure helpers are functions with lemmas. The shared modules
`Wrappers`, `Text` and `Seqs` hold Option, Python-style string operations
and sequence facts.

Time is an integer throughout: seconds, or milliseconds in the app, as
JavaScript's `Date` counts them. Hash functions (MD5, the content hash),
random tokens, HTTP answers and storage reads are parameters.

Where the written description of the system and the code differ, the model
follows the code:

- `clean_text` in `app_old.py` collapses whitespace before it drops
  non-ASCII characters. See Findings.
- When ALL is selected the app sends 'ALL', not the empty string its
  comment announces; otherwise it sends the first selected category, or
  'ALL' when none is. See `HomeFeed.CategoryParam`.
- The relay's link sorting tests quantity options by their field name.
  Links of any other field are sorted by the keywords of their text,
  whatever the field is called.

## Model

| member | source | states |
|---|---|---|
| TelegramFormat.WithoutPhrases | telegram_bot_old.py:350-357 | removing the signature phrases never lengthens the text |
| TelegramFormat.SignatureRecognised | telegram_bot_old.py:361-362 | "CCN", whitespace, "x", whitespace, "Zephyr", whitespace, "Monitors" (any case) is matched where it starts, through its last letter |
| TelegramFormat.SignatureSpells | telegram_bot_old.py:361-362 | every match of the signature is such a run of words and whitespace |
| TelegramFormat.BarSignatureRecognised | telegram_bot_old.py:361-362 | optional whitespace, a bar, optional whitespace and the signature are matched through the signature |
| TelegramFormat.BarSignatureSpells | telegram_bot_old.py:361-362 | every match of the bar and the signature is optional whitespace, a bar, optional whitespace and the signature |
| TelegramFormat.ClockEndIff | telegram_bot_old.py:361 | `\[\d{2}:\d{2}:\d{2}\]` matches at an index exactly when a bracketed hh:mm:ss clock stands there |
| TelegramFormat.VersionTagRecognised | telegram_bot_old.py:361 | "Monitors", whitespace, "v" and a run of digits and dots is matched through the whole run |
| TelegramFormat.VersionTagSpells | telegram_bot_old.py:361 | every match of the version tag is laid out that way, and the run of digits and dots is not cut short |
| TelegramFormat.TimestampedRecognised | telegram_bot_old.py:361 | a version tag, the bar and signature, optional whitespace and a clock are matched through the clock's "]" |
| TelegramFormat.TimestampedSpells | telegram_bot_old.py:361 | every match of the timestamped pattern is a version tag, the bar and signature, whitespace and a clock, ending at the clock's "]" |
| TelegramFormat.BracketLineRecognised | telegram_bot_old.py:362 | "[", a non-empty tag without "]", and "]" are matched through the end of that line |
| TelegramFormat.BracketLineSpells | telegram_bot_old.py:362 | every match of `\[[^\]]+\].*` is a bracketed tag and the rest of its line |
| TelegramFormat.TrailingRecognised | telegram_bot_old.py:362 | the bar and signature, whitespace and a bracketed tag are matched through the end of the tag's line |
| TelegramFormat.TrailingSpells | telegram_bot_old.py:362 | every match of the trailing pattern is laid out that way and ends at the end of the tag's line |
| TelegramFormat.TimeEndIff | telegram_bot_old.py:363 | `\d{1,2}:\d{2}` ends three past the colon exactly when one or two digits, a colon and two digits stand there |
| TelegramFormat.MeridiemEndIff | telegram_bot_old.py:363 | the meridiem group matches exactly "am" or "pm", in any case |
| TelegramFormat.TodayAtRecognised | telegram_bot_old.py:363 | "Today", whitespace, "at", whitespace, h:mm or hh:mm, optional whitespace and AM or PM is matched through the meridiem |
| TelegramFormat.TodayAtSpells | telegram_bot_old.py:363 | every match of the "Today at" pattern is laid out that way and ends after the meridiem |
| TelegramFormat.Sub | telegram_bot_old.py:376-377 | removing the matches of a pattern never lengthens the text |
| TelegramFormat.WithoutPatterns | telegram_bot_old.py:376-377 | removing the patterns in turn never lengthens the text |
| TelegramFormat.CollapseSpaces | telegram_bot_old.py:380 | the collapsed text is never longer, empty exactly when the input is, and starts with whitespace exactly when the input does |
| TelegramFormat.CleanText | telegram_bot_old.py:366-382 | the cleaned text is never longer than the input |
| TelegramFormat.CleanTextNormalized | telegram_bot_old.py:366-382 | for every input, the cleaned text is single-spaced and has no whitespace at either end |
| TelegramFormat.NormalizeIdempotent | telegram_bot_old.py:380-381 | the whitespace step leaves its own output unchanged |
| TelegramFormat.AlertImages | telegram_bot_old.py:517-523 | at most three images: a prefix of the embed's images when it has some, else only its thumbnail; none exactly when there is no embed or it has neither |
| TelegramFormat.IsDuplicateSourceIff | telegram_bot_old.py:644-672 | as intended (a null embed read as none): a message is from a duplicate source exactly when the author name, embed author, footer or content names Profitable Pinger, in any case |
| TelegramFormat.DuplicateSourceAsWritten | telegram_bot_old.py:644-672 | as written, the check raises exactly when the embed is a JSON null and the author name does not name Profitable Pinger; otherwise it answers as the intended check |
| TelegramFormat.StepConsistent | telegram_bot_old.py:546-586 | one sorting step keeps every seen URL listed exactly once and nothing else listed |
| TelegramFormat.SortedConsistent | telegram_bot_old.py:541-586 | after the whole sorting loop, the seen URLs and the five lists agree: each seen URL is listed once |
| TelegramFormat.SortedSeen | telegram_bot_old.py:546-558 | the URLs seen are exactly the URLs of links whose URL starts with "http" |
| TelegramFormat.Quantity | telegram_bot_old.py:620-626 | the first maximal run of digits of the option text when it has a digit, else the whole text |
| TelegramFormat.ButtonRow | telegram_bot_old.py:589-639 | one button per entry, in order, with the list's caption of the entry's text and the entry's URL |
| TelegramFormat.BuildKeyboard | telegram_bot_old.py:526-641 | the keyboard the sorting loop and the row loops build is `KeyboardOf` the embed |
| TelegramFormat.KeyboardUrls | telegram_bot_old.py:589-639 | the keyboard's URLs are the first 3 eBay, 3 FBA, 2 buy, 5 quantity and 3 other URLs, in that order |
| TelegramFormat.KeyboardShape | telegram_bot_old.py:589-639 | every row holds one to three buttons, and there are at most six rows |
| TelegramFormat.KeyboardEmpty | telegram_bot_old.py:641 | the keyboard has no rows exactly when the five lists hold no URL |
| TelegramFormat.KeyboardOfNone | telegram_bot_old.py:526-641 | an alert has no keyboard exactly when it has no embed or none of its links has an http URL |
| TelegramFormat.KeyboardSafe | telegram_bot_old.py:548-639 | rows laid out from consistent lists of http URLs are well shaped, carry only http URLs, and never repeat a URL |
| TelegramFormat.KeyboardOfSafe | telegram_bot_old.py:526-641 | any alert's keyboard is well shaped, carries only http URLs, and has no URL on two buttons |
| Poller.HashSetHasRow | telegram_bot_old.py:328-331 | every non-empty hash of a page row is recorded |
| Poller.KeptInOrder | telegram_bot_old.py:326-331 | the rows returned are an in-order selection of the page |
| Poller.KeptHashes | telegram_bot_old.py:326-331 | the hashes returned are exactly the page's non-empty hashes that were not sent before |
| Poller.KeptDistinct | telegram_bot_old.py:326-331 | no two rows returned share a hash, none has an empty hash, none was sent before |
| Poller.QueryCursor | telegram_bot_old.py:313-314 | a lost cursor becomes five minutes before now; a present one is kept |
| Poller.MessagePoller.constructor | telegram_bot_old.py:280-299 | the stored cursor and hashes when a blob was read; a missing cursor or no readable blob means one hour ago, with no hashes unless stored |
| Poller.MessagePoller.SaveCursor | telegram_bot_old.py:301-309 | the saved cursor is the current one and the saved hashes are a subset of the sent ones, of size min(count, 1000) |
| Poller.MessagePoller.FilterPage | telegram_bot_old.py:326-331 | the rows kept are those of `Kept`, and every non-empty page hash is recorded |
| Poller.MessagePoller.PollNewMessages | telegram_bot_old.py:311-340 | a 200 answer yields the kept rows and moves the cursor to the last row's `scraped_at` (saved) when the page is not empty; any other answer yields nothing and changes nothing |
| Subscriptions.ExtendedExpiryIsFromLater | telegram_bot_old.py:208-215 | the new expiry is `days` after the later of now and the current expiry |
| Subscriptions.RedeemedIsEligible | telegram_bot_old.py:215-221 | a redemption of at least one day makes the user eligible, un-paused, and keeps their join time; an unexpired subscription is extended, not restarted |
| Subscriptions.ActiveInExactly | telegram_bot_old.py:225-235 | the active users are exactly the known users who are unexpired and unpaused, in table order |
| Subscriptions.ToggleTwice | telegram_bot_old.py:248-256 | toggling twice restores the table; a toggle flips one flag and changes nothing else |
| Subscriptions.ActiveUsersAreUnpausedActive | telegram_bot_old.py:225-246 | a user is broadcast to exactly when `is_active` holds and they have not paused alerts |
| Subscriptions.SubscriptionManager.constructor | telegram_bot_old.py:177-185 | each table is the stored one when it was read, else empty |
| Subscriptions.SubscriptionManager.GenerateCode | telegram_bot_old.py:196-202 | the upper-cased token becomes a code worth `days`; users are untouched |
| Subscriptions.SubscriptionManager.RedeemCode | telegram_bot_old.py:204-223 | the result is true exactly when the code existed; a used code is removed and the user's record rewritten; an unknown code changes nothing |
| Subscriptions.SubscriptionManager.GetActiveUsers | telegram_bot_old.py:225-235 | the returned list is `ActiveIn` of the table |
| Subscriptions.SubscriptionManager.IsActive | telegram_bot_old.py:240-246 | true only for a known user whose expiry lies in the future |
| Subscriptions.SubscriptionManager.TogglePause | telegram_bot_old.py:248-256 | a known user's flag is flipped and the new value returned; an unknown user gives false and no change |
| Broadcast.DeliverAll | telegram_bot_old.py:919-991 | the nested loops' event log equals `JobEvents` of the relayed messages and active users |
| Broadcast.DeliverMessage | telegram_bot_old.py:931-991 | one message's events are `UserEvents` over the active users in order |
| Broadcast.Deliver | telegram_bot_old.py:932-988 | one delivery's events are those `DeliverTo` specifies for the API's answers |
| Broadcast.BroadcastJob | telegram_bot_old.py:871-996 | no poll result sends nothing; when the duplicate check raises on any polled message, nothing is relayed and nothing is sent; otherwise the log is the delivery of the relayed messages to the active users |
| Broadcast.RelayedExactly | telegram_bot_old.py:881 | under the intended check, a message is relayed exactly when it is not from a duplicate source, in order |
| Broadcast.NullEmbedLosesCycle | telegram_bot_old.py:871-996 | a page of a plain message with a null embed and an embed alert: as written the cycle raises and relays nothing, while the intended check relays both |
| Broadcast.DeliverToStartsWithCall | telegram_bot_old.py:934-975 | every delivery begins with a call to that user for that message |
| Broadcast.DeliverToConcerns | telegram_bot_old.py:931-988 | every event of a delivery concerns that message and that user |
| Broadcast.DeliverToReported | telegram_bot_old.py:951-988 | a delivery gives up only as its last event, reporting the error of the text message before it |
| Broadcast.DeliverToPhoto | telegram_bot_old.py:938-944 | a photo carries the first image and at most 1024 caption characters |
| Broadcast.DeliverToAlbum | telegram_bot_old.py:947-949 | an album carries the second and, when there is one, the third image, nothing else |
| Broadcast.DeliverToCalls | telegram_bot_old.py:934-975 | with images, the calls other than text messages are the photo, then the album; without images only text messages are sent |
| Broadcast.UserEventsReach | telegram_bot_old.py:931-991 | every user in the list is sent the message: some call to them is logged |
| Broadcast.EveryoneIsTried | telegram_bot_old.py:919-991 | every message that formats reaches a send call for every active user, whatever other messages and other users' sends did |
| Broadcast.UserEventsConcern | telegram_bot_old.py:931-991 | every event of a message's deliveries concerns that message and a listed user |
| Broadcast.FormatFailuresSkipOnlyTheirMessage | telegram_bot_old.py:919-929 | a message that fails to format is logged once and sent to nobody; every call goes to an active user about a message that formatted |
| LinkParser.MatchAt | link_parser.py:24 | a match found at an index starts there and ends within the text |
| LinkParser.MatchAtIsWellFormed | link_parser.py:24-27 | every match is `[caption](target)` with a non-empty caption free of `]` and a non-empty target free of `)` |
| LinkParser.MatchAtRecognises | link_parser.py:24-27 | every well-formed `[caption](target)` is found where it starts |
| LinkParser.MatchesWellFormed | link_parser.py:24-27 | every match `finditer` yields is well formed |
| LinkParser.MatchesInTextOrder | link_parser.py:24-27 | the matches come in text order and do not overlap |
| LinkParser.ExtractMarkdownLinks | link_parser.py:12-41 | the loop returns `MarkdownLinks` of the text |
| LinkParser.HttpLinksAreCleanHttp | link_parser.py:29-39 | every extracted link has an http URL, and its text and URL are stripped |
| LinkParser.HttpLinksKeepOrder | link_parser.py:29-39 | the extracted links keep the order of the matches they come from |
| LinkParser.MarkdownLinksFacts | link_parser.py:12-41 | empty text gives no links; every link is clean http, in order of appearance |
| LinkParser.CategorizeLinks | link_parser.py:44-81 | the loop's four buckets are the links of each category, in input order |
| LinkParser.CategoriesPartition | link_parser.py:44-81 | every link lands in exactly one bucket, and the buckets together are the input |
| LinkParser.InCategoryOnly | link_parser.py:65-79 | a bucket holds only links of its category: eBay before FBA before Buy before Other |
| LinkParser.ExtractLinksFromEmbed | link_parser.py:84-127 | no embed gives no links; otherwise the links are `DedupUrls` of the array, description and field links, in that order |
| LinkParser.AddArrayLinks | link_parser.py:101-106 | array entries without a URL or with a URL seen before are skipped, and each URL kept is remembered |
| LinkParser.AddFieldLinks | link_parser.py:117-125 | the markdown links of each non-empty field value are added in field order, skipping seen URLs |
| LinkParser.AddMarkdownLinks | link_parser.py:112-115 | each link with a new URL is appended and its URL remembered |
| LinkParser.DedupUrlsDistinct | link_parser.py:98-127 | no two returned links share a URL |
| LinkParser.DedupUrlsKeepsOrder | link_parser.py:98-127 | the links returned are some of the candidates, in candidate order |
| LinkParser.DedupUrlsCovers | link_parser.py:98-127 | the URLs returned are exactly the candidates' URLs |
| LinkParser.ArrayLinksHaveUrls | link_parser.py:102-104 | every link taken from the array is one of its entries and has a non-empty URL |
| LinkParser.FindPrice | link_parser.py:168-170 | a price found is non-empty and starts with a currency sign |
| LinkParser.Segments | link_parser.py:142 | splitting the tag always gives at least one segment |
| LinkParser.ParseTagLine | link_parser.py:130-179 | the loop's result equals `TagLine` of the tag |
| LinkParser.TagPlainSegments | link_parser.py:172-177 | the first two plain segments are product code and brand; later ones are ignored |
| LinkParser.TagLastSegments | link_parser.py:154-170 | ping, region and action come from the last segment of their kind; the price is the last one found in an action segment |
| LinkParser.TagLastPing | link_parser.py:156-157 | the ping is the last segment starting with `@` |
| LinkParser.TagLastRegion | link_parser.py:160-161 | the region is the last bracketed segment, without its brackets |
| LinkParser.TagLastAction | link_parser.py:164-165 | the action is the last segment mentioning a restock |
| LinkParser.TagLastPrice | link_parser.py:167-170 | the price is the last one found in an action segment |
| LinkParser.TagLineFacts | link_parser.py:130-179 | the result is `{}` exactly for an empty tag; otherwise every field is as above, with `raw` the tag |
| LinkParser.PySliceTo | link_parser.py:199 | for a non-negative bound, the first characters up to that bound |
| LinkParser.Shorten | link_parser.py:182-201 | never empty; text that fits is kept; over-long text becomes `max_length - 3` characters plus "...", exactly `max_length` long; empty text gives "Link" |
| LinkParser.AddEmojiFirstKeyword | link_parser.py:221-238 | the prefix is the emoji of the first key found in the lower-cased text, and the text follows unchanged |
| LinkParser.AddEmojiNoKeyword | link_parser.py:233-238 | without any key in the text, the prefix is the link emoji |
| DedupWindow.ProductCode | verify_deduplication.py:18-25 | a product code found is one of the segments; none is found only when every segment is a ping or a region |
| DedupWindow.FirstPriceIsFirst | verify_deduplication.py:49-55 | the price is the value of the first field whose name mentions a price, else empty |
| DedupWindow.SignatureFromParts | verify_deduplication.py:32-60 | the signature depends only on the retailer, title and price parts |
| DedupWindow.SignatureIgnoresId | verify_deduplication.py:32-60 | two messages that differ only in their id have the same signature |
| DedupWindow.SignerIgnoresIds | verify_deduplication.py:32-60 | every poller's signing function ignores message ids |
| DedupWindow.AcceptedInOrder | verify_deduplication.py:62-78 | the returned messages are an in-order selection of the input |
| DedupWindow.AcceptedSound | verify_deduplication.py:65-77 | a returned message has a non-empty id not examined before and a signature outside the window |
| DedupWindow.AcceptedComplete | verify_deduplication.py:65-77 | a message with a new non-empty id and a signature outside the window is returned |
| DedupWindow.AcceptedDistinctIds | verify_deduplication.py:62-78 | no two returned messages share an id |
| DedupWindow.AcceptedIdsExamined | verify_deduplication.py:62-78 | every returned message's id is recorded as examined |
| DedupWindow.Newest | verify_deduplication.py:84 | the suffix of length min(n, 3) |
| DedupWindow.WindowKeepsShape | verify_deduplication.py:80-85 | the window stays within three distinct signatures and holds the new one |
| DedupWindow.WindowOrder | verify_deduplication.py:80-85 | a new signature goes in as the newest; what stays are the newest of the rest |
| DedupWindow.WindowEvictsOldest | verify_deduplication.py:80-85 | with a full window, a new signature evicts the oldest |
| DedupWindow.DedupPoller.constructor | verify_deduplication.py:27-30 | no ids examined and an empty window |
| DedupWindow.DedupPoller.ContentSignature | verify_deduplication.py:32-60 | the signature returned is `Signature` of the message, with the price found by the first matching field |
| DedupWindow.DedupPoller.FilterMessages | verify_deduplication.py:62-78 | the messages returned are `Accepted`; every non-empty id is recorded; the window is unchanged |
| DedupWindow.DedupPoller.Examine | verify_deduplication.py:65-77 | a message is kept exactly when its id is non-empty and new and its signature is outside the window; its id is recorded whenever non-empty |
| DedupWindow.DedupPoller.UpdateCursor | verify_deduplication.py:80-85 | the window becomes `Window` of the old one and the message's signature; the examined ids are unchanged |
| DedupWindow.PokemonParts | verify_deduplication.py:92-96 | the test's first message signs as "Argos Instore", "Pokémon Box", "£10", whatever its id |
| DedupWindow.ZeldaParts | verify_deduplication.py:106-110 | the third test message signs as "Argos Instore", "Zelda Box", "£50" |
| DedupWindow.ItemParts | verify_deduplication.py:127-128 | the filler items sign with no retailer and price "1" |
| DedupWindow.RunTestFirstCycle | verify_deduplication.py:112-115 | cycle 1: the first message is sent and its signature enters the empty window |
| DedupWindow.TestRawsDistinct | verify_deduplication.py:92-128 | the test's four different messages (the first product, Zelda and the two filler items) have pairwise different raw signatures |
| DedupWindow.TestMessagesSeparate | verify_deduplication.py:92-128 | any digest that is injective on those raw signatures tells the test's messages apart |
| DedupWindow.RunTestEarlyCycles | verify_deduplication.py:117-124 | over the test's own messages and any digest injective on their signatures: cycle 2, the copy with a new id is skipped; cycle 3, a different product is sent |
| DedupWindow.RunTestLateCycles | verify_deduplication.py:130-141 | over the test's own messages and any digest injective on their signatures: cycle 4, two new products push the first signature out; cycle 5, the copy is sent again |
| DedupWindow.CopySkipped | verify_deduplication.py:117-119 | a copy whose signature is in the window is skipped, and its id recorded |
| DedupWindow.CopyAccepted | verify_deduplication.py:134-141 | a copy whose signature has left the window is returned |
| DedupWindow.CycleAccepts | verify_deduplication.py:65-77 | one message with a new id and a new signature is returned and its id recorded |
| DedupWindow.CycleSkips | verify_deduplication.py:65-77 | one message with a recent signature is skipped, and its id recorded |
| PotentialUsers.NeedsReminderIff | test_potential_users.py:54-67 | a reminder is due exactly when 14 whole days have passed since the last reminder, or since first contact when there was none |
| PotentialUsers.DueExactly | test_potential_users.py:54-67 | exactly the prospects that need a reminder are listed, in dictionary order |
| PotentialUsers.TrackedOnce | test_potential_users.py:33-41 | tracking again changes nothing: the first contact time stays |
| PotentialUsers.SubscriptionManager.constructor | test_potential_users.py:24-29 | no users, one code `TESTCODE` worth 30 days, no prospects |
| PotentialUsers.SubscriptionManager.TrackPotentialUser | test_potential_users.py:33-41 | someone neither subscribed nor tracked becomes a prospect seen now; anyone else changes nothing |
| PotentialUsers.SubscriptionManager.RedeemCode | test_potential_users.py:43-52 | true exactly for a known code; it is used up, the user subscribed for 30 days from now and no longer a prospect; an unknown code changes nothing |
| PotentialUsers.SubscriptionManager.PotentialUsersNeedingReminder | test_potential_users.py:54-67 | the result is `Due` of the prospects, in dictionary order |
| PotentialUsers.RunTest | test_potential_users.py:69-94 | after the scenario, user 123 is a subscriber and not a prospect, and user 456, first seen 15 days ago, is due a reminder |
| Archiver.LoggedKeepsNewest | app_old.py:166-170 | the log stays within 50 lines, ends with the new line and keeps the newest lines in order |
| Archiver.CooldownAfterSend | app_old.py:172-174 | after an alert of one kind, the next of that kind waits out the 1800-second cooldown; other kinds are unaffected |
| Archiver.AlertTextHasBody | app_old.py:183 | the alert text carries its body whole, at its end |
| Archiver.FailuresCount | app_old.py:226-234 | after a reset and k failures of a channel its count is k; other channels' counts are untouched |
| Archiver.CleanTextNormal | app_old.py:201-204 | the corrected cleaning gives ASCII text free of NULs, single-spaced, with no space at either end |
| Archiver.CleanTextAsWrittenKeepsSpace | app_old.py:204 | as written, a non-ASCII character, a space and an ASCII character clean to the space and the ASCII character |
| Archiver.CleanTextDropsWord | app_old.py:201-204 | corrected, a non-ASCII character, a space and an ASCII character clean to the ASCII character alone |
| Archiver.CleanTextAsWrittenLeavesSpace | app_old.py:201-204 | as written, "é a" cleans to " a", which is not single-spaced; corrected, it cleans to "a" |
| Archiver.AsciiOnlySample | app_old.py:204 | dropping non-ASCII characters keeps the space between a dropped character and a kept one |
| Archiver.NewIdsFresh | app_old.py:578-584 | the ids a scan adds were not known, are distinct, and each comes from a scanned element |
| Archiver.NewIdsCover | app_old.py:578-584 | every usable element of the scan ends up known |
| Archiver.NewIdsBound | app_old.py:578-584 | a scan adds at most one id per element it reads |
| Archiver.AppendedIds | app_old.py:577-624 | the ids appended before a raise are a prefix of those found: as many as the messages extracted before it, all of them when the upload raises or nothing does |
| Archiver.IdsAfterScan | app_old.py:574-641 | other channels are untouched; after a raise a known channel's list keeps the ids appended so far, because `current_ids` is that list, and an unknown channel gets no list |
| Archiver.UploadFaultForgetsBatch | app_old.py:574-649 | after a failed upload on a known channel, a scan of the same messages finds no new id, so the lost batch is never uploaded |
| Archiver.ScanAddsAtMostTen | app_old.py:578-584 | a scan reads only the newest ten elements, so it adds at most ten ids |
| Archiver.Remembered | app_old.py:638-641 | the stored list holds at most 200 ids, unless nothing was added and it is left as it was |
| Archiver.RememberedKeepsAdded | app_old.py:641 | the stored list ends with what the scan added, when at most 200 were added |
| Archiver.CollectNewIds | app_old.py:572-624 | the loop's batch is `NewIds` of the newest ten elements |
| Archiver.ArchiverState.constructor | app_old.py:495-498 | empty log, counters, times and alert times; the stored ids as loaded |
| Archiver.ArchiverState.Log | app_old.py:166-170 | the log becomes `Logged` of the old log: appended, the oldest line dropped above 50 |
| Archiver.ArchiverState.SendTelegramAlert | app_old.py:176-195 | unconfigured: a note is logged and nothing sent; cooling down: nothing at all; otherwise posted, and a 200 answer is logged and restarts that kind's cooldown |
| Archiver.ArchiverState.TrackChannelError | app_old.py:226-230 | the count goes up by one; from five on, an alert of the channel's own kind is requested |
| Archiver.ArchiverState.TrackChannelSuccess | app_old.py:232-234 | the count is reset to zero and the success time recorded |
| Archiver.ArchiverState.ScanChannel | app_old.py:557-649 | a raise while loading or no message list is a failure that changes no ids; otherwise the found ids are the new ids of the newest ten elements; a raise while extracting or uploading is a failure that uploads nothing and leaves `IdsAfterScan`; without one the found ids are uploaded, the newest 200 are kept when there are any, and the channel counts as a success |
| DailyViews.ViewedAllows | hollowscan_app/context/UserContext.js:85-105 | a product is allowed exactly when already viewed today or the day's list is not full; the list then holds it |
| DailyViews.ViewedKeepsQuota | hollowscan_app/context/UserContext.js:85-105 | the quota rules keep a record within four products and free of repeats |
| DailyViews.ViewedAllQuota | hollowscan_app/context/UserContext.js:68-110 | over a day, the list stays within the quota and holds every product allowed on the way |
| DailyViews.ViewedTwice | hollowscan_app/context/UserContext.js:86-90 | a second view of a product on the same day is allowed and changes nothing |
| DailyViews.NewDayStartsEmpty | hollowscan_app/context/UserContext.js:80-83 | a record from an earlier day does not count against today |
| DailyViews.UserProvider.constructor | hollowscan_app/context/UserContext.js:7-16 | an empty record for today, with the premium flag and the stored record given |
| DailyViews.UserProvider.TrackProductView | hollowscan_app/context/UserContext.js:68-110 | premium passes unlimited; an unreadable record answers allowed with -1; otherwise `Viewed` decides, and a new product is written to both copies |
| DailyViews.UserProvider.GetRemainingViews | hollowscan_app/context/UserContext.js:112-114 | the views left, never negative, zero exactly when the list is full |
| DailyViews.UserProvider.ResetDailyViews | hollowscan_app/context/UserContext.js:125-132 | an empty record for today, in state and in storage |
| SavedList.WithoutId | hollowscan_app/context/SavedContext.js:30 | exactly the products with another id, in order |
| SavedList.ToggleFlips | hollowscan_app/context/SavedContext.js:24-40 | a toggle flips whether the product's id is saved and leaves every other id as it was |
| SavedList.WithoutAbsentId | hollowscan_app/context/SavedContext.js:30 | removing an id no entry has changes nothing |
| SavedList.ToggleTwice | hollowscan_app/context/SavedContext.js:24-40 | toggling an unsaved product twice gives back the original list |
| SavedList.SavedProvider.constructor | hollowscan_app/context/SavedContext.js:13-22 | the stored list when one was read, else empty |
| SavedList.SavedProvider.ToggleSave | hollowscan_app/context/SavedContext.js:24-40 | the state becomes `Toggled` of the old list and is written to storage |
| HomeFeed.RelativeTimeBuckets | hollowscan_app/screens/HomeScreen.js:30-41 | each label counts whole minutes, hours or days of the elapsed time and stays below the next unit; after a week the date |
| HomeFeed.RecentIsJustNow | hollowscan_app/screens/HomeScreen.js:31-36 | a future stamp, or one under a minute old, is "Just now" |
| HomeFeed.TapAll | hollowscan_app/screens/HomeScreen.js:538-545 | the All tap toggles ALL and drops every subcategory, always leaving a well-formed selection |
| HomeFeed.Without | hollowscan_app/screens/HomeScreen.js:589 | exactly the other categories, never longer |
| HomeFeed.TapSubToggles | hollowscan_app/screens/HomeScreen.js:582-595 | a subcategory tap never leaves the selection empty, selects the subcategory exactly when it was not selected or ALL was, and keeps the selection well formed |
| HomeFeed.TapAllTwice | hollowscan_app/screens/HomeScreen.js:538-545 | the All tap keeps the selection well formed and undoes itself from ALL alone |
| HomeFeed.CategoryParam | hollowscan_app/screens/HomeScreen.js:185 | ALL when ALL is selected; else the first selection unless it is missing or empty, then ALL |
| HomeFeed.Feed.constructor | hollowscan_app/screens/HomeScreen.js:65-72 | an empty list at offset 0, more expected, nothing loading |
| HomeFeed.Feed.FetchAlerts | hollowscan_app/screens/HomeScreen.js:182-208 | an arrived page replaces the list on a reset and is appended otherwise, more is expected exactly when it was full; a failed fetch changes nothing |
| HomeFeed.Feed.FetchInitialData | hollowscan_app/screens/HomeScreen.js:142-154 | the offset is 0 and the first page replaces the list |
| HomeFeed.Feed.HandleLoadMore | hollowscan_app/screens/HomeScreen.js:210-216 | nothing happens with nothing more to load or a load under way; otherwise the offset moves on one page and that page is appended |
| HomeFeed.Feed.ReceiveNewProducts | hollowscan_app/screens/HomeScreen.js:122-126 | the new deals go on top of the list |
| HomeFeed.LoadedLength | hollowscan_app/screens/HomeScreen.js:197-215 | while every page is full, after k load-mores the list holds k + 1 pages, each where its offset points |
| CategorySync.CountryOf | final_sync.py:40-48 | the country code is always UK, CA or US |
| CategorySync.MissingCategoryIsUS | final_sync.py:40-48 | a channel without a category is a US one |
| CategorySync.RowFor | final_sync.py:50-61 | a row of the channel's country and name (default "Unknown"), displayed as both, active |
| CategorySync.FirstPerKeyFacts | final_sync.py:52-54 | no two kept rows share a country and name, every pair is kept, and order is kept |
| CategorySync.RowsUnique | final_sync.py:39-61 | no two rows share a pair, every channel's pair is sent, in the channels' order |
| CategorySync.FirstWins | final_sync.py:52-54 | the first channel with a given pair is the one whose row is sent |
| CategorySync.RowsFrom | final_sync.py:39-61 | every row sent is the row of some channel |
| CategorySync.BuildRows | final_sync.py:36-61 | the loop's rows are `Rows` of the channels |
| CategorySync.Batches | final_sync.py:72-73 | consecutive slices of at most fifty that cover the rows once, in order |
| CategorySync.Sync | final_sync.py:36-82 | no rows means no requests; otherwise the batches of the rows are posted in order, and posting stops after the first request that raises |
| CategorySync.Post | final_sync.py:70-82 | the batches posted are a prefix of all of them: every one is posted until a request raises, and that request's batch is the last one posted |
| ImageUrl.ProxyMatch | test_image_optimization.py:10 | a match yields the protocol `http` or `https` and a rest without a line break |
| ImageUrl.DecodeProxyPath | test_image_optimization.py:9-14 | a proxy link `…/external/<token>/<protocol>/<rest>` decodes to `<protocol>://<rest>`, for `https` and `http` alike |
| ImageUrl.StripSizeTokens | test_image_optimization.py:19 | collapsing the size tokens never lengthens the link |
| ImageUrl.SizeTokenCollapses | test_image_optimization.py:19 | a size token `._<letters or underscores><digits>_.` becomes one dot, and the rest of the link is rewritten on its own |
| ImageUrl.OptimizeAmazon | test_image_optimization.py:18-23 | size tokens collapsed and everything from the first `?` dropped: no `?` remains |
| ImageUrl.NoSizeTokenUnchanged | test_image_optimization.py:18-23 | a link without a size token loses only its query string |
| ImageUrl.EbayTokenEnd | test_image_optimization.py:28-29 | a token starts with `s` and spans at least five characters of the text |
| ImageUrl.RewriteEbayFull | test_image_optimization.py:27-31 | after the eBay rewrite every size token in the link is `s-l1600.` |
| ImageUrl.OptimizeImageUrlCases | test_image_optimization.py:5-33 | an Amazon link comes back without a query string, an eBay link asks only for full size, any other link is returned as decoded |
| ImageUrl.EmptyUnchanged | test_image_optimization.py:6 | an empty link is returned untouched |
| EnvFile.ParseLineSkips | inspect_latest_message.py:13-16 | blank lines, comments and lines without `=` set nothing; every other line sets a variable |
| EnvFile.ParseLineKey | inspect_latest_message.py:17-18 | the key is the trimmed text before the first `=` and holds no `=` |
| EnvFile.ParseSplit | inspect_latest_message.py:17-18 | a line whose first `=` is at i sets the stripped text before it to the value read after it |
| EnvFile.AssignmentTrimmed | inspect_latest_message.py:13-18 | a line made of a trimmed key, `=` and a value ending in no whitespace is itself trimmed and starts with the key |
| EnvFile.ValueOfBare | inspect_latest_message.py:18 | a bare plain value is read as written |
| EnvFile.ValueOfSingle | inspect_latest_message.py:18 | a plain value in single quotes is read without them |
| EnvFile.ValueOfDouble | inspect_latest_message.py:18 | a plain value in double quotes is read without them |
| EnvFile.ParseAssignment | inspect_latest_message.py:13-18 | a line `key=value`, bare or quoted, sets exactly that key to that value |
| EnvFile.Entries | inspect_latest_message.py:12-18 | one entry per line, in order |
| EnvFile.LoadUntouched | inspect_latest_message.py:12-18 | a variable no entry names keeps its value or its absence |
| EnvFile.LoadLastWins | inspect_latest_message.py:12-18 | the last entry naming a key decides its value |
| EnvFile.LoadStops | inspect_latest_message.py:18 | once an assignment is refused, nothing after it is read |
| EnvFile.Environment.constructor | inspect_latest_message.py:6-9 | the environment as given, before any loading |
| EnvFile.Environment.LoadEnvManual | inspect_latest_message.py:6-18 | no file sets nothing; otherwise the variables become `Load` of the file's entries |
| EnvFile.FirstWithPictures | inspect_latest_message.py:55-79 | the index of the first message whose embed has images, a thumbnail or an image, and no earlier one has |
| EnvFile.InspectLatest | inspect_latest_message.py:25-82 | missing credentials, an HTTP error or no messages stop early; otherwise the first message with pictures is reported, or that none has |
| EnvFile.ReportedIsNewest | inspect_latest_message.py:37-79 | in newest-first order, the message reported is at least as new as every message with pictures |

## Left out

- I/O of every kind is left out: HTTP requests, Supabase storage, files, Socket.IO events, Telegram calls and the browser automation. Their answers are parameters: a status, rows, a raised error or a stored blob.
- The React state setters' asynchrony and re-renders are left out. Each handler is modelled as running to completion on the state it read.
- `telegram_bot_old.py`'s threading lock is left out, and so are the event loop and `asyncio.sleep` pacing of both Python programs. No concurrency is modelled.
- MD5, `secrets.token_hex` and the archiver's content hash are left out. They are function or token parameters. DedupWindow assumes only that the hash tells apart the signatures the test uses.
- Python's `str.lower`/`upper` and `\d`/`\s` are modelled on ASCII plus Python's whitespace set. Every keyword and pattern the code looks for is ASCII.
- ISO timestamp formatting and parsing is left out. Times are integers, and an unparsable expiry is not modelled.
- Poller.MessagePoller.SaveCursor: Python's set iteration order is not modelled. The contract says only which hashes may be kept and how many.
- DedupWindow.DedupPoller.ContentSignature: the fallback signature after an exception is not modelled. A JSON `null` field value counts as missing, not as the text "None".
- Broadcast: the logging of `broadcast_job` (counts of skipped and blocked users, the error classification at lines 978-988) is left out, because it changes no state. The log of events records calls, answers and give-ups.
- Broadcast: what `format_telegram_message` writes as the HTML text is not modelled beyond `clean_text`, the images and the keyboard. The message is formatted or fails, as a parameter.
- The button captions' mojibake emoji in `telegram_bot_old.py` are modelled as the emoji they evidently stand for. Captions are not part of any contract.
- Archiver: the browser scraping around the scan loop is left out: screenshots, author and embed extraction and the upload call. So are the log lines of the scan, including the one its `except` branch writes.
- Archiver.ArchiverState.ScanChannel: a message id is the raw attribute with its prefixes removed. The `int`/`hash` conversion of the stored record is not modelled. Where the scan raises is a parameter (`ScanFault`). The model collects every new id first and applies the raise afterwards, which leaves the same state as raising inside the loop.
- CategorySync.Sync: the early returns for a missing config or channel file and the per-batch status printing are left out. The model starts from the channel list and ends at the batches posted. Whether each request raises is a parameter; a non-success status is only printed, so it does not stop the loop and is not modelled.
- CategorySync.CountryOf: a JSON `null` category makes `.upper()` raise at final_sync.py:40 and ends the run. The model reads it as the default "US Stores".
- CategorySync.RowFor: a JSON `null` name is sent as `null`, with display name "<country> None" (for example "UK None"). The model reads it as the default "Unknown".
- EnvFile.InspectLatest: the printed report and the JSON dump of the embed are left out. The result says which message is reported.
- EnvFile.LoadEnvManual: `putenv` refusals are modelled for an empty name and NUL characters only, and a refusal ends the reading. Platform-specific refusals are not modelled.
- HomeFeed: layout, navigation, notifications, region and category fetching, and the live-update service's polling are left out. `fetchUserStatus` is left out too.
- SavedList and DailyViews: a JSON parse failure on load is the "unreadable" case. Storage write failures, which the handlers swallow, are not modelled.
- The duplicate copies of `extract_markdown_links`, `categorize_links`, `add_emoji_to_link_text` and `parse_tag_line` in `telegram_bot_old.py` and `app_old.py` are modelled once in LinkParser. Two of the bot's copies differ from `link_parser.py`, and the differences are not modelled. Its `parse_tag_line` price class (telegram_bot_old.py:151) is garbled: it lacks the euro sign and matches four stray characters. The bot never reads the price it yields. Its `add_emoji_to_link_text` (telegram_bot_old.py:114-127) has garbled emoji and is never called.
- TelegramFormat.GroupOf: a JSON `null` link `text` or `field` makes `.lower()` raise at telegram_bot_old.py:541 or 544. The model reads it as empty.
- DedupWindow.Retailer: an empty author object `{}` is false in Python, so verify_deduplication.py:39 falls through to the Argos check. The model's author record cannot tell `{}` from an author with no name, and gives "".
- TelegramFormat.MatchEnd: each pattern is matched by a greedy scan without backtracking. Every repetition in the three patterns is followed by a character it cannot consume (a digit is never a colon, a space never a bar), so the scan finds a match exactly where Python's backtracking does; `TimeEndIff` covers both hour lengths. Python's Unicode `\d` and `\s` are narrowed to ASCII, as the line on `str.lower` says.

## Findings

| source | as written | input that shows it | evidently intended | confidence | as-written member | corrected member |
|---|---|---|---|---|---|---|
| telegram_bot_old.py:650-660, 881, 994-996 | `raw.get("embed", {})` returns `None` for a stored `"embed": null`, so `embed.get` raises unless the author name names Profitable Pinger; the error escapes the comprehension and the cycle sends nothing, after the poll has already moved the cursor | a page of a plain message (embed `null`, as the archiver stores it) and an embed alert, with one active user | a `null` embed read as no embed, so both alerts are relayed | not executed | Broadcast.NullEmbedLosesCycle | TelegramFormat.IsDuplicateSourceIff |
| app_old.py:201-204 | `clean_text` joins the words with single spaces first, then drops non-ASCII characters, so a dropped word leaves its space behind | "é a" cleans to " a" (and "a é b" to "a  b") | text that is ASCII, single-spaced and trimmed | not executed | Archiver.CleanTextAsWrittenLeavesSpace | Archiver.CleanTextNormal |
