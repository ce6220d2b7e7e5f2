/**
 * app_old.py, the archiver's own bookkeeping: the bounded log buffer, the
 * per-channel error counter and its alert, the cooldown between alerts of
 * one kind, the text cleaner, and the window of message ids each channel
 * scan remembers. Times are whole seconds; the browser, the socket and the
 * HTTP call are not part of this model: the outcome of the alert request
 * and the ids read from the page are inputs.
 */
module Archiver {
  import opened Wrappers
  import opened Text
  import opened Seqs

  /** At most this many log lines are kept. */
  const LogLimit: nat := 50
  /** Consecutive failures of a channel before an alert is raised. */
  const ErrorThreshold: int := 5
  /** Seconds between two alerts of the same kind. */
  const AlertCooldown: int := 1800
  /** Only this many of the newest message elements are looked at per scan. */
  const ScanWindow: nat := 10
  /** At most this many ids are remembered per channel. */
  const RememberedIds: nat := 200

  // ---------------------------------------------------------------------
  // The log buffer

  /** The buffer after `log(message)`: appended, and the oldest line dropped when over the limit. */
  function Logged(logs: seq<string>, message: string): seq<string> {
    var grown := logs + [message];
    if |grown| > LogLimit then grown[1..] else grown
  }

  /** A buffer within the limit stays within it, ends with the new line, and keeps the newest lines in order. */
  lemma LoggedKeepsNewest(logs: seq<string>, message: string)
    requires |logs| <= LogLimit
    ensures |Logged(logs, message)| <= LogLimit
    ensures Logged(logs, message)[|Logged(logs, message)| - 1] == message
    ensures Logged(logs, message) == (logs + [message])[|logs| + 1 - |Logged(logs, message)|..]
    ensures |Logged(logs, message)| == if |logs| < LogLimit then |logs| + 1 else LogLimit
  {
  }

  // ---------------------------------------------------------------------
  // Alert cooldown

  /** `should_send_alert`: more than the cooldown since the last alert of that kind, never-sent counting as time 0. */
  predicate ShouldSend(lastAlert: map<string, int>, alertType: string, now: int) {
    now - (if alertType in lastAlert then lastAlert[alertType] else 0) > AlertCooldown
  }

  /** After an alert of one kind goes out, the next of that kind waits out the cooldown; other kinds are unaffected. */
  lemma CooldownAfterSend(lastAlert: map<string, int>, alertType: string, sentAt: int, other: string, later: int)
    ensures ShouldSend(lastAlert[alertType := sentAt], alertType, later) <==> later > sentAt + AlertCooldown
    ensures other != alertType ==> (ShouldSend(lastAlert[alertType := sentAt], other, later) <==> ShouldSend(lastAlert, other, later))
  {
  }

  /** The HTML message an alert posts to the admin chat. */
  function AlertText(subject: string, body: string): string {
    "⚠️ <b>ARCHIVER ALERT: " + subject + "</b>\n\n" + body
  }

  /** The alert carries its body whole, at its end. */
  lemma AlertTextHasBody(subject: string, body: string)
    ensures Contains(AlertText(subject, body), body)
    ensures EndsWith(AlertText(subject, body), body)
  {
    var t := AlertText(subject, body);
    assert OccursAt(t, body, |t| - |body|) by { assert t[|t| - |body|..] == body; }
  }

  /** How the Telegram request of an alert ends: no token or admin configured, an exception, or a status code. */
  datatype Transport = Unconfigured | Raised(error: string) | Status(code: int)

  // ---------------------------------------------------------------------
  // Channel error counting

  function ErrorCount(counts: map<string, int>, channel: string): int {
    if channel in counts then counts[channel] else 0
  }

  /** The counters after `k` failures in a row of `channel`. */
  function Failures(counts: map<string, int>, channel: string, k: nat): map<string, int> {
    if k == 0 then counts
    else
      var before := Failures(counts, channel, k - 1);
      before[channel := ErrorCount(before, channel) + 1]
  }

  /** After a success and `k` failures, the count is `k`: the alert is requested from the fifth failure on, and only for that channel. */
  lemma {:induction false} FailuresCount(counts: map<string, int>, channel: string, k: nat, other: string)
    ensures ErrorCount(Failures(counts[channel := 0], channel, k), channel) == k
    ensures other != channel ==> ErrorCount(Failures(counts, channel, k), other) == ErrorCount(counts, other)
  {
    if k > 0 {
      FailuresCount(counts, channel, k - 1, other);
    }
  }

  // ---------------------------------------------------------------------
  // clean_text

  /** The characters of `s` that are not `c`, as `s.replace(c, '')`. */
  function Drop(s: string, c: char): (r: string)
    ensures c !in r
    ensures forall x :: x in r ==> x in s
  {
    if s == [] then [] else (if s[0] == c then [] else [s[0]]) + Drop(s[1..], c)
  }

  /** The ASCII characters of `s`, as `.encode('ascii', 'ignore').decode('ascii')`. */
  function AsciiOnly(s: string): (r: string)
    ensures forall x :: x in r ==> IsAscii(x) && x in s
    ensures |r| <= |s|
  {
    if s == [] then [] else (if IsAscii(s[0]) then [s[0]] else []) + AsciiOnly(s[1..])
  }

  /** `clean_text` as written: whitespace is collapsed first, and non-ASCII characters dropped afterwards. */
  function CleanTextAsWritten(text: string): string {
    if text == "" then "" else AsciiOnly(Join(Words(Drop(text, '\0')), " "))
  }

  /** Words joined by single spaces: no whitespace but single inner spaces. */
  predicate SingleSpaced(s: string) {
    forall i :: 0 <= i < |s| && IsSpace(s[i]) ==> s[i] == ' ' && 0 < i < |s| - 1 && !IsSpace(s[i + 1])
  }

  /** A word followed by one space does not start with whitespace. */
  lemma {:induction false} JoinedWords(ws: seq<string>)
    requires forall k :: 0 <= k < |ws| ==> IsWord(ws[k])
    ensures SingleSpaced(Join(ws, " "))
    ensures ws != [] ==> Join(ws, " ") != [] && !IsSpace(Join(ws, " ")[0])
    ensures forall x :: x in Join(ws, " ") ==> x == ' ' || exists k :: 0 <= k < |ws| && x in ws[k]
  {
    if |ws| > 1 {
      var w := ws[0];
      var rest := Join(ws[1..], " ");
      JoinedWords(ws[1..]);
      var s := Join(ws, " ");
      assert s == w + " " + rest;
      forall i | 0 <= i < |s| && IsSpace(s[i]) ensures s[i] == ' ' && 0 < i < |s| - 1 && !IsSpace(s[i + 1]) {
        if i > |w| {
          assert s[i] == rest[i - |w| - 1];
          if i + 1 < |s| {
            assert s[i + 1] == rest[i - |w|];
          }
        } else if i == |w| {
          assert s[i + 1] == rest[0];
        }
      }
      forall x | x in s ensures x == ' ' || exists k :: 0 <= k < |ws| && x in ws[k] {
        if x in w {
          assert x in ws[0];
        } else if x in rest && x != ' ' {
          var k :| 0 <= k < |ws[1..]| && x in ws[1..][k];
          assert x in ws[k + 1];
        }
      }
    } else if |ws| == 1 {
      assert Join(ws, " ") == ws[0];
    }
  }

  /** The words of a string consist of its non-whitespace characters. */
  lemma {:induction false} WordsChars(s: string)
    ensures forall k, x :: 0 <= k < |Words(s)| && x in Words(s)[k] ==> x in s
    decreases |s|
  {
    var t := TrimLeft(s);
    if t != [] {
      var w := TakeWord(t);
      assert w != [] by { assert !IsSpace(t[0]); }
      WordsChars(t[|w|..]);
      forall k, x | 0 <= k < |Words(s)| && x in Words(s)[k] ensures x in s {
        if k == 0 {
          assert x in t;
        } else {
          assert Words(s)[k] == Words(t[|w|..])[k - 1];
          assert x in t[|w|..];
        }
      }
    }
  }

  /** `clean_text` as evidently intended: NULs and non-ASCII characters dropped, then whitespace collapsed. */
  function CleanText(text: string): string {
    if text == "" then "" else Join(Words(AsciiOnly(Drop(text, '\0'))), " ")
  }

  /** The cleaned text is ASCII, free of NULs, and single-spaced with no space at either end. */
  lemma CleanTextNormal(text: string)
    ensures SingleSpaced(CleanText(text))
    ensures forall x :: x in CleanText(text) ==> IsAscii(x) && x != '\0'
  {
    if text != "" {
      var a := AsciiOnly(Drop(text, '\0'));
      JoinedWords(Words(a));
      WordsChars(a);
    }
  }

  /** `split()` of a string starting with a word: that word, then the split of the rest. */
  lemma WordsStartingWithWord(s: string)
    requires s != [] && !IsSpace(s[0])
    ensures Words(s) == [TakeWord(s)] + Words(s[|TakeWord(s)|..])
  {
    assert TrimLeft(s) == s;
  }

  /** `split()` ignores a leading space. */
  lemma WordsAfterSpace(s: string)
    requires s != [] && IsSpace(s[0])
    ensures Words(s) == Words(s[1..])
  {
    assert TrimLeft(s) == TrimLeft(s[1..]);
  }

  lemma WordsOfWord(a: char)
    requires !IsSpace(a)
    ensures Words([a]) == [[a]]
  {
    WordsStartingWithWord([a]);
    assert TakeWord([a]) == [a] by { assert TakeWord([a][1..]) == []; }
    assert [a][1..] == [];
  }

  /** A word ends at the first whitespace. */
  lemma TakeWordOfSingle(c: char, rest: string)
    requires !IsSpace(c) && rest != [] && IsSpace(rest[0])
    ensures TakeWord([c] + rest) == [c]
  {
    assert ([c] + rest)[1..] == rest;
    assert TakeWord(rest) == [];
  }

  lemma WordsOfSpaced(a: char)
    requires !IsSpace(a)
    ensures Words([' ', a]) == [[a]]
  {
    WordsAfterSpace([' ', a]);
    assert [' ', a][1..] == [a];
    WordsOfWord(a);
  }

  lemma WordsOfPair(c: char, a: char)
    requires !IsSpace(c) && !IsSpace(a)
    ensures Words([c, ' ', a]) == [[c], [a]]
  {
    var s := [c, ' ', a];
    TakeWordOfPair(c, a);
    WordsOfSpaced(a);
    WordsCons(s, [c], [' ', a], [[a]]);
  }

  lemma TakeWordOfPair(c: char, a: char)
    requires !IsSpace(c)
    ensures TakeWord([c, ' ', a]) == [c] && [c, ' ', a][1..] == [' ', a]
  {
    TakeWordOfSingle(c, [' ', a]);
    assert [c] + [' ', a] == [c, ' ', a];
  }

  /** `split()` of a text that starts with the word `w`, followed by `rest`. */
  lemma WordsCons(s: string, w: string, rest: string, ws: seq<string>)
    requires s != [] && !IsSpace(s[0]) && TakeWord(s) == w && s[|w|..] == rest && Words(rest) == ws
    ensures Words(s) == [w] + ws
  {
    WordsStartingWithWord(s);
  }

  lemma {:induction false} DropAbsent(s: string, c: char)
    requires c !in s
    ensures Drop(s, c) == s
  {
    if s != [] {
      DropAbsent(s[1..], c);
    }
  }

  lemma JoinPair(x: string, y: string, sep: string)
    ensures Join([x, y], sep) == x + sep + y
  {
    assert [x, y][1..] == [y];
  }

  lemma AsciiOnlySample(c: char, a: char)
    requires !IsAscii(c) && IsAscii(a)
    ensures AsciiOnly([c, ' ', a]) == [' ', a]
  {
    var s := [c, ' ', a];
    assert [a][1..] == [];
    assert AsciiOnly([a]) == [a] + AsciiOnly([]);
    assert [' ', a][1..] == [a];
    assert AsciiOnly([' ', a]) == [' '] + AsciiOnly([a]);
    assert s[1..] == [' ', a];
    assert AsciiOnly(s) == AsciiOnly(s[1..]);
  }

  /** As written, a non-ASCII word followed by an ASCII one leaves the separating space behind. */
  lemma CleanTextAsWrittenKeepsSpace(c: char, a: char)
    requires !IsSpace(c) && !IsSpace(a) && !IsAscii(c) && IsAscii(a) && a != '\0' && c != '\0'
    ensures CleanTextAsWritten([c, ' ', a]) == [' ', a]
  {
    var s := [c, ' ', a];
    DropAbsent(s, '\0');
    WordsOfPair(c, a);
    JoinPairSpaced(c, a);
    AsWrittenSteps(s, s, [[c], [a]], s);
    AsciiOnlySample(c, a);
  }

  /** `clean_text` as written, one stage at a time. */
  lemma AsWrittenSteps(text: string, dropped: string, words: seq<string>, joined: string)
    requires text != "" && Drop(text, '\0') == dropped && Words(dropped) == words && Join(words, " ") == joined
    ensures CleanTextAsWritten(text) == AsciiOnly(joined)
  {
  }

  lemma JoinPairSpaced(c: char, a: char)
    ensures Join([[c], [a]], " ") == [c, ' ', a]
  {
    JoinPair([c], [a], " ");
    assert [c] + " " + [a] == [c, ' ', a];
  }

  /** Dropping non-ASCII characters first leaves just the ASCII word. */
  lemma CleanTextDropsWord(c: char, a: char)
    requires !IsSpace(c) && !IsSpace(a) && !IsAscii(c) && IsAscii(a) && a != '\0' && c != '\0'
    ensures CleanText([c, ' ', a]) == [a]
  {
    var s := [c, ' ', a];
    DropAbsent(s, '\0');
    AsciiOnlySample(c, a);
    WordsOfSpaced(a);
    assert Join([[a]], " ") == [a];
  }

  /** As written, "é a" becomes " a": a space is left at the front. */
  lemma CleanTextAsWrittenLeavesSpace()
    ensures CleanTextAsWritten("é a") == " a"
    ensures !SingleSpaced(CleanTextAsWritten("é a"))
    ensures CleanText("é a") == "a"
  {
    CleanTextAsWrittenKeepsSpace('é', 'a');
    CleanTextDropsWord('é', 'a');
    assert IsSpace(" a"[0]);
  }

  // ---------------------------------------------------------------------
  // The scan window

  /** The id read from a message element: `chat-messages-` and then `message-` removed. */
  const ChatMessagesPrefix := "chat-messages-"
  const MessagePrefix := "message-"

  function MessageId(raw: string): string {
    ReplaceAll(ReplaceAll(raw, ChatMessagesPrefix, ""), MessagePrefix, "")
  }

  /** Whether an element's id attribute is usable: present and not empty. */
  predicate HasRawId(raw: Option<string>) {
    Truthy(raw)
  }

  /** The ids a scan of `raws` adds to those already `known`: new ones, each once, in page order. */
  function NewIds(raws: seq<Option<string>>, known: seq<string>): seq<string> {
    if raws == [] then []
    else
      var prev := NewIds(raws[..|raws| - 1], known);
      var raw := raws[|raws| - 1];
      prev + if HasRawId(raw) && MessageId(raw.value) !in known + prev then [MessageId(raw.value)] else []
  }

  lemma NewIdsStep(raws: seq<Option<string>>, raw: Option<string>, known: seq<string>)
    ensures NewIds(raws + [raw], known) == NewIds(raws, known)
      + if HasRawId(raw) && MessageId(raw.value) !in known + NewIds(raws, known) then [MessageId(raw.value)] else []
  {
    assert (raws + [raw])[..|raws|] == raws;
  }

  lemma NewIdsNext(raws: seq<Option<string>>, start: nat, i: nat, known: seq<string>)
    requires start <= i < |raws|
    ensures var prev := NewIds(raws[start..i], known);
      NewIds(raws[start..i + 1], known) == prev
        + if HasRawId(raws[i]) && MessageId(raws[i].value) !in known + prev then [MessageId(raws[i].value)] else []
  {
    assert raws[start..i + 1] == raws[start..i] + [raws[i]];
    NewIdsStep(raws[start..i], raws[i], known);
  }

  /** The added ids are new, distinct, and each comes from one of the scanned elements. */
  lemma {:induction false} NewIdsFresh(raws: seq<Option<string>>, known: seq<string>)
    ensures NoDuplicates(NewIds(raws, known))
    ensures forall x :: x in NewIds(raws, known) ==> x !in known
    ensures forall x :: x in NewIds(raws, known) ==> exists k :: 0 <= k < |raws| && HasRawId(raws[k]) && x == MessageId(raws[k].value)
  {
    if raws != [] {
      var init := raws[..|raws| - 1];
      var raw := raws[|raws| - 1];
      NewIdsFresh(init, known);
      var prev := NewIds(init, known);
      var r := NewIds(raws, known);
      forall i, j | 0 <= i < j < |r| ensures r[i] != r[j] {
        if j == |prev| {
          assert r[i] in prev;
        }
      }
      forall x | x in r ensures exists k :: 0 <= k < |raws| && HasRawId(raws[k]) && x == MessageId(raws[k].value) {
        if x in prev {
          var k :| 0 <= k < |init| && HasRawId(init[k]) && x == MessageId(init[k].value);
          assert raws[k] == init[k];
        } else {
          assert HasRawId(raws[|raws| - 1]);
        }
      }
    }
  }

  /** Every usable element of the scan ends up known. */
  lemma {:induction false} NewIdsCover(raws: seq<Option<string>>, known: seq<string>, k: nat)
    requires k < |raws| && HasRawId(raws[k])
    ensures MessageId(raws[k].value) in known + NewIds(raws, known)
  {
    var init := raws[..|raws| - 1];
    if k < |raws| - 1 {
      NewIdsCover(init, known, k);
      assert raws[k] == init[k];
    }
  }

  /** The first element a scan looks at: only the newest ten. */
  function ScanStart(count: nat): nat {
    if count > ScanWindow then count - ScanWindow else 0
  }

  /** The stored id list after a scan that found `added`: unchanged when nothing was added, else the newest 200. */
  function Remembered(known: seq<string>, added: seq<string>): (r: seq<string>)
    ensures |r| <= RememberedIds || (added == [] && r == known)
  {
    if added == [] then known
    else
      var all := known + added;
      if |all| > RememberedIds then all[|all| - RememberedIds..] else all
  }

  /** The stored list ends with what a scan added, once at most 200 ids were added. */
  lemma RememberedKeepsAdded(known: seq<string>, added: seq<string>)
    requires |added| <= RememberedIds
    ensures |Remembered(known, added)| >= |added|
    ensures Remembered(known, added)[|Remembered(known, added)| - |added|..] == added
  {
    var r := Remembered(known, added);
    if added != [] {
      var all := known + added;
      assert all[|all| - |added|..] == added;
    }
  }

  /** A scan adds at most one id per element it reads. */
  lemma {:induction false} NewIdsBound(raws: seq<Option<string>>, known: seq<string>)
    ensures |NewIds(raws, known)| <= |raws|
  {
    if raws != [] {
      NewIdsBound(raws[..|raws| - 1], known);
    }
  }

  /** A scan reads the newest ten elements, so it adds at most ten ids. */
  lemma ScanAddsAtMostTen(raws: seq<Option<string>>, known: seq<string>)
    ensures |NewIds(raws[ScanStart(|raws|)..], known)| <= ScanWindow
  {
    NewIdsBound(raws[ScanStart(|raws|)..], known);
  }

  /** A scan over elements whose ids are all known already adds nothing. */
  lemma {:induction false} NewIdsNoneNew(raws: seq<Option<string>>, known: seq<string>)
    requires forall k :: 0 <= k < |raws| && HasRawId(raws[k]) ==> MessageId(raws[k].value) in known
    ensures NewIds(raws, known) == []
  {
    if raws != [] {
      var init := raws[..|raws| - 1];
      forall k | 0 <= k < |init| && HasRawId(init[k]) ensures MessageId(init[k].value) in known {
        assert init[k] == raws[k];
      }
      NewIdsNoneNew(init, known);
    }
  }

  /**
   * Where the body of the scan loop's `try` raises, if anywhere: loading
   * the channel (`page.goto` or the wait for its messages), extracting the
   * new message at index `at` of the batch, or uploading the batch.
   */
  datatype ScanFault = NoFault | LoadFault(error: string) | ExtractFault(at: nat, error: string) | UploadFault(error: string)

  /** Whether a scan that finds the new ids `found` raises: an extraction only when it reaches that message, an upload only when there is a batch. */
  predicate ScanRaises(fault: ScanFault, found: seq<string>) {
    match fault
    case NoFault => false
    case LoadFault(_) => true
    case ExtractFault(at, _) => at < |found|
    case UploadFault(_) => found != []
  }

  /** The ids `current_ids.append` has added when the scan ends or raises: those before the message whose extraction raises. */
  function AppendedIds(fault: ScanFault, found: seq<string>): (r: seq<string>)
    ensures r <= found
    ensures !ScanRaises(fault, found) ==> r == found
    ensures fault.ExtractFault? && ScanRaises(fault, found) ==> |r| == fault.at
    ensures fault.UploadFault? ==> r == found
  {
    match fault
    case LoadFault(_) => []
    case ExtractFault(at, _) => if at < |found| then found[..at] else found
    case _ => found
  }

  /**
   * `last_ids` after one channel's scan found the new ids `found`. A scan
   * that does not raise stores the newest 200 ids when it found any. When
   * it raises, a known channel's list keeps the ids appended so far,
   * because `current_ids` is that very list; an unknown channel's list was
   * a fresh one and is dropped.
   */
  function IdsAfterScan(lastIds: map<string, seq<string>>, channel: string, fault: ScanFault, found: seq<string>): (r: map<string, seq<string>>)
    ensures forall c :: c != channel ==> (c in r <==> c in lastIds) && (c in r ==> r[c] == lastIds[c])
    ensures channel in r <==> channel in lastIds || (!ScanRaises(fault, found) && found != [])
    ensures ScanRaises(fault, found) && channel in lastIds ==> r[channel] == lastIds[channel] + AppendedIds(fault, found)
  {
    var known := if channel in lastIds then lastIds[channel] else [];
    if !ScanRaises(fault, found) then
      if found == [] then lastIds else lastIds[channel := Remembered(known, found)]
    else if channel in lastIds then lastIds[channel := known + AppendedIds(fault, found)]
    else lastIds
  }

  /**
   * A failed upload of a known channel's batch leaves the batch's ids in
   * memory: a later scan of the same messages finds nothing new, so that
   * batch is never uploaded.
   */
  lemma UploadFaultForgetsBatch(lastIds: map<string, seq<string>>, channel: string, raws: seq<Option<string>>, error: string)
    requires channel in lastIds
    ensures var window := raws[ScanStart(|raws|)..];
      var found := NewIds(window, lastIds[channel]);
      var after := IdsAfterScan(lastIds, channel, UploadFault(error), found);
      channel in after && NewIds(window, after[channel]) == []
  {
    var window := raws[ScanStart(|raws|)..];
    var known := lastIds[channel];
    var found := NewIds(window, known);
    var after := IdsAfterScan(lastIds, channel, UploadFault(error), found);
    assert after[channel] == known + found;
    forall k | 0 <= k < |window| && HasRawId(window[k]) ensures MessageId(window[k].value) in known + found {
      NewIdsCover(window, known, k);
    }
    NewIdsNoneNew(window, known + found);
  }

  /** The loop over one channel's newest elements: the ids not yet known, in page order. */
  method CollectNewIds(raws: seq<Option<string>>, known: seq<string>) returns (batch: seq<string>)
    ensures batch == NewIds(raws[ScanStart(|raws|)..], known)
  {
    var start := ScanStart(|raws|);
    var current := known;
    batch := [];
    for i := start to |raws|
      invariant batch == NewIds(raws[start..i], known)
      invariant current == known + batch
    {
      var raw := raws[i];
      NewIdsNext(raws, start, i, known);
      if HasRawId(raw) {
        var msgId := MessageId(raw.value);
        if msgId !in current {
          batch := batch + [msgId];
          current := current + [msgId];
        }
      }
    }
    NewIdsAll(raws, start);
  }

  lemma NewIdsAll(raws: seq<Option<string>>, start: nat)
    requires start <= |raws|
    ensures raws[start..|raws|] == raws[start..]
  {
  }

  // ---------------------------------------------------------------------
  // The archiver state

  class ArchiverState {
    var logs: seq<string>
    var errorCounts: map<string, int>
    var lastSuccessTime: map<string, int>
    var lastAlertTime: map<string, int>
    /** `last_ids`: per channel, the message ids already uploaded. */
    var lastIds: map<string, seq<string>>

    ghost predicate Valid()
      reads this
    {
      |logs| <= LogLimit
    }

    constructor (storedIds: map<string, seq<string>>)
      ensures Valid()
      ensures logs == [] && errorCounts == map[] && lastSuccessTime == map[] && lastAlertTime == map[]
      ensures lastIds == storedIds
    {
      logs := [];
      errorCounts := map[];
      lastSuccessTime := map[];
      lastAlertTime := map[];
      lastIds := storedIds;
    }

    /** `log`: append, then drop the oldest line when there are more than 50. */
    method Log(message: string)
      requires Valid()
      modifies this
      ensures Valid()
      ensures logs == Logged(old(logs), message)
      ensures errorCounts == old(errorCounts) && lastSuccessTime == old(lastSuccessTime)
      ensures lastAlertTime == old(lastAlertTime) && lastIds == old(lastIds)
    {
      logs := logs + [message];
      if |logs| > LogLimit {
        logs := logs[1..];
      }
    }

    /** `should_send_alert`. */
    predicate ShouldSendAlert(alertType: string, now: int)
      reads this
    {
      ShouldSend(lastAlertTime, alertType, now)
    }

    /**
     * `send_telegram_alert`: without a token nothing is sent and a note is
     * logged; a kind still cooling down is dropped silently; otherwise the
     * request goes out (`posted`), and a 200 answer is logged and restarts
     * the cooldown of its kind.
     */
    method SendTelegramAlert(subject: string, body: string, alertType: Option<string>, transport: Transport, now: int)
      returns (posted: bool, request: string)
      requires Valid()
      modifies this
      ensures Valid()
      ensures posted <==> !transport.Unconfigured? && !(Truthy(alertType) && !old(ShouldSendAlert(alertType.value, now)))
      ensures posted ==> request == AlertText(subject, body) && Contains(request, body)
      ensures transport.Unconfigured? ==> logs == Logged(old(logs), "📧 Alert: " + subject + " (Telegram not configured)")
      ensures posted && transport.Status? && transport.code == 200 ==>
        && logs == Logged(old(logs), "✅ Alert sent: " + subject)
        && lastAlertTime == if Truthy(alertType) then old(lastAlertTime)[alertType.value := now] else old(lastAlertTime)
      ensures posted && transport.Raised? ==> logs == Logged(old(logs), "❌ Alert error: " + transport.error)
      ensures !(posted && transport.Status? && transport.code == 200) ==> lastAlertTime == old(lastAlertTime)
      ensures !posted && !transport.Unconfigured? ==> logs == old(logs)
      ensures posted && transport.Status? && transport.code != 200 ==> logs == old(logs)
      ensures errorCounts == old(errorCounts) && lastSuccessTime == old(lastSuccessTime) && lastIds == old(lastIds)
    {
      if transport.Unconfigured? {
        Log("📧 Alert: " + subject + " (Telegram not configured)");
        return false, "";
      }
      if alertType.Some? && alertType.value != "" && !ShouldSendAlert(alertType.value, now) {
        return false, "";
      }
      posted := true;
      request := AlertText(subject, body);
      AlertTextHasBody(subject, body);
      match transport {
        case Raised(e) =>
          Log("❌ Alert error: " + e);
        case Status(code) =>
          if code == 200 {
            Log("✅ Alert sent: " + subject);
            if alertType.Some? && alertType.value != "" {
              lastAlertTime := lastAlertTime[alertType.value := now];
            }
          }
      }
    }

    /** `track_channel_error`: one more failure; from the fifth on, an alert of the channel's own kind is requested. */
    method TrackChannelError(channel: string, error: string, transport: Transport, now: int) returns (requested: bool, posted: bool)
      requires Valid()
      modifies this
      ensures Valid()
      ensures errorCounts == old(errorCounts)[channel := ErrorCount(old(errorCounts), channel) + 1]
      ensures requested <==> errorCounts[channel] >= ErrorThreshold
      ensures posted ==> requested && !transport.Unconfigured?
      ensures requested && !transport.Unconfigured? && old(ShouldSendAlert("channel_error_" + channel, now)) ==> posted
      ensures !requested ==> logs == old(logs) && lastAlertTime == old(lastAlertTime)
      ensures lastSuccessTime == old(lastSuccessTime) && lastIds == old(lastIds)
    {
      errorCounts := errorCounts[channel := ErrorCount(errorCounts, channel) + 1];
      requested := errorCounts[channel] >= ErrorThreshold;
      posted := false;
      if requested {
        var request;
        posted, request := SendTelegramAlert("Channel Access Failed", "Channel: " + channel + "\nError: " + error, Some("channel_error_" + channel), transport, now);
      }
    }

    /** `track_channel_success`: the count back to zero and the time recorded. */
    method TrackChannelSuccess(channel: string, now: int)
      modifies this
      ensures errorCounts == old(errorCounts)[channel := 0]
      ensures lastSuccessTime == old(lastSuccessTime)[channel := now]
      ensures logs == old(logs) && lastAlertTime == old(lastAlertTime) && lastIds == old(lastIds)
    {
      errorCounts := errorCounts[channel := 0];
      lastSuccessTime := lastSuccessTime[channel := now];
    }

    /**
     * One channel of the scan loop. A raise while loading and a missing
     * message list are failures that change no ids. Otherwise the newest
     * ten elements are read and each usable id not yet known is found; a
     * raise during extraction or upload is a failure that leaves the ids
     * appended so far in a known channel's list; without one, the found
     * ids are the batch uploaded, the newest 200 ids are kept when there
     * are any, and the channel counts as a success.
     */
    method ScanChannel(channel: string, elements: Option<seq<Option<string>>>, fault: ScanFault, transport: Transport, now: int)
      returns (batch: seq<string>)
      requires Valid()
      modifies this
      ensures Valid()
      ensures fault.LoadFault? || elements.None? ==>
        && batch == [] && lastIds == old(lastIds) && lastSuccessTime == old(lastSuccessTime)
        && errorCounts == old(errorCounts)[channel := ErrorCount(old(errorCounts), channel) + 1]
      ensures !fault.LoadFault? && elements.Some? ==>
        var raws := elements.value;
        var known := if channel in old(lastIds) then old(lastIds)[channel] else [];
        var found := NewIds(raws[ScanStart(|raws|)..], known);
        && batch == (if ScanRaises(fault, found) then [] else found)
        && lastIds == IdsAfterScan(old(lastIds), channel, fault, found)
        && errorCounts == old(errorCounts)[channel := if ScanRaises(fault, found) then ErrorCount(old(errorCounts), channel) + 1 else 0]
        && lastSuccessTime == if ScanRaises(fault, found) then old(lastSuccessTime) else old(lastSuccessTime)[channel := now]
    {
      if fault.LoadFault? {
        var requested, posted := TrackChannelError(channel, fault.error, transport, now);
        return [];
      }
      if elements.None? {
        var requested, posted := TrackChannelError(channel, "No messages", transport, now);
        return [];
      }
      var raws := elements.value;
      var known := if channel in lastIds then lastIds[channel] else [];
      var found := CollectNewIds(raws, known);
      if ScanRaises(fault, found) {
        var appended := if fault.ExtractFault? then found[..fault.at] else found;
        if channel in lastIds {
          lastIds := lastIds[channel := known + appended];
        }
        var requested, posted := TrackChannelError(channel, fault.error, transport, now);
        return [];
      }
      batch := found;
      if batch != [] {
        var current := known + batch;
        lastIds := lastIds[channel := if |current| > RememberedIds then current[|current| - RememberedIds..] else current];
      }
      TrackChannelSuccess(channel, now);
    }
  }
}
