/**
 * telegram_bot_old.py, the formatting helpers the broadcast relies on:
 * `clean_text`, the image and button sections of
 * `format_telegram_message`, and `is_duplicate_source`.
 *
 * The three regular expressions of `REGEX_PATTERNS_TO_REMOVE` are written
 * out as matchers that return the index where a match starting at `i`
 * ends. Each pattern's greedy parts are followed by a character they cannot
 * consume, so the first way to match is the only one and no backtracking
 * needs modelling.
 */
module TelegramFormat {
  import opened Wrappers
  import opened Text
  import opened Seqs
  import opened Messages

  // -----------------------------------------------------------------------
  // clean_text: literal phrases

  /** `PHRASES_TO_REMOVE`, in the order they are removed. */
  const Phrases: seq<string> := [
    "CCN 2.0 | Profitable Pinger",
    " Monitors v2.0.0 | CCN x Zephyr Monitors #ad",
    " Monitors v2.0.0 | CCN x Zephyr Monitors",
    "CCN 2.0 | Profitable Pinger",
    "@Unfiltered",
    "CCN"]

  /** The text after removing, case-insensitively, every phrase from index `k` on. */
  function WithoutPhrases(text: string, k: nat): (r: string)
    ensures |r| <= |text|
    decreases |Phrases| - k
  {
    if k >= |Phrases| then text
    else WithoutPhrases(RemoveAllIgnoreCase(text, Phrases[k]), k + 1)
  }

  // -----------------------------------------------------------------------
  // clean_text: patterns

  /** The literal `lit` (written in lower case) at `i`, ignoring case: the index after it. */
  function Lit(s: string, i: nat, lit: string): (r: Option<nat>)
    ensures r.Some? ==> r.value == i + |lit| <= |s|
  {
    if i + |lit| <= |s| && Lower(s[i..i + |lit|]) == lit then Some(i + |lit|) else None
  }

  /** `\s+` at `i`. */
  function Spaces1(s: string, i: nat): (r: Option<nat>)
    requires i <= |s|
    ensures r.Some? ==> i < r.value <= |s|
  {
    var j := SkipSpaces(s, i);
    if j > i then Some(j) else None
  }

  /** `\d` at `i`. */
  function Digit(s: string, i: nat): (r: Option<nat>)
    ensures r.Some? ==> r.value == i + 1 <= |s| && IsDigit(s[i])
  {
    if i < |s| && IsDigit(s[i]) then Some(i + 1) else None
  }

  /** `\d{2}` at `i`. */
  function TwoDigits(s: string, i: nat): (r: Option<nat>)
    ensures r.Some? ==> r.value == i + 2 <= |s|
  {
    var a :- Digit(s, i);
    Digit(s, a)
  }

  /** The literal `lit` and then `\s+` at `i`. */
  function WordGap(s: string, i: nat, lit: string): (r: Option<nat>)
    ensures r.Some? ==> i + |lit| < r.value <= |s|
  {
    var a :- Lit(s, i, lit);
    Spaces1(s, a)
  }

  /** `CCN\s+x\s+Zephyr\s+Monitors` at `i`, the signature both removal patterns share. */
  function Signature(s: string, i: nat): (r: Option<nat>)
    ensures r.Some? ==> i < r.value <= |s|
  {
    var b :- WordGap(s, i, "ccn");
    var d :- WordGap(s, b, "x");
    var f :- WordGap(s, d, "zephyr");
    Lit(s, f, "monitors")
  }

  /** `\[\d{2}:\d{2}:\d{2}\]` at `i`: a bracketed clock time. */
  function ClockEnd(s: string, i: nat): (r: Option<nat>)
    ensures r.Some? ==> r.value == i + 10 <= |s|
  {
    var a :- Lit(s, i, "[");
    var b :- TwoDigits(s, a);
    var c :- Lit(s, b, ":");
    var d :- TwoDigits(s, c);
    var e :- Lit(s, d, ":");
    var f :- TwoDigits(s, e);
    Lit(s, f, "]")
  }

  /** `\s*\|\s*CCN\s+x\s+Zephyr\s+Monitors` at `i`: the bar and the signature both removal patterns share. */
  function BarSignature(s: string, i: nat): (r: Option<nat>)
    requires i <= |s|
    ensures r.Some? ==> i < r.value <= |s|
  {
    var a :- Lit(s, SkipSpaces(s, i), "|");
    Signature(s, SkipSpaces(s, a))
  }

  /** `Monitors\s+v[\d.]+` at `i`: the monitor's version tag. */
  function VersionTagEnd(s: string, i: nat): (r: Option<nat>)
    requires i <= |s|
    ensures r.Some? ==> i < r.value <= |s|
  {
    var b :- WordGap(s, i, "monitors");
    var c :- Lit(s, b, "v");
    var d := SkipDigitsOr(s, c, {'.'});
    if d == c then None else Some(d)
  }

  /** `Monitors\s+v[\d.]+\s*\|\s*CCN\s+x\s+Zephyr\s+Monitors\s*\[\d{2}:\d{2}:\d{2}\]` at `i`. */
  function TimestampedSignatureEnd(s: string, i: nat): (r: Option<nat>)
    requires i <= |s|
    ensures r.Some? ==> i < r.value <= |s|
  {
    var d :- VersionTagEnd(s, i);
    var f :- BarSignature(s, d);
    ClockEnd(s, SkipSpaces(s, f))
  }

  /** The end of the line holding index `i`: the next newline, or the end of the text (what `.*` consumes). */
  function LineEnd(s: string, i: nat): (r: nat)
    requires i <= |s|
    ensures i <= r <= |s|
    ensures forall k :: i <= k < r ==> s[k] != '\n'
    ensures r < |s| ==> s[r] == '\n'
  {
    match FindCharFrom(s, {'\n'}, i)
    case Some(n) => n
    case None => |s|
  }

  /** `\[[^\]]+\].*` at `i`: a bracketed, non-empty tag and the rest of its line. */
  function BracketLineEnd(s: string, i: nat): (r: Option<nat>)
    requires i <= |s|
    ensures r.Some? ==> i < r.value <= |s|
  {
    var d :- Lit(s, i, "[");
    var close :- FindCharFrom(s, {']'}, d);
    if close == d then None else Some(LineEnd(s, close + 1))
  }

  /** `\s*\|\s*CCN\s+x\s+Zephyr\s+Monitors\s+\[[^\]]+\].*` at `i`: the signature and the rest of its line. */
  function TrailingSignatureEnd(s: string, i: nat): (r: Option<nat>)
    requires i <= |s|
    ensures r.Some? ==> i < r.value <= |s|
  {
    var b :- BarSignature(s, i);
    var c :- Spaces1(s, b);
    BracketLineEnd(s, c)
  }

  /** `\d{1,2}:\d{2}` at `i`: an hour of one or two digits, a colon, two digits of minutes. */
  function TimeEnd(s: string, i: nat): (r: Option<nat>)
    ensures r.Some? ==> i < r.value <= |s|
  {
    var a :- Digit(s, i);
    var b := if a < |s| && IsDigit(s[a]) then a + 1 else a;
    var c :- Lit(s, b, ":");
    TwoDigits(s, c)
  }

  /** `(?:AM|PM)` at `i`, in any case. */
  function MeridiemEnd(s: string, i: nat): (r: Option<nat>)
    ensures r.Some? ==> r.value == i + 2 <= |s|
  {
    if Lit(s, i, "am").Some? then Lit(s, i, "am") else Lit(s, i, "pm")
  }

  /** `Today\s+at\s+\d{1,2}:\d{2}\s*(?:AM|PM)` at `i`. */
  function TodayAtEnd(s: string, i: nat): (r: Option<nat>)
    requires i <= |s|
    ensures r.Some? ==> i < r.value <= |s|
  {
    var b :- WordGap(s, i, "today");
    var d :- WordGap(s, b, "at");
    var e :- TimeEnd(s, d);
    MeridiemEnd(s, SkipSpaces(s, e))
  }

  /** `REGEX_PATTERNS_TO_REMOVE`, in order. */
  datatype Pattern = TimestampedSignature | TrailingSignature | TodayAt

  const Patterns: seq<Pattern> := [TimestampedSignature, TrailingSignature, TodayAt]

  /** Where a match of `p` starting at `i` ends, if one starts there. */
  function MatchEnd(p: Pattern, s: string, i: nat): (r: Option<nat>)
    requires i <= |s|
    ensures r.Some? ==> i < r.value <= |s|
  {
    match p
    case TimestampedSignature => TimestampedSignatureEnd(s, i)
    case TrailingSignature => TrailingSignatureEnd(s, i)
    case TodayAt => TodayAtEnd(s, i)
  }

  /** `re.sub(p, "", s[i:], flags=re.IGNORECASE)`: the leftmost matches, without overlap, removed. */
  function Sub(p: Pattern, s: string, i: nat): (r: string)
    requires i <= |s|
    ensures |r| <= |s| - i
    decreases |s| - i
  {
    if i == |s| then []
    else match MatchEnd(p, s, i)
      case Some(j) => Sub(p, s, j)
      case None => [s[i]] + Sub(p, s, i + 1)
  }

  /** Every pattern from index `k` on, removed in turn. */
  function WithoutPatterns(text: string, k: nat): (r: string)
    ensures |r| <= |text|
    decreases |Patterns| - k
  {
    if k >= |Patterns| then text
    else WithoutPatterns(Sub(Patterns[k], text, 0), k + 1)
  }

  // -----------------------------------------------------------------------
  // What the three patterns match
  //
  // Each pattern is described by the positions where its pieces start, as
  // a predicate over the text. Two lemmas per matcher connect it to that
  // description: a text laid out that way is matched where it starts,
  // through its last piece, and every match is laid out that way.

  /** The literal `lit`, written in lower case, occurs at `i` in any case. */
  predicate WordAt(s: string, i: nat, lit: string) {
    i + |lit| <= |s| && Lower(s[i..i + |lit|]) == lit
  }

  /** `s[a..b]` is whitespace: what `\s*` consumes. */
  predicate Blank(s: string, a: nat, b: nat) {
    a <= b <= |s| && forall k {:trigger IsSpace(s[k])} :: a <= k < b ==> IsSpace(s[k])
  }

  /** `s[a..b]` is whitespace and not empty: what `\s+` consumes. */
  predicate Gap(s: string, a: nat, b: nat) {
    a < b && Blank(s, a, b)
  }

  /** `s[a..b]` is decimal digits. */
  predicate DigitRun(s: string, a: nat, b: nat) {
    a <= b <= |s| && forall k {:trigger IsDigit(s[k])} :: a <= k < b ==> IsDigit(s[k])
  }

  /** Whitespace has no upper case, so a word whose lower case starts with a non-space starts with one. */
  lemma WordStartsSolid(s: string, i: nat, lit: string)
    requires WordAt(s, i, lit) && lit != [] && !IsSpace(lit[0])
    ensures i < |s| && !IsSpace(s[i])
  {
    assert Lower(s[i..i + |lit|])[0] == LowerChar(s[i]);
  }

  /** A greedy `\s*` stops exactly where the whitespace does. */
  lemma {:induction false} SkipSpacesTo(s: string, a: nat, j: nat)
    requires Blank(s, a, j) && j < |s| && !IsSpace(s[j])
    ensures SkipSpaces(s, a) == j
    decreases j - a
  {
    if a < j {
      SkipSpacesTo(s, a + 1, j);
    }
  }

  /** The word and the gap after it, when a non-space follows the gap. */
  lemma WordGapAt(s: string, i: nat, lit: string, j: nat)
    requires WordAt(s, i, lit) && Gap(s, i + |lit|, j) && j < |s| && !IsSpace(s[j])
    ensures WordGap(s, i, lit) == Some(j)
  {
    SkipSpacesTo(s, i + |lit|, j);
  }

  /** What `WordGap` matched: the word, then whitespace up to a non-space or the end. */
  lemma WordGapSpells(s: string, i: nat, lit: string, j: nat)
    requires WordGap(s, i, lit) == Some(j)
    ensures WordAt(s, i, lit) && Gap(s, i + |lit|, j) && (j < |s| ==> !IsSpace(s[j]))
  {
  }

  // The shared signature `CCN\s+x\s+Zephyr\s+Monitors`

  /** A signature at `i` whose words "x", "zephyr" and "monitors" start at `b`, `d` and `f`. */
  predicate SignatureLaidOut(s: string, i: nat, b: nat, d: nat, f: nat) {
    && WordAt(s, i, "ccn") && Gap(s, i + 3, b)
    && WordAt(s, b, "x") && Gap(s, b + 1, d)
    && WordAt(s, d, "zephyr") && Gap(s, d + 6, f)
    && WordAt(s, f, "monitors")
  }

  /** A signature laid out at `i` is matched through its last letter. */
  lemma SignatureRecognised(s: string, i: nat, b: nat, d: nat, f: nat)
    requires SignatureLaidOut(s, i, b, d, f)
    ensures Signature(s, i) == Some(f + 8)
  {
    WordStartsSolid(s, b, "x");
    WordStartsSolid(s, d, "zephyr");
    WordStartsSolid(s, f, "monitors");
    WordGapAt(s, i, "ccn", b);
    WordGapAt(s, b, "x", d);
    WordGapAt(s, d, "zephyr", f);
  }

  /** Every match of the signature is laid out as one. */
  lemma SignatureSpells(s: string, i: nat)
    requires Signature(s, i).Some?
    ensures exists b: nat, d: nat, f: nat :: SignatureLaidOut(s, i, b, d, f) && Signature(s, i) == Some(f + 8)
  {
    var b := WordGap(s, i, "ccn").value;
    var d := WordGap(s, b, "x").value;
    var f := WordGap(s, d, "zephyr").value;
    SignatureParts(s, i, b, d, f);
  }

  lemma SignatureParts(s: string, i: nat, b: nat, d: nat, f: nat)
    requires WordGap(s, i, "ccn") == Some(b) && WordGap(s, b, "x") == Some(d) && WordGap(s, d, "zephyr") == Some(f)
    requires Signature(s, i).Some?
    ensures SignatureLaidOut(s, i, b, d, f) && Signature(s, i) == Some(f + 8)
  {
    WordGapSpells(s, i, "ccn", b);
    WordGapSpells(s, b, "x", d);
    WordGapSpells(s, d, "zephyr", f);
  }

  /** A signature starts with a non-space. */
  lemma SignatureStartsSolid(s: string, i: nat)
    requires Signature(s, i).Some?
    ensures i < |s| && !IsSpace(s[i])
  {
    WordStartsSolid(s, i, "ccn");
  }

  /** `\s*` as `SkipSpaces` takes it: whitespace up to a non-space or the end. */
  lemma SkipSpacesSpells(s: string, a: nat)
    requires a <= |s|
    ensures Blank(s, a, SkipSpaces(s, a))
  {
  }

  // `\s*\|\s*CCN\s+x\s+Zephyr\s+Monitors`

  /** The bar at `bar` and the signature from `sig` to `f`, with whitespace around the bar. */
  predicate BarSignatureLaidOut(s: string, i: nat, bar: nat, sig: nat, f: nat) {
    Blank(s, i, bar) && WordAt(s, bar, "|") && Blank(s, bar + 1, sig) && Signature(s, sig) == Some(f)
  }

  lemma BarSignatureRecognised(s: string, i: nat, bar: nat, sig: nat, f: nat)
    requires BarSignatureLaidOut(s, i, bar, sig, f)
    ensures BarSignature(s, i) == Some(f)
  {
    WordStartsSolid(s, bar, "|");
    SkipSpacesTo(s, i, bar);
    SignatureStartsSolid(s, sig);
    SkipSpacesTo(s, bar + 1, sig);
  }

  lemma BarSignatureSpells(s: string, i: nat)
    requires i <= |s| && BarSignature(s, i).Some?
    ensures exists bar: nat, sig: nat :: BarSignatureLaidOut(s, i, bar, sig, BarSignature(s, i).value)
  {
    var bar := SkipSpaces(s, i);
    var sig := SkipSpaces(s, bar + 1);
    SkipSpacesSpells(s, i);
    SkipSpacesSpells(s, bar + 1);
    assert BarSignatureLaidOut(s, i, bar, sig, BarSignature(s, i).value);
  }

  // `\[\d{2}:\d{2}:\d{2}\]`

  /** A bracketed `hh:mm:ss` at `g`. */
  predicate ClockAt(s: string, g: nat) {
    && g + 10 <= |s| && s[g] == '[' && DigitRun(s, g + 1, g + 3) && s[g + 3] == ':'
    && DigitRun(s, g + 4, g + 6) && s[g + 6] == ':' && DigitRun(s, g + 7, g + 9) && s[g + 9] == ']'
  }

  lemma ClockEndIff(s: string, g: nat)
    ensures ClockEnd(s, g).Some? <==> ClockAt(s, g)
  {
    PunctuationAt(s, g, '[');
    TwoDigitsAt(s, g + 1);
    PunctuationAt(s, g + 3, ':');
    TwoDigitsAt(s, g + 4);
    PunctuationAt(s, g + 6, ':');
    TwoDigitsAt(s, g + 7);
    PunctuationAt(s, g + 9, ']');
  }

  /** A literal character that is not an ASCII letter matches only itself. */
  lemma PunctuationAt(s: string, i: nat, c: char)
    requires !('a' <= c <= 'z') && !IsAsciiUpper(c)
    ensures Lit(s, i, [c]) == if i < |s| && s[i] == c then Some(i + 1) else None
  {
    if i < |s| {
      assert Lower(s[i..i + 1]) == [LowerChar(s[i])];
      assert LowerChar(s[i]) == c <==> s[i] == c;
    }
  }

  lemma TwoDigitsAt(s: string, i: nat)
    ensures TwoDigits(s, i) == if DigitRun(s, i, i + 2) then Some(i + 2) else None
  {
    if DigitRun(s, i, i + 2) {
      assert IsDigit(s[i]) && IsDigit(s[i + 1]);
    }
  }

  // `Monitors\s+v[\d.]+`

  /** What `[\d.]` matches. */
  predicate IsVersionChar(c: char) {
    IsDigit(c) || c == '.'
  }

  /** `s[a..b]` is what `[\d.]+` consumes. */
  predicate Version(s: string, a: nat, b: nat) {
    a < b <= |s| && forall k {:trigger IsVersionChar(s[k])} :: a <= k < b ==> IsVersionChar(s[k])
  }

  /** "monitors" at `i`, whitespace, then "v" at `v` and the version up to `d`. */
  predicate VersionTagLaidOut(s: string, i: nat, v: nat, d: nat) {
    WordAt(s, i, "monitors") && Gap(s, i + 8, v) && WordAt(s, v, "v") && Version(s, v + 1, d)
  }

  /** A greedy `[\d.]*` stops exactly where the version does. */
  lemma {:induction false} SkipVersionTo(s: string, a: nat, j: nat)
    requires a <= j <= |s| && (j < |s| ==> !IsVersionChar(s[j]))
    requires forall k {:trigger IsVersionChar(s[k])} :: a <= k < j ==> IsVersionChar(s[k])
    ensures SkipDigitsOr(s, a, {'.'}) == j
    decreases j - a
  {
    if a < j {
      assert IsVersionChar(s[a]);
      SkipVersionTo(s, a + 1, j);
    } else if j < |s| {
      assert !IsDigit(s[j]) && s[j] !in {'.'};
    }
  }

  /** The version tag is matched through the last character of its version. */
  lemma VersionTagRecognised(s: string, i: nat, v: nat, d: nat)
    requires VersionTagLaidOut(s, i, v, d) && (d < |s| ==> !IsVersionChar(s[d]))
    ensures VersionTagEnd(s, i) == Some(d)
  {
    WordStartsSolid(s, v, "v");
    WordGapAt(s, i, "monitors", v);
    SkipVersionTo(s, v + 1, d);
  }

  /** Every match of the version tag is laid out as one, with its version run to the end. */
  lemma VersionTagSpells(s: string, i: nat)
    requires i <= |s| && VersionTagEnd(s, i).Some?
    ensures var d := VersionTagEnd(s, i).value;
      (exists v: nat :: VersionTagLaidOut(s, i, v, d)) && (d < |s| ==> !IsVersionChar(s[d]))
  {
    var v := WordGap(s, i, "monitors").value;
    var d := VersionTagEnd(s, i).value;
    WordGapSpells(s, i, "monitors", v);
    forall k | v + 1 <= k < d ensures IsVersionChar(s[k]) {
      assert IsDigit(s[k]) || s[k] in {'.'};
    }
    assert VersionTagLaidOut(s, i, v, d);
  }

  // `Monitors\s+v[\d.]+\s*\|\s*CCN\s+x\s+Zephyr\s+Monitors\s*\[\d{2}:\d{2}:\d{2}\]`

  /** A version tag ending at `d`, the bar and signature ending at `f`, whitespace, and a clock at `clock`. */
  predicate TimestampedLaidOut(s: string, i: nat, d: nat, f: nat, clock: nat) {
    && i <= |s| && VersionTagEnd(s, i) == Some(d) && BarSignature(s, d) == Some(f)
    && Blank(s, f, clock) && ClockAt(s, clock)
  }

  lemma TimestampedRecognised(s: string, i: nat, d: nat, f: nat, clock: nat)
    requires TimestampedLaidOut(s, i, d, f, clock)
    ensures TimestampedSignatureEnd(s, i) == Some(clock + 10)
  {
    ClockAfterBlank(s, f, clock);
    TimestampedAfter(s, i, d, f, clock);
  }

  /** A clock after whitespace is matched by `\s*` and the clock pattern. */
  lemma ClockAfterBlank(s: string, f: nat, clock: nat)
    requires f <= |s| && Blank(s, f, clock) && ClockAt(s, clock)
    ensures SkipSpaces(s, f) == clock && ClockEnd(s, clock) == Some(clock + 10)
  {
    SkipSpacesTo(s, f, clock);
    ClockEndIff(s, clock);
  }

  /** Once the version tag ends at `d` and the signature at `f`, what remains is the clock. */
  lemma TimestampedAfter(s: string, i: nat, d: nat, f: nat, clock: nat)
    requires i <= |s| && VersionTagEnd(s, i) == Some(d) && BarSignature(s, d) == Some(f)
    requires clock == SkipSpaces(s, f)
    ensures TimestampedSignatureEnd(s, i) == ClockEnd(s, clock)
  {
  }

  lemma TimestampedSpells(s: string, i: nat)
    requires i <= |s| && TimestampedSignatureEnd(s, i).Some?
    ensures exists d: nat, f: nat, clock: nat :: TimestampedLaidOut(s, i, d, f, clock) && TimestampedSignatureEnd(s, i) == Some(clock + 10)
  {
    var d := VersionTagEnd(s, i).value;
    var f := BarSignature(s, d).value;
    TimestampedAfter(s, i, d, f, SkipSpaces(s, f));
    TimestampedParts(s, i, d, f, SkipSpaces(s, f));
  }

  lemma TimestampedParts(s: string, i: nat, d: nat, f: nat, clock: nat)
    requires i <= |s| && VersionTagEnd(s, i) == Some(d) && BarSignature(s, d) == Some(f)
    requires clock == SkipSpaces(s, f) && ClockEnd(s, clock).Some?
    ensures exists d: nat, f: nat, clock: nat :: TimestampedLaidOut(s, i, d, f, clock) && TimestampedSignatureEnd(s, i) == Some(clock + 10)
  {
    TimestampedAfter(s, i, d, f, clock);
    ClockAfterSpells(s, f, clock);
    TimestampedWitness(s, i, d, f, clock);
  }

  /** A clock matched after `\s*` sits after whitespace, ten characters long. */
  lemma ClockAfterSpells(s: string, f: nat, clock: nat)
    requires f <= |s| && clock == SkipSpaces(s, f) && ClockEnd(s, clock).Some?
    ensures Blank(s, f, clock) && ClockAt(s, clock) && ClockEnd(s, clock) == Some(clock + 10)
  {
    SkipSpacesSpells(s, f);
    ClockEndIff(s, clock);
  }

  lemma TimestampedWitness(s: string, i: nat, d: nat, f: nat, clock: nat)
    requires TimestampedLaidOut(s, i, d, f, clock) && TimestampedSignatureEnd(s, i) == Some(clock + 10)
    ensures exists d: nat, f: nat, clock: nat :: TimestampedLaidOut(s, i, d, f, clock) && TimestampedSignatureEnd(s, i) == Some(clock + 10)
  {
  }

  // `\[[^\]]+\].*`

  /** "[" at `i` and the first "]" after it at `close`, with something between them. */
  predicate BracketLineLaidOut(s: string, i: nat, close: nat) {
    WordAt(s, i, "[") && i + 1 < close < |s| && s[close] == ']' && ']' !in s[i + 1..close]
  }

  /** A bracketed tag is matched through the end of the line that holds its "]". */
  lemma BracketLineRecognised(s: string, i: nat, close: nat)
    requires BracketLineLaidOut(s, i, close)
    ensures BracketLineEnd(s, i) == Some(LineEnd(s, close + 1))
  {
    forall x | i + 1 <= x < close ensures s[x] != ']' {
      assert s[x] == s[i + 1..close][x - i - 1];
    }
    FirstCharAt(s, ']', i + 1, close);
  }

  lemma BracketLineSpells(s: string, i: nat)
    requires i <= |s| && BracketLineEnd(s, i).Some?
    ensures exists close: nat :: BracketLineLaidOut(s, i, close) && BracketLineEnd(s, i) == Some(LineEnd(s, close + 1))
  {
    var close := FindCharFrom(s, {']'}, i + 1).value;
    assert ']' !in s[i + 1..close] by {
      forall x | i + 1 <= x < close ensures s[x] != ']' {
        assert s[x] !in {']'};
      }
    }
    assert BracketLineLaidOut(s, i, close);
  }

  // `\s*\|\s*CCN\s+x\s+Zephyr\s+Monitors\s+\[[^\]]+\].*`

  /** The bar and signature ending at `b`, whitespace up to `c`, and a bracketed tag at `c` closed at `close`. */
  predicate TrailingLaidOut(s: string, i: nat, b: nat, c: nat, close: nat) {
    i <= |s| && BarSignature(s, i) == Some(b) && Gap(s, b, c) && BracketLineLaidOut(s, c, close)
  }

  /** A trailing signature laid out at `i` is matched through the end of the line that holds its "]". */
  lemma TrailingRecognised(s: string, i: nat, b: nat, c: nat, close: nat)
    requires TrailingLaidOut(s, i, b, c, close)
    ensures TrailingSignatureEnd(s, i) == Some(LineEnd(s, close + 1))
  {
    WordStartsSolid(s, c, "[");
    SkipSpacesTo(s, b, c);
    BracketLineRecognised(s, c, close);
  }

  lemma TrailingSpells(s: string, i: nat)
    requires i <= |s| && TrailingSignatureEnd(s, i).Some?
    ensures exists b: nat, c: nat, close: nat :: TrailingLaidOut(s, i, b, c, close) && TrailingSignatureEnd(s, i) == Some(LineEnd(s, close + 1))
  {
    var b := BarSignature(s, i).value;
    var c := Spaces1(s, b).value;
    BracketLineSpells(s, c);
    var close: nat :| BracketLineLaidOut(s, c, close) && BracketLineEnd(s, c) == Some(LineEnd(s, close + 1));
    TrailingParts(s, i, b, c, close);
  }

  lemma TrailingParts(s: string, i: nat, b: nat, c: nat, close: nat)
    requires i <= |s| && BarSignature(s, i) == Some(b) && Spaces1(s, b) == Some(c)
    requires BracketLineLaidOut(s, c, close) && BracketLineEnd(s, c) == Some(LineEnd(s, close + 1))
    ensures TrailingLaidOut(s, i, b, c, close) && TrailingSignatureEnd(s, i) == Some(LineEnd(s, close + 1))
  {
    SkipSpacesSpells(s, b);
  }

  // `Today\s+at\s+\d{1,2}:\d{2}\s*(?:AM|PM)`

  /**
   * "Today at h:mm AM" at `i`: "at" at `a`, the hour from `h` to the colon
   * at `colon`, two digits of minutes, and "am" or "pm" at `m`.
   */
  predicate TodayAtLaidOut(s: string, i: nat, a: nat, h: nat, colon: nat, m: nat) {
    && WordAt(s, i, "today") && Gap(s, i + 5, a) && WordAt(s, a, "at") && Gap(s, a + 2, h)
    && (colon == h + 1 || colon == h + 2) && DigitRun(s, h, colon) && WordAt(s, colon, ":")
    && DigitRun(s, colon + 1, colon + 3) && Blank(s, colon + 3, m)
    && (WordAt(s, m, "am") || WordAt(s, m, "pm"))
  }

  /** `\d{1,2}:\d{2}` at `h`, with the colon at `colon`. */
  lemma TimeEndIff(s: string, h: nat, colon: nat)
    requires colon == h + 1 || colon == h + 2
    ensures TimeEnd(s, h) == Some(colon + 3)
      <==> DigitRun(s, h, colon) && WordAt(s, colon, ":") && DigitRun(s, colon + 1, colon + 3)
  {
    if colon < |s| {
      assert Lower(s[colon..colon + 1])[0] == LowerChar(s[colon]);
    }
    if DigitRun(s, h, colon) && WordAt(s, colon, ":") && DigitRun(s, colon + 1, colon + 3) {
      assert IsDigit(s[h]);
      assert IsDigit(s[colon + 1]) && IsDigit(s[colon + 2]);
      if colon == h + 2 {
        assert IsDigit(s[h + 1]);
      }
    }
  }

  lemma MeridiemEndIff(s: string, m: nat)
    ensures MeridiemEnd(s, m) == Some(m + 2) <==> WordAt(s, m, "am") || WordAt(s, m, "pm")
  {
  }

  /** `TodayAtEnd` as the chain of its pieces. */
  lemma TodayAtUnfold(s: string, i: nat, a: nat, h: nat, colon: nat, m: nat)
    requires i <= |s| && WordGap(s, i, "today") == Some(a) && WordGap(s, a, "at") == Some(h)
    requires TimeEnd(s, h) == Some(colon + 3) && m == SkipSpaces(s, colon + 3)
    ensures TodayAtEnd(s, i) == MeridiemEnd(s, m)
  {
  }

  /** The pieces of a match of `TodayAtEnd`. */
  lemma TodayAtFold(s: string, i: nat)
    requires i <= |s| && TodayAtEnd(s, i).Some?
    ensures WordGap(s, i, "today").Some? && WordGap(s, WordGap(s, i, "today").value, "at").Some?
    ensures var h := WordGap(s, WordGap(s, i, "today").value, "at").value;
      && TimeEnd(s, h).Some?
      && TodayAtEnd(s, i) == MeridiemEnd(s, SkipSpaces(s, TimeEnd(s, h).value))
  {
  }

  lemma TodayAtRecognised(s: string, i: nat, a: nat, h: nat, colon: nat, m: nat)
    requires TodayAtLaidOut(s, i, a, h, colon, m)
    ensures TodayAtEnd(s, i) == Some(m + 2)
  {
    WordStartsSolid(s, a, "at");
    WordGapAt(s, i, "today", a);
    assert IsDigit(s[h]);
    WordGapAt(s, a, "at", h);
    TimeEndIff(s, h, colon);
    MeridiemEndIff(s, m);
    if WordAt(s, m, "am") {
      WordStartsSolid(s, m, "am");
    } else {
      WordStartsSolid(s, m, "pm");
    }
    SkipSpacesTo(s, colon + 3, m);
    TodayAtUnfold(s, i, a, h, colon, m);
  }

  lemma TodayAtSpells(s: string, i: nat)
    requires i <= |s| && TodayAtEnd(s, i).Some?
    ensures exists a: nat, h: nat, colon: nat, m: nat :: TodayAtLaidOut(s, i, a, h, colon, m) && TodayAtEnd(s, i) == Some(m + 2)
  {
    TodayAtFold(s, i);
    var a := WordGap(s, i, "today").value;
    var h := WordGap(s, a, "at").value;
    var colon := TimeEnd(s, h).value - 3;
    TodayAtParts(s, i, a, h, colon, SkipSpaces(s, colon + 3));
  }

  lemma TodayAtParts(s: string, i: nat, a: nat, h: nat, colon: nat, m: nat)
    requires i <= |s| && WordGap(s, i, "today") == Some(a) && WordGap(s, a, "at") == Some(h)
    requires TimeEnd(s, h) == Some(colon + 3) && m == SkipSpaces(s, colon + 3) && MeridiemEnd(s, m).Some?
    ensures exists a: nat, h: nat, colon: nat, m: nat :: TodayAtLaidOut(s, i, a, h, colon, m) && TodayAtEnd(s, i) == Some(m + 2)
  {
    WordGapSpells(s, i, "today", a);
    WordGapSpells(s, a, "at", h);
    TimeEndIff(s, h, colon);
    MeridiemEndIff(s, m);
    SkipSpacesSpells(s, colon + 3);
    TodayAtUnfold(s, i, a, h, colon, m);
    TodayAtWitness(s, i, a, h, colon, m);
  }

  lemma TodayAtWitness(s: string, i: nat, a: nat, h: nat, colon: nat, m: nat)
    requires TodayAtLaidOut(s, i, a, h, colon, m) && i <= |s| && TodayAtEnd(s, i) == Some(m + 2)
    ensures exists a: nat, h: nat, colon: nat, m: nat :: TodayAtLaidOut(s, i, a, h, colon, m) && TodayAtEnd(s, i) == Some(m + 2)
  {
  }

  // -----------------------------------------------------------------------
  // clean_text: whitespace

  /** `re.sub(r'\s+', ' ', s)`: every whitespace run becomes one space. */
  function CollapseSpaces(s: string): (r: string)
    ensures |r| <= |s|
    ensures r == [] <==> s == []
    ensures r != [] ==> (IsSpace(r[0]) <==> IsSpace(s[0]))
    decreases |s|
  {
    if s == [] then []
    else if IsSpace(s[0]) then
      var t := TrimLeft(s);
      [' '] + CollapseSpaces(t)
    else [s[0]] + CollapseSpaces(s[1..])
  }

  /** The only whitespace is a single `' '` between two other characters. */
  predicate Collapsed(s: string) {
    forall k :: 0 <= k < |s| && IsSpace(s[k]) ==> s[k] == ' ' && (k + 1 < |s| ==> !IsSpace(s[k + 1]))
  }

  /** What the last line of `clean_text` promises: single spaces, nothing at either end. */
  predicate Normalized(s: string) {
    Trimmed(s) && Collapsed(s)
  }

  /** `clean_text`: falsy text comes back as it is; otherwise phrases, then patterns, then whitespace. */
  function CleanText(text: string): (r: string)
    ensures |r| <= |text|
  {
    if text == "" then text
    else Strip(CollapseSpaces(WithoutPatterns(WithoutPhrases(text, 0), 0)))
  }

  lemma {:induction false} CollapseSpacesCollapsed(s: string)
    ensures Collapsed(CollapseSpaces(s))
    decreases |s|
  {
    if s != [] {
      if IsSpace(s[0]) {
        var t := TrimLeft(s);
        CollapseSpacesCollapsed(t);
      } else {
        CollapseSpacesCollapsed(s[1..]);
      }
    }
  }

  lemma CollapsedSlice(s: string, a: nat, b: nat)
    requires a <= b <= |s| && Collapsed(s)
    ensures Collapsed(s[a..b])
  {
    var t := s[a..b];
    forall k | 0 <= k < |t| && IsSpace(t[k])
      ensures t[k] == ' ' && (k + 1 < |t| ==> !IsSpace(t[k + 1]))
    {
      assert t[k] == s[a + k];
      if k + 1 < |t| {
        assert t[k + 1] == s[a + k + 1];
      }
    }
  }

  /** `strip` only cuts whitespace from the ends. */
  lemma StripIsSlice(s: string)
    ensures exists a: nat, b: nat :: a <= b <= |s| && Strip(s) == s[a..b]
  {
    var l := TrimLeft(s);
    var a := |s| - |l|;
    var r := TrimRight(l);
    assert r == l[..|r|] && l == s[a..];
    assert Strip(s) == s[a..a + |r|];
  }

  /** Whatever the input, `clean_text` returns single-spaced, trimmed text. */
  lemma CleanTextNormalized(text: string)
    ensures Normalized(CleanText(text))
  {
    if text != "" {
      var c := CollapseSpaces(WithoutPatterns(WithoutPhrases(text, 0), 0));
      CollapseSpacesCollapsed(WithoutPatterns(WithoutPhrases(text, 0), 0));
      StripIsSlice(c);
      var a: nat, b: nat :| a <= b <= |c| && Strip(c) == c[a..b];
      CollapsedSlice(c, a, b);
    }
  }

  lemma {:induction false} CollapseSpacesFixes(s: string)
    requires Collapsed(s)
    ensures CollapseSpaces(s) == s
    decreases |s|
  {
    if s != [] {
      var t := s[1..];
      CollapsedSlice(s, 1, |s|);
      CollapseSpacesFixes(t);
      CollapseHead(s);
      assert s == [s[0]] + t;
    }
  }

  /** On collapsed text, `CollapseSpaces` keeps the first character and goes on with the rest. */
  lemma CollapseHead(s: string)
    requires Collapsed(s) && s != []
    ensures CollapseSpaces(s) == [s[0]] + CollapseSpaces(s[1..])
  {
    if IsSpace(s[0]) {
      SingleSpaceTrimmed(s);
    }
    CollapseStep(s);
  }

  /** A collapsed text that starts with whitespace starts with one `' '` and nothing more. */
  lemma SingleSpaceTrimmed(s: string)
    requires Collapsed(s) && s != [] && IsSpace(s[0])
    ensures s[0] == ' ' && TrimLeft(s) == s[1..]
  {
    if |s| > 1 {
      assert !IsSpace(s[1]);
      assert TrimLeft(s[1..]) == s[1..];
    }
  }

  lemma CollapseStep(s: string)
    requires s != []
    ensures CollapseSpaces(s) == if IsSpace(s[0]) then [' '] + CollapseSpaces(TrimLeft(s)) else [s[0]] + CollapseSpaces(s[1..])
  {
  }

  lemma StripFixes(s: string)
    requires Trimmed(s)
    ensures Strip(s) == s
  {
  }

  /** The whitespace step of `clean_text` leaves normalized text alone: applying it to its own output changes nothing. */
  lemma NormalizeIdempotent(s: string)
    requires Normalized(s)
    ensures Strip(CollapseSpaces(s)) == s
  {
    CollapseSpacesFixes(s);
    StripFixes(s);
  }

  // -----------------------------------------------------------------------
  // Images of format_telegram_message

  /** The images sent with an alert: the first three of the embed's images, else its thumbnail. */
  function AlertImages(embed: Option<Embed>): (r: seq<string>)
    ensures |r| <= 3
    ensures r != [] <==> embed.Some? && (embed.value.images != [] || Truthy(embed.value.thumbnail))
    ensures embed.Some? && embed.value.images != [] ==> |r| <= |embed.value.images| && r == embed.value.images[..|r|]
    ensures embed.Some? && embed.value.images == [] ==> forall x :: x in r ==> embed.value.thumbnail == Some(x)
  {
    if embed.None? then []
    else if embed.value.images != [] then Prefix(embed.value.images, 3)
    else if Truthy(embed.value.thumbnail) then [embed.value.thumbnail.value]
    else []
  }

  // -----------------------------------------------------------------------
  // is_duplicate_source

  const Pinger: string := "profitable pinger"

  /** The four places a duplicate source signs a message, missing ones as "". */
  function SourceTexts(m: Message): seq<string> {
    [ m.authorName.GetOr(""),
      if m.embed.Present? && m.embed.value.author.Some? then m.embed.value.author.value.name.GetOr("") else "",
      if m.embed.Present? then m.embed.value.footer.GetOr("") else "",
      m.content ]
  }

  /**
   * `is_duplicate_source` as intended: the author name, the embed author,
   * the footer and the content, checked in turn, a null embed read like a
   * missing one (as `raw.get("embed") or {}` would read it).
   */
  predicate IsDuplicateSource(m: Message) {
    if ContainsLower(m.authorName.GetOr(""), Pinger) then true
    else if m.embed.Present? && m.embed.value.author.Some? && ContainsLower(m.embed.value.author.value.name.GetOr(""), Pinger) then true
    else if m.embed.Present? && ContainsLower(m.embed.value.footer.GetOr(""), Pinger) then true
    else ContainsLower(m.content, Pinger)
  }

  /** A message is from a duplicate source exactly when one of its four signatures names Profitable Pinger, in any case. */
  lemma IsDuplicateSourceIff(m: Message)
    ensures IsDuplicateSource(m) <==> exists k :: 0 <= k < 4 && ContainsLower(SourceTexts(m)[k], Pinger)
  {
    var t := SourceTexts(m);
    assert !ContainsLower("", Pinger);
    if IsDuplicateSource(m) {
      if ContainsLower(t[0], Pinger) {
      } else if ContainsLower(t[1], Pinger) {
      } else if ContainsLower(t[2], Pinger) {
      } else {
        assert ContainsLower(t[3], Pinger);
      }
    }
  }

  /**
   * `is_duplicate_source` as written: `raw.get("embed", {})` is `None` for
   * a null embed, so unless the author name already answered, the
   * `embed.get` that follows raises (`None` here). Otherwise it answers
   * as `IsDuplicateSource` does.
   */
  function DuplicateSourceAsWritten(m: Message): (r: Option<bool>)
    ensures r.None? <==> m.embed.Null? && !ContainsLower(SourceTexts(m)[0], Pinger)
    ensures r.Some? ==> r.value == IsDuplicateSource(m)
  {
    if ContainsLower(m.authorName.GetOr(""), Pinger) then Some(true)
    else match m.embed
      case Null => None
      case Missing => Some(ContainsLower(m.content, Pinger))
      case Present(e) =>
        Some(
          || (e.author.Some? && ContainsLower(e.author.value.name.GetOr(""), Pinger))
          || ContainsLower(e.footer.GetOr(""), Pinger)
          || ContainsLower(m.content, Pinger))
  }

  /** Whether the filter of `broadcast_job` raises on this message. */
  predicate FilterRaises(m: Message) {
    DuplicateSourceAsWritten(m).None?
  }

  // -----------------------------------------------------------------------
  // Buttons of format_telegram_message

  /** The five lists links are sorted into. */
  datatype Group = EbayGroup | FbaGroup | BuyGroup | AtcGroup | OtherGroup

  const EbayButtonWords: seq<string> := ["sold", "active", "google", "ebay"]
  const FbaButtonWords: seq<string> := ["keepa", "amazon", "selleramp", "camel"]
  const BuyButtonWords: seq<string> := ["buy", "shop", "purchase", "checkout", "cart"]

  predicate AnyWord(lower: string, words: seq<string>) {
    exists k :: 0 <= k < |words| && Contains(lower, words[k])
  }

  /**
   * The list a link goes to: quantity options by their field name, the
   * rest by the keywords of their text. Links of the "Links" field and of
   * any other field are sorted by the same keyword rules.
   */
  function GroupOf(l: EmbedLink): Group {
    var field := Lower(l.field.GetOr(""));
    var lower := Lower(l.text.GetOr(""));
    if Contains(field, AtcMark) || Contains(field, QtMark) then AtcGroup
    else if AnyWord(lower, EbayButtonWords) then EbayGroup
    else if AnyWord(lower, FbaButtonWords) then FbaGroup
    else if AnyWord(lower, BuyButtonWords) then BuyGroup
    else OtherGroup
  }

  const AtcMark := "atc"
  const QtMark := "qt"

  /** A link as a list entry: its text ("Link" when missing) and its URL. */
  datatype ButtonLink = ButtonLink(text: string, url: string)

  datatype Groups = Groups(ebay: seq<ButtonLink>, fba: seq<ButtonLink>, buy: seq<ButtonLink>, atc: seq<ButtonLink>, other: seq<ButtonLink>)

  const NoGroups := Groups([], [], [], [], [])

  /** The lists with `b` appended to list `grp`. */
  function Added(g: Groups, grp: Group, b: ButtonLink): Groups {
    match grp
    case EbayGroup => g.(ebay := g.ebay + [b])
    case FbaGroup => g.(fba := g.fba + [b])
    case BuyGroup => g.(buy := g.buy + [b])
    case AtcGroup => g.(atc := g.atc + [b])
    case OtherGroup => g.(other := g.other + [b])
  }

  function Urls(ls: seq<ButtonLink>): (r: seq<string>)
    ensures |r| == |ls| && forall k :: 0 <= k < |ls| ==> r[k] == ls[k].url
  {
    if ls == [] then [] else Urls(ls[..|ls| - 1]) + [ls[|ls| - 1].url]
  }

  function AllUrls(g: Groups): seq<string> {
    Urls(g.ebay) + Urls(g.fba) + Urls(g.buy) + Urls(g.atc) + Urls(g.other)
  }

  const HttpPrefix := "http"
  const DefaultButtonText := "Link"

  /** A link becomes a button when its URL starts with "http" (so is not empty). */
  predicate Usable(l: EmbedLink) {
    StartsWith(l.url.GetOr(""), HttpPrefix)
  }

  /** The lists being filled and the URLs already placed (`seen_urls`). */
  datatype Sorting = Sorting(groups: Groups, seen: set<string>)

  /** One iteration of the sorting loop: a usable link whose URL is not seen yet joins its list. */
  function Step(st: Sorting, l: EmbedLink): Sorting {
    if Usable(l) && l.url.value !in st.seen
    then Sorting(Added(st.groups, GroupOf(l), ButtonLink(l.text.GetOr(DefaultButtonText), l.url.value)), st.seen + {l.url.value})
    else st
  }

  /** The state after sorting `links`. */
  function Sorted(links: seq<EmbedLink>): Sorting {
    if links == [] then Sorting(NoGroups, {})
    else Step(Sorted(links[..|links| - 1]), links[|links| - 1])
  }

  lemma SortedStep(init: seq<EmbedLink>, l: EmbedLink)
    ensures Sorted(init + [l]) == Step(Sorted(init), l)
  {
    assert (init + [l])[..|init|] == init;
  }

  lemma UrlsConcat(a: seq<ButtonLink>, b: seq<ButtonLink>)
    ensures Urls(a + b) == Urls(a) + Urls(b)
  {
    assert Urls(a + b) == Urls(a) + Urls(b);
  }

  lemma UrlsSnoc(ls: seq<ButtonLink>, b: ButtonLink)
    ensures multiset(Urls(ls + [b])) == multiset(Urls(ls)) + multiset{b.url}
  {
    UrlsConcat(ls, [b]);
  }

  lemma AllUrlsBag(g: Groups)
    ensures multiset(AllUrls(g)) ==
      multiset(Urls(g.ebay)) + multiset(Urls(g.fba)) + multiset(Urls(g.buy)) + multiset(Urls(g.atc)) + multiset(Urls(g.other))
  {
  }

  // Appending to one list adds its URL to the lists' URLs; one lemma per list keeps each proof small.

  lemma EbayAppended(g: Groups, b: ButtonLink)
    ensures multiset(AllUrls(g.(ebay := g.ebay + [b]))) == multiset(AllUrls(g)) + multiset{b.url}
  {
    AllUrlsBag(g);
    AllUrlsBag(g.(ebay := g.ebay + [b]));
    UrlsSnoc(g.ebay, b);
  }

  lemma FbaAppended(g: Groups, b: ButtonLink)
    ensures multiset(AllUrls(g.(fba := g.fba + [b]))) == multiset(AllUrls(g)) + multiset{b.url}
  {
    AllUrlsBag(g);
    AllUrlsBag(g.(fba := g.fba + [b]));
    UrlsSnoc(g.fba, b);
  }

  lemma BuyAppended(g: Groups, b: ButtonLink)
    ensures multiset(AllUrls(g.(buy := g.buy + [b]))) == multiset(AllUrls(g)) + multiset{b.url}
  {
    AllUrlsBag(g);
    AllUrlsBag(g.(buy := g.buy + [b]));
    UrlsSnoc(g.buy, b);
  }

  lemma AtcAppended(g: Groups, b: ButtonLink)
    ensures multiset(AllUrls(g.(atc := g.atc + [b]))) == multiset(AllUrls(g)) + multiset{b.url}
  {
    AllUrlsBag(g);
    AllUrlsBag(g.(atc := g.atc + [b]));
    UrlsSnoc(g.atc, b);
  }

  lemma OtherAppended(g: Groups, b: ButtonLink)
    ensures multiset(AllUrls(g.(other := g.other + [b]))) == multiset(AllUrls(g)) + multiset{b.url}
  {
    AllUrlsBag(g);
    AllUrlsBag(g.(other := g.other + [b]));
    UrlsSnoc(g.other, b);
  }

  /** Adding a link adds exactly its URL to the lists' URLs. */
  lemma AddedUrls(g: Groups, grp: Group, b: ButtonLink)
    ensures multiset(AllUrls(Added(g, grp, b))) == multiset(AllUrls(g)) + multiset{b.url}
  {
    match grp
    case EbayGroup => EbayAppended(g, b);
    case FbaGroup => FbaAppended(g, b);
    case BuyGroup => BuyAppended(g, b);
    case AtcGroup => AtcAppended(g, b);
    case OtherGroup => OtherAppended(g, b);
  }

  /** Each seen URL is listed exactly once, and nothing else is listed. */
  ghost predicate Consistent(st: Sorting) {
    forall u :: multiset(AllUrls(st.groups))[u] == if u in st.seen then 1 else 0
  }

  lemma StepConsistent(st: Sorting, l: EmbedLink)
    requires Consistent(st)
    ensures Consistent(Step(st, l))
  {
    if Usable(l) && l.url.value !in st.seen {
      var u := l.url.value;
      var g := Added(st.groups, GroupOf(l), ButtonLink(l.text.GetOr(DefaultButtonText), u));
      AddedUrls(st.groups, GroupOf(l), ButtonLink(l.text.GetOr(DefaultButtonText), u));
      ConsistentAdd(st, g, u);
    }
  }

  /** Listing one more URL, not seen before, and marking it seen keeps the lists consistent. */
  lemma ConsistentAdd(st: Sorting, g: Groups, u: string)
    requires Consistent(st) && u !in st.seen
    requires multiset(AllUrls(g)) == multiset(AllUrls(st.groups)) + multiset{u}
    ensures Consistent(Sorting(g, st.seen + {u}))
  {
  }

  lemma {:induction false} SortedConsistent(links: seq<EmbedLink>)
    ensures Consistent(Sorted(links))
  {
    if links != [] {
      SortedConsistent(links[..|links| - 1]);
      StepConsistent(Sorted(links[..|links| - 1]), links[|links| - 1]);
    }
  }

  /** The URLs seen are exactly those of the usable links. */
  lemma {:induction false} SortedSeen(links: seq<EmbedLink>)
    ensures forall u :: u in Sorted(links).seen <==> exists k :: 0 <= k < |links| && Usable(links[k]) && links[k].url == Some(u)
  {
    if links != [] {
      var init := links[..|links| - 1];
      var l := links[|links| - 1];
      SortedSeen(init);
      assert init + [l] == links;
      SortedStep(init, l);
      forall u ensures u in Sorted(links).seen <==> exists k :: 0 <= k < |links| && Usable(links[k]) && links[k].url == Some(u) {
        if exists k :: 0 <= k < |links| && Usable(links[k]) && links[k].url == Some(u) {
          var k :| 0 <= k < |links| && Usable(links[k]) && links[k].url == Some(u);
          if k < |init| {
            assert init[k] == links[k];
          }
        }
        if u in Sorted(init).seen {
          var k :| 0 <= k < |init| && Usable(init[k]) && init[k].url == Some(u);
          assert links[k] == init[k];
        }
      }
    }
  }

  /** A button: its caption and the URL it opens. */
  datatype Button = Button(caption: string, url: string)

  const Digits: set<char> := {'0', '1', '2', '3', '4', '5', '6', '7', '8', '9'}

  /** `r` is the run of digits starting at `i`, the first digit of `text`: what `re.search(r'\d+', text)` matches. */
  predicate FirstDigitsAt(text: string, i: int, r: string) {
    && 0 <= i <= |text| - |r| && text[i..i + |r|] == r
    && (forall j :: 0 <= j < i ==> text[j] !in Digits)
    && (i + |r| == |text| || text[i + |r|] !in Digits)
  }

  /** The first run of digits in the text (`re.search(r'\d+', text)`), else the whole text. */
  function Quantity(text: string): (r: string)
    ensures (forall k :: 0 <= k < |text| ==> text[k] !in Digits) ==> r == text
    ensures (exists k :: 0 <= k < |text| && text[k] in Digits) ==>
      && r != [] && (forall k :: 0 <= k < |r| ==> IsDigit(r[k]))
      && exists i :: FirstDigitsAt(text, i, r)
  {
    match FindCharFrom(text, Digits, 0)
    case Some(i) =>
      var e := SkipDigitsOr(text, i, {});
      assert FirstDigitsAt(text, i, text[i..e]);
      text[i..e]
    case None => text
  }

  /** The caption of a button of the given list. */
  function Caption(grp: Group, text: string): string {
    match grp
    case EbayGroup => (if ContainsLower(text, "sold") then "💰" else "⚡") + " " + Take(text, 15)
    case FbaGroup => (if ContainsLower(text, "keepa") then "📈" else "🔎") + " " + Take(text, 15)
    case BuyGroup => "🛒 " + Take(text, 18)
    case AtcGroup => "🛒 " + Quantity(text)
    case OtherGroup => "🔗 " + Take(text, 15)
  }

  /** One button per entry, in order. */
  function ButtonRow(grp: Group, ls: seq<ButtonLink>): (r: seq<Button>)
    ensures |r| == |ls| && forall k :: 0 <= k < |ls| ==> r[k] == Button(Caption(grp, ls[k].text), ls[k].url)
  {
    if ls == [] then [] else ButtonRow(grp, ls[..|ls| - 1]) + [Button(Caption(grp, ls[|ls| - 1].text), ls[|ls| - 1].url)]
  }

  /** A row of the entries, or no row when there are none. */
  function Rows(grp: Group, ls: seq<ButtonLink>): seq<seq<Button>> {
    if ls == [] then [] else [ButtonRow(grp, ls)]
  }

  /** The quantity buttons, three to a row. */
  function AtcRows(ls: seq<ButtonLink>): seq<seq<Button>>
    decreases |ls|
  {
    if |ls| <= 3 then Rows(AtcGroup, ls) else [ButtonRow(AtcGroup, ls[..3])] + AtcRows(ls[3..])
  }

  /** The keyboard rows: eBay, FBA, buy, quantity and other links, each list cut to its cap. */
  function Keyboard(g: Groups): seq<seq<Button>> {
    Rows(EbayGroup, Prefix(g.ebay, 3)) + Rows(FbaGroup, Prefix(g.fba, 3)) + Rows(BuyGroup, Prefix(g.buy, 2))
    + AtcRows(Prefix(g.atc, 5)) + Rows(OtherGroup, Prefix(g.other, 3))
  }

  /** The keyboard an alert carries: none without links, and none when no link yields a button. */
  function KeyboardOf(embed: Option<Embed>): Option<seq<seq<Button>>> {
    if embed.None? || embed.value.links == [] then None
    else
      var kb := Keyboard(Sorted(embed.value.links).groups);
      if kb == [] then None else Some(kb)
  }

  /**
   * The button section of `format_telegram_message`: the links are sorted
   * into five lists in one pass that skips unusable and repeated URLs;
   * the rows are then laid out from the lists.
   */
  method BuildKeyboard(embed: Option<Embed>) returns (keyboard: Option<seq<seq<Button>>>)
    ensures keyboard == KeyboardOf(embed)
  {
    if embed.None? || embed.value.links == [] {
      return None;
    }
    var links := embed.value.links;
    var seen: set<string> := {};
    var g := NoGroups;
    for i := 0 to |links|
      invariant Sorting(g, seen) == Sorted(links[..i])
    {
      var link := links[i];
      assert links[..i + 1] == links[..i] + [link];
      SortedStep(links[..i], link);
      var url := link.url.GetOr("");
      if url == "" || !StartsWith(url, HttpPrefix) {
        continue;
      }
      if url in seen {
        continue;
      }
      g := Added(g, GroupOf(link), ButtonLink(link.text.GetOr(DefaultButtonText), url));
      seen := seen + {url};
    }
    assert links[..|links|] == links;
    var kb := Keyboard(g);
    keyboard := if kb == [] then None else Some(kb);
  }

  // Keyboard properties

  function RowUrls(row: seq<Button>): (r: seq<string>)
    ensures |r| == |row| && forall k :: 0 <= k < |row| ==> r[k] == row[k].url
  {
    if row == [] then [] else RowUrls(row[..|row| - 1]) + [row[|row| - 1].url]
  }

  /** The URLs of a keyboard's buttons, row by row. */
  function ButtonUrls(kb: seq<seq<Button>>): seq<string> {
    if kb == [] then [] else RowUrls(kb[0]) + ButtonUrls(kb[1..])
  }

  lemma {:induction false} ButtonUrlsConcat(a: seq<seq<Button>>, b: seq<seq<Button>>)
    ensures ButtonUrls(a + b) == ButtonUrls(a) + ButtonUrls(b)
  {
    if a != [] {
      assert (a + b)[0] == a[0] && (a + b)[1..] == a[1..] + b;
      ButtonUrlsConcat(a[1..], b);
      assert ButtonUrls(a + b) == RowUrls(a[0]) + (ButtonUrls(a[1..]) + ButtonUrls(b));
      assert RowUrls(a[0]) + (ButtonUrls(a[1..]) + ButtonUrls(b)) == (RowUrls(a[0]) + ButtonUrls(a[1..])) + ButtonUrls(b);
    } else {
      assert a + b == b;
    }
  }

  lemma RowsUrls(grp: Group, ls: seq<ButtonLink>)
    ensures ButtonUrls(Rows(grp, ls)) == Urls(ls)
  {
    if ls != [] {
      assert RowUrls(ButtonRow(grp, ls)) == Urls(ls);
      assert Rows(grp, ls)[1..] == [];
    }
  }

  lemma {:induction false} AtcRowsUrls(ls: seq<ButtonLink>)
    ensures ButtonUrls(AtcRows(ls)) == Urls(ls)
    decreases |ls|
  {
    if |ls| <= 3 {
      RowsUrls(AtcGroup, ls);
    } else {
      var head, tail := ls[..3], ls[3..];
      assert head + tail == ls;
      UrlsConcat(head, tail);
      assert AtcRows(ls) == Rows(AtcGroup, head) + AtcRows(tail);
      ButtonUrlsConcat(Rows(AtcGroup, head), AtcRows(tail));
      RowsUrls(AtcGroup, head);
      AtcRowsUrls(tail);
    }
  }

  lemma PrefixUrls(ls: seq<ButtonLink>, n: nat)
    ensures Urls(Prefix(ls, n)) == Prefix(Urls(ls), n)
  {
  }

  /** The URLs on the keyboard: the first 3 eBay, 3 FBA, 2 buy, 5 quantity and 3 other URLs, in that order. */
  lemma KeyboardUrls(g: Groups)
    ensures ButtonUrls(Keyboard(g)) ==
      Prefix(Urls(g.ebay), 3) + Prefix(Urls(g.fba), 3) + Prefix(Urls(g.buy), 2) + Prefix(Urls(g.atc), 5) + Prefix(Urls(g.other), 3)
  {
    var e := Rows(EbayGroup, Prefix(g.ebay, 3));
    var f := Rows(FbaGroup, Prefix(g.fba, 3));
    var b := Rows(BuyGroup, Prefix(g.buy, 2));
    var a := AtcRows(Prefix(g.atc, 5));
    var o := Rows(OtherGroup, Prefix(g.other, 3));
    ButtonUrlsConcat(e + f + b + a, o);
    ButtonUrlsConcat(e + f + b, a);
    ButtonUrlsConcat(e + f, b);
    ButtonUrlsConcat(e, f);
    RowsUrls(EbayGroup, Prefix(g.ebay, 3));
    RowsUrls(FbaGroup, Prefix(g.fba, 3));
    RowsUrls(BuyGroup, Prefix(g.buy, 2));
    AtcRowsUrls(Prefix(g.atc, 5));
    RowsUrls(OtherGroup, Prefix(g.other, 3));
    PrefixUrls(g.ebay, 3);
    PrefixUrls(g.fba, 3);
    PrefixUrls(g.buy, 2);
    PrefixUrls(g.atc, 5);
    PrefixUrls(g.other, 3);
  }

  /** Rows hold one to three buttons. */
  predicate ShortRows(kb: seq<seq<Button>>) {
    forall k :: 0 <= k < |kb| ==> 1 <= |kb[k]| <= 3
  }

  /** Rows hold one to three buttons, and there are at most six of them. */
  predicate WellShaped(kb: seq<seq<Button>>) {
    |kb| <= 6 && ShortRows(kb)
  }

  lemma ShortRowsConcat(a: seq<seq<Button>>, b: seq<seq<Button>>)
    requires ShortRows(a) && ShortRows(b)
    ensures ShortRows(a + b)
  {
    forall k | 0 <= k < |a + b| ensures 1 <= |(a + b)[k]| <= 3 {
      if k >= |a| {
        assert (a + b)[k] == b[k - |a|];
      }
    }
  }

  lemma RowsShape(grp: Group, ls: seq<ButtonLink>)
    requires |ls| <= 3
    ensures |Rows(grp, ls)| <= 1 && ShortRows(Rows(grp, ls))
  {
  }

  lemma {:induction false} AtcRowsShape(ls: seq<ButtonLink>)
    requires |ls| <= 5
    ensures |AtcRows(ls)| <= 2 && ShortRows(AtcRows(ls))
  {
    if |ls| > 3 {
      RowsShape(AtcGroup, ls[3..]);
      assert AtcRows(ls[3..]) == Rows(AtcGroup, ls[3..]);
      assert AtcRows(ls) == [ButtonRow(AtcGroup, ls[..3])] + AtcRows(ls[3..]);
    } else {
      RowsShape(AtcGroup, ls);
    }
  }

  lemma KeyboardShape(g: Groups)
    ensures WellShaped(Keyboard(g))
  {
    var e := Rows(EbayGroup, Prefix(g.ebay, 3));
    var f := Rows(FbaGroup, Prefix(g.fba, 3));
    var b := Rows(BuyGroup, Prefix(g.buy, 2));
    var a := AtcRows(Prefix(g.atc, 5));
    var o := Rows(OtherGroup, Prefix(g.other, 3));
    RowsShape(EbayGroup, Prefix(g.ebay, 3));
    RowsShape(FbaGroup, Prefix(g.fba, 3));
    RowsShape(BuyGroup, Prefix(g.buy, 2));
    AtcRowsShape(Prefix(g.atc, 5));
    RowsShape(OtherGroup, Prefix(g.other, 3));
    ShortRowsConcat(e, f);
    ShortRowsConcat(e + f, b);
    ShortRowsConcat(e + f + b, a);
    ShortRowsConcat(e + f + b + a, o);
    assert Keyboard(g) == e + f + b + a + o;
  }

  lemma PrefixMultiset(s: seq<string>, n: nat)
    ensures multiset(Prefix(s, n)) <= multiset(s)
  {
    if n < |s| {
      assert s == s[..n] + s[n..];
    }
  }

  /** An empty keyboard is exactly one with no links in any list. */
  lemma KeyboardEmpty(g: Groups)
    ensures Keyboard(g) == [] <==> AllUrls(g) == []
  {
    KeyboardUrls(g);
    KeyboardShape(g);
    if Keyboard(g) != [] {
      assert ButtonUrls(Keyboard(g)) != [] by {
        assert ButtonUrls(Keyboard(g)) == RowUrls(Keyboard(g)[0]) + ButtonUrls(Keyboard(g)[1..]);
      }
    }
  }

  /** The keyboard's URLs are drawn from the lists, so no URL occurs more often on it than in them. */
  lemma KeyboardUrlsWithin(g: Groups)
    ensures multiset(ButtonUrls(Keyboard(g))) <= multiset(AllUrls(g))
  {
    KeyboardUrls(g);
    AllUrlsBag(g);
    PrefixMultiset(Urls(g.ebay), 3);
    PrefixMultiset(Urls(g.fba), 3);
    PrefixMultiset(Urls(g.buy), 2);
    PrefixMultiset(Urls(g.atc), 5);
    PrefixMultiset(Urls(g.other), 3);
  }

  lemma ConsistentEmpty(st: Sorting)
    requires Consistent(st)
    ensures AllUrls(st.groups) == [] <==> st.seen == {}
  {
    if AllUrls(st.groups) != [] {
      assert multiset(AllUrls(st.groups))[AllUrls(st.groups)[0]] > 0;
    }
    if st.seen != {} {
      var u :| u in st.seen;
      assert multiset(AllUrls(st.groups))[u] == 1;
    }
  }

  lemma SeenEmpty(links: seq<EmbedLink>)
    ensures Sorted(links).seen == {} <==> forall k :: 0 <= k < |links| ==> !Usable(links[k])
  {
    SortedSeen(links);
    if k :| 0 <= k < |links| && Usable(links[k]) {
      assert links[k].url.value in Sorted(links).seen;
    }
  }

  /** An alert has no keyboard exactly when it has no embed or none of its links has an http URL. */
  lemma KeyboardOfNone(embed: Option<Embed>)
    ensures KeyboardOf(embed).None? <==>
      embed.None? || forall k :: 0 <= k < |embed.value.links| ==> !Usable(embed.value.links[k])
  {
    if embed.Some? {
      var links := embed.value.links;
      var st := Sorted(links);
      SortedConsistent(links);
      ConsistentEmpty(st);
      SeenEmpty(links);
      KeyboardEmpty(st.groups);
    }
  }

  /** Every URL seen while sorting belongs to a usable link, so starts with "http". */
  lemma SeenHttp(links: seq<EmbedLink>)
    ensures forall u :: u in Sorted(links).seen ==> StartsWith(u, HttpPrefix)
  {
    SortedSeen(links);
    forall u | u in Sorted(links).seen ensures StartsWith(u, HttpPrefix) {
      var k :| 0 <= k < |links| && Usable(links[k]) && links[k].url == Some(u);
    }
  }

  /** The keyboard laid out from consistent lists of http URLs. */
  lemma KeyboardSafe(g: Groups, seen: set<string>)
    requires Consistent(Sorting(g, seen))
    requires forall u :: u in seen ==> StartsWith(u, HttpPrefix)
    ensures WellShaped(Keyboard(g))
    ensures AtMostOnce(ButtonUrls(Keyboard(g)))
    ensures forall u :: u in ButtonUrls(Keyboard(g)) ==> StartsWith(u, HttpPrefix)
  {
    KeyboardShape(g);
    KeyboardUrlsWithin(g);
    var bu := ButtonUrls(Keyboard(g));
    forall x ensures multiset(bu)[x] <= 1 {
      assert multiset(bu)[x] <= multiset(AllUrls(g))[x];
    }
    forall u | u in bu ensures StartsWith(u, HttpPrefix) {
      assert multiset(bu)[u] > 0;
      assert u in seen;
    }
  }

  /** A keyboard is well shaped, carries only http URLs and never the same URL on two buttons. */
  lemma KeyboardOfSafe(embed: Option<Embed>)
    requires KeyboardOf(embed).Some?
    ensures WellShaped(KeyboardOf(embed).value)
    ensures AtMostOnce(ButtonUrls(KeyboardOf(embed).value))
    ensures forall u :: u in ButtonUrls(KeyboardOf(embed).value) ==> StartsWith(u, HttpPrefix)
  {
    var links := embed.value.links;
    var st := Sorted(links);
    assert KeyboardOf(embed).value == Keyboard(st.groups);
    SortedConsistent(links);
    SeenHttp(links);
    KeyboardSafe(st.groups, st.seen);
  }
}
