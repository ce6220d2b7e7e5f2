/**
 * inspect_latest_message.py: the hand-written `.env` reader and the search
 * for the newest stored message that carries pictures. The file is given as
 * its lines (absent when there is no `.env`), the process environment is an
 * object whose variables the reader sets, and the fetched messages are an
 * input in the order the store returned them.
 */
module EnvFile {
  import opened Wrappers
  import opened Text
  import opened Seqs

  // ---------------------------------------------------------------------
  // One line of `.env`

  /** The characters `strip("'")` and then `strip('"')` remove. */
  const SingleQuote: char := '\''
  const DoubleQuote: char := '"'

  /** A line after stripping: blank, a comment, or without `=`, it sets nothing; otherwise the key and value it sets. */
  function ParseLine(line: string): Option<(string, string)> {
    var l := Strip(line);
    if l == [] || l[0] == '#' then None
    else match FindCharFrom(l, {'='}, 0)
      case None => None
      case Some(i) => Some((Strip(l[..i]), ValueOf(l[i + 1..])))
  }

  /** `value.strip().strip("'").strip('"')`. */
  function ValueOf(raw: string): string {
    StripChars(StripChars(Strip(raw), {SingleQuote}), {DoubleQuote})
  }

  /** Blank lines, comments and lines without `=` set nothing; every other line sets a variable. */
  lemma ParseLineSkips(line: string)
    ensures ParseLine(line).None? <==> Strip(line) == [] || Strip(line)[0] == '#' || '=' !in Strip(line)
  {
    var l := Strip(line);
    if l != [] && l[0] != '#' {
      if '=' in l {
        ContainsCharFound(l, '=');
      } else {
        FindNoChar(l, '=');
      }
    }
  }

  /** The line is split at its first `=`: the key holds none, and is trimmed. */
  lemma ParseLineKey(line: string)
    requires ParseLine(line).Some?
    ensures '=' !in ParseLine(line).value.0 && Trimmed(ParseLine(line).value.0)
  {
    var l := Strip(line);
    var i := FindCharFrom(l, {'='}, 0).value;
    assert '=' !in l[..i] by {
      forall j | 0 <= j < i ensures l[..i][j] != '=' {
        assert l[..i][j] == l[j];
      }
    }
    StripSubset(l[..i]);
  }

  /** Stripping only removes characters. */
  lemma StripSubset(s: string)
    ensures forall c :: c in Strip(s) ==> c in s
  {
    var r := Strip(s);
    var t := TrimLeft(s);
    forall c | c in r ensures c in s {
      var k :| 0 <= k < |r| && r[k] == c;
      assert r[k] == t[k];
      assert t[k] == s[|s| - |t| + k];
    }
  }

  /** A character not in a text is not found. */
  lemma FindNoChar(s: string, c: char)
    requires c !in s
    ensures FindCharFrom(s, {c}, 0).None?
  {
  }

  /** A character in a text is found by the search from the start. */
  lemma ContainsCharFound(s: string, c: char)
    requires c in s
    ensures FindCharFrom(s, {c}, 0).Some?
  {
    var k :| 0 <= k < |s| && s[k] == c;
  }

  /** A text with no quote character at either end is its own `strip(q)`. */
  lemma StripCharsUnquoted(s: string, q: char)
    requires s != [] ==> s[0] != q && s[|s| - 1] != q
    ensures StripChars(s, {q}) == s
  {
    assert TrimLeftChars(s, {q}) == s;
  }

  /** `strip(q)` removes a pair of quotes around a text that has none at its ends. */
  lemma StripCharsQuoted(v: string, q: char)
    requires v != [] ==> v[0] != q && v[|v| - 1] != q
    ensures StripChars([q] + v + [q], {q}) == v
  {
    DropOpeningQuote(v, q);
    KeepAfterOpening(v, q);
    DropClosingQuote(v, q);
  }

  lemma DropOpeningQuote(v: string, q: char)
    ensures TrimLeftChars([q] + v + [q], {q}) == TrimLeftChars(v + [q], {q})
  {
    assert ([q] + v + [q])[1..] == v + [q];
  }

  lemma KeepAfterOpening(v: string, q: char)
    requires v != [] ==> v[0] != q
    ensures v != [] ==> TrimLeftChars(v + [q], {q}) == v + [q]
    ensures v == [] ==> TrimLeftChars(v + [q], {q}) == []
  {
    if v == [] {
      assert [q][1..] == [];
    } else {
      assert (v + [q])[0] == v[0];
    }
  }

  lemma DropClosingQuote(v: string, q: char)
    requires v != [] ==> v[|v| - 1] != q
    ensures TrimRightChars(v + [q], {q}) == v
  {
    assert (v + [q])[..|v|] == v;
    assert TrimRightChars(v + [q], {q}) == TrimRightChars(v, {q});
  }

  /** How a value may be written: bare, or in single or double quotes. */
  datatype Quoting = Bare | InSingle | InDouble

  function Quoted(value: string, q: Quoting): string {
    match q
    case Bare => value
    case InSingle => [SingleQuote] + value + [SingleQuote]
    case InDouble => [DoubleQuote] + value + [DoubleQuote]
  }

  /** A value the reader gives back as written: trimmed, with no quote character at either end. */
  predicate PlainValue(v: string) {
    Trimmed(v) && (v != [] ==> v[0] !in {SingleQuote, DoubleQuote} && v[|v| - 1] !in {SingleQuote, DoubleQuote})
  }

  /** A line `key=rhs` is split at its first `=`, so `rhs` may hold `=` signs of its own. */
  lemma ParseAt(key: string, rhs: string)
    requires key != [] && Trimmed(key) && '=' !in key && key[0] != '#'
    requires rhs != [] ==> !IsSpace(rhs[|rhs| - 1])
    ensures ParseLine(key + "=" + rhs) == Some((key, ValueOf(rhs)))
  {
    var line := key + "=" + rhs;
    AssignmentTrimmed(key, rhs);
    StripTrimmed(line);
    AssignmentSplit(key, rhs);
    StripTrimmed(key);
    ParseSplit(line, |key|, key, rhs);
  }

  /** A stripped line whose first `=` is at `i` sets the stripped text before it to the value after it. */
  lemma ParseSplit(line: string, i: nat, key: string, rhs: string)
    requires Strip(line) == line && line != [] && line[0] != '#' && FindCharFrom(line, {'='}, 0) == Some(i)
    requires line[..i] == key && Strip(key) == key && line[i + 1..] == rhs
    ensures ParseLine(line) == Some((key, ValueOf(rhs)))
  {
    ParseSplitRaw(line, i);
    SameValue(line[i + 1..], rhs);
  }

  lemma ParseSplitRaw(line: string, i: nat)
    requires Strip(line) == line && line != [] && line[0] != '#' && FindCharFrom(line, {'='}, 0) == Some(i)
    ensures ParseLine(line) == Some((Strip(line[..i]), ValueOf(line[i + 1..])))
  {
  }

  lemma SameValue(a: string, b: string)
    requires a == b
    ensures ValueOf(a) == ValueOf(b)
  {
  }

  lemma AssignmentTrimmed(key: string, rhs: string)
    requires key != [] && Trimmed(key)
    requires rhs != [] ==> !IsSpace(rhs[|rhs| - 1])
    ensures Trimmed(key + "=" + rhs)
    ensures (key + "=" + rhs)[0] == key[0]
  {
    var head := key + "=";
    assert head[0] == key[0] && head[|head| - 1] == '=';
    var line := head + rhs;
    assert line[0] == head[0];
    if rhs == [] {
      assert line == head;
    } else {
      assert line[|line| - 1] == rhs[|rhs| - 1];
    }
  }

  lemma AssignmentSplit(key: string, rhs: string)
    requires '=' !in key
    ensures FindCharFrom(key + "=" + rhs, {'='}, 0) == Some(|key|)
    ensures (key + "=" + rhs)[..|key|] == key && (key + "=" + rhs)[|key| + 1..] == rhs
  {
    var line := key + "=" + rhs;
    assert line[..|key|] == key;
    assert line[|key| + 1..] == rhs;
    assert line[|key|] == '=';
    forall j | 0 <= j < |key| ensures line[j] !in {'='} {
      assert line[j] == key[j];
    }
  }

  /** The value read from `raw`, one strip at a time. */
  lemma ValueOfSteps(raw: string, unquoted: string)
    requires StripChars(Strip(raw), {SingleQuote}) == unquoted
    ensures ValueOf(raw) == StripChars(unquoted, {DoubleQuote})
  {
  }

  /** A bare plain value is read as written. */
  lemma ValueOfBare(value: string)
    requires PlainValue(value)
    ensures ValueOf(value) == value
  {
    StripTrimmed(value);
    StripCharsUnquoted(value, SingleQuote);
    ValueOfSteps(value, value);
    StripCharsUnquoted(value, DoubleQuote);
  }

  /** A plain value in single quotes is read without them. */
  lemma ValueOfSingle(value: string)
    requires PlainValue(value)
    ensures ValueOf([SingleQuote] + value + [SingleQuote]) == value
  {
    var q := [SingleQuote] + value + [SingleQuote];
    QuotedEnds(value, SingleQuote);
    StripTrimmed(q);
    StripCharsQuoted(value, SingleQuote);
    ValueOfSteps(q, value);
    StripCharsUnquoted(value, DoubleQuote);
  }

  /** A plain value in double quotes is read without them. */
  lemma ValueOfDouble(value: string)
    requires PlainValue(value)
    ensures ValueOf([DoubleQuote] + value + [DoubleQuote]) == value
  {
    DoubleQuotedSteps([DoubleQuote] + value + [DoubleQuote], value);
    StripCharsQuoted(value, DoubleQuote);
  }

  /** A double-quoted text loses nothing to `strip()` and `strip("'")`. */
  lemma DoubleQuotedSteps(q: string, value: string)
    requires q == [DoubleQuote] + value + [DoubleQuote]
    ensures ValueOf(q) == StripChars(q, {DoubleQuote})
  {
    QuotedEnds(value, DoubleQuote);
    StripTrimmed(q);
    QuotedKept(value, DoubleQuote, SingleQuote);
    ValueOfSteps(q, q);
  }

  /** Stripping another character leaves a quoted text as it is. */
  lemma QuotedKept(value: string, q: char, c: char)
    requires q != c
    ensures StripChars([q] + value + [q], {c}) == [q] + value + [q]
  {
    var s := [q] + value + [q];
    assert s[0] == q && s[|s| - 1] == q;
    StripCharsUnquoted(s, c);
  }

  /** A quoted text starts and ends with its quote, so it is trimmed. */
  lemma QuotedEnds(value: string, q: char)
    requires !IsSpace(q)
    ensures var s := [q] + value + [q]; s[0] == q && s[|s| - 1] == q && s[|value| + 1] == q && Trimmed(s)
  {
  }

  /** A plain value, bare or quoted, is read as written, and the text holding it ends in no whitespace. */
  lemma ValueOfQuoted(value: string, q: Quoting)
    requires PlainValue(value)
    ensures ValueOf(Quoted(value, q)) == value
  {
    match q
    case Bare => ValueOfBare(value);
    case InSingle => ValueOfSingle(value);
    case InDouble => ValueOfDouble(value);
  }

  /** A written value ends in no whitespace. */
  lemma QuotedLast(value: string, q: Quoting)
    requires PlainValue(value)
    ensures Quoted(value, q) != [] ==> !IsSpace(Quoted(value, q)[|Quoted(value, q)| - 1])
  {
    match q
    case Bare =>
    case InSingle => QuotedEnds(value, SingleQuote);
    case InDouble => QuotedEnds(value, DoubleQuote);
  }

  /**
   * A line `key=value`, the value bare or in single or double quotes, sets
   * exactly that key to that value.
   */
  lemma ParseAssignment(key: string, value: string, q: Quoting)
    requires key != [] && Trimmed(key) && '=' !in key && key[0] != '#'
    requires PlainValue(value)
    ensures ParseLine(key + "=" + Quoted(value, q)) == Some((key, value))
  {
    ValueOfQuoted(value, q);
    QuotedLast(value, q);
    ParseAt(key, Quoted(value, q));
  }

  /** CPython's `putenv` refuses an empty name and NUL characters with a `ValueError`. */
  predicate Settable(key: string, value: string) {
    key != [] && '\0' !in key && '\0' !in value
  }

  // ---------------------------------------------------------------------
  // The whole file

  /** What one line of the file asks for: nothing, or setting a key to a value. */
  type Entry = Option<(string, string)>

  /** The entries of the file's lines, in order. */
  function Entries(lines: seq<string>): (r: seq<Entry>)
    ensures |r| == |lines| && forall j :: 0 <= j < |lines| ==> r[j] == ParseLine(lines[j])
  {
    Mapped(ParseLine, lines)
  }

  /** The environment after reading some lines, and whether a refused assignment stopped the reading. */
  datatype Loaded = Loaded(vars: map<string, string>, raised: bool)

  /** One entry of the reading: nothing once stopped, else its assignment, if it has one and it is accepted. */
  function Step(before: Loaded, entry: Entry): Loaded {
    if before.raised then before
    else match entry
      case None => before
      case Some((key, value)) =>
        if Settable(key, value) then Loaded(before.vars[key := value], false)
        else Loaded(before.vars, true)
  }

  /** `load_env_manual` on the entries read so far. */
  function Load(vars: map<string, string>, entries: seq<Entry>): Loaded {
    if entries == [] then Loaded(vars, false)
    else Step(Load(vars, entries[..|entries| - 1]), entries[|entries| - 1])
  }

  /** Entry `e` sets `key`. */
  predicate Assigns(e: Entry, key: string) {
    e.Some? && e.value.0 == key
  }

  /** A variable no entry names keeps its value, or its absence. */
  lemma {:induction false} LoadUntouched(vars: map<string, string>, entries: seq<Entry>, key: string)
    requires forall j :: 0 <= j < |entries| ==> !Assigns(entries[j], key)
    ensures key in Load(vars, entries).vars <==> key in vars
    ensures key in vars ==> Load(vars, entries).vars[key] == vars[key]
  {
    if entries != [] {
      var init := entries[..|entries| - 1];
      forall j | 0 <= j < |init| ensures !Assigns(init[j], key) {
        assert init[j] == entries[j];
      }
      LoadUntouched(vars, init, key);
    }
  }

  /** When the reading is not stopped, the last entry naming a key decides its value. */
  lemma {:induction false} LoadLastWins(vars: map<string, string>, entries: seq<Entry>, i: nat, key: string)
    requires i < |entries| && Assigns(entries[i], key)
    requires forall j :: i < j < |entries| ==> !Assigns(entries[j], key)
    requires !Load(vars, entries).raised
    ensures key in Load(vars, entries).vars && Load(vars, entries).vars[key] == entries[i].value.1
  {
    var init := entries[..|entries| - 1];
    if i < |entries| - 1 {
      forall j | i < j < |init| ensures !Assigns(init[j], key) {
        assert init[j] == entries[j];
      }
      assert init[i] == entries[i];
      LoadLastWins(vars, init, i, key);
    }
  }

  /** Once an entry is refused, nothing after it is read. */
  lemma {:induction false} LoadStops(vars: map<string, string>, entries: seq<Entry>, more: seq<Entry>)
    requires Load(vars, entries).raised
    ensures Load(vars, entries + more) == Load(vars, entries)
  {
    if more != [] {
      LoadStops(vars, entries, more[..|more| - 1]);
      assert (entries + more)[..|entries + more| - 1] == entries + more[..|more| - 1];
    } else {
      assert entries + more == entries;
    }
  }

  /** Reading one more line of the file is one more step. */
  lemma LoadNextLine(vars: map<string, string>, lines: seq<string>, n: nat)
    requires n < |lines|
    ensures Load(vars, Entries(lines[..n + 1])) == Step(Load(vars, Entries(lines[..n])), ParseLine(lines[n]))
  {
    var before := Entries(lines[..n]);
    var entry := ParseLine(lines[n]);
    assert lines[..n + 1] == lines[..n] + [lines[n]];
    MappedAppend(ParseLine, lines[..n], [lines[n]]);
    assert Entries([lines[n]]) == [entry];
    assert (before + [entry])[..|before|] == before;
  }

  /** A file whose first `n` lines stop the reading is read no further. */
  lemma LoadStopsAt(vars: map<string, string>, lines: seq<string>, n: nat)
    requires n <= |lines| && Load(vars, Entries(lines[..n])).raised
    ensures Load(vars, Entries(lines)) == Load(vars, Entries(lines[..n]))
  {
    LoadStops(vars, Entries(lines[..n]), Entries(lines[n..]));
    SplitAt(lines, n);
    MappedAppend(ParseLine, lines[..n], lines[n..]);
  }

  /** The process environment, `os.environ`. */
  class Environment {
    var vars: map<string, string>

    constructor (vars: map<string, string>)
      ensures this.vars == vars
    {
      this.vars := vars;
    }

    /**
     * `load_env_manual`: without a file nothing is set; otherwise every
     * assignment line is applied in order, and a refused one ends the
     * reading with the variables set so far (`raised`).
     */
    method LoadEnvManual(file: Option<seq<string>>) returns (raised: bool)
      modifies this
      ensures file.None? ==> vars == old(vars) && !raised
      ensures file.Some? ==> Loaded(vars, raised) == Load(old(vars), Entries(file.value))
    {
      raised := false;
      if file.None? {
        return;
      }
      var lines := file.value;
      for n := 0 to |lines|
        invariant Load(old(vars), Entries(lines[..n])) == Loaded(vars, false)
      {
        LoadNextLine(old(vars), lines, n);
        match ParseLine(lines[n])
        case None =>
        case Some((key, value)) =>
          if !Settable(key, value) {
            LoadStopsAt(old(vars), lines, n + 1);
            return true;
          }
          vars := vars[key := value];
      }
      assert lines[..|lines|] == lines;
    }
  }

  // ---------------------------------------------------------------------
  // The newest message with pictures

  /** The part of a message's embed the search looks at. */
  datatype Embed = Embed(images: seq<string>, thumbnail: Option<string>, image: Option<string>)

  /** A fetched message: its id, when it was scraped, and its embed if `raw_data` has one. */
  datatype Message = Message(id: string, scrapedAt: int, embed: Option<Embed>)

  /** The embed has a non-empty `images` list, a thumbnail or an image. */
  predicate HasPictures(m: Message) {
    m.embed.Some? && (m.embed.value.images != [] || Truthy(m.embed.value.thumbnail) || Truthy(m.embed.value.image))
  }

  /** What `inspect_latest` reports. */
  datatype Report = MissingCredentials | HttpError(status: int) | NoMessages | WithPictures(index: nat) | NoPictures

  /** The index of the first message with pictures. */
  function FirstWithPictures(messages: seq<Message>): (r: Option<nat>)
    ensures r.Some? ==> r.value < |messages| && HasPictures(messages[r.value])
    ensures r.Some? ==> forall j :: 0 <= j < r.value ==> !HasPictures(messages[j])
    ensures r.None? ==> forall j :: 0 <= j < |messages| ==> !HasPictures(messages[j])
  {
    if messages == [] then None
    else if HasPictures(messages[0]) then Some(0)
    else match FirstWithPictures(messages[1..])
      case None => None
      case Some(k) => Some(k + 1)
  }

  /**
   * `inspect_latest`: without credentials, on an HTTP error or with no
   * messages it stops early; otherwise it walks the messages and reports the
   * first one with pictures, or that none has any.
   */
  method InspectLatest(hasCredentials: bool, status: int, messages: seq<Message>) returns (report: Report)
    ensures !hasCredentials ==> report == MissingCredentials
    ensures hasCredentials && status != 200 ==> report == HttpError(status)
    ensures hasCredentials && status == 200 && messages == [] ==> report == NoMessages
    ensures hasCredentials && status == 200 && messages != [] ==>
      report == (match FirstWithPictures(messages) case Some(k) => WithPictures(k) case None => NoPictures)
  {
    if !hasCredentials {
      return MissingCredentials;
    }
    if status != 200 {
      return HttpError(status);
    }
    if messages == [] {
      return NoMessages;
    }
    var found := false;
    var n := 0;
    while n < |messages| && !found
      invariant 0 <= n <= |messages|
      invariant forall j :: 0 <= j < n ==> !HasPictures(messages[j])
      invariant found ==> n < |messages| && HasPictures(messages[n])
      decreases |messages| - n, !found
    {
      if HasPictures(messages[n]) {
        found := true;
      } else {
        n := n + 1;
      }
    }
    report := if found then WithPictures(n) else NoPictures;
    assert FirstWithPictures(messages) == if found then Some(n) else None;
  }

  /** Messages in the order `scraped_at.desc` returns them. */
  predicate NewestFirst(messages: seq<Message>) {
    forall i, j :: 0 <= i < j < |messages| ==> messages[i].scrapedAt >= messages[j].scrapedAt
  }

  /** In newest-first order, the message reported is at least as new as every message with pictures. */
  lemma ReportedIsNewest(messages: seq<Message>)
    requires NewestFirst(messages)
    requires FirstWithPictures(messages).Some?
    ensures forall j :: 0 <= j < |messages| && HasPictures(messages[j]) ==>
      messages[FirstWithPictures(messages).value].scrapedAt >= messages[j].scrapedAt
  {
    var k := FirstWithPictures(messages).value;
    forall j | 0 <= j < |messages| && HasPictures(messages[j])
      ensures messages[k].scrapedAt >= messages[j].scrapedAt
    {
    }
  }
}
