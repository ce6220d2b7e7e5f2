/**
 * String helpers shared by the modules: the parts of Python's `str` and `re`
 * behaviour that the relay's parsers rely on, written over `seq<char>`.
 *
 * Case folding is ASCII-only (`A`..`Z` <-> `a`..`z`); every keyword the
 * relay searches for is ASCII. Whitespace is Python's `str.isspace()` set,
 * which is also what `\s`, `str.split()` and `str.strip()` use.
 */
module Text {
  import opened Wrappers

  // ---------------------------------------------------------------------
  // Characters

  predicate IsSpace(c: char) {
    c == ' ' || ('\t' <= c <= '\r') || ('\U{1C}' <= c <= '\U{1F}') || c == '\U{85}' || c == '\U{A0}'
    || c == '\U{1680}' || ('\U{2000}' <= c <= '\U{200A}') || c == '\U{2028}' || c == '\U{2029}'
    || c == '\U{202F}' || c == '\U{205F}' || c == '\U{3000}'
  }

  predicate IsDigit(c: char) { '0' <= c <= '9' }

  predicate IsAsciiUpper(c: char) { 'A' <= c <= 'Z' }

  predicate IsAscii(c: char) { c < '\U{80}' }

  function LowerChar(c: char): char {
    if IsAsciiUpper(c) then (c as int + 32) as char else c
  }

  function UpperChar(c: char): char {
    if 'a' <= c <= 'z' then (c as int - 32) as char else c
  }

  function Lower(s: string): (r: string)
    ensures |r| == |s|
    ensures forall i {:trigger r[i]} :: 0 <= i < |s| ==> r[i] == LowerChar(s[i])
  {
    if s == [] then [] else [LowerChar(s[0])] + Lower(s[1..])
  }

  function Upper(s: string): (r: string)
    ensures |r| == |s|
    ensures forall i :: 0 <= i < |s| ==> r[i] == UpperChar(s[i])
  {
    if s == [] then [] else [UpperChar(s[0])] + Upper(s[1..])
  }

  /** Python truthiness of an optional string: present and not empty. */
  predicate Truthy(s: Option<string>) {
    s.Some? && s.value != ""
  }

  // ---------------------------------------------------------------------
  // Prefixes, suffixes and substrings

  predicate StartsWith(s: string, p: string) {
    |p| <= |s| && s[..|p|] == p
  }

  predicate EndsWith(s: string, p: string) {
    |p| <= |s| && s[|s| - |p|..] == p
  }

  /** `sub` occurs in `s` at index `i`. */
  predicate OccursAt(s: string, sub: string, i: nat) {
    i + |sub| <= |s| && s[i..i + |sub|] == sub
  }

  /** Python's `sub in s`. */
  predicate Contains(s: string, sub: string) {
    exists i: nat :: i <= |s| && OccursAt(s, sub, i)
  }

  /** Python's `sub in s.lower()` for an ASCII lower-case `sub`. */
  predicate ContainsLower(s: string, sub: string) {
    Contains(Lower(s), sub)
  }

  /** The first index at or after `from` where `sub` occurs, if any. */
  function FindFrom(s: string, sub: string, from: nat): (r: Option<nat>)
    decreases |s| - from
    ensures r.Some? ==> from <= r.value && OccursAt(s, sub, r.value)
    ensures r.Some? ==> forall j: nat :: from <= j < r.value ==> !OccursAt(s, sub, j)
    ensures r.None? ==> forall j: nat :: from <= j ==> !OccursAt(s, sub, j)
  {
    if from + |sub| > |s| then None
    else if s[from..from + |sub|] == sub then Some(from)
    else FindFrom(s, sub, from + 1)
  }

  lemma ContainsIsFound(s: string, sub: string)
    ensures Contains(s, sub) <==> FindFrom(s, sub, 0).Some?
  {
    if FindFrom(s, sub, 0).Some? {
      var i := FindFrom(s, sub, 0).value;
      assert i <= |s| && OccursAt(s, sub, i);
    }
  }

  /** The first index at or after `from` holding a character of `cs`. */
  function FindCharFrom(s: string, cs: set<char>, from: nat): (r: Option<nat>)
    decreases |s| - from
    ensures r.Some? ==> from <= r.value < |s| && s[r.value] in cs
    ensures r.Some? ==> forall j {:trigger s[j] in cs} :: from <= j < r.value ==> s[j] !in cs
    ensures r.None? ==> forall j {:trigger s[j] in cs} :: from <= j < |s| ==> s[j] !in cs
  {
    if from >= |s| then None
    else if s[from] in cs then Some(from)
    else FindCharFrom(s, cs, from + 1)
  }

  /** The first `c` at or after `from` is the one at `j` when none comes between. */
  lemma FirstCharAt(s: string, c: char, from: nat, j: nat)
    requires from <= j < |s| && s[j] == c
    requires forall x :: from <= x < j ==> s[x] != c
    ensures FindCharFrom(s, {c}, from) == Some(j)
  {
    assert s[j] in {c};
  }

  // ---------------------------------------------------------------------
  // Character runs, as a greedy `\s*` or `[\d...]*` consumes them

  /** The end of the whitespace run starting at `i`. */
  function SkipSpaces(s: string, i: nat): (j: nat)
    requires i <= |s|
    ensures i <= j <= |s|
    ensures forall k {:trigger IsSpace(s[k])} :: i <= k < j ==> IsSpace(s[k])
    ensures j < |s| ==> !IsSpace(s[j])
    decreases |s| - i
  {
    if i < |s| && IsSpace(s[i]) then SkipSpaces(s, i + 1) else i
  }

  /** The end of the run of digits and characters of `extra` starting at `i`. */
  function SkipDigitsOr(s: string, i: nat, extra: set<char>): (j: nat)
    requires i <= |s|
    ensures i <= j <= |s|
    ensures forall k {:trigger s[k] in extra} {:trigger IsDigit(s[k])} :: i <= k < j ==> IsDigit(s[k]) || s[k] in extra
    ensures j < |s| ==> !IsDigit(s[j]) && s[j] !in extra
    decreases |s| - i
  {
    if i < |s| && (IsDigit(s[i]) || s[i] in extra) then SkipDigitsOr(s, i + 1, extra) else i
  }

  // ---------------------------------------------------------------------
  // Stripping

  function TrimLeft(s: string): (r: string)
    ensures |r| <= |s| && r == s[|s| - |r|..]
    ensures r != [] ==> !IsSpace(r[0])
    ensures forall i :: 0 <= i < |s| - |r| ==> IsSpace(s[i])
  {
    if s != [] && IsSpace(s[0]) then TrimLeft(s[1..]) else s
  }

  function TrimRight(s: string): (r: string)
    ensures |r| <= |s| && r == s[..|r|]
    ensures r != [] ==> !IsSpace(r[|r| - 1])
    ensures forall i :: |r| <= i < |s| ==> IsSpace(s[i])
  {
    if s != [] && IsSpace(s[|s| - 1]) then TrimRight(s[..|s| - 1]) else s
  }

  /** No whitespace at either end. */
  predicate Trimmed(s: string) {
    s != [] ==> !IsSpace(s[0]) && !IsSpace(s[|s| - 1])
  }

  /** Python's `s.strip()`. */
  function Strip(s: string): (r: string)
    ensures Trimmed(r)
    ensures |r| <= |s|
  {
    TrimRight(TrimLeft(s))
  }

  /** A string with no whitespace at either end is its own `strip()`. */
  lemma StripTrimmed(s: string)
    requires Trimmed(s)
    ensures Strip(s) == s
  {
    assert TrimLeft(s) == s;
  }

  function TrimLeftChars(s: string, cs: set<char>): (r: string)
    ensures |r| <= |s| && r == s[|s| - |r|..]
    ensures r != [] ==> r[0] !in cs
  {
    if s != [] && s[0] in cs then TrimLeftChars(s[1..], cs) else s
  }

  function TrimRightChars(s: string, cs: set<char>): (r: string)
    ensures |r| <= |s| && r == s[..|r|]
    ensures r != [] ==> r[|r| - 1] !in cs
  {
    if s != [] && s[|s| - 1] in cs then TrimRightChars(s[..|s| - 1], cs) else s
  }

  /** Python's `s.strip(chars)`. */
  function StripChars(s: string, cs: set<char>): (r: string)
    ensures r != [] ==> r[0] !in cs && r[|r| - 1] !in cs
    ensures |r| <= |s|
  {
    TrimRightChars(TrimLeftChars(s, cs), cs)
  }

  // ---------------------------------------------------------------------
  // Splitting and joining

  /** Python's `s.split(sep)` for a one-character separator: never empty. */
  function Split(s: string, sep: char): (r: seq<string>)
    ensures |r| >= 1
    ensures forall k :: 0 <= k < |r| ==> sep !in r[k]
  {
    match FindCharFrom(s, {sep}, 0)
    case None => [s]
    case Some(i) => [s[..i]] + Split(s[i + 1..], sep)
  }

  function Join(parts: seq<string>, sep: string): string {
    if parts == [] then ""
    else if |parts| == 1 then parts[0]
    else parts[0] + sep + Join(parts[1..], sep)
  }

  /** A non-empty run of non-whitespace characters. */
  predicate IsWord(w: string) {
    w != [] && forall i :: 0 <= i < |w| ==> !IsSpace(w[i])
  }

  /** The longest prefix of `s` without whitespace. */
  function TakeWord(s: string): (r: string)
    ensures |r| <= |s| && r == s[..|r|]
    ensures forall i :: 0 <= i < |r| ==> !IsSpace(r[i])
    ensures |r| < |s| ==> IsSpace(s[|r|])
  {
    if s != [] && !IsSpace(s[0]) then [s[0]] + TakeWord(s[1..]) else []
  }

  /** Python's `s.split()`: the maximal runs of non-whitespace characters. */
  function Words(s: string): (r: seq<string>)
    ensures forall k :: 0 <= k < |r| ==> IsWord(r[k])
    decreases |s|
  {
    var t := TrimLeft(s);
    if t == [] then []
    else
      var w := TakeWord(t);
      assert w != [] by { assert !IsSpace(t[0]); }
      [w] + Words(t[|w|..])
  }

  // ---------------------------------------------------------------------
  // Replacement

  /** Python's `s.replace(pat, rep)`: every non-overlapping occurrence, left to right. */
  function ReplaceAll(s: string, pat: string, rep: string): (r: string)
    requires pat != []
    decreases |s|
  {
    if |s| < |pat| then s
    else if s[..|pat|] == pat then rep + ReplaceAll(s[|pat|..], pat, rep)
    else [s[0]] + ReplaceAll(s[1..], pat, rep)
  }

  /** `re.sub(re.escape(pat), "", s, flags=re.IGNORECASE)` for an ASCII `pat`. */
  function RemoveAllIgnoreCase(s: string, pat: string): (r: string)
    ensures |r| <= |s|
    decreases |s|
  {
    if pat == [] || |s| < |pat| then s
    else if Lower(s[..|pat|]) == Lower(pat) then RemoveAllIgnoreCase(s[|pat|..], pat)
    else [s[0]] + RemoveAllIgnoreCase(s[1..], pat)
  }

  /** Python's `s[:n]` for `n >= 0`. */
  function Take(s: string, n: nat): (r: string)
    ensures |r| == if n < |s| then n else |s|
    ensures r == s[..|r|]
  {
    if n < |s| then s[..n] else s
  }

  /** The decimal digits of `n`, as `str(n)` writes them. */
  function NatToString(n: nat): (r: string)
    ensures r != [] && forall c :: c in r ==> IsDigit(c)
  {
    if n < 10 then [('0' as int + n) as char]
    else NatToString(n / 10) + [('0' as int + n % 10) as char]
  }
}
