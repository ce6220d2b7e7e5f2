/**
 * test_image_optimization.py, `optimize_image_url`: Discord's image proxy
 * links are turned back into the original link, and Amazon and eBay image
 * links are rewritten to ask for the full-size picture. Each regular
 * expression of the source is written out as a scan over the characters.
 */
module ImageUrl {
  import opened Wrappers
  import opened Text

  // ---------------------------------------------------------------------
  // Discord proxy: `/external/[^/]+/(https?)/(.*)`

  /** The end of the line starting at `i`, where `.` stops matching. */
  function LineEnd(s: string, i: nat): (j: nat)
    requires i <= |s|
    ensures i <= j <= |s| && forall k :: i <= k < j ==> s[k] != '\n'
  {
    match FindCharFrom(s, {'\n'}, i)
    case Some(j) => j
    case None => |s|
  }

  /** The protocol and the rest of the line when the proxy pattern matches at `i`. */
  function ProxyMatchAt(s: string, i: nat): (r: Option<(string, string)>)
    requires i <= |s|
    ensures r.Some? ==> (r.value.0 == "https" || r.value.0 == "http") && '\n' !in r.value.1
  {
    if !OccursAt(s, "/external/", i) then None
    else
      match FindCharFrom(s, {'/'}, i + 10)
      case None => None
      case Some(k) =>
        if k == i + 10 then None
        else if OccursAt(s, "https/", k + 1) then Some(("https", s[k + 7..LineEnd(s, k + 7)]))
        else if OccursAt(s, "http/", k + 1) then Some(("http", s[k + 6..LineEnd(s, k + 6)]))
        else None
  }

  /** `re.search`: the leftmost position from `i` on where the proxy pattern matches. */
  function ProxyMatch(s: string, i: nat): (r: Option<(string, string)>)
    requires i <= |s|
    ensures r.Some? ==> (r.value.0 == "https" || r.value.0 == "http") && '\n' !in r.value.1
    decreases |s| - i
  {
    match ProxyMatchAt(s, i)
    case Some(m) => Some(m)
    case None => if i == |s| then None else ProxyMatch(s, i + 1)
  }

  predicate IsDiscordProxy(url: string) {
    Contains(url, "images-ext-1.discordapp.net") || Contains(url, "images-ext-2.discordapp.net")
  }

  /** Step 1: a Discord proxy link whose path names the original becomes `<protocol>://<rest>`. */
  function DecodeProxy(url: string): string {
    if IsDiscordProxy(url) then
      match ProxyMatch(url, 0)
      case Some((protocol, rest)) => protocol + "://" + rest
      case None => url
    else url
  }

  /** The protocols `(https?)` accepts. */
  predicate IsProtocol(p: string) {
    p == "https" || p == "http"
  }

  /** The proxy pattern at `i`, when `/external/` is followed by a token of non-slash characters, `/`, a protocol and `/`. */
  lemma ProxyMatchAtProtocol(s: string, i: nat, k: nat, p: string)
    requires IsProtocol(p)
    requires i + 10 < k && k + |p| + 2 <= |s|
    requires OccursAt(s, "/external/", i) && OccursAt(s, p + "/", k + 1) && s[k] == '/'
    requires forall j :: i + 10 <= j < k ==> s[j] != '/'
    requires forall j :: k + |p| + 2 <= j < |s| ==> s[j] != '\n'
    ensures ProxyMatchAt(s, i) == Some((p, s[k + |p| + 2..]))
  {
    assert FindCharFrom(s, {'/'}, i + 10) == Some(k);
    assert LineEnd(s, k + |p| + 2) == |s|;
    assert s[k + |p| + 2..|s|] == s[k + |p| + 2..];
    if p == "http" {
      assert s[k + 5] == (p + "/")[4] == '/';
    }
  }

  /** A proxy link whose first match is at `i` decodes to the protocol, `://` and what follows the match. */
  lemma DecodeProxyAt(s: string, i: nat, k: nat, p: string)
    requires IsDiscordProxy(s) && IsProtocol(p)
    requires i + 10 < k && k + |p| + 2 <= |s|
    requires OccursAt(s, "/external/", i) && OccursAt(s, p + "/", k + 1) && s[k] == '/'
    requires forall j :: i + 10 <= j < k ==> s[j] != '/'
    requires forall j :: k + |p| + 2 <= j < |s| ==> s[j] != '\n'
    requires forall j :: 0 <= j < i ==> ProxyMatchAt(s, j).None?
    ensures DecodeProxy(s) == p + "://" + s[k + |p| + 2..]
  {
    ProxyMatchAtProtocol(s, i, k, p);
    ProxyMatchFirst(s, 0, i);
  }

  /** A proxy link `…/external/<token>/<protocol>/<rest>`, for `https` and `http`, decodes to `<protocol>://<rest>`. */
  lemma DecodeProxyPath(prefix: string, token: string, protocol: string, rest: string)
    requires IsProtocol(protocol)
    requires IsDiscordProxy(prefix + "/external/" + token + "/" + protocol + "/" + rest)
    requires token != [] && '/' !in token && '\n' !in rest
    requires forall i :: 0 <= i < |prefix| ==> ProxyMatchAt(prefix + "/external/" + token + "/" + protocol + "/" + rest, i).None?
    ensures DecodeProxy(prefix + "/external/" + token + "/" + protocol + "/" + rest) == protocol + "://" + rest
  {
    var s := prefix + "/external/" + token + "/" + protocol + "/" + rest;
    var i := |prefix|;
    var k := i + 10 + |token|;
    PathPieces(prefix, token, protocol, rest);
    DecodeProxyAt(s, i, k, protocol);
  }

  /** Where the pieces of a proxy path sit in the link. */
  lemma PathPieces(prefix: string, token: string, protocol: string, rest: string)
    ensures var s := prefix + "/external/" + token + "/" + protocol + "/" + rest;
      var k := |prefix| + 10 + |token|;
      && k + |protocol| + 2 <= |s|
      && OccursAt(s, "/external/", |prefix|)
      && s[k] == '/' && OccursAt(s, protocol + "/", k + 1)
      && (forall j :: |prefix| + 10 <= j < k ==> s[j] == token[j - |prefix| - 10])
      && s[k + |protocol| + 2..] == rest
  {
    var s := prefix + "/external/" + token + "/" + protocol + "/" + rest;
    var k := |prefix| + 10 + |token|;
    assert s[|prefix|..|prefix| + 10] == "/external/";
    assert s[k..k + |protocol| + 2] == "/" + protocol + "/";
    assert s[k + 1..k + |protocol| + 2] == s[k..k + |protocol| + 2][1..];
  }

  /** The search finds the first matching position. */
  lemma {:induction false} ProxyMatchFirst(s: string, from: nat, i: nat)
    requires from <= i <= |s| && ProxyMatchAt(s, i).Some?
    requires forall j :: from <= j < i ==> ProxyMatchAt(s, j).None?
    ensures ProxyMatch(s, from) == ProxyMatchAt(s, i)
    decreases i - from
  {
    if from < i {
      ProxyMatchFirst(s, from + 1, i);
    }
  }

  // ---------------------------------------------------------------------
  // Amazon: `\._[A-Z_]+[0-9]+_\.` replaced by `.`, then the query string cut off

  predicate IsUpperOrUnderscore(c: char) {
    'A' <= c <= 'Z' || c == '_'
  }

  /** The end of the run of `[A-Z_]` starting at `i`. */
  function UpperRunEnd(s: string, i: nat): (j: nat)
    requires i <= |s|
    ensures i <= j <= |s|
    ensures forall k :: i <= k < j ==> IsUpperOrUnderscore(s[k])
    ensures j < |s| ==> !IsUpperOrUnderscore(s[j])
    decreases |s| - i
  {
    if i < |s| && IsUpperOrUnderscore(s[i]) then UpperRunEnd(s, i + 1) else i
  }

  /** The length of an Amazon size token (`._SL160_.`) at the start of `s`, if one is there. */
  function SizeTokenEnd(s: string): (r: Option<nat>)
    ensures r.Some? ==> 6 <= r.value <= |s| && s[0] == '.'
  {
    if |s| < 2 || s[0] != '.' || s[1] != '_' then None
    else
      var u := UpperRunEnd(s, 2);
      var d := SkipDigitsOr(s, u, {});
      if u == 2 || d == u || d + 1 >= |s| || s[d] != '_' || s[d + 1] != '.' then None
      else Some(d + 2)
  }

  /** `re.sub` of the size-token pattern with ".": every token met left to right becomes one dot. */
  function StripSizeTokens(s: string): (r: string)
    ensures |r| <= |s|
    decreases |s|
  {
    if s == [] then []
    else match SizeTokenEnd(s)
      case Some(e) => "." + StripSizeTokens(s[e..])
      case None => [s[0]] + StripSizeTokens(s[1..])
  }

  /** `._<u><d>_.`, with `u` of `[A-Z_]` and `d` of digits, collapses to one dot, and the scan goes on after it. */
  lemma SizeTokenCollapses(u: string, d: string, q: string)
    requires u != [] && forall k :: 0 <= k < |u| ==> IsUpperOrUnderscore(u[k])
    requires d != [] && forall k :: 0 <= k < |d| ==> IsDigit(d[k])
    ensures StripSizeTokens("._" + u + d + "_." + q) == "." + StripSizeTokens(q)
  {
    var s := "._" + u + d + "_." + q;
    var e := 2 + |u| + |d|;
    assert forall k :: 2 <= k < 2 + |u| ==> s[k] == u[k - 2];
    assert forall k :: 2 + |u| <= k < e ==> s[k] == d[k - 2 - |u|];
    assert s[e] == '_' && s[e + 1] == '.' && !IsDigit(s[e]);
    assert IsDigit(s[2 + |u|]) && !IsUpperOrUnderscore(s[2 + |u|]);
    assert UpperRunEnd(s, 2) == 2 + |u|;
    assert SkipDigitsOr(s, 2 + |u|, {}) == e;
    assert SizeTokenEnd(s) == Some(e + 2);
    assert s[e + 2..] == q;
  }

  predicate IsAmazon(url: string) {
    Contains(url, "media-amazon.com") || Contains(url, "ssl-images-amazon.com")
  }

  /** Step 2: size tokens collapsed, and everything from the first `?` on dropped. */
  function OptimizeAmazon(url: string): (r: string)
    ensures '?' !in r
  {
    Split(StripSizeTokens(url), '?')[0]
  }

  /** A link without a size token loses only its query string. */
  lemma {:induction false} NoSizeTokenUnchanged(s: string)
    requires forall i :: 0 <= i < |s| ==> SizeTokenEnd(s[i..]).None?
    ensures StripSizeTokens(s) == s
  {
    if s != [] {
      assert s[0..] == s;
      forall i | 0 <= i < |s[1..]| ensures SizeTokenEnd(s[1..][i..]).None? {
        assert s[1..][i..] == s[i + 1..];
      }
      NoSizeTokenUnchanged(s[1..]);
    }
  }

  // ---------------------------------------------------------------------
  // eBay: `s-l\d+\.` replaced by `s-l1600.`

  /** The size eBay is asked for. */
  const FullSize: string := "s-l1600."

  /** The length of an eBay size token (`s-l300.`) at the start of `s`, if one is there. */
  function EbayTokenEnd(s: string): (r: Option<nat>)
    ensures r.Some? ==> 5 <= r.value <= |s| && s[0] == 's'
  {
    if |s| < 3 || s[0] != 's' || s[1] != '-' || s[2] != 'l' then None
    else
      var d := SkipDigitsOr(s, 3, {});
      if d == 3 || d >= |s| || s[d] != '.' then None else Some(d + 1)
  }

  /** `re.sub` of the eBay pattern: every token met left to right becomes `s-l1600.`. */
  function RewriteEbay(s: string): string
    decreases |s|
  {
    if s == [] then []
    else match EbayTokenEnd(s)
      case Some(e) => FullSize + RewriteEbay(s[e..])
      case None => [s[0]] + RewriteEbay(s[1..])
  }

  /** `re.search` of the eBay pattern. */
  predicate HasEbayToken(s: string) {
    exists i :: 0 <= i < |s| && EbayTokenEnd(s[i..]).Some?
  }

  /** Every size token left in `s` asks for the full size. */
  predicate AllFullSize(s: string) {
    forall i :: 0 <= i < |s| && EbayTokenEnd(s[i..]).Some? ==> i + |FullSize| <= |s| && s[i..i + |FullSize|] == FullSize
  }

  /** Up to the first `s`, the rewrite copies its input, and an `s` there is still one afterwards. */
  lemma {:induction false} RewriteEbayCopies(t: string, n: nat)
    requires n <= |t| && forall k :: 0 <= k < n ==> t[k] != 's'
    ensures n <= |RewriteEbay(t)| && RewriteEbay(t)[..n] == t[..n]
    ensures n == |t| ==> RewriteEbay(t) == t
    ensures n < |t| && t[n] == 's' ==> n < |RewriteEbay(t)| && RewriteEbay(t)[n] == 's'
    decreases |t|
  {
    if n > 0 {
      assert EbayTokenEnd(t).None?;
      RewriteEbayCopies(t[1..], n - 1);
      var r := RewriteEbay(t[1..]);
      assert RewriteEbay(t) == [t[0]] + r;
      assert ([t[0]] + r)[..n] == [t[0]] + r[..n - 1];
      assert t[..n] == [t[0]] + t[1..][..n - 1];
      if n == |t| {
        assert t == [t[0]] + t[1..];
      }
    } else if t != [] && t[0] == 's' {
      match EbayTokenEnd(t)
      case Some(e) =>
        assert RewriteEbay(t) == FullSize + RewriteEbay(t[e..]);
      case None =>
    }
  }

  /** An eBay token is `s-l`, digits and a dot: nothing after its first character is an `s`. */
  lemma EbayTokenNoS(s: string, k: nat)
    requires EbayTokenEnd(s).Some? && 1 <= k < EbayTokenEnd(s).value
    ensures s[k] != 's'
  {
    if k >= 3 && k < SkipDigitsOr(s, 3, {}) {
      assert IsDigit(s[k]);
    }
  }

  /** Whether a token starts a link depends only on the token's own characters. */
  lemma EbayTokenPrefix(s: string, t: string, e: nat)
    requires EbayTokenEnd(s) == Some(e) && |t| >= e && t[..e] == s[..e]
    ensures EbayTokenEnd(t).Some?
  {
    forall k | 0 <= k < e ensures t[k] == s[k] {
      assert t[..e][k] == s[..e][k];
    }
    assert SkipDigitsOr(t, 3, {}) == SkipDigitsOr(s, 3, {});
  }

  /** Putting `s-l1600.` in front of a link whose tokens all ask for the full size keeps that so. */
  lemma FullSizeInFront(rest: string)
    requires AllFullSize(rest)
    ensures AllFullSize(FullSize + rest)
  {
    var r := FullSize + rest;
    forall i | 0 <= i < |r| && EbayTokenEnd(r[i..]).Some? ensures i + |FullSize| <= |r| && r[i..i + |FullSize|] == FullSize {
      if i == 0 {
        assert r[..|FullSize|] == FullSize;
      } else if i >= |FullSize| {
        assert r[i..] == rest[i - |FullSize|..];
        assert r[i..i + |FullSize|] == rest[i - |FullSize|..i - |FullSize| + |FullSize|];
      }
    }
  }

  /** Where the rewrite copies a character because no token starts there, no token starts in its output either. */
  lemma NoTokenAtCopy(s: string)
    requires s != [] && EbayTokenEnd(s).None?
    ensures EbayTokenEnd([s[0]] + RewriteEbay(s[1..])).None?
  {
    var t := s[1..];
    var r := [s[0]] + RewriteEbay(t);
    if EbayTokenEnd(r).Some? {
      var e := EbayTokenEnd(r).value;
      var n := match FindCharFrom(t, {'s'}, 0) case Some(j) => j case None => |t|;
      RewriteEbayCopies(t, n);
      if n < e - 1 {
        if n < |t| {
          EbayTokenNoS(r, n + 1);
        }
      } else {
        TokenFromInput(s, e);
      }
    }
  }

  /** A token in the output that ends before the input's first later `s` was already a token of the input. */
  lemma TokenFromInput(s: string, e: nat)
    requires s != [] && EbayTokenEnd([s[0]] + RewriteEbay(s[1..])) == Some(e)
    requires e - 1 <= |s[1..]| && forall k :: 0 <= k < e - 1 ==> s[1..][k] != 's'
    ensures EbayTokenEnd(s).Some?
  {
    var t := s[1..];
    var rest := RewriteEbay(t);
    var r := [s[0]] + rest;
    RewriteEbayCopies(t, e - 1);
    assert r[..e] == [r[0]] + rest[..e - 1];
    assert s[..e] == [s[0]] + t[..e - 1];
    EbayTokenPrefix(r, s, e);
  }

  /** A character copied over where no token starts keeps every token at the full size. */
  lemma CopiedInFront(s: string)
    requires s != [] && EbayTokenEnd(s).None?
    requires AllFullSize(RewriteEbay(s[1..]))
    ensures AllFullSize([s[0]] + RewriteEbay(s[1..]))
  {
    var rest := RewriteEbay(s[1..]);
    var r := [s[0]] + rest;
    NoTokenAtCopy(s);
    forall i | 0 < i < |r| && EbayTokenEnd(r[i..]).Some? ensures i + |FullSize| <= |r| && r[i..i + |FullSize|] == FullSize {
      assert r[i..] == rest[i - 1..];
      assert r[i..i + |FullSize|] == rest[i - 1..i - 1 + |FullSize|];
    }
  }

  /** After the eBay rewrite, every size token in the link is `s-l1600.`. */
  lemma {:induction false} RewriteEbayFull(s: string)
    ensures AllFullSize(RewriteEbay(s))
    decreases |s|
  {
    if s != [] {
      match EbayTokenEnd(s)
      case Some(e) =>
        RewriteEbayFull(s[e..]);
        FullSizeInFront(RewriteEbay(s[e..]));
      case None =>
        RewriteEbayFull(s[1..]);
        CopiedInFront(s);
    }
  }

  predicate IsEbay(url: string) {
    Contains(url, "ebayimg.com")
  }

  // ---------------------------------------------------------------------
  // The whole rewrite

  /** `optimize_image_url`: empty stays empty; proxy decoded; then the Amazon rule, else the eBay rule, else as decoded. */
  function OptimizeImageUrl(url: Option<string>): Option<string> {
    if url.None? || url.value == "" then url
    else
      var u := DecodeProxy(url.value);
      if IsAmazon(u) then Some(OptimizeAmazon(u))
      else if IsEbay(u) && HasEbayToken(u) then Some(RewriteEbay(u))
      else Some(u)
  }

  /**
   * What the rewrite promises: an Amazon link comes back without a query
   * string (the Amazon rule wins over the eBay one), an eBay link asks only
   * for the full size, and any other link is the proxy-decoded one.
   */
  lemma OptimizeImageUrlCases(url: string)
    requires url != ""
    ensures IsAmazon(DecodeProxy(url)) ==> '?' !in OptimizeImageUrl(Some(url)).value
    ensures !IsAmazon(DecodeProxy(url)) && IsEbay(DecodeProxy(url)) && HasEbayToken(DecodeProxy(url)) ==> AllFullSize(OptimizeImageUrl(Some(url)).value)
    ensures !IsAmazon(DecodeProxy(url)) && !(IsEbay(DecodeProxy(url)) && HasEbayToken(DecodeProxy(url))) ==> OptimizeImageUrl(Some(url)) == Some(DecodeProxy(url))
  {
    RewriteEbayFull(DecodeProxy(url));
  }

  /** Empty and missing links are passed through untouched. */
  lemma EmptyUnchanged()
    ensures OptimizeImageUrl(None) == None
    ensures OptimizeImageUrl(Some("")) == Some("")
  {
  }
}
