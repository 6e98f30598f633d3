/** The parts of Python 2's `urlparse` and `urllib` modules the news application
    relies on: the scheme and network location of a URL (`urlparse`), and
    form-urlencoding (`urlencode`, `quote_plus`, `unquote`). Text is treated as
    a byte string, as Python 2's `str` is. */
module UrlLib {
  import opened Wrappers
  import opened PyStr

  predicate IsLetter(c: char) {
    'a' <= c <= 'z' || 'A' <= c <= 'Z'
  }

  /** Characters allowed in a URL scheme: letters, digits, `+`, `-` and `.`. */
  predicate IsSchemeChar(c: char) {
    IsLetter(c) || IsDigit(c) || c == '+' || c == '-' || c == '.'
  }

  function LowerChar(c: char): char {
    if 'A' <= c <= 'Z' then (c as int - 'A' as int + 'a' as int) as char else c
  }

  /** ASCII lower-casing, as `str.lower()` does on a scheme. */
  function Lower(s: string): (r: string)
    ensures |r| == |s|
    ensures forall i | 0 <= i < |s| :: r[i] == LowerChar(s[i])
  {
    if s == [] then [] else [LowerChar(s[0])] + Lower(s[1..])
  }

  /** The scheme of a URL and the text after its colon, as `urlsplit` finds them:
      the text before the first `:` is a scheme if it is not empty, is `http` or
      consists of scheme characters only, and what follows the colon is not a bare
      port number. Without a scheme the whole URL is the rest. */
  function SchemeAndRest(url: string): (r: (string, string))
    ensures r.0 == "" ==> r.1 == url
    ensures r.0 != "" ==>
      && |r.0| < |url|
      && url[|r.0|] == ':'
      && ':' !in url[..|r.0|]
      && r.0 == Lower(url[..|r.0|])
      && r.1 == url[|r.0| + 1..]
  {
    match IndexOf(url, ':')
    case None => ("", url)
    case Some(i) =>
      if i == 0 then ("", url)
      else if url[..i] == "http" then ("http", url[i + 1..])
      else if !(forall k | 0 <= k < i :: IsSchemeChar(url[k])) then ("", url)
      else
        var rest := url[i + 1..];
        if rest == "" || !AllDigits(rest) then (Lower(url[..i]), rest) else ("", url)
  }

  predicate IsNetlocEnd(c: char) {
    c == '/' || c == '?' || c == '#'
  }

  /** The network location at the front of `s`: everything up to the first `/`, `?` or `#`. */
  function NetlocPrefix(s: string): (r: string)
    ensures |r| <= |s| && r == s[..|r|]
    ensures forall k | 0 <= k < |r| :: !IsNetlocEnd(r[k])
    ensures |r| < |s| ==> IsNetlocEnd(s[|r|])
  {
    if s == [] || IsNetlocEnd(s[0]) then [] else [s[0]] + NetlocPrefix(s[1..])
  }

  /** The text before the first `c` in `s`, or all of `s` when there is none:
      what remains after `s.split(c, 1)` keeps the first piece. */
  function Before(s: string, c: char): (r: string)
    ensures c !in r
    ensures c !in s ==> r == s
  {
    match IndexOf(s, c)
    case None => s
    case Some(i) => s[..i]
  }

  /** The index of the last occurrence of `c` in `s`, if any. */
  function LastIndexOf(s: string, c: char): (r: Option<nat>)
    ensures r.None? <==> c !in s
    ensures r.Some? ==> r.value < |s| && s[r.value] == c && c !in s[r.value + 1..]
  {
    if s == [] then None
    else if s[|s| - 1] == c then Some(|s| - 1)
    else
      var r := LastIndexOf(s[..|s| - 1], c);
      assert r.Some? ==> s[r.value + 1..] == s[..|s| - 1][r.value + 1..] + [s[|s| - 1]];
      r
  }

  /** Schemes whose paths may carry `;` parameters (`urlparse.uses_params`). */
  const USES_PARAMS: set<string> := {"ftp", "hdl", "prospero", "http", "imap", "https",
    "shttp", "rtsp", "rtspu", "sip", "sips", "mms", "", "sftp", "tel"}

  /** The path part left by `_splitparams`: parameters start at the first `;`
      after the last `/`. */
  function ParamsFreePath(u: string): string {
    match LastIndexOf(u, '/')
    case Some(j) => u[..j] + Before(u[j..], ';')
    case None => Before(u, ';')
  }

  /** The scheme, network location and path fields of `urlparse(url)`; the query,
      fragment and parameters are cut off the path. */
  datatype UrlParts = UrlParts(scheme: string, netloc: string, path: string)

  /** The fields `urlsplit` and `_splitparams` compute, before the check on
      brackets in the network location. */
  function UrlFields(url: string): UrlParts {
    var (scheme, rest) := SchemeAndRest(url);
    var netloc := if |rest| >= 2 && rest[..2] == "//" then NetlocPrefix(rest[2..]) else "";
    var after := if |rest| >= 2 && rest[..2] == "//" then rest[2 + |netloc|..] else rest;
    var noQuery := Before(Before(after, '#'), '?');
    var path := if scheme in USES_PARAMS && ';' in noQuery then ParamsFreePath(noQuery) else noQuery;
    UrlParts(scheme, netloc, path)
  }

  /** A network location with a `[` but no `]`, or a `]` but no `[`: `urlsplit`
      raises `ValueError("Invalid IPv6 URL")` on it. */
  predicate UnbalancedBrackets(netloc: string) {
    ('[' in netloc) != (']' in netloc)
  }

  /** `urlparse(url)`: the fields, or `None` where it raises `ValueError`. */
  function UrlParse(url: string): (r: Option<UrlParts>)
    ensures r.Some? ==> r.value == UrlFields(url)
    ensures r.None? ==> |SchemeAndRest(url).1| >= 2 && SchemeAndRest(url).1[..2] == "//"
  {
    var parts := UrlFields(url);
    if UnbalancedBrackets(parts.netloc) then None else Some(parts)
  }

  lemma SchemeOfUrlParse(url: string)
    ensures UrlFields(url).scheme == SchemeAndRest(url).0
  {
  }

  /** A URL written with an `http://` prefix has that scheme, and its network
      location is what follows the two slashes up to the first `/`, `?` or `#`;
      `urlparse` raises on it exactly when that location has unbalanced brackets. */
  lemma HttpUrlParts(url: string)
    requires StartsWith(url, "http://")
    ensures UrlFields(url).scheme == "http" && UrlFields(url).netloc == NetlocPrefix(url[7..])
    ensures UrlParse(url).None? <==> UnbalancedBrackets(NetlocPrefix(url[7..]))
  {
    var tail := url[4..];
    assert url[..7] == "http://";
    assert url == "http" + tail;
    assert tail[0] == ':';
    IndexOfAfterPrefix("http", tail, ':');
    assert IndexOf(url, ':') == Some(4);
    assert url[..4] == "http";
    var rest := url[5..];
    assert rest[..2] == "//";
    assert SchemeAndRest(url) == ("http", rest);
    assert rest[2..] == url[7..];
  }

  /** The same for an `https://` prefix. */
  lemma HttpsUrlParts(url: string)
    requires StartsWith(url, "https://")
    ensures UrlFields(url).scheme == "https" && UrlFields(url).netloc == NetlocPrefix(url[8..])
    ensures UrlParse(url).None? <==> UnbalancedBrackets(NetlocPrefix(url[8..]))
  {
    var tail := url[5..];
    assert url[..8] == "https://";
    assert url == "https" + tail;
    assert tail[0] == ':';
    IndexOfAfterPrefix("https", tail, ':');
    assert IndexOf(url, ':') == Some(5);
    assert url[..5] == "https" != "http";
    assert forall k | 0 <= k < 5 :: IsSchemeChar(url[k]);
    var rest := url[6..];
    assert rest[..2] == "//";
    assert !AllDigits(rest) by { assert !IsDigit(rest[0]); }
    assert Lower("https") == "https";
    assert SchemeAndRest(url) == ("https", rest);
    assert rest[2..] == url[8..];
  }

  /** Text with no `/`, `?` or `#` is all network location. */
  lemma {:induction false} NetlocPrefixWhole(s: string)
    requires forall k | 0 <= k < |s| :: !IsNetlocEnd(s[k])
    ensures NetlocPrefix(s) == s
  {
    if s != [] {
      NetlocPrefixWhole(s[1..]);
    }
  }

  /** `urlparse('http://' + host)` raises when the host holds a `[` but no
      `]` (`http://[::1`), or a `]` but no `[`. */
  lemma UrlParseRaisesOnHost(host: string)
    requires forall k | 0 <= k < |host| :: !IsNetlocEnd(host[k])
    ensures UrlParse("http://" + host).None? <==> UnbalancedBrackets(host)
  {
    var u := "http://" + host;
    assert StartsWith(u, "http://") by { assert u[..7] == "http://"; }
    HttpUrlParts(u);
    assert u[7..] == host;
    NetlocPrefixWhole(host);
  }

  /** Characters `quote` never escapes: ASCII letters, digits and `_.-`. */
  predicate AlwaysSafe(c: char) {
    IsLetter(c) || IsDigit(c) || c == '_' || c == '.' || c == '-'
  }

  /** Every character is a byte, as in a Python 2 `str`. */
  predicate IsByteString(s: string) {
    forall i | 0 <= i < |s| :: s[i] as int < 256
  }

  function HexDigit(d: nat): (c: char)
    requires d < 16
  {
    "0123456789ABCDEF"[d]
  }

  predicate IsHex(c: char) {
    IsDigit(c) || 'a' <= c <= 'f' || 'A' <= c <= 'F'
  }

  function HexValue(c: char): (v: nat)
    requires IsHex(c)
    ensures v < 16
  {
    if IsDigit(c) then DigitValue(c)
    else if 'a' <= c <= 'f' then c as int - 'a' as int + 10
    else c as int - 'A' as int + 10
  }

  lemma HexValueOfDigit(d: nat)
    requires d < 16
    ensures IsHex(HexDigit(d)) && HexValue(HexDigit(d)) == d
  {
  }

  /** How `quote_plus` writes one byte: unchanged if always safe, `+` for a
      space, and `%XX` (upper-case hexadecimal) otherwise. */
  function QuoteChar(c: char): (r: string)
    requires c as int < 256
  {
    if AlwaysSafe(c) then [c]
    else if c == ' ' then "+"
    else ['%', HexDigit(c as int / 16), HexDigit(c as int % 16)]
  }

  /** `quote_plus(s)` with no extra safe characters. */
  function QuotePlus(s: string): (r: string)
    requires IsByteString(s)
    ensures forall i | 0 <= i < |r| :: AlwaysSafe(r[i]) || r[i] == '+' || r[i] == '%' || IsHex(r[i])
  {
    if s == [] then [] else QuoteChar(s[0]) + QuotePlus(s[1..])
  }

  /** Form-encoding works character by character. */
  lemma {:induction false} QuotePlusAppend(s: string, t: string)
    requires IsByteString(s) && IsByteString(t)
    ensures IsByteString(s + t)
    ensures QuotePlus(s + t) == QuotePlus(s) + QuotePlus(t)
  {
    if s != [] {
      assert (s + t)[1..] == s[1..] + t;
      QuotePlusAppend(s[1..], t);
    } else {
      assert s + t == t;
    }
  }

  /** `unquote` (and, when `plusIsSpace`, `unquote_plus`): `%XY` with two
      hexadecimal digits becomes that byte; any other `%` stays as it is. */
  function Unquote(s: string, plusIsSpace: bool): string
    decreases |s|
  {
    if s == [] then []
    else if s[0] == '+' && plusIsSpace then " " + Unquote(s[1..], plusIsSpace)
    else if s[0] == '%' && |s| >= 3 && IsHex(s[1]) && IsHex(s[2]) then
      [(HexValue(s[1]) * 16 + HexValue(s[2])) as char] + Unquote(s[3..], plusIsSpace)
    else [s[0]] + Unquote(s[1..], plusIsSpace)
  }

  function UnquotePlus(s: string): string {
    Unquote(s, true)
  }

  /** `urlencode({key: value})` for a single pair. */
  function Urlencode(key: string, value: string): string
    requires IsByteString(key) && IsByteString(value)
  {
    QuotePlus(key) + "=" + QuotePlus(value)
  }

  /** Form-decoding undoes form-encoding. */
  lemma {:induction false} UnquotePlusQuotePlus(s: string)
    requires IsByteString(s)
    ensures UnquotePlus(QuotePlus(s)) == s
  {
    if s != [] {
      var c, t := s[0], s[1..];
      UnquotePlusQuotePlus(t);
      var q := QuotePlus(t);
      assert QuotePlus(s) == QuoteChar(c) + q;
      if AlwaysSafe(c) {
        assert ([c] + q)[1..] == q;
      } else if c == ' ' {
        assert ("+" + q)[1..] == q;
      } else {
        var x := ['%', HexDigit(c as int / 16), HexDigit(c as int % 16)];
        HexValueOfDigit(c as int / 16);
        HexValueOfDigit(c as int % 16);
        assert (x + q)[3..] == q;
        assert (x + q)[1] == x[1] && (x + q)[2] == x[2];
      }
    }
  }

  /** The encoded text never contains a character that separates URL parts or parameters. */
  lemma QuotePlusHasNoSeparators(s: string)
    requires IsByteString(s)
    ensures forall c | c in QuotePlus(s) :: c != '/' && c != '?' && c != '=' && c != '&' && c != ' ' && c != '#'
  {
  }
}
