/** The validators of user input (news_app/validation.py): length bounds,
    the URL checks applied to submitted links, the user name pattern and the
    check that a `next` redirect stays on this site. */
module Validation {
  import opened Wrappers
  import opened PyStr
  import opened UrlLib
  import opened Settings

  /** `valid_comment_text`: any comment but the empty one. */
  predicate ValidCommentText(text: string) {
    text != ""
  }

  /** `valid_email`: only the length is checked, so the empty address passes. */
  predicate ValidEmail(email: string) {
    |email| <= MAX_EMAIL_LENGTH
  }

  /** `valid_password`: not empty and not too long. */
  predicate ValidPassword(password: string) {
    |password| <= MAX_PASSWORD_LENGTH && password != ""
  }

  /** `valid_text`: every text is accepted. */
  predicate ValidText(text: string) {
    true
  }

  /** `valid_title`: not empty and not too long. */
  predicate ValidTitle(title: string) {
    |title| <= MAX_TITLE_LENGTH && title != ""
  }

  /** The length checks accept exactly the lengths between their bounds. */
  lemma LengthBounds(s: string)
    ensures ValidEmail(s) <==> |s| <= 100
    ensures ValidPassword(s) <==> 1 <= |s| <= 30
    ensures ValidTitle(s) <==> 1 <= |s| <= 100
    ensures ValidCommentText(s) <==> |s| >= 1
  {
  }

  /** `valid_url`: not too long, an `http://` or `https://` prefix, and a network
      location that contains a dot and splits at its dots into non-empty labels.
      `None` where `urlparse` raises `ValueError`, which can only happen once
      the first two checks have passed. */
  function ValidUrl(url: string): (r: Option<bool>)
    ensures r.None? ==> |url| <= MAX_URL_LENGTH && UrlParse(url).None?
  {
    if |url| > MAX_URL_LENGTH then Some(false)
    else if !(StartsWith(url, "http://") || StartsWith(url, "https://")) then Some(false)
    else
      match UrlParse(url)
      case None => None
      case Some(parts) => Some('.' in parts.netloc && AllNonEmpty(Split(parts.netloc, '.')))
  }

  /** The domain of a URL with the given prefix: what follows the prefix up to
      the first `/`, `?` or `#`. */
  function DomainAfter(url: string, prefix: string): string
    requires StartsWith(url, prefix)
  {
    NetlocPrefix(url[|prefix|..])
  }

  /** A domain `valid_url` accepts: at least two labels, none of them empty
      (`www.` and `.com` are refused). */
  predicate WellFormedDomain(domain: string) {
    '.' in domain && NoEmptyPiece(domain, '.')
  }

  lemma ValidUrlWithPrefix(url: string, prefix: string)
    requires prefix == "http://" || prefix == "https://"
    requires StartsWith(url, prefix)
    ensures ValidUrl(url) == Some(true) <==>
      |url| <= MAX_URL_LENGTH && !UnbalancedBrackets(DomainAfter(url, prefix)) && WellFormedDomain(DomainAfter(url, prefix))
    ensures ValidUrl(url).None? <==> |url| <= MAX_URL_LENGTH && UnbalancedBrackets(DomainAfter(url, prefix))
  {
    var domain := DomainAfter(url, prefix);
    if prefix == "http://" {
      HttpUrlParts(url);
    } else {
      HttpsUrlParts(url);
    }
    assert UrlFields(url).netloc == domain;
    SplitPiecesNonEmpty(domain, '.');
  }

  /** What `valid_url` accepts and where it raises, stated without `urlparse`
      and `split`. */
  lemma ValidUrlIff(url: string)
    ensures ValidUrl(url) == Some(true) <==>
      && |url| <= MAX_URL_LENGTH
      && ((StartsWith(url, "http://") && !UnbalancedBrackets(DomainAfter(url, "http://"))
           && WellFormedDomain(DomainAfter(url, "http://")))
        || (StartsWith(url, "https://") && !UnbalancedBrackets(DomainAfter(url, "https://"))
           && WellFormedDomain(DomainAfter(url, "https://"))))
    ensures ValidUrl(url).None? <==>
      && |url| <= MAX_URL_LENGTH
      && ((StartsWith(url, "http://") && UnbalancedBrackets(DomainAfter(url, "http://")))
        || (StartsWith(url, "https://") && UnbalancedBrackets(DomainAfter(url, "https://"))))
  {
    if StartsWith(url, "http://") {
      ValidUrlWithPrefix(url, "http://");
      assert !StartsWith(url, "https://") by {
        assert url[4] == "http://"[4];
      }
    } else if StartsWith(url, "https://") {
      ValidUrlWithPrefix(url, "https://");
    }
  }

  /** A URL without a dot in its domain is refused (`http://google/`), unless
      `urlparse` raises on it first. */
  lemma ValidUrlNeedsDot(url: string)
    requires StartsWith(url, "http://") && '.' !in DomainAfter(url, "http://")
    ensures ValidUrl(url) == if |url| <= MAX_URL_LENGTH && UnbalancedBrackets(DomainAfter(url, "http://")) then None
                             else Some(false)
  {
    ValidUrlWithPrefix(url, "http://");
  }

  /** A URL with any other scheme is refused (`ftp://google.com`, `google.com`),
      and `urlparse` is never reached. */
  lemma ValidUrlNeedsWebScheme(url: string)
    requires !StartsWith(url, "http://") && !StartsWith(url, "https://")
    ensures ValidUrl(url) == Some(false)
  {
  }

  /** Characters of Python's `\w` without the UNICODE flag. */
  predicate IsWordChar(c: char) {
    IsLetter(c) || IsDigit(c) || c == '_'
  }

  predicate AllWordChars(s: string) {
    forall i | 0 <= i < |s| :: IsWordChar(s[i])
  }

  /** How far the greedy `\w+` of a regular expression reaches from the start of `s`. */
  function WordRun(s: string): (k: nat)
    ensures k <= |s|
    ensures AllWordChars(s[..k])
    ensures k < |s| ==> !IsWordChar(s[k])
  {
    if s == [] || !IsWordChar(s[0]) then 0
    else
      var k := WordRun(s[1..]);
      assert s[..k + 1] == [s[0]] + s[1..][..k];
      k + 1
  }

  /** Python's `$`: the end of the string, or just before a newline that ends it. */
  predicate AtDollar(s: string, k: nat) {
    k == |s| || (k == |s| - 1 && s[k] == '\n')
  }

  /** `re.match('^\w+$', s)`. Backtracking cannot help: a shorter run of `\w`
      is followed by another word character, where `$` fails. */
  predicate MatchesWordPattern(s: string) {
    var k := WordRun(s);
    k >= 1 && AtDollar(s, k)
  }

  /** `valid_username` as the code is written. */
  predicate ValidUsernameAsWritten(username: string) {
    MatchesWordPattern(username) && |username| <= MAX_USERNAME_LENGTH
  }

  /** `valid_username` as intended: one to 30 characters from `[A-Za-z0-9_]`,
      which is what the `user/(\w+)/` route can show. */
  predicate ValidUsername(username: string) {
    1 <= |username| <= MAX_USERNAME_LENGTH && AllWordChars(username)
  }

  /** The code accepts exactly the intended user names, and those same names
      with one newline after them (if they still fit in 30 characters). */
  lemma ValidUsernameAsWrittenIff(username: string)
    ensures ValidUsernameAsWritten(username) <==>
      || ValidUsername(username)
      || (&& 2 <= |username| <= MAX_USERNAME_LENGTH
          && username[|username| - 1] == '\n'
          && ValidUsername(username[..|username| - 1]))
  {
    var k := WordRun(username);
    if |username| >= 1 && AllWordChars(username) {
      assert k == |username|;
    }
    if |username| >= 2 && username[|username| - 1] == '\n' && AllWordChars(username[..|username| - 1]) {
      assert !IsWordChar(username[|username| - 1]);
      assert username[..|username| - 1][..k] == username[..k];
      assert k == |username| - 1;
    }
  }

  /** Without a newline the code and the intent agree. */
  lemma ValidUsernameWithoutNewline(username: string)
    requires '\n' !in username
    ensures ValidUsernameAsWritten(username) <==> ValidUsername(username)
  {
    ValidUsernameAsWrittenIff(username);
  }

  /** The discrepancy: `ab` followed by a newline passes the check as written
      but is not a user name. A lone newline is refused by both. */
  lemma ValidUsernameTrailingNewline(username: string)
    requires username == "ab\n"
    ensures ValidUsernameAsWritten(username)
    ensures !ValidUsername(username)
    ensures !ValidUsernameAsWritten("\n")
  {
    assert WordRun(username[2..]) == 0;
    assert WordRun(username[1..]) == 1;
    assert WordRun(username) == 2;
    assert !IsWordChar(username[2]);
  }

  /** `valid_next_redirect(next)`: the target has no scheme and no network
      location, so it stays on this site, and Django's URL resolver maps its
      path to a view (`resolves`). `None` where `urlparse` raises `ValueError`:
      the view catches only the resolver's and its own 404, so that error
      escapes. */
  function ValidNextRedirect(next: string, resolves: string -> bool): (r: Option<bool>)
    ensures r.None? <==> UrlParse(next).None?
    ensures r == Some(true) ==> UrlFields(next).scheme == "" && UrlFields(next).netloc == ""
  {
    match UrlParse(next)
    case None => None
    case Some(parts) => Some(parts.scheme == "" && parts.netloc == "" && resolves(parts.path))
  }

  /** A redirect to another site is never accepted: refused, or an error
      where `urlparse` raises. */
  lemma ValidNextRejectsOtherSites(next: string, resolves: string -> bool)
    requires StartsWith(next, "http://") || StartsWith(next, "https://")
    ensures ValidNextRedirect(next, resolves) == if UrlParse(next).None? then None else Some(false)
  {
    if StartsWith(next, "http://") {
      HttpUrlParts(next);
    } else {
      HttpsUrlParts(next);
    }
  }

  /** A string starting with `/` never has a scheme: `/` is not a scheme character. */
  lemma SlashHasNoScheme(next: string)
    requires |next| >= 1 && next[0] == '/'
    ensures SchemeAndRest(next) == ("", next)
  {
  }

  /** Nor is a network-path reference (`//host/...`) accepted; `//[x` makes
      `urlparse` raise. */
  lemma ValidNextRejectsNetworkPath(next: string, resolves: string -> bool)
    requires |next| >= 3 && next[..2] == "//" && !IsNetlocEnd(next[2])
    ensures ValidNextRedirect(next, resolves) ==
      if UnbalancedBrackets(NetlocPrefix(next[2..])) then None else Some(false)
  {
    SlashHasNoScheme(next);
    assert NetlocPrefix(next[2..]) != "";
  }

  /** A plain absolute path of this site. */
  predicate PlainPath(p: string) {
    && |p| >= 1 && p[0] == '/'
    && !StartsWith(p, "//")
    && '?' !in p && '#' !in p && ';' !in p
  }

  lemma {:induction false} BeforeAfterPrefix(p: string, c: char, t: string)
    requires c !in p
    ensures Before(p + [c] + t, c) == p
  {
    var s := p + [c] + t;
    assert s == p + ([c] + t);
    IndexOfAfterPrefix(p, [c] + t, c);
    assert IndexOf([c] + t, c) == Some(0);
    assert s[..|p|] == p;
  }

  lemma {:induction false} BeforeOtherSeparator(p: string, d: char, c: char, t: string)
    requires c !in p && d != c
    ensures Before(p + [d] + t, c) == p + [d] + Before(t, c)
  {
    IndexOfAfterPrefix(p + [d], t, c);
    match IndexOf(t, c)
    case None =>
    case Some(i) =>
      assert (p + [d] + t)[..|p| + 1 + i] == p + [d] + t[..i];
  }

  /** A plain path is accepted exactly when the resolver knows it, whatever
      query or fragment follows it (`/login/?what=who`, `/login/#other?what=who`). */
  lemma ValidNextPlainPath(p: string, sep: char, rest: string, resolves: string -> bool)
    requires PlainPath(p) && (sep == '?' || sep == '#')
    ensures ValidNextRedirect(p, resolves) == Some(resolves(p))
    ensures ValidNextRedirect(p + [sep] + rest, resolves) == Some(resolves(p))
  {
    SlashHasNoScheme(p);
    var u := p + [sep] + rest;
    assert u[0] == '/';
    assert !(|u| >= 2 && u[..2] == "//") by {
      if |p| >= 2 {
        assert u[..2] == p[..2];
      } else {
        assert u[1] == sep;
      }
    }
    SlashHasNoScheme(u);
    if sep == '#' {
      BeforeAfterPrefix(p, '#', rest);
    } else {
      BeforeOtherSeparator(p, '?', '#', rest);
      BeforeAfterPrefix(p, '?', Before(rest, '#'));
    }
  }
}
