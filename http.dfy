/** Requests, responses and the URLs the views redirect to. URLs are those
    `reverse` produces for the patterns of news_app/urls.py with the
    application mounted at the root of the site. */
module Http {
  import opened Wrappers
  import opened PyStr
  import opened UrlLib
  import opened Helpers
  import opened Models
  import opened Storage
  import opened Shortcuts
  import opened CommentTree

  /** What a view reads from a request: its method, the query and form
      parameters and the logged-in user's profile, if any. */
  datatype Request = Request(
    isPost: bool,
    get: map<string, string>,
    post: map<string, string>,
    user: Option<ProfileId>)

  /** The context a view hands to its template. */
  datatype Page =
    | ItemPage(top: Id, children: seq<Entry>, error: string, text: string)
    | EditCommentForm(comment: Id, error: string, text: string, fromPage: string)
    | DeleteForm(rankable: Id, fromPage: string)
    | SubmitForm(title: string, url: string, text: string, error: string)

  /** `Http404`; a server error (an exception the view does not catch, such as
      a failing `reverse` or `urlparse`'s `ValueError`); a redirect; a rendered page. */
  datatype Response = NotFound | ServerError | Redirect(location: string) | Render(page: Page)

  /** How far a view's guards get: a response that ends the view there, or
      the values the rest of the view works on. */
  datatype Guarded<T> = Stop(response: Response) | Pass(value: T)

  /** The state after a view: the tables, the session and the response. */
  datatype Outcome = Outcome(store: Store, session: SessionData, response: Response)

  const LOGIN_PATH: string := "/login"
  const SUBMIT_PATH: string := "/submit"
  const BUY_POINTS_PATH: string := "/buy_points"
  const VOTE_PATH: string := "/vote"

  /** `reverse('...login_view') + '?next=' + next`. */
  function LoginRedirect(next: string): string {
    LOGIN_PATH + "?next=" + next
  }

  /** The arguments a group `(?P<id>\d+)` followed by `/?$` lets through: a
      run of decimal digits, which Python's `$` also lets be followed by one
      final newline. */
  predicate IdArgument(arg: string) {
    || (|arg| >= 1 && AllDigits(arg))
    || (|arg| >= 2 && arg[|arg| - 1] == '\n' && AllDigits(arg[..|arg| - 1]))
  }

  /** `reverse(view, args=(arg,))` for a pattern `prefix(?P<id>\d+)/?$`: the
      filled-in path must match the whole pattern, otherwise `NoReverseMatch`;
      the path is then percent-encoded by `iri_to_uri`, which on an id argument
      writes what `quote_plus` writes (a final newline becomes `%0A`). */
  function ReverseWithId(prefix: string, arg: string): (r: Option<string>)
    ensures r.Some? <==> IdArgument(arg)
    ensures r.Some? ==> IsByteString(arg) && r.value == prefix + QuotePlus(arg)
  {
    if |arg| >= 1 && AllDigits(arg) then
      QuotePlusDigits(arg);
      Some(prefix + arg)
    else if |arg| >= 2 && arg[|arg| - 1] == '\n' && AllDigits(arg[..|arg| - 1]) then
      QuotePlusFinalNewline(arg[..|arg| - 1]);
      assert arg == arg[..|arg| - 1] + "\n";
      Some(prefix + arg[..|arg| - 1] + "%0A")
    else
      None
  }

  lemma QuotePlusDigits(d: string)
    requires AllDigits(d)
    ensures IsByteString(d) && QuotePlus(d) == d
  {
    QuotePlusSafe(d);
  }

  lemma QuotePlusFinalNewline(d: string)
    requires AllDigits(d)
    ensures IsByteString(d + "\n") && QuotePlus(d + "\n") == d + "%0A"
  {
    QuotePlusDigits(d);
    QuotePlusOneChar('\n');
    assert QuoteChar('\n') == "%0A";
    QuotePlusAppend(d, "\n");
  }

  /** The path of a digit run with a final newline keeps the digits and
      encodes the newline; without the newline the digits are the path. */
  lemma ReverseOfIdArgument(prefix: string, d: string)
    requires |d| >= 1 && AllDigits(d)
    ensures ReverseWithId(prefix, d) == Some(prefix + d)
    ensures ReverseWithId(prefix, d + "\n") == Some(prefix + d + "%0A")
  {
    QuotePlusDigits(d);
    QuotePlusFinalNewline(d);
    assert IdArgument(d + "\n") by {
      assert (d + "\n")[..|d|] == d;
    }
  }

  /** Any other white space around the digits, or a second newline, is refused. */
  lemma ReverseRefusesPadding(prefix: string, d: string)
    requires |d| >= 1 && AllDigits(d)
    ensures ReverseWithId(prefix, " " + d) == None
    ensures ReverseWithId(prefix, d + " ") == None
    ensures ReverseWithId(prefix, d + "\n\n") == None
  {
    assert !IsDigit((" " + d)[0]);
    assert (" " + d)[..|d|][0] == ' ';
    assert (d + " ")[|d|] == ' ';
    assert (d + "\n\n")[..|d| + 1][|d|] == '\n';
  }

  /** The page of the news item with row `id`. */
  function NewsItemPath(id: Id): string {
    "/news_item/" + IntToString(DbId(id))
  }

  /** The page the edit and delete views return to: the `from` parameter, by
      default the page of the news item the rankable belongs to. */
  function FromPage(s: seq<Rankable>, get: map<string, string>, id: Id): string
    requires Threaded(s) && id < |s|
  {
    ParamOrDefault(get, "from", NewsItemPath(GetParentNewsItem(s, id)))
  }

  /** The page of the comment with row `id`. */
  function CommentPath(id: Id): string {
    "/comment/" + IntToString(DbId(id))
  }

  /** The editing page of the comment with row `id`. */
  function EditCommentPath(id: Id): string {
    "/edit_comment/" + IntToString(DbId(id))
  }

  /** The decimal form of a natural number is plain ASCII. */
  lemma NatToStringIsAscii(n: nat)
    ensures IsByteString(NatToString(n))
  {
    assert forall k | 0 <= k < |NatToString(n)| :: IsDigit(NatToString(n)[k]);
  }

  /** The up-vote URL the submit view sends a duplicate link to:
      `reverse('...vote') + '?' + urlencode({...})`, the pairs in the order
      Python 2.7's dictionary lists these four keys on a 64-bit build. */
  function UpVoteUrl(id: Id): (r: string)
  {
    var idText := IntToString(DbId(id));
    NatToStringIsAscii(DbId(id));
    assert IsByteString("/news_item/" + idText) by {
      assert forall k | 0 <= k < |idText| :: ("/news_item/" + idText)[11 + k] == idText[k];
    }
    VOTE_PATH + "?" + Urlencode("direction", "up") + "&" + Urlencode("type", "news_item")
      + "&" + Urlencode("id", idText) + "&" + Urlencode("next", NewsItemPath(id))
  }
}
