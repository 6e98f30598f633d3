/** The news item views (news_app/views/news_items.py): the page of one news
    item, and submitting a new one, whose title, link and text are checked
    by `check_submission` before anything is stored. */
module NewsItems {
  import opened Wrappers
  import opened PyStr
  import opened UrlLib
  import opened Settings
  import opened Helpers
  import opened Validation
  import opened Models
  import opened Storage
  import opened Shortcuts
  import opened Http
  import opened Comments

  const SUBMIT_TITLE: string := "submit_title"
  const SUBMIT_URL: string := "submit_url"
  const SUBMIT_TEXT: string := "submit_text"
  const SUBMISSION_ERROR: string := "submission_error"

  const ENTER_URL_OR_TEXT: string := "Enter url or text"
  const NOT_BOTH: string := "Only url OR text (not both)"
  const URL_NOT_VALID: string := "URL not valid"
  const TEXT_NOT_VALID: string := "Text not valid"

  /** The title error, built from the maximum title length. */
  function TitleError(): string {
    "Title must be between 1 and " + IntToString(MAX_TITLE_LENGTH) + " characters"
  }

  /** The title error reads "between 1 and 100 characters". */
  lemma TitleErrorText()
    ensures TitleError() == "Title must be between 1 and 100 characters"
  {
    assert NatToString(1) == "1";
    assert NatToString(10) == "10";
    assert NatToString(100) == "100";
  }

  /** `check_submission(title, url, text)`: the first problem found, or "";
      `None` when `valid_url` raises on the link. */
  function CheckSubmission(title: string, url: string, text: string): (r: Option<string>)
    ensures r.None? ==> url != "" && ValidUrl(url).None?
  {
    if !ValidTitle(title) then Some(TitleError())
    else if url == "" && text == "" then Some(ENTER_URL_OR_TEXT)
    else if url != "" && text != "" then Some(NOT_BOTH)
    else if url != "" && ValidUrl(url).None? then None
    else if url != "" && ValidUrl(url) == Some(false) then Some(URL_NOT_VALID)
    else if text != "" && !ValidText(text) then Some(TEXT_NOT_VALID)
    else Some("")
  }

  /** A submission passes exactly when the title is valid and there is either
      a valid link or a text, but not both. */
  lemma CheckSubmissionPasses(title: string, url: string, text: string)
    ensures CheckSubmission(title, url, text) == Some("") <==>
      && 1 <= |title| <= MAX_TITLE_LENGTH
      && ((url != "" && text == "" && ValidUrl(url) == Some(true)) || (url == "" && text != ""))
  {
    TitleErrorText();
  }

  /** A bad title is reported whatever the link and the text are. */
  lemma CheckSubmissionTitleFirst(title: string, url: string, text: string, url': string, text': string)
    requires !ValidTitle(title)
    ensures CheckSubmission(title, url, text) == CheckSubmission(title, url', text') == Some(TitleError())
  {
  }

  /** With a valid title: neither link nor text, both, or an invalid link each
      get their own message; the text message never appears; and the check
      raises exactly when the link alone is given and `valid_url` raises on
      it. */
  lemma CheckSubmissionMessages(title: string, url: string, text: string)
    requires ValidTitle(title)
    ensures url == "" && text == "" ==> CheckSubmission(title, url, text) == Some(ENTER_URL_OR_TEXT)
    ensures url != "" && text != "" ==> CheckSubmission(title, url, text) == Some(NOT_BOTH)
    ensures url != "" && text == "" && ValidUrl(url) == Some(false) ==>
      CheckSubmission(title, url, text) == Some(URL_NOT_VALID)
    ensures CheckSubmission(title, url, text).None? <==> url != "" && text == "" && ValidUrl(url).None?
    ensures CheckSubmission(title, url, text) != Some(TEXT_NOT_VALID)
  {
  }

  /** `news_item(request, news_item_id)`. */
  function NewsItemPage(st: Store, session: SessionData, newsItemIdArg: string, now: int, rank: Ranker): Outcome
    requires Valid(st)
  {
    match LookupNewsItem(st.rankables, newsItemIdArg)
    case None => Outcome(st, session, NotFound)
    case Some(n) => ShowItem(st, session, n, newsItemIdArg, now, rank)
  }

  /** The news item page is a 404 exactly when the id names no news item. */
  lemma NewsItemPageFound(st: Store, session: SessionData, newsItemIdArg: string, now: int, rank: Ranker)
    requires Valid(st)
    ensures NewsItemPage(st, session, newsItemIdArg, now, rank).response == NotFound <==>
      forall id: nat | id < |st.rankables| && st.rankables[id].kind.NewsItem? ::
        ParseInt(newsItemIdArg) != Some(DbId(id) as int)
  {
  }

  /** A news item posted by `poster`: its row (rating 1, ranking 0, live) and
      the poster's up vote. Posting a news item costs nothing. */
  function PostNewsItem(st: Store, poster: ProfileId, title: string, url: string, text: string, now: int): Store {
    Store(st.rankables + [Rankable(poster, now, false, 1, 0.0, now, NewsItem(title, url, text))],
          st.ratings + [Rated(|st.rankables|, poster, Up, now)],
          st.profiles)
  }

  /** What the submit form shows. */
  function ShowSubmitForm(st: Store, session: SessionData, req: Request): Outcome {
    if SUBMIT_TITLE in session then
      var (title, s1) := PopFromSession(session, SUBMIT_TITLE, Text(""));
      var (url, s2) := PopFromSession(s1, SUBMIT_URL, Text(""));
      var (text, s3) := PopFromSession(s2, SUBMIT_TEXT, Text(""));
      var (error, s4) := PopFromSession(s3, SUBMISSION_ERROR, Text(""));
      Outcome(st, s4, Render(Http.SubmitForm(Str(title), Str(url), Str(text), Str(error))))
    else if "title" in req.get then
      Outcome(st, session, Render(Http.SubmitForm(req.get["title"],
                                                  Unquote(ParamOrDefault(req.get, "url", ""), false), "", "")))
    else Outcome(st, session, Render(Http.SubmitForm("", "", "", "")))
  }

  /** `submit(request)`. */
  function Submit(st: Store, session: SessionData, req: Request, now: int): Outcome
    requires Valid(st) && KnownUser(st, req.user)
  {
    if !req.isPost then ShowSubmitForm(st, session, req)
    else if "title" !in req.post || "url" !in req.post || "text" !in req.post then Outcome(st, session, NotFound)
    else
      var title, text := req.post["title"], req.post["text"];
      match ImproveUrl(req.post["url"])
      case None => Outcome(st, session, ServerError)
      case Some(url) =>
        match CheckSubmission(title, url, text)
        case None => Outcome(st, session, ServerError)
        case Some(error) =>
          if error != "" then
            Outcome(st, session[SUBMIT_TITLE := Text(title)][SUBMIT_URL := Text(url)][SUBMIT_TEXT := Text(text)]
                               [SUBMISSION_ERROR := Text(error)],
                    Redirect(SUBMIT_PATH))
          else if req.user.None? then
            Outcome(st, session[SUBMIT_TITLE := Text(title)][SUBMIT_URL := Text(url)][SUBMIT_TEXT := Text(text)],
                    Redirect(LoginRedirect(SUBMIT_PATH)))
          else if url != "" && FirstNewsItemWithUrl(st.rankables, url).Some? then
            Outcome(st, session, Redirect(UpVoteUrl(FirstNewsItemWithUrl(st.rankables, url).value)))
          else
            Outcome(PostNewsItem(st, req.user.value, title, url, text, now), session,
                    Redirect(NewsItemPath(|st.rankables|)))
  }

  /** A link with the `http` scheme whose host has a bracket without its
      partner makes `improve_url` raise: the submission ends in a server
      error and changes nothing. */
  lemma SubmitImproveUrlRaises(st: Store, session: SessionData, req: Request, now: int, host: string)
    requires Valid(st) && KnownUser(st, req.user) && req.isPost
    requires "title" in req.post && "url" in req.post && "text" in req.post
    requires req.post["url"] == "http://" + host
    requires forall k | 0 <= k < |host| :: !IsNetlocEnd(host[k])
    requires UnbalancedBrackets(host)
    ensures Submit(st, session, req, now) == Outcome(st, session, ServerError)
  {
    UrlParseRaisesOnHost(host);
  }

  /** A link without a scheme passes `improve_url`, which prefixes
      `http://`; when its host has a bracket without its partner, the
      `valid_url` check inside `check_submission` then raises, so a
      submission that gets that far ends in a server error and changes
      nothing. */
  lemma SubmitValidUrlRaises(st: Store, session: SessionData, req: Request, now: int, host: string)
    requires Valid(st) && KnownUser(st, req.user) && req.isPost
    requires "title" in req.post && "url" in req.post && "text" in req.post
    requires ValidTitle(req.post["title"]) && req.post["text"] == ""
    requires req.post["url"] == host && |host| + 7 <= MAX_URL_LENGTH
    requires ':' !in host && forall k | 0 <= k < |host| :: !IsNetlocEnd(host[k])
    requires UnbalancedBrackets(host)
    ensures Submit(st, session, req, now) == Outcome(st, session, ServerError)
  {
    var url := "http://" + host;
    assert host != [] && host[0] != '/';
    ImproveUrlAddsScheme(host);
    assert StartsWith(url, "http://") by { assert url[..7] == "http://"; }
    ValidUrlWithPrefix(url, "http://");
    assert url[7..] == host;
    NetlocPrefixWhole(host);
    CheckSubmissionMessages(req.post["title"], url, "");
  }

  /** A submission with a problem stores nothing and keeps the title, the
      improved link, the text and the message in the session; the next GET
      of the form shows exactly those and consumes them. */
  lemma SubmitErrorRoundTrip(st: Store, session: SessionData, req: Request, now: int, get: Request,
                             url: string, error: string)
    requires Valid(st) && KnownUser(st, req.user) && req.isPost
    requires "title" in req.post && "url" in req.post && "text" in req.post
    requires ImproveUrl(req.post["url"]) == Some(url)
    requires CheckSubmission(req.post["title"], url, req.post["text"]) == Some(error) && error != ""
    requires !get.isPost && KnownUser(st, get.user)
    ensures
      var o := Submit(st, session, req, now);
      var shown := Submit(o.store, o.session, get, now);
      && o.store == st && o.response == Redirect(SUBMIT_PATH)
      && shown.response == Render(Http.SubmitForm(req.post["title"], url, req.post["text"], error))
      && shown.session == session - {SUBMIT_TITLE, SUBMIT_URL, SUBMIT_TEXT, SUBMISSION_ERROR}
  {
    StashedFormShown(st, session, get, req.post["title"], url, req.post["text"], error);
  }

  /** The form shown after the four values were stashed in the session. */
  lemma StashedFormShown(st: Store, session: SessionData, get: Request, title: string, url: string, text: string,
                         error: string)
    ensures
      var s := session[SUBMIT_TITLE := Text(title)][SUBMIT_URL := Text(url)][SUBMIT_TEXT := Text(text)]
                      [SUBMISSION_ERROR := Text(error)];
      ShowSubmitForm(st, s, get)
        == Outcome(st, session - {SUBMIT_TITLE, SUBMIT_URL, SUBMIT_TEXT, SUBMISSION_ERROR},
                   Render(Http.SubmitForm(title, url, text, error)))
  {
    var s := session[SUBMIT_TITLE := Text(title)][SUBMIT_URL := Text(url)][SUBMIT_TEXT := Text(text)]
                    [SUBMISSION_ERROR := Text(error)];
    var s4 := PopFromSession(PopFromSession(PopFromSession(PopFromSession(s, SUBMIT_TITLE, Text("")).1,
                SUBMIT_URL, Text("")).1, SUBMIT_TEXT, Text("")).1, SUBMISSION_ERROR, Text("")).1;
    assert s4.Keys == session.Keys - {SUBMIT_TITLE, SUBMIT_URL, SUBMIT_TEXT, SUBMISSION_ERROR};
    assert s4 == session - {SUBMIT_TITLE, SUBMIT_URL, SUBMIT_TEXT, SUBMISSION_ERROR};
  }

  /** A link that is already on the site creates nothing: the submitter is
      sent to up-vote the first item with that link. */
  lemma SubmitDuplicateUrl(st: Store, session: SessionData, req: Request, now: int, url: string, n: Id)
    requires Valid(st) && KnownUser(st, req.user) && req.isPost && req.user.Some?
    requires "title" in req.post && "url" in req.post && "text" in req.post
    requires ImproveUrl(req.post["url"]) == Some(url) && url != ""
    requires CheckSubmission(req.post["title"], url, req.post["text"]) == Some("")
    requires n < |st.rankables| && HasUrl(st.rankables, n, url)
    ensures
      var o := Submit(st, session, req, now);
      && o.store == st && o.session == session
      && exists m | 0 <= m <= n :: o.response == Redirect(UpVoteUrl(m)) && HasUrl(st.rankables, m, url)
  {
    var m := FirstNewsItemWithUrl(st.rankables, url).value;
    assert m <= n;
  }

  /** The guards `submit` passes before it creates the item: a POST with all
      three fields, a link `improve_url` and `check_submission` accept, a
      logged-in user, and a link no news item has yet (or no link). */
  predicate SubmissionAccepted(st: Store, req: Request)
  {
    && req.isPost && "title" in req.post && "url" in req.post && "text" in req.post
    && ImproveUrl(req.post["url"]).Some?
    && var url := ImproveUrl(req.post["url"]).value;
    && CheckSubmission(req.post["title"], url, req.post["text"]) == Some("")
    && req.user.Some?
    && (url != "" ==> forall m | 0 <= m < |st.rankables| :: !HasUrl(st.rankables, m, url))
  }

  /** An accepted submission posts exactly that item, keeps the session and
      sends the poster to the new item's page; any other request leaves the
      tables as they were. */
  lemma SubmitChangesOnlyWhenPosted(st: Store, session: SessionData, req: Request, now: int)
    requires Valid(st) && KnownUser(st, req.user)
    ensures
      var o := Submit(st, session, req, now);
      if SubmissionAccepted(st, req) then
        && o.store == PostNewsItem(st, req.user.value, req.post["title"], ImproveUrl(req.post["url"]).value,
                                   req.post["text"], now)
        && o.session == session
        && o.response == Redirect(NewsItemPath(|st.rankables|))
      else o.store == st
  {
    if SubmissionAccepted(st, req) {
      var url := ImproveUrl(req.post["url"]).value;
      assert url != "" ==> FirstNewsItemWithUrl(st.rankables, url).None?;
    }
  }

  /** A posted news item is one new live row with rating 1 under a valid title
      and either a valid link or a text, one up vote by its poster, and no
      change to anyone's points. */
  lemma PostNewsItemEffect(st: Store, u: ProfileId, title: string, url: string, text: string, now: int)
    requires CheckSubmission(title, url, text) == Some("")
    ensures
      var st' := PostNewsItem(st, u, title, url, text, now);
      var id := |st.rankables|;
      && |st'.rankables| == id + 1 && st'.rankables[..id] == st.rankables
      && st'.rankables[id].kind.NewsItem? && st'.rankables[id].rating == 1 && !st'.rankables[id].dead
      && st'.rankables[id].poster == u
      && ValidTitle(st'.rankables[id].kind.title)
      && (st'.rankables[id].kind.url == "" <==> st'.rankables[id].kind.text != "")
      && (st'.rankables[id].kind.url != "" ==> ValidUrl(st'.rankables[id].kind.url) == Some(true))
      && st'.ratings == st.ratings + [Rated(id, u, Up, now)]
      && st'.profiles == st.profiles
  {
    CheckSubmissionPasses(title, url, text);
  }

  /** Every outcome of `submit` keeps the tables valid. */
  lemma SubmitPreservesValid(st: Store, session: SessionData, req: Request, now: int)
    requires Valid(st) && KnownUser(st, req.user)
    ensures Valid(Submit(st, session, req, now).store)
  {
    var o := Submit(st, session, req, now);
    SubmitChangesOnlyWhenPosted(st, session, req, now);
    if o.store != st {
      var id := |st.rankables|;
      var u := req.user.value;
      assert !AlreadyVoted(st.ratings, id, u) by {
        assert forall i | 0 <= i < |st.ratings| :: st.ratings[i].rankable < id;
      }
      AddRatingKeepsOnePerVoter(st.ratings, Rated(id, u, Up, now));
      assert forall i | 0 <= i < id :: o.store.rankables[i] == st.rankables[i];
    }
  }

  /** `news_item` as it runs on the tables and the session. */
  method NewsItemView(db: Database, session: Session, newsItemIdArg: string, now: int, rank: Ranker)
    returns (response: Response)
    requires Valid(db.Snapshot())
    modifies db, session
    ensures Outcome(db.Snapshot(), session.data, response) ==
      NewsItemPage(old(db.Snapshot()), old(session.data), newsItemIdArg, now, rank)
  {
    var found := LookupNewsItem(db.rankables, newsItemIdArg);
    if found.None? {
      return NotFound;
    }
    response := ShowItemView(db, session, found.value, newsItemIdArg, now, rank);
  }

  /** `submit` as it runs on the tables and the session. */
  method SubmitView(db: Database, session: Session, req: Request, now: int) returns (response: Response)
    requires Valid(db.Snapshot()) && KnownUser(db.Snapshot(), req.user)
    modifies db, session
    ensures Outcome(db.Snapshot(), session.data, response) == Submit(old(db.Snapshot()), old(session.data), req, now)
  {
    if !req.isPost {
      var title, url, text, error := "", "", "", "";
      if SUBMIT_TITLE in session.data {
        var t := session.GetFromSession(SUBMIT_TITLE, Text(""));
        var u := session.GetFromSession(SUBMIT_URL, Text(""));
        var x := session.GetFromSession(SUBMIT_TEXT, Text(""));
        var e := session.GetFromSession(SUBMISSION_ERROR, Text(""));
        title, url, text, error := Str(t), Str(u), Str(x), Str(e);
      } else if "title" in req.get {
        title := req.get["title"];
        url := ParamOrDefault(req.get, "url", "");
        url := Unquote(url, false);
      }
      return Render(Http.SubmitForm(title, url, text, error));
    }
    if "title" !in req.post || "url" !in req.post || "text" !in req.post {
      return NotFound;
    }
    var title, url, text := req.post["title"], req.post["url"], req.post["text"];
    var improved := ImproveUrl(url);
    if improved.None? {
      return ServerError;
    }
    url := improved.value;
    var checked := CheckSubmission(title, url, text);
    if checked.None? {
      return ServerError;
    }
    var error := checked.value;
    if error != "" {
      session.Put(SUBMIT_TITLE, Text(title));
      session.Put(SUBMIT_URL, Text(url));
      session.Put(SUBMIT_TEXT, Text(text));
      session.Put(SUBMISSION_ERROR, Text(error));
      return Redirect(SUBMIT_PATH);
    }
    if req.user.None? {
      session.Put(SUBMIT_TITLE, Text(title));
      session.Put(SUBMIT_URL, Text(url));
      session.Put(SUBMIT_TEXT, Text(text));
      return Redirect(LoginRedirect(SUBMIT_PATH));
    }
    var existing := FirstNewsItemWithUrl(db.rankables, url);
    if url != "" && existing.Some? {
      return Redirect(UpVoteUrl(existing.value));
    }
    var u := req.user.value;
    var n := db.CreateRankable(Rankable(u, now, false, 1, 0.0, now, NewsItem(title, url, text)));
    db.CreateRated(Rated(n, u, Up, now));
    response := Redirect(NewsItemPath(n));
  }
}
