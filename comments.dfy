/** The comment views (news_app/views/comments.py): the page of one comment,
    posting a comment, and editing one. A comment that cannot be posted yet
    is kept in the session, with the id of the item it was meant for, until
    that item's page is shown again. */
module Comments {
  import opened Wrappers
  import opened PyStr
  import opened Validation
  import opened Models
  import opened Storage
  import opened Shortcuts
  import opened CommentTree
  import opened Http
  import opened UrlLib

  const COMMENT_POSTING_ERROR: string := "comment_posting_error"
  const COMMENT_TEXT: string := "comment_text"
  const COMMENT_TEXT_FOR_ID: string := "comment_text_for_id"
  const COMMENT_TEXT_FOR: string := "comment_text_for"
  const COMMENT_NOT_VALID: string := "Comment not valid"
  const INSUFFICIENT_POINTS: string := "Insufficient comment points"

  /** Python truth of a session value. */
  predicate Truthy(v: SessionValue) {
    match v
    case Text(s) => s != ""
    case Number(n) => n != 0
  }

  /** The kept error and comment text as an item page shows them, and the
      session after reading them: the three keys are always consumed, and
      the values are shown only when `comment_text_for_id`, as a string, is
      the id in the page's URL. */
  function ReadDraft(session: SessionData, idArg: string): (string, string, SessionData) {
    var (error, s1) := PopFromSession(session, COMMENT_POSTING_ERROR, Text(""));
    var (text, s2) := PopFromSession(s1, COMMENT_TEXT, Text(""));
    var (forId, s3) := PopFromSession(s2, COMMENT_TEXT_FOR_ID, Text(""));
    if Str(forId) != idArg then ("", "", s3) else (Str(error), Str(text), s3)
  }

  /** Reading the draft removes exactly the three keys; error and text are
      shown only for the item they were kept for, and then as kept. */
  lemma ReadDraftRule(session: SessionData, idArg: string)
    ensures
      var (error, text, session') := ReadDraft(session, idArg);
      var forId := if COMMENT_TEXT_FOR_ID in session then Str(session[COMMENT_TEXT_FOR_ID]) else "";
      && session' == session - {COMMENT_POSTING_ERROR, COMMENT_TEXT, COMMENT_TEXT_FOR_ID}
      && (forId != idArg ==> error == "" && text == "")
      && (forId == idArg ==>
            && error == (if COMMENT_POSTING_ERROR in session then Str(session[COMMENT_POSTING_ERROR]) else "")
            && text == (if COMMENT_TEXT in session then Str(session[COMMENT_TEXT]) else ""))
  {
    var s1 := PopFromSession(session, COMMENT_POSTING_ERROR, Text("")).1;
    var s2 := PopFromSession(s1, COMMENT_TEXT, Text("")).1;
    var s3 := PopFromSession(s2, COMMENT_TEXT_FOR_ID, Text("")).1;
    assert s3 == session - {COMMENT_POSTING_ERROR, COMMENT_TEXT, COMMENT_TEXT_FOR_ID};
  }

  /** What a comment posted from a form for item `parentId` leaves in the
      session is shown on that item's page: the id is stored as a number, and
      its string form is the URL's id. */
  lemma DraftShownOnItsPage(session: SessionData, parent: Id, error: string, text: string)
    ensures
      var kept := session[COMMENT_POSTING_ERROR := Text(error)][COMMENT_TEXT := Text(text)]
                         [COMMENT_TEXT_FOR_ID := Number(DbId(parent))];
      ReadDraft(kept, IntToString(DbId(parent))).0 == error &&
      ReadDraft(kept, IntToString(DbId(parent))).1 == text
  {
  }

  /** The page of an item that exists (the `comment` and `news_item` views
      after their lookup): its replies as a threaded listing with dead ones
      included, the kept draft when it was kept for this item, and the item
      re-ranked. */
  function ShowItem(st: Store, session: SessionData, id: Id, idArg: string, now: int, rank: Ranker): Outcome
    requires Valid(st) && id < |st.rankables|
  {
    var children := Flatten(st.rankables, ReplyOrder(st.rankables), id, 0, true);
    var (error, text, session') := ReadDraft(session, idArg);
    Outcome(st.(rankables := st.rankables[id := Reranked(st.rankables[id], now, rank)]),
            session', Render(ItemPage(id, children, error, text)))
  }

  /** `comment(request, comment_id)`. */
  function CommentPage(st: Store, session: SessionData, commentIdArg: string, now: int, rank: Ranker): Outcome
    requires Valid(st)
  {
    match LookupComment(st.rankables, commentIdArg)
    case None => Outcome(st, session, NotFound)
    case Some(c) => ShowItem(st, session, c, commentIdArg, now, rank)
  }

  /** An item page changes only the item's ranking fields, consumes the
      draft, and lists exactly the item's descendants, each at its generation
      below the item less one. */
  lemma ShowItemEffect(st: Store, session: SessionData, id: Id, idArg: string, now: int, rank: Ranker, e: Entry)
    requires Valid(st) && id < |st.rankables|
    ensures
      var o := ShowItem(st, session, id, idArg, now, rank);
      && o.store == st.(rankables := st.rankables[id := Reranked(st.rankables[id], now, rank)])
      && o.session == session - {COMMENT_POSTING_ERROR, COMMENT_TEXT, COMMENT_TEXT_FOR_ID}
      && o.response.Render? && o.response.page.ItemPage? && o.response.page.top == id
      && (e in o.response.page.children <==>
            Descends(st.rankables, e.comment, id) && e.depth == Generation(st.rankables, e.comment, id) - 1)
  {
    FlattenMembers(st.rankables, ReplyOrder(st.rankables), id, 0, true, e);
    ReadDraftRule(session, idArg);
  }

  /** The comment page is a 404 exactly when the id names no comment. */
  lemma CommentPageFound(st: Store, session: SessionData, commentIdArg: string, now: int, rank: Ranker)
    requires Valid(st)
    ensures CommentPage(st, session, commentIdArg, now, rank).response == NotFound <==>
      forall id: nat | id < |st.rankables| && st.rankables[id].kind.Comment? ::
        ParseInt(commentIdArg) != Some(DbId(id) as int)
  {
  }

  /** A comment posted by `poster` under `parent`: its row (rating 1, ranking 0,
      live), its poster's up vote, and the comment's cost taken from the poster. */
  function PostComment(st: Store, parent: Id, poster: ProfileId, text: string, now: int): Store
    requires Threaded(st.rankables) && parent < |st.rankables| && poster < |st.profiles|
  {
    var id := |st.rankables|;
    var rankables := st.rankables + [Rankable(poster, now, false, 1, 0.0, now, Comment(text, parent))];
    assert Threaded(rankables);
    var p := st.profiles[poster];
    Store(rankables,
          st.ratings + [Rated(id, poster, Up, now)],
          st.profiles[poster := p.(commentPoints := p.commentPoints - CommentCost(rankables, id))])
  }

  /** The new comment costs what its parent's comments cost: both have the
      same root. */
  lemma NewCommentCost(st: Store, parent: Id, poster: ProfileId, text: string, now: int)
    requires Threaded(st.rankables) && parent < |st.rankables| && poster < |st.profiles|
    ensures
      var s' := PostComment(st, parent, poster, text, now).rankables;
      Threaded(s') && CommentCost(s', |st.rankables|) == CommentCost(st.rankables, parent)
  {
    var s := st.rankables;
    var s' := PostComment(st, parent, poster, text, now).rankables;
    assert s'[..|s|] == s;
    assert forall i | 0 <= i < |s| :: s'[i] == s[i];
    SharedRoot(s', |s|);
    RootStable(s, s', parent);
  }

  /** `submit_comment(request)`. */
  function SubmitComment(st: Store, session: SessionData, req: Request, now: int): Outcome
    requires Valid(st) && KnownUser(st, req.user)
  {
    if !req.isPost || "parent_id" !in req.post then Outcome(st, session, NotFound)
    else
      var parentArg := req.post["parent_id"];
      match LookupRankable(st.rankables, parentArg)
      case None => Outcome(st, session, NotFound)
      case Some(parent) =>
        if COMMENT_TEXT !in req.post then Outcome(st, session, NotFound)
        else
          var text := req.post[COMMENT_TEXT];
          var nextOrFail := ReverseWithId(
            if st.rankables[parent].kind.Comment? then "/comment/" else "/news_item/", parentArg);
          if nextOrFail.None? then Outcome(st, session, ServerError)
          else
            var next := nextOrFail.value;
            var forId := Number(DbId(parent));
            if !ValidCommentText(text) then
              Outcome(st, session[COMMENT_POSTING_ERROR := Text(COMMENT_NOT_VALID)][COMMENT_TEXT_FOR_ID := forId],
                      Redirect(next))
            else if req.user.None? then
              Outcome(st, session[COMMENT_TEXT := Text(text)][COMMENT_TEXT_FOR_ID := forId],
                      Redirect(LoginRedirect(next)))
            else if !CanPostComment(st.rankables, parent, st.profiles[req.user.value]) then
              Outcome(st, session[COMMENT_POSTING_ERROR := Text(INSUFFICIENT_POINTS)]
                                 [COMMENT_TEXT_FOR_ID := forId][COMMENT_TEXT := Text(text)],
                      Redirect(next))
            else
              var session' := DelFromSession(DelFromSession(DelFromSession(session, COMMENT_TEXT),
                                                            COMMENT_TEXT_FOR), COMMENT_TEXT_FOR_ID);
              Outcome(PostComment(st, parent, req.user.value, text, now), session', Redirect(next))
  }

  /** The guards `submit_comment` passes before it posts: a POST with both
      fields, an existing parent named by a run of digits (which may end in one
      newline), a non-empty text, a logged-in user who can pay. */
  predicate CommentAccepted(st: Store, req: Request)
    requires Valid(st) && KnownUser(st, req.user)
  {
    && req.isPost && "parent_id" in req.post && COMMENT_TEXT in req.post
    && LookupRankable(st.rankables, req.post["parent_id"]).Some?
    && IdArgument(req.post["parent_id"])
    && ValidCommentText(req.post[COMMENT_TEXT])
    && req.user.Some?
    && CanPostComment(st.rankables, LookupRankable(st.rankables, req.post["parent_id"]).value,
                      st.profiles[req.user.value])
  }

  /** Only an accepted submission changes the tables, and then by posting
      exactly the submitted comment under the parent; a refused one changes
      no table. */
  lemma SubmitCommentChangesOnlyWhenAccepted(st: Store, session: SessionData, req: Request, now: int)
    requires Valid(st) && KnownUser(st, req.user)
    ensures
      var o := SubmitComment(st, session, req, now);
      if CommentAccepted(st, req) then
        o.store == PostComment(st, LookupRankable(st.rankables, req.post["parent_id"]).value,
                               req.user.value, req.post[COMMENT_TEXT], now)
      else o.store == st
  {
  }

  /** A parent id with a final newline (`'5\n'`) still names row 5 and still
      reverses, so the comment is posted, and the poster is sent to the
      parent's page with the newline written as `%0A`. */
  lemma SubmitCommentParentWithNewline(st: Store, session: SessionData, req: Request, now: int,
                                       parent: Id, u: ProfileId)
    requires Valid(st) && KnownUser(st, req.user) && req.user == Some(u) && parent < |st.rankables|
    requires req.isPost && "parent_id" in req.post && COMMENT_TEXT in req.post
    requires req.post["parent_id"] == IntToString(DbId(parent)) + "\n"
    requires ValidCommentText(req.post[COMMENT_TEXT])
    requires CanPostComment(st.rankables, parent, st.profiles[u])
    ensures
      var o := SubmitComment(st, session, req, now);
      && o.store == PostComment(st, parent, u, req.post[COMMENT_TEXT], now)
      && o.response == Redirect((if st.rankables[parent].kind.Comment? then "/comment/" else "/news_item/")
                                + IntToString(DbId(parent)) + "%0A")
  {
    LookupOfDbIdNewline(st.rankables, parent);
    assert DbId(parent) > 0;
    ReverseOfIdArgument(if st.rankables[parent].kind.Comment? then "/comment/" else "/news_item/",
                        IntToString(DbId(parent)));
  }

  /** An empty comment is refused with `Comment not valid` kept for the
      parent, and nothing is created. */
  lemma SubmitCommentEmptyText(st: Store, session: SessionData, req: Request, now: int, parent: Id)
    requires Valid(st) && KnownUser(st, req.user)
    requires req.isPost && "parent_id" in req.post && COMMENT_TEXT in req.post && req.post[COMMENT_TEXT] == ""
    requires LookupRankable(st.rankables, req.post["parent_id"]) == Some(parent)
    requires IdArgument(req.post["parent_id"])
    ensures
      var o := SubmitComment(st, session, req, now);
      && o.store == st
      && o.session == session[COMMENT_POSTING_ERROR := Text(COMMENT_NOT_VALID)][COMMENT_TEXT_FOR_ID := Number(DbId(parent))]
  {
  }

  /** Someone not logged in keeps their text for the parent and is sent to
      log in; nothing is created. */
  lemma SubmitCommentAnonymous(st: Store, session: SessionData, req: Request, now: int, parent: Id)
    requires Valid(st) && KnownUser(st, req.user) && req.user.None?
    requires req.isPost && "parent_id" in req.post && COMMENT_TEXT in req.post && req.post[COMMENT_TEXT] != ""
    requires LookupRankable(st.rankables, req.post["parent_id"]) == Some(parent)
    requires IdArgument(req.post["parent_id"])
    ensures
      var o := SubmitComment(st, session, req, now);
      && o.store == st
      && o.session == session[COMMENT_TEXT := Text(req.post[COMMENT_TEXT])][COMMENT_TEXT_FOR_ID := Number(DbId(parent))]
      && o.response.Redirect? && StartsWith(o.response.location, LOGIN_PATH + "?next=")
  {
    var o := SubmitComment(st, session, req, now);
    assert (LOGIN_PATH + "?next=" + o.response.location[|LOGIN_PATH + "?next="|..])[..|LOGIN_PATH + "?next="|]
      == LOGIN_PATH + "?next=";
  }

  /** A poster who cannot pay gets `Insufficient comment points`, keeps the
      text, and nobody's points change. */
  lemma SubmitCommentCannotPay(st: Store, session: SessionData, req: Request, now: int, parent: Id, u: ProfileId)
    requires Valid(st) && KnownUser(st, req.user) && req.user == Some(u)
    requires req.isPost && "parent_id" in req.post && COMMENT_TEXT in req.post && req.post[COMMENT_TEXT] != ""
    requires LookupRankable(st.rankables, req.post["parent_id"]) == Some(parent)
    requires IdArgument(req.post["parent_id"])
    requires !CanPostComment(st.rankables, parent, st.profiles[u])
    ensures
      var o := SubmitComment(st, session, req, now);
      && o.store == st
      && o.session == session[COMMENT_POSTING_ERROR := Text(INSUFFICIENT_POINTS)]
                             [COMMENT_TEXT_FOR_ID := Number(DbId(parent))][COMMENT_TEXT := Text(req.post[COMMENT_TEXT])]
  {
  }

  /** Posting adds exactly one comment, a child of `parent`, and one up vote by
      its poster; the poster pays what a comment under `parent` costs and
      keeps a balance of at least zero; no other row changes. */
  lemma PostCommentEffect(st: Store, parent: Id, u: ProfileId, text: string, now: int)
    requires Valid(st) && parent < |st.rankables| && u < |st.profiles|
    requires CanPostComment(st.rankables, parent, st.profiles[u])
    ensures
      var st' := PostComment(st, parent, u, text, now);
      var id := |st.rankables|;
      && |st'.rankables| == id + 1 && st'.rankables[..id] == st.rankables
      && st'.rankables[id] == Rankable(u, now, false, 1, 0.0, now, Comment(text, parent))
      && st'.ratings == st.ratings + [Rated(id, u, Up, now)]
      && |st'.profiles| == |st.profiles|
      && st'.profiles[u].commentPoints == st.profiles[u].commentPoints - CommentCost(st.rankables, parent)
      && st'.profiles[u].commentPoints >= 0
      && (forall p | 0 <= p < |st.profiles| && p != u :: st'.profiles[p] == st.profiles[p])
  {
    NewCommentCost(st, parent, u, text, now);
  }

  /** Posting keeps the tables valid. */
  lemma PostCommentPreservesValid(st: Store, parent: Id, u: ProfileId, text: string, now: int)
    requires Valid(st) && parent < |st.rankables| && u < |st.profiles|
    requires CanPostComment(st.rankables, parent, st.profiles[u])
    ensures Valid(PostComment(st, parent, u, text, now))
  {
    var st' := PostComment(st, parent, u, text, now);
    var id := |st.rankables|;
    PostCommentEffect(st, parent, u, text, now);
    assert !AlreadyVoted(st.ratings, id, u) by {
      assert forall i | 0 <= i < |st.ratings| :: st.ratings[i].rankable < id;
    }
    AddRatingKeepsOnePerVoter(st.ratings, Rated(id, u, Up, now));
    assert forall i | 0 <= i < id :: st'.rankables[i] == st.rankables[i];
    assert forall p | 0 <= p < |st.profiles| :: st'.profiles[p].username == st.profiles[p].username;
  }

  /** Every outcome of `submit_comment` keeps the tables valid. */
  lemma SubmitCommentPreservesValid(st: Store, session: SessionData, req: Request, now: int)
    requires Valid(st) && KnownUser(st, req.user)
    ensures Valid(SubmitComment(st, session, req, now).store)
  {
    SubmitCommentChangesOnlyWhenAccepted(st, session, req, now);
    if CommentAccepted(st, req) {
      PostCommentPreservesValid(st, LookupRankable(st.rankables, req.post["parent_id"]).value,
                                req.user.value, req.post[COMMENT_TEXT], now);
    }
  }

  /** The guards of `edit_comment` before it reads the method: the comment
      exists, the `from` page (by default the root news item's page) stays on
      the site, the user is logged in and may still edit it, and it is not
      dead. The comment and the `from` page when they all pass; a 404 when
      one fails, or a server error when `from` makes `urlparse` raise. */
  function EditTarget(st: Store, req: Request, commentIdArg: string, now: int, resolves: string -> bool)
    : (r: Guarded<(Id, string)>)
    requires Valid(st) && KnownUser(st, req.user)
    ensures r.Stop? ==> r.response == NotFound || r.response == ServerError
    ensures r == Stop(ServerError) <==>
      && LookupComment(st.rankables, commentIdArg).Some?
      && UrlParse(FromPage(st.rankables, req.get, LookupComment(st.rankables, commentIdArg).value)).None?
    ensures r.Pass? ==>
      && LookupComment(st.rankables, commentIdArg) == Some(r.value.0)
      && r.value.0 < |st.rankables| && st.rankables[r.value.0].kind.Comment?
      && req.user.Some? && CanBeEdited(st.rankables[r.value.0], req.user.value, now)
      && !st.rankables[r.value.0].dead
  {
    match LookupComment(st.rankables, commentIdArg)
    case None => Stop(NotFound)
    case Some(c) =>
      var com := st.rankables[c];
      var fromPage := FromPage(st.rankables, req.get, c);
      var safe := ValidNextRedirect(fromPage, resolves);
      if safe.None? then Stop(ServerError)
      else if !safe.value then Stop(NotFound)
      else if req.user.None? || !CanBeEdited(com, req.user.value, now) then Stop(NotFound)
      else if com.dead then Stop(NotFound)
      else Pass((c, fromPage))
  }

  /** `edit_comment(request, comment_id)`. */
  function EditComment(st: Store, session: SessionData, req: Request, commentIdArg: string, now: int,
                       resolves: string -> bool): Outcome
    requires Valid(st) && KnownUser(st, req.user)
  {
    match EditTarget(st, req, commentIdArg, now, resolves)
    case Stop(response) => Outcome(st, session, response)
    case Pass((c, fromPage)) =>
      var com := st.rankables[c];
      if !req.isPost then
        var (error, s1) := PopFromSession(session, COMMENT_POSTING_ERROR, Text(""));
        var (text, s2) := PopFromSession(s1, COMMENT_TEXT, Text(""));
        var shown := if Truthy(text) then Str(text) else com.kind.text;
        Outcome(st, s2, Render(EditCommentForm(c, Str(error), shown, fromPage)))
      else if COMMENT_TEXT !in req.post then Outcome(st, session, NotFound)
      else
        var text := req.post[COMMENT_TEXT];
        if !ValidCommentText(text) then
          Outcome(st, session[COMMENT_POSTING_ERROR := Text(COMMENT_NOT_VALID)][COMMENT_TEXT := Text(text)],
                  Redirect(EditCommentPath(c)))
        else
          Outcome(st.(rankables := st.rankables[c := com.(kind := Comment(text, com.kind.parent))]), session,
                  Redirect(fromPage))
  }

  /** A `from` page that `urlparse` refuses raises inside the redirect
      check: editing an existing comment then ends in a server error and
      changes nothing, whoever asks. */
  lemma EditCommentFromRaises(st: Store, session: SessionData, req: Request, commentIdArg: string, now: int,
                              resolves: string -> bool)
    requires Valid(st) && KnownUser(st, req.user)
    requires LookupComment(st.rankables, commentIdArg).Some?
    requires "from" in req.get && UrlParse(req.get["from"]).None?
    ensures EditComment(st, session, req, commentIdArg, now, resolves) == Outcome(st, session, ServerError)
  {
  }

  /** The guards `edit_comment` passes before it saves: an existing comment,
      a `from` page that stays on the site, a logged-in poster inside the
      editing window, a live comment, and a POST with a non-empty text. */
  predicate EditAccepted(st: Store, req: Request, commentIdArg: string, now: int, resolves: string -> bool)
    requires Valid(st)
  {
    && LookupComment(st.rankables, commentIdArg).Some?
    && var c := LookupComment(st.rankables, commentIdArg).value;
    && ValidNextRedirect(FromPage(st.rankables, req.get, c), resolves) == Some(true)
    && req.user.Some? && CanBeEdited(st.rankables[c], req.user.value, now) && !st.rankables[c].dead
    && req.isPost && COMMENT_TEXT in req.post && ValidCommentText(req.post[COMMENT_TEXT])
  }

  /** An accepted edit stores the new text in that comment, keeps its parent,
      changes no other row, table or session key, and returns to the `from`
      page; any other request leaves the tables as they were. */
  lemma EditCommentChangesOnlyText(st: Store, session: SessionData, req: Request, commentIdArg: string, now: int,
                                   resolves: string -> bool)
    requires Valid(st) && KnownUser(st, req.user)
    ensures
      var o := EditComment(st, session, req, commentIdArg, now, resolves);
      if EditAccepted(st, req, commentIdArg, now, resolves) then
        var c := LookupComment(st.rankables, commentIdArg).value;
        var com := st.rankables[c];
        && o.store == st.(rankables := st.rankables[c := com.(kind := Comment(req.post[COMMENT_TEXT], com.kind.parent))])
        && o.session == session
        && o.response == Redirect(FromPage(st.rankables, req.get, c))
      else o.store == st
  {
    var o := EditComment(st, session, req, commentIdArg, now, resolves);
    var target := EditTarget(st, req, commentIdArg, now, resolves);
    if EditAccepted(st, req, commentIdArg, now, resolves) {
      var c := LookupComment(st.rankables, commentIdArg).value;
      assert target == Pass((c, FromPage(st.rankables, req.get, c)));
    } else {
      assert o.store == st;
    }
  }

  /** Replacing a comment's text keeps the tables valid and the tree's shape. */
  lemma ReplaceTextPreservesValid(st: Store, c: Id, text: string)
    requires Valid(st) && c < |st.rankables| && st.rankables[c].kind.Comment?
    ensures
      var com := st.rankables[c];
      var st' := st.(rankables := st.rankables[c := com.(kind := Comment(text, com.kind.parent))]);
      Valid(st') && SameShape(st.rankables, st'.rankables)
  {
    var com := st.rankables[c];
    var s' := st.rankables[c := com.(kind := Comment(text, com.kind.parent))];
    assert forall i | 0 <= i < |s'| :: s'[i].kind.Comment? == st.rankables[i].kind.Comment?;
    assert forall i | 0 <= i < |s'| :: Shape(s'[i].kind) == Shape(st.rankables[i].kind);
    assert forall i | 0 <= i < |s'| :: s'[i].poster == st.rankables[i].poster;
  }

  /** Editing keeps the tables valid and every comment where it was in the
      tree. */
  lemma EditCommentPreservesValid(st: Store, session: SessionData, req: Request, commentIdArg: string, now: int,
                                  resolves: string -> bool)
    requires Valid(st) && KnownUser(st, req.user)
    ensures Valid(EditComment(st, session, req, commentIdArg, now, resolves).store)
    ensures SameShape(st.rankables, EditComment(st, session, req, commentIdArg, now, resolves).store.rankables)
  {
    var st' := EditComment(st, session, req, commentIdArg, now, resolves).store;
    var target := EditTarget(st, req, commentIdArg, now, resolves);
    if target.Pass? && req.isPost && COMMENT_TEXT in req.post && ValidCommentText(req.post[COMMENT_TEXT]) {
      var c, text := target.value.0, req.post[COMMENT_TEXT];
      var com := st.rankables[c];
      assert st' == st.(rankables := st.rankables[c := com.(kind := Comment(text, com.kind.parent))]);
      ReplaceTextPreservesValid(st, c, text);
    } else {
      assert st' == st;
    }
  }

  /** When the guards pass, a GET renders the form for that comment with the
      kept text when there is one and otherwise the comment's own text; the
      error and text keys are consumed and no table changes. */
  lemma EditCommentFormText(st: Store, session: SessionData, req: Request, commentIdArg: string, now: int,
                            resolves: string -> bool)
    requires Valid(st) && KnownUser(st, req.user) && !req.isPost
    requires EditTarget(st, req, commentIdArg, now, resolves).Pass?
    ensures
      var o := EditComment(st, session, req, commentIdArg, now, resolves);
      var c := EditTarget(st, req, commentIdArg, now, resolves).value.0;
      && o.store == st
      && o.session == session - {COMMENT_POSTING_ERROR, COMMENT_TEXT}
      && o.response.Render? && o.response.page.EditCommentForm? && o.response.page.comment == c
      && o.response.page.text ==
           (if COMMENT_TEXT in session && Truthy(session[COMMENT_TEXT]) then Str(session[COMMENT_TEXT])
            else st.rankables[c].kind.text)
  {
    PopTwo(session, COMMENT_POSTING_ERROR, COMMENT_TEXT, Text(""), Text(""));
  }

  /** An item page as it runs: the listing, the three session reads, the
      re-ranking. */
  method ShowItemView(db: Database, session: Session, id: Id, idArg: string, now: int, rank: Ranker)
    returns (response: Response)
    requires Valid(db.Snapshot()) && id < |db.rankables|
    modifies db, session
    ensures Outcome(db.Snapshot(), session.data, response) ==
      ShowItem(old(db.Snapshot()), old(session.data), id, idArg, now, rank)
  {
    var children := GetChildComments(db.rankables, id, 0, true);
    var error := session.GetFromSession(COMMENT_POSTING_ERROR, Text(""));
    var text := session.GetFromSession(COMMENT_TEXT, Text(""));
    var forId := session.GetFromSession(COMMENT_TEXT_FOR_ID, Text(""));
    var shownError, shownText := Str(error), Str(text);
    if Str(forId) != idArg {
      shownError, shownText := "", "";
    }
    db.UpdateRanking(id, now, rank);
    response := Render(ItemPage(id, children, shownError, shownText));
  }

  /** `comment` as it runs on the tables and the session. */
  method CommentView(db: Database, session: Session, commentIdArg: string, now: int, rank: Ranker)
    returns (response: Response)
    requires Valid(db.Snapshot())
    modifies db, session
    ensures Outcome(db.Snapshot(), session.data, response) ==
      CommentPage(old(db.Snapshot()), old(session.data), commentIdArg, now, rank)
  {
    var found := LookupComment(db.rankables, commentIdArg);
    if found.None? {
      return NotFound;
    }
    response := ShowItemView(db, session, found.value, commentIdArg, now, rank);
  }

  /** `submit_comment` as it runs on the tables and the session. */
  method SubmitCommentView(db: Database, session: Session, req: Request, now: int) returns (response: Response)
    requires Valid(db.Snapshot()) && KnownUser(db.Snapshot(), req.user)
    modifies db, session
    ensures Outcome(db.Snapshot(), session.data, response) ==
      SubmitComment(old(db.Snapshot()), old(session.data), req, now)
  {
    if !req.isPost || "parent_id" !in req.post {
      return NotFound;
    }
    var parentArg := req.post["parent_id"];
    var found := LookupRankable(db.rankables, parentArg);
    if found.None? {
      return NotFound;
    }
    var parent := found.value;
    if COMMENT_TEXT !in req.post {
      return NotFound;
    }
    var text := req.post[COMMENT_TEXT];
    var nextOrFail := ReverseWithId(
      if db.rankables[parent].kind.Comment? then "/comment/" else "/news_item/", parentArg);
    if nextOrFail.None? {
      return ServerError;
    }
    var next := nextOrFail.value;
    if !ValidCommentText(text) {
      session.Put(COMMENT_POSTING_ERROR, Text(COMMENT_NOT_VALID));
      session.Put(COMMENT_TEXT_FOR_ID, Number(DbId(parent)));
      return Redirect(next);
    }
    if req.user.None? {
      session.Put(COMMENT_TEXT, Text(text));
      session.Put(COMMENT_TEXT_FOR_ID, Number(DbId(parent)));
      return Redirect(LoginRedirect(next));
    }
    var u := req.user.value;
    if !CanPostComment(db.rankables, parent, db.profiles[u]) {
      session.Put(COMMENT_POSTING_ERROR, Text(INSUFFICIENT_POINTS));
      session.Put(COMMENT_TEXT_FOR_ID, Number(DbId(parent)));
      session.Put(COMMENT_TEXT, Text(text));
      return Redirect(next);
    }
    PostCommentInto(db, parent, u, text, now);
    session.Delete(COMMENT_TEXT);
    session.Delete(COMMENT_TEXT_FOR);
    session.Delete(COMMENT_TEXT_FOR_ID);
    response := Redirect(next);
  }

  /** The writes of a posted comment: the comment row, the poster's up vote,
      and the poster's profile charged the new comment's cost. */
  method PostCommentInto(db: Database, parent: Id, u: ProfileId, text: string, now: int)
    requires Threaded(db.rankables) && parent < |db.rankables| && u < |db.profiles|
    modifies db
    ensures db.Snapshot() == PostComment(old(db.Snapshot()), parent, u, text, now)
  {
    var com := db.CreateRankable(Rankable(u, now, false, 1, 0.0, now, Comment(text, parent)));
    db.CreateRated(Rated(com, u, Up, now));
    var profile := db.profiles[u];
    profile := profile.(commentPoints := profile.commentPoints - CommentCost(db.rankables, com));
    db.SaveProfile(u, profile);
  }

  /** The guards of `edit_comment` as it runs them, changing nothing. */
  method EditGuards(db: Database, req: Request, commentIdArg: string, now: int, resolves: string -> bool)
    returns (target: Guarded<(Id, string)>)
    requires Valid(db.Snapshot()) && KnownUser(db.Snapshot(), req.user)
    ensures target == EditTarget(db.Snapshot(), req, commentIdArg, now, resolves)
  {
    var found := LookupComment(db.rankables, commentIdArg);
    if found.None? {
      return Stop(NotFound);
    }
    var c := found.value;
    var com := db.rankables[c];
    var fromPage := FromPage(db.rankables, req.get, c);
    var safe := ValidNextRedirect(fromPage, resolves);
    if safe.None? {
      return Stop(ServerError);
    }
    if !safe.value {
      return Stop(NotFound);
    }
    if req.user.None? || !CanBeEdited(com, req.user.value, now) {
      return Stop(NotFound);
    }
    if com.dead {
      return Stop(NotFound);
    }
    target := Pass((c, fromPage));
  }

  /** `edit_comment` as it runs on the tables and the session. */
  method EditCommentView(db: Database, session: Session, req: Request, commentIdArg: string, now: int,
                         resolves: string -> bool) returns (response: Response)
    requires Valid(db.Snapshot()) && KnownUser(db.Snapshot(), req.user)
    modifies db, session
    ensures Outcome(db.Snapshot(), session.data, response) ==
      EditComment(old(db.Snapshot()), old(session.data), req, commentIdArg, now, resolves)
  {
    var target := EditGuards(db, req, commentIdArg, now, resolves);
    if target.Stop? {
      return target.response;
    }
    var (c, fromPage) := target.value;
    var com := db.rankables[c];
    if !req.isPost {
      var error := session.GetFromSession(COMMENT_POSTING_ERROR, Text(""));
      var text := session.GetFromSession(COMMENT_TEXT, Text(""));
      var shown := if Truthy(text) then Str(text) else com.kind.text;
      return Render(EditCommentForm(c, Str(error), shown, fromPage));
    }
    if COMMENT_TEXT !in req.post {
      return NotFound;
    }
    var text := req.post[COMMENT_TEXT];
    if !ValidCommentText(text) {
      session.Put(COMMENT_POSTING_ERROR, Text(COMMENT_NOT_VALID));
      session.Put(COMMENT_TEXT, Text(text));
      return Redirect(EditCommentPath(c));
    }
    com := com.(kind := Comment(text, com.kind.parent));
    db.SaveRankable(c, com);
    response := Redirect(fromPage);
  }
}
