/** Deleting a news item or a comment (news_app/views/rankables.py).
    Deletion never removes a row: it marks the rankable dead. */
module Rankables {
  import opened Wrappers
  import opened Validation
  import opened Models
  import opened Storage
  import opened Shortcuts
  import opened Http
  import opened UrlLib

  const SUBMIT_VALUE: string := "submitvalue"

  /** The guards of `delete_rankable` in order: the rankable exists, the page
      to return to is a safe redirect (by default the page of the root news
      item), the user is logged in and may delete it, and it is not dead yet.
      Every rankable is a news item or a comment, so the kind guard always
      holds. The result is the row and the page to return to, or the
      response that ends the view: a 404, or a server error when the page to
      return to makes `urlparse` raise. */
  function DeleteTarget(st: Store, req: Request, rankableIdArg: string, now: int, resolves: string -> bool)
    : (r: Guarded<(Id, string)>)
    requires Valid(st) && KnownUser(st, req.user)
    ensures r.Pass? ==>
      && LookupRankable(st.rankables, rankableIdArg) == Some(r.value.0)
      && r.value.0 < |st.rankables|
      && ValidNextRedirect(r.value.1, resolves) == Some(true)
      && req.user.Some? && CanBeDeleted(st.rankables[r.value.0], req.user.value, now)
      && !st.rankables[r.value.0].dead
    ensures r.Stop? ==> r.response == NotFound || r.response == ServerError
    ensures r.Stop? ==>
      || LookupRankable(st.rankables, rankableIdArg).None?
      || req.user.None?
      || var id := LookupRankable(st.rankables, rankableIdArg).value;
         || !CanBeDeleted(st.rankables[id], req.user.value, now)
         || st.rankables[id].dead
         || ValidNextRedirect(FromPage(st.rankables, req.get, id), resolves) != Some(true)
    ensures r == Stop(ServerError) <==>
      && LookupRankable(st.rankables, rankableIdArg).Some?
      && UrlParse(FromPage(st.rankables, req.get, LookupRankable(st.rankables, rankableIdArg).value)).None?
  {
    match LookupRankable(st.rankables, rankableIdArg)
    case None => Stop(NotFound)
    case Some(id) =>
      var r := st.rankables[id];
      var fromPage := FromPage(st.rankables, req.get, id);
      var safe := ValidNextRedirect(fromPage, resolves);
      if safe.None? then Stop(ServerError)
      else if !safe.value then Stop(NotFound)
      else if req.user.None? || !CanBeDeleted(r, req.user.value, now) then Stop(NotFound)
      else if r.dead then Stop(NotFound)
      else Pass((id, fromPage))
  }

  /** `delete_rankable(request, rankable_id)`: GET shows the confirmation
      form; POST with "yes" marks the rankable dead; any POST answer then
      returns to the page the user came from. */
  function DeleteRankable(st: Store, session: SessionData, req: Request, rankableIdArg: string, now: int,
                          resolves: string -> bool): Outcome
    requires Valid(st) && KnownUser(st, req.user)
  {
    match DeleteTarget(st, req, rankableIdArg, now, resolves)
    case Stop(response) => Outcome(st, session, response)
    case Pass((id, fromPage)) =>
      if !req.isPost then Outcome(st, session, Render(DeleteForm(id, fromPage)))
      else if SUBMIT_VALUE !in req.post then Outcome(st, session, NotFound)
      else if req.post[SUBMIT_VALUE] == "yes" then
        Outcome(st.(rankables := st.rankables[id := st.rankables[id].(dead := true)]), session, Redirect(fromPage))
      else Outcome(st, session, Redirect(fromPage))
  }

  /** A `from` page that `urlparse` refuses raises inside the redirect
      check: deleting an existing rankable then ends in a server error and
      changes nothing, whoever asks. */
  lemma DeleteRankableFromRaises(st: Store, session: SessionData, req: Request, rankableIdArg: string, now: int,
                                 resolves: string -> bool)
    requires Valid(st) && KnownUser(st, req.user)
    requires LookupRankable(st.rankables, rankableIdArg).Some?
    requires "from" in req.get && UrlParse(req.get["from"]).None?
    ensures DeleteRankable(st, session, req, rankableIdArg, now, resolves) == Outcome(st, session, ServerError)
  {
  }

  /** The guards `delete_rankable` passes before it marks a row dead: an
      existing row, a `from` page that stays on the site, its logged-in poster
      inside the editing window, a live row, and a POST answering "yes". */
  predicate DeleteConfirmed(st: Store, req: Request, rankableIdArg: string, now: int, resolves: string -> bool)
    requires Valid(st)
  {
    && LookupRankable(st.rankables, rankableIdArg).Some?
    && var id := LookupRankable(st.rankables, rankableIdArg).value;
    && ValidNextRedirect(FromPage(st.rankables, req.get, id), resolves) == Some(true)
    && req.user.Some? && CanBeDeleted(st.rankables[id], req.user.value, now)
    && !st.rankables[id].dead
    && req.isPost && SUBMIT_VALUE in req.post && req.post[SUBMIT_VALUE] == "yes"
  }

  /** A confirmed delete sets the `dead` flag of that row, from false to true,
      changes nothing else, and returns to the `from` page; any other request
      leaves the tables as they were. The session never changes. */
  lemma DeleteChangesOnlyDead(st: Store, session: SessionData, req: Request, rankableIdArg: string, now: int,
                              resolves: string -> bool)
    requires Valid(st) && KnownUser(st, req.user)
    ensures
      var o := DeleteRankable(st, session, req, rankableIdArg, now, resolves);
      && o.session == session
      && if DeleteConfirmed(st, req, rankableIdArg, now, resolves) then
           var id := LookupRankable(st.rankables, rankableIdArg).value;
           && !st.rankables[id].dead
           && o.store == st.(rankables := st.rankables[id := st.rankables[id].(dead := true)])
           && o.response == Redirect(FromPage(st.rankables, req.get, id))
         else o.store == st
  {
    var o := DeleteRankable(st, session, req, rankableIdArg, now, resolves);
    var target := DeleteTarget(st, req, rankableIdArg, now, resolves);
    if target.Stop? {
      assert o == Outcome(st, session, target.response);
    } else if req.isPost && SUBMIT_VALUE in req.post && req.post[SUBMIT_VALUE] == "yes" {
      var id := target.value.0;
      assert target.value.1 == FromPage(st.rankables, req.get, id);
      assert o == Outcome(st.(rankables := st.rankables[id := st.rankables[id].(dead := true)]), session,
                          Redirect(target.value.1));
    } else {
      assert o.store == st && o.session == session;
    }
  }

  /** Marking one row dead keeps the tables valid and the tree's shape, and
      keeps every other row's flag. */
  lemma KillPreservesValid(st: Store, id: Id)
    requires Valid(st) && id < |st.rankables|
    ensures
      var st' := st.(rankables := st.rankables[id := st.rankables[id].(dead := true)]);
      && Valid(st')
      && SameShape(st.rankables, st'.rankables)
      && forall i | 0 <= i < |st.rankables| && st.rankables[i].dead :: st'.rankables[i].dead
  {
    var s' := st.rankables[id := st.rankables[id].(dead := true)];
    assert forall i | 0 <= i < |s'| :: s'[i].kind == st.rankables[i].kind;
    assert forall i | 0 <= i < |s'| :: s'[i].poster == st.rankables[i].poster;
  }

  /** No outcome brings a dead rankable back, and rows keep their kind and
      poster, so the tables stay valid. */
  lemma DeletePreservesValid(st: Store, session: SessionData, req: Request, rankableIdArg: string, now: int,
                             resolves: string -> bool)
    requires Valid(st) && KnownUser(st, req.user)
    ensures
      var st' := DeleteRankable(st, session, req, rankableIdArg, now, resolves).store;
      && Valid(st')
      && SameShape(st.rankables, st'.rankables)
      && forall i | 0 <= i < |st.rankables| && st.rankables[i].dead :: st'.rankables[i].dead
  {
    var st' := DeleteRankable(st, session, req, rankableIdArg, now, resolves).store;
    var target := DeleteTarget(st, req, rankableIdArg, now, resolves);
    if target.Pass? && req.isPost && SUBMIT_VALUE in req.post && req.post[SUBMIT_VALUE] == "yes" {
      var id := target.value.0;
      assert st' == st.(rankables := st.rankables[id := st.rankables[id].(dead := true)]);
      KillPreservesValid(st, id);
    } else {
      assert st' == st;
    }
  }

  /** Once a rankable is deleted, asking to delete it again stops at the
      guards (a 404, or a server error when the page to return to makes
      `urlparse` raise) and changes nothing. */
  lemma DeleteTwice(st: Store, session: SessionData, req: Request, req': Request, rankableIdArg: string, now: int,
                    resolves: string -> bool)
    requires Valid(st) && KnownUser(st, req.user) && KnownUser(st, req'.user)
    requires DeleteRankable(st, session, req, rankableIdArg, now, resolves).store != st
    ensures
      var o := DeleteRankable(st, session, req, rankableIdArg, now, resolves);
      var t := DeleteTarget(o.store, req', rankableIdArg, now, resolves);
      && Valid(o.store) && KnownUser(o.store, req'.user)
      && t.Stop?
      && DeleteRankable(o.store, o.session, req', rankableIdArg, now, resolves) == Outcome(o.store, o.session, t.response)
  {
    var o := DeleteRankable(st, session, req, rankableIdArg, now, resolves);
    DeleteChangesOnlyDead(st, session, req, rankableIdArg, now, resolves);
    DeletePreservesValid(st, session, req, rankableIdArg, now, resolves);
    var id := LookupRankable(st.rankables, rankableIdArg).value;
    assert LookupRankable(o.store.rankables, rankableIdArg) == Some(id);
    assert o.store.rankables[id].dead;
  }

  /** Answering anything but "yes" returns to the page the user came from and
      changes nothing. */
  lemma DeleteDeclined(st: Store, session: SessionData, req: Request, rankableIdArg: string, now: int,
                       resolves: string -> bool)
    requires Valid(st) && KnownUser(st, req.user)
    requires req.isPost && SUBMIT_VALUE in req.post && req.post[SUBMIT_VALUE] != "yes"
    requires DeleteTarget(st, req, rankableIdArg, now, resolves).Pass?
    ensures DeleteRankable(st, session, req, rankableIdArg, now, resolves)
      == Outcome(st, session, Redirect(DeleteTarget(st, req, rankableIdArg, now, resolves).value.1))
  {
  }

  /** The guards of `delete_rankable` as it runs them, changing nothing. */
  method DeleteGuards(db: Database, req: Request, rankableIdArg: string, now: int, resolves: string -> bool)
    returns (target: Guarded<(Id, string)>)
    requires Valid(db.Snapshot()) && KnownUser(db.Snapshot(), req.user)
    ensures target == DeleteTarget(db.Snapshot(), req, rankableIdArg, now, resolves)
  {
    var found := LookupRankable(db.rankables, rankableIdArg);
    if found.None? {
      return Stop(NotFound);
    }
    var id := found.value;
    var r := db.rankables[id];
    var fromPage := FromPage(db.rankables, req.get, id);
    var safe := ValidNextRedirect(fromPage, resolves);
    if safe.None? {
      return Stop(ServerError);
    }
    if !safe.value {
      return Stop(NotFound);
    }
    if req.user.None? || !CanBeDeleted(r, req.user.value, now) {
      return Stop(NotFound);
    }
    if r.dead {
      return Stop(NotFound);
    }
    target := Pass((id, fromPage));
  }

  /** `delete_rankable` as it runs on the tables. */
  method DeleteRankableView(db: Database, session: Session, req: Request, rankableIdArg: string, now: int,
                            resolves: string -> bool) returns (response: Response)
    requires Valid(db.Snapshot()) && KnownUser(db.Snapshot(), req.user)
    modifies db
    ensures Outcome(db.Snapshot(), session.data, response) ==
      DeleteRankable(old(db.Snapshot()), session.data, req, rankableIdArg, now, resolves)
  {
    var target := DeleteGuards(db, req, rankableIdArg, now, resolves);
    if target.Stop? {
      return target.response;
    }
    var (id, fromPage) := target.value;
    if !req.isPost {
      return Render(DeleteForm(id, fromPage));
    }
    if SUBMIT_VALUE !in req.post {
      return NotFound;
    }
    if req.post[SUBMIT_VALUE] == "yes" {
      var r := db.rankables[id].(dead := true);
      db.SaveRankable(id, r);
    }
    response := Redirect(fromPage);
  }
}
