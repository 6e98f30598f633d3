/** The vote view (news_app/views/voting.py): a GET with `id`, `direction`
    and `next` that, when every guard passes, moves the rankable's rating by
    one, records the vote and charges the voter. */
module Voting {
  import opened Wrappers
  import opened Validation
  import opened Models
  import opened Storage
  import opened Shortcuts
  import opened Http
  import opened UrlLib

  const VOTING_ERROR: string := "voting_error"
  const NOT_ENOUGH_POINTS: string := "Not enough comment points"

  /** The `direction` parameter: only `up` and `down` are accepted. */
  function ParseDirection(d: string): (r: Option<Direction>)
    ensures r == Some(Up) <==> d == "up"
    ensures r == Some(Down) <==> d == "down"
    ensures r.None? <==> d != "up" && d != "down"
  {
    if d == "up" then Some(Up) else if d == "down" then Some(Down) else None
  }

  /** How far the view gets: a response that changes nothing, the error for a
      voter who cannot pay, or a vote that is cast. */
  datatype VoteStep =
    | Rejected(response: Response)
    | CannotPay
    | Cast(id: Id, voter: ProfileId, dir: Direction, next: string)

  /** The guards of `vote`, in the order the view checks them. */
  function VoteStepOf(st: Store, req: Request, resolves: string -> bool): (step: VoteStep)
    requires Threaded(st.rankables) && KnownUser(st, req.user)
    ensures step.Cast? ==> step.id < |st.rankables| && step.voter < |st.profiles|
    ensures step.Cast? ==> !AlreadyVoted(st.ratings, step.id, step.voter)
    ensures step.Cast? ==> CanVote(st.rankables, step.id, st.profiles[step.voter])
  {
    var idArg := ParamOr404(req.get, "id");
    var dirArg := ParamOr404(req.get, "direction");
    var nextArg := ParamOr404(req.get, "next");
    if idArg.None? || dirArg.None? || nextArg.None? then Rejected(NotFound)
    else
      var dir := ParseDirection(dirArg.value);
      var next := nextArg.value;
      var safe := ValidNextRedirect(next, resolves);
      if dir.None? then Rejected(NotFound)
      else if safe.None? then Rejected(ServerError)
      else if !safe.value then Rejected(NotFound)
      else
        match LookupRankable(st.rankables, idArg.value)
        case None => Rejected(NotFound)
        case Some(id) =>
          if req.user.None? then Rejected(Redirect(LoginRedirect(next)))
          else
            var u := req.user.value;
            if AlreadyVoted(st.ratings, id, u) then Rejected(Redirect(next))
            else if !CanVote(st.rankables, id, st.profiles[u]) then CannotPay
            else if dir.value == Down && !CanBeDownvoted(st.rankables[id].kind) then Rejected(NotFound)
            else Cast(id, u, dir.value, next)
  }

  /** The rankable after a vote: rating one up or one down, then re-ranked. */
  function Voted(r: Rankable, dir: Direction, now: int, rank: Ranker): Rankable {
    Reranked(r.(rating := r.rating + (if dir == Up then 1 else -1)), now, rank)
  }

  /** The tables after `voter` casts a vote on `id`. */
  function CastVote(st: Store, id: Id, voter: ProfileId, dir: Direction, now: int, rank: Ranker): Store
    requires Threaded(st.rankables) && id < |st.rankables| && voter < |st.profiles|
  {
    var p := st.profiles[voter];
    Store(
      st.rankables[id := Voted(st.rankables[id], dir, now, rank)],
      st.ratings + [Rated(id, voter, dir, now)],
      st.profiles[voter := p.(commentPoints := p.commentPoints - VoteCost(st.rankables, id))])
  }

  /** `vote(request)`. */
  function Vote(st: Store, session: SessionData, req: Request, now: int, rank: Ranker, resolves: string -> bool): Outcome
    requires Valid(st) && KnownUser(st, req.user)
  {
    match VoteStepOf(st, req, resolves)
    case Rejected(response) => Outcome(st, session, response)
    case CannotPay => Outcome(st, session[VOTING_ERROR := Text(NOT_ENOUGH_POINTS)], Redirect(BUY_POINTS_PATH))
    case Cast(id, u, dir, next) => Outcome(CastVote(st, id, u, dir, now, rank), session, Redirect(next))
  }

  /** A vote is cast exactly when all three parameters are there, the
      direction is `up` or `down`, `next` stays on the site, the rankable
      exists, the user is logged in, has not voted on it, can pay, and is not
      voting a comment down. */
  lemma VoteCastIff(st: Store, req: Request, resolves: string -> bool, id: Id, u: ProfileId, dir: Direction, next: string)
    requires Valid(st) && KnownUser(st, req.user)
    ensures VoteStepOf(st, req, resolves) == Cast(id, u, dir, next) <==>
      && "id" in req.get && "direction" in req.get && "next" in req.get && req.get["next"] == next
      && ParseDirection(req.get["direction"]) == Some(dir)
      && ValidNextRedirect(next, resolves) == Some(true)
      && LookupRankable(st.rankables, req.get["id"]) == Some(id)
      && req.user == Some(u)
      && !AlreadyVoted(st.ratings, id, u)
      && CanVote(st.rankables, id, st.profiles[u])
      && (dir == Down ==> CanBeDownvoted(st.rankables[id].kind))
  {
  }

  /** A vote that is not cast changes no table; only a voter who cannot pay
      gets `voting_error` in the session (and is sent to buy points). */
  lemma VoteRejectedChangesNothing(st: Store, session: SessionData, req: Request, now: int, rank: Ranker, resolves: string -> bool)
    requires Valid(st) && KnownUser(st, req.user)
    requires !VoteStepOf(st, req, resolves).Cast?
    ensures Vote(st, session, req, now, rank, resolves).store == st
    ensures VoteStepOf(st, req, resolves).Rejected? ==> Vote(st, session, req, now, rank, resolves).session == session
    ensures VoteStepOf(st, req, resolves).CannotPay? ==>
      Vote(st, session, req, now, rank, resolves) ==
        Outcome(st, session[VOTING_ERROR := Text(NOT_ENOUGH_POINTS)], Redirect(BUY_POINTS_PATH))
  {
  }

  /** A direction other than `up` or `down` is a 404 that changes nothing. */
  lemma VoteBadDirection(st: Store, session: SessionData, req: Request, now: int, rank: Ranker, resolves: string -> bool)
    requires Valid(st) && KnownUser(st, req.user)
    requires "direction" in req.get && req.get["direction"] != "up" && req.get["direction"] != "down"
    ensures Vote(st, session, req, now, rank, resolves) == Outcome(st, session, NotFound)
  {
  }

  /** A `next` that `urlparse` refuses (a bracket in its network location
      without its partner) raises inside the redirect check: the request
      ends in a server error and changes nothing. */
  lemma VoteNextRaises(st: Store, session: SessionData, req: Request, now: int, rank: Ranker, resolves: string -> bool)
    requires Valid(st) && KnownUser(st, req.user)
    requires "id" in req.get && "direction" in req.get && "next" in req.get
    requires req.get["direction"] == "up" || req.get["direction"] == "down"
    requires UrlParse(req.get["next"]).None?
    ensures Vote(st, session, req, now, rank, resolves) == Outcome(st, session, ServerError)
  {
  }

  /** Someone not logged in changes nothing: at best they are sent to log in. */
  lemma VoteAnonymous(st: Store, session: SessionData, req: Request, now: int, rank: Ranker, resolves: string -> bool)
    requires Valid(st) && KnownUser(st, req.user) && req.user.None?
    ensures Vote(st, session, req, now, rank, resolves).store == st
    ensures Vote(st, session, req, now, rank, resolves).session == session
  {
  }

  /** Voting again on the same rankable changes nothing and goes to `next`. */
  lemma VoteAlreadyVoted(st: Store, session: SessionData, req: Request, now: int, rank: Ranker, resolves: string -> bool, id: Id, u: ProfileId)
    requires Valid(st) && KnownUser(st, req.user)
    requires "id" in req.get && "direction" in req.get && "next" in req.get
    requires req.get["direction"] == "up" || req.get["direction"] == "down"
    requires ValidNextRedirect(req.get["next"], resolves) == Some(true)
    requires LookupRankable(st.rankables, req.get["id"]) == Some(id)
    requires req.user == Some(u) && AlreadyVoted(st.ratings, id, u)
    ensures Vote(st, session, req, now, rank, resolves) == Outcome(st, session, Redirect(req.get["next"]))
  {
  }

  /** The points check comes before the down-vote check: a voter who cannot
      pay gets the points error even when voting a comment down. */
  lemma VoteCannotPayFirst(st: Store, session: SessionData, req: Request, now: int, rank: Ranker, resolves: string -> bool, id: Id, u: ProfileId)
    requires Valid(st) && KnownUser(st, req.user)
    requires "id" in req.get && "direction" in req.get && "next" in req.get
    requires req.get["direction"] == "up" || req.get["direction"] == "down"
    requires ValidNextRedirect(req.get["next"], resolves) == Some(true)
    requires LookupRankable(st.rankables, req.get["id"]) == Some(id)
    requires req.user == Some(u) && !AlreadyVoted(st.ratings, id, u)
    requires !CanVote(st.rankables, id, st.profiles[u])
    ensures Vote(st, session, req, now, rank, resolves) ==
      Outcome(st, session[VOTING_ERROR := Text(NOT_ENOUGH_POINTS)], Redirect(BUY_POINTS_PATH))
  {
  }

  /** Voting a comment down, once past the other guards, is a 404 that
      changes nothing. */
  lemma VoteDownOnComment(st: Store, session: SessionData, req: Request, now: int, rank: Ranker, resolves: string -> bool, id: Id, u: ProfileId)
    requires Valid(st) && KnownUser(st, req.user)
    requires "id" in req.get && "next" in req.get && "direction" in req.get && req.get["direction"] == "down"
    requires ValidNextRedirect(req.get["next"], resolves) == Some(true)
    requires LookupRankable(st.rankables, req.get["id"]) == Some(id) && st.rankables[id].kind.Comment?
    requires req.user == Some(u) && !AlreadyVoted(st.ratings, id, u)
    requires CanVote(st.rankables, id, st.profiles[u])
    ensures Vote(st, session, req, now, rank, resolves) == Outcome(st, session, NotFound)
  {
  }

  /** A cast vote moves the rating by exactly one, re-ranks that rankable and
      touches no other, adds exactly one vote row, charges exactly the vote's
      cost to the voter and no one else, and leaves the voter a balance of
      at least zero. */
  lemma CastVoteEffect(st: Store, id: Id, u: ProfileId, dir: Direction, now: int, rank: Ranker)
    requires Valid(st) && id < |st.rankables| && u < |st.profiles|
    requires CanVote(st.rankables, id, st.profiles[u])
    ensures
      var st' := CastVote(st, id, u, dir, now, rank);
      var r, r' := st.rankables[id], st'.rankables[id];
      && |st'.rankables| == |st.rankables|
      && r'.rating == r.rating + (if dir == Up then 1 else -1)
      && r'.ranking == rank(r'.rating, r.datePosted, now) && r'.lastRankedDate == now
      && r'.poster == r.poster && r'.datePosted == r.datePosted && r'.dead == r.dead && r'.kind == r.kind
      && (forall i | 0 <= i < |st.rankables| && i != id :: st'.rankables[i] == st.rankables[i])
      && st'.ratings == st.ratings + [Rated(id, u, dir, now)]
      && |st'.profiles| == |st.profiles|
      && st'.profiles[u].commentPoints == st.profiles[u].commentPoints - VoteCost(st.rankables, id)
      && st'.profiles[u].commentPoints >= 0
      && st'.profiles[u].username == st.profiles[u].username
      && st'.profiles[u].optionShowDead == st.profiles[u].optionShowDead
      && (forall p | 0 <= p < |st.profiles| && p != u :: st'.profiles[p] == st.profiles[p])
  {
  }

  /** The tables after a vote differ from the old ones only in ratings and
      rankings, so every rankable keeps its place in the tree and its costs. */
  lemma CastVoteSameShape(st: Store, id: Id, u: ProfileId, dir: Direction, now: int, rank: Ranker)
    requires Valid(st) && id < |st.rankables| && u < |st.profiles|
    ensures SameShape(st.rankables, CastVote(st, id, u, dir, now, rank).rankables)
    ensures Threaded(CastVote(st, id, u, dir, now, rank).rankables)
  {
    var s' := CastVote(st, id, u, dir, now, rank).rankables;
    assert forall i | 0 <= i < |s'| :: s'[i].kind == st.rankables[i].kind;
  }

  /** A vote by someone who has not voted on the rankable yet and can pay
      keeps the tables valid: one vote per voter and rankable, and no
      negative balance. */
  lemma CastVotePreservesValid(st: Store, id: Id, u: ProfileId, dir: Direction, now: int, rank: Ranker)
    requires Valid(st) && id < |st.rankables| && u < |st.profiles|
    requires !AlreadyVoted(st.ratings, id, u) && CanVote(st.rankables, id, st.profiles[u])
    ensures Valid(CastVote(st, id, u, dir, now, rank))
  {
    var st' := CastVote(st, id, u, dir, now, rank);
    CastVoteEffect(st, id, u, dir, now, rank);
    CastVoteSameShape(st, id, u, dir, now, rank);
    AddRatingKeepsOnePerVoter(st.ratings, Rated(id, u, dir, now));
    assert forall i | 0 <= i < |st'.rankables| :: st'.rankables[i].poster == st.rankables[i].poster;
    assert forall i | 0 <= i < |st.ratings| :: st'.ratings[i] == st.ratings[i];
    assert st'.ratings[|st.ratings|] == Rated(id, u, dir, now);
    assert forall p | 0 <= p < |st.profiles| :: st'.profiles[p].username == st.profiles[p].username;
  }

  /** Replacing a row by one of the same kind keeps the tree and the cost of
      voting on that row. */
  lemma SameKindKeepsCost(s: seq<Rankable>, id: Id, r: Rankable)
    requires Threaded(s) && id < |s| && r.kind == s[id].kind
    ensures Threaded(s[id := r]) && VoteCost(s[id := r], id) == VoteCost(s, id)
  {
    var t := s[id := r];
    assert forall i | 0 <= i < |t| :: t[i].kind == s[i].kind;
    assert t[..|s|] == t;
    CostsStable(s, t, id);
  }

  /** What the vote costs is the same before and after it is cast. */
  lemma CastVoteKeepsCost(st: Store, id: Id, u: ProfileId, dir: Direction, now: int, rank: Ranker)
    requires Threaded(st.rankables) && id < |st.rankables| && u < |st.profiles|
    ensures Threaded(CastVote(st, id, u, dir, now, rank).rankables)
    ensures VoteCost(CastVote(st, id, u, dir, now, rank).rankables, id) == VoteCost(st.rankables, id)
  {
    SameKindKeepsCost(st.rankables, id, Voted(st.rankables[id], dir, now, rank));
  }

  /** Every outcome of the view keeps the tables valid. */
  lemma VotePreservesValid(st: Store, session: SessionData, req: Request, now: int, rank: Ranker, resolves: string -> bool)
    requires Valid(st) && KnownUser(st, req.user)
    ensures Valid(Vote(st, session, req, now, rank, resolves).store)
  {
    var step := VoteStepOf(st, req, resolves);
    var st' := Vote(st, session, req, now, rank, resolves).store;
    if step.Cast? {
      assert st' == CastVote(st, step.id, step.voter, step.dir, now, rank);
      CastVotePreservesValid(st, step.id, step.voter, step.dir, now, rank);
    } else {
      assert st' == st;
    }
  }

  /** Repeating a vote that was cast changes nothing the second time: the
      voter has now voted, so the view just redirects. */
  lemma VoteTwice(st: Store, session: SessionData, req: Request, now: int, now': int, rank: Ranker, resolves: string -> bool)
    requires Valid(st) && KnownUser(st, req.user)
    requires VoteStepOf(st, req, resolves).Cast?
    ensures
      var o := Vote(st, session, req, now, rank, resolves);
      Valid(o.store) && KnownUser(o.store, req.user) &&
      Vote(o.store, o.session, req, now', rank, resolves) == Outcome(o.store, o.session, o.response)
  {
    var step := VoteStepOf(st, req, resolves);
    var o := Vote(st, session, req, now, rank, resolves);
    VotePreservesValid(st, session, req, now, rank, resolves);
    VoteCastIff(st, req, resolves, step.id, step.voter, step.dir, step.next);
    AddRatingKeepsOnePerVoter(st.ratings, Rated(step.id, step.voter, step.dir, now));
    assert LookupRankable(o.store.rankables, req.get["id"]) == Some(step.id);
    assert VoteStepOf(o.store, req, resolves) == Rejected(Redirect(step.next));
  }

  /** The writes of a cast vote: the rankable saved with its new rating and
      ranking, the vote row, and the voter's profile charged the vote's cost. */
  method ApplyVote(db: Database, id: Id, u: ProfileId, dir: Direction, now: int, rank: Ranker)
    requires Threaded(db.rankables) && id < |db.rankables| && u < |db.profiles|
    modifies db
    ensures db.Snapshot() == CastVote(old(db.Snapshot()), id, u, dir, now, rank)
  {
    ghost var st := db.Snapshot();
    var rankable := db.rankables[id];
    if dir == Up {
      rankable := rankable.(rating := rankable.rating + 1);
    } else {
      rankable := rankable.(rating := rankable.rating - 1);
    }
    db.SaveRankable(id, rankable);
    db.UpdateRanking(id, now, rank);
    db.CreateRated(Rated(id, u, dir, now));
    assert db.rankables == CastVote(st, id, u, dir, now, rank).rankables;
    CastVoteKeepsCost(st, id, u, dir, now, rank);
    var profile := db.profiles[u];
    profile := profile.(commentPoints := profile.commentPoints - VoteCost(db.rankables, id));
    db.SaveProfile(u, profile);
  }

  /** The guards of the view as it runs them: reads the parameters and checks
      them in the order of the source, changing nothing. */
  method VoteGuards(db: Database, req: Request, resolves: string -> bool) returns (step: VoteStep)
    requires Threaded(db.rankables) && KnownUser(db.Snapshot(), req.user)
    ensures step == VoteStepOf(db.Snapshot(), req, resolves)
  {
    var idArg := ParamOr404(req.get, "id");
    var dirArg := ParamOr404(req.get, "direction");
    var nextArg := ParamOr404(req.get, "next");
    if idArg.None? || dirArg.None? || nextArg.None? {
      return Rejected(NotFound);
    }
    var rankableId, next := idArg.value, nextArg.value;
    var dir := ParseDirection(dirArg.value);
    if dir.None? {
      return Rejected(NotFound);
    }
    var safe := ValidNextRedirect(next, resolves);
    if safe.None? {
      return Rejected(ServerError);
    }
    if !safe.value {
      return Rejected(NotFound);
    }
    var found := LookupRankable(db.rankables, rankableId);
    if found.None? {
      return Rejected(NotFound);
    }
    var id := found.value;
    if req.user.None? {
      return Rejected(Redirect(LoginRedirect(next)));
    }
    var u := req.user.value;
    if AlreadyVoted(db.ratings, id, u) {
      return Rejected(Redirect(next));
    }
    if !CanVote(db.rankables, id, db.profiles[u]) {
      return CannotPay;
    }
    if dir.value == Down && !CanBeDownvoted(db.rankables[id].kind) {
      return Rejected(NotFound);
    }
    step := Cast(id, u, dir.value, next);
  }

  /** The view as it runs: the guards, then the error for a voter who cannot
      pay or the writes of the vote. */
  method VoteView(db: Database, session: Session, req: Request, now: int, rank: Ranker, resolves: string -> bool)
    returns (response: Response)
    requires Valid(db.Snapshot()) && KnownUser(db.Snapshot(), req.user)
    modifies db, session
    ensures Outcome(db.Snapshot(), session.data, response) ==
      Vote(old(db.Snapshot()), old(session.data), req, now, rank, resolves)
  {
    var step := VoteGuards(db, req, resolves);
    match step
    case Rejected(r) =>
      response := r;
    case CannotPay =>
      session.Put(VOTING_ERROR, Text(NOT_ENOUGH_POINTS));
      response := Redirect(BUY_POINTS_PATH);
    case Cast(id, u, dir, next) =>
      ApplyVote(db, id, u, dir, now, rank);
      response := Redirect(next);
  }
}
