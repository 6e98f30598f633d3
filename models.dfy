/** The records of the news site (news_app/models.py) and the rules computed
    from them: the root news item of a comment, what posting and voting cost,
    and who may vote, post, edit and delete. The rankables are kept in a
    sequence indexed by their id; a comment is always created after its
    parent, so its parent's id is smaller than its own. */
module Models {
  import opened Wrappers
  import opened PyStr
  import opened UrlLib
  import opened Settings
  import opened Helpers
  import opened Validation

  type Id = nat
  type ProfileId = nat

  datatype Direction = Up | Down

  /** What a rankable is. A missing url or text (`None`) is the empty string;
      Python treats both as false. */
  datatype Kind =
    | NewsItem(title: string, url: string, text: string)
    | Comment(text: string, parent: Id)

  /** A news item or comment, with the fields every `Rankable` row has. */
  datatype Rankable = Rankable(
    poster: ProfileId,
    datePosted: int,
    dead: bool,
    rating: int,
    ranking: real,
    lastRankedDate: int,
    kind: Kind)

  /** One vote (`Rated`): who rated which rankable, in which direction. */
  datatype Rated = Rated(rankable: Id, profile: ProfileId, direction: Direction, dateRated: int)

  /** The part of a `UserProfile` the core reads and writes. */
  datatype Profile = Profile(username: string, commentPoints: int, optionShowDead: bool)

  /** The ranking formula `calculate_ranking`, from rating, posting date and the current time. */
  type Ranker = (int, int, int) -> real

  /** Every comment's parent was created before it. */
  predicate Threaded(s: seq<Rankable>) {
    forall i | 0 <= i < |s| :: s[i].kind.Comment? ==> s[i].kind.parent < i
  }

  /** `Comment.get_newsitem`: follow parent links up to the news item at the top. */
  function GetNewsItem(s: seq<Rankable>, id: Id): (root: Id)
    requires Threaded(s) && id < |s| && s[id].kind.Comment?
    ensures root < id && s[root].kind.NewsItem?
    decreases id
  {
    var parent := s[id].kind.parent;
    if s[parent].kind.NewsItem? then parent else GetNewsItem(s, parent)
  }

  /** `get_parent_news_item`: a news item is its own root, a comment's root is
      the news item it was posted under. */
  function GetParentNewsItem(s: seq<Rankable>, id: Id): (root: Id)
    requires Threaded(s) && id < |s|
    ensures root <= id && s[root].kind.NewsItem?
    ensures s[id].kind.NewsItem? ==> root == id
  {
    if s[id].kind.NewsItem? then id else GetNewsItem(s, id)
  }

  /** A comment and its parent have the same root. */
  lemma SharedRoot(s: seq<Rankable>, id: Id)
    requires Threaded(s) && id < |s| && s[id].kind.Comment?
    ensures GetParentNewsItem(s, id) == GetParentNewsItem(s, s[id].kind.parent)
  {
  }

  /** `a` is `d` or one of the rankables above it. */
  predicate IsAncestorOrSelf(s: seq<Rankable>, a: Id, d: Id)
    requires Threaded(s) && d < |s|
    ensures IsAncestorOrSelf(s, a, d) ==> a <= d
    decreases d
  {
    a == d || (s[d].kind.Comment? && IsAncestorOrSelf(s, a, s[d].kind.parent))
  }

  /** The root is the one news item among a rankable's ancestors: every news
      item above or at `id` is the root. */
  lemma {:induction false} RootIsOnlyNewsItemAbove(s: seq<Rankable>, id: Id, a: Id)
    requires Threaded(s) && id < |s|
    ensures IsAncestorOrSelf(s, GetParentNewsItem(s, id), id)
    ensures IsAncestorOrSelf(s, a, id) && s[a].kind.NewsItem? ==> a == GetParentNewsItem(s, id)
    decreases id
  {
    if s[id].kind.Comment? {
      var p := s[id].kind.parent;
      RootIsOnlyNewsItemAbove(s, p, a);
      SharedRoot(s, id);
    }
  }

  /** The part of a rankable's kind that decides where it sits in the tree and
      what its root costs: everything but a comment's text. */
  function Shape(k: Kind): Kind {
    match k
    case NewsItem(_, _, _) => k
    case Comment(_, parent) => Comment("", parent)
  }

  /** Two stores with the same rankables up to ratings, rankings, dead flags
      and comment texts. */
  predicate SameShape(s: seq<Rankable>, t: seq<Rankable>) {
    |s| == |t| && forall i | 0 <= i < |s| :: Shape(s[i].kind) == Shape(t[i].kind)
  }

  /** Appending a rankable to a store that already has a prefix `s` keeps the
      prefix's roots; editing ratings, flags or comment texts keeps every root. */
  lemma {:induction false} RootStable(s: seq<Rankable>, t: seq<Rankable>, id: Id)
    requires Threaded(s) && Threaded(t) && id < |s| <= |t|
    requires SameShape(s, t[..|s|])
    ensures GetParentNewsItem(t, id) == GetParentNewsItem(s, id)
    ensures t[GetParentNewsItem(t, id)].kind == s[GetParentNewsItem(s, id)].kind
    decreases id
  {
    assert Shape(s[id].kind) == Shape(t[..|s|][id].kind);
    if s[id].kind.Comment? {
      RootStable(s, t, s[id].kind.parent);
    }
  }

  /** `is_normal_news_item`: a link item, one without text. */
  predicate IsNormalNewsItem(k: Kind)
    requires k.NewsItem?
  {
    k.text == ""
  }

  /** `is_ask_sn`: an "Ask SN" item, one with text. */
  predicate IsAskSn(k: Kind)
    requires k.NewsItem?
  {
    !IsNormalNewsItem(k)
  }

  /** `response_cost`: what replying to this news item costs. */
  function ResponseCost(k: Kind): (cost: nat)
    requires k.NewsItem?
    ensures IsNormalNewsItem(k) ==> cost == COST_RESPOND_NEWS_ITEM
    ensures IsAskSn(k) ==> cost == COST_RESPOND_ASK_SN
  {
    if IsNormalNewsItem(k) then COST_RESPOND_NEWS_ITEM
    else if IsAskSn(k) then COST_RESPOND_ASK_SN
    else 0
  }

  /** A network location without a leading `www.`. */
  function StripWww(netloc: string): (r: string)
    ensures r == netloc || "www." + r == netloc
    ensures StartsWith(netloc, "www.") ==> "www." + r == netloc
    ensures !StartsWith(netloc, "www.") ==> r == netloc
  {
    if StartsWith(netloc, "www.") then
      assert netloc == "www." + netloc[4..];
      netloc[4..]
    else netloc
  }

  /** `abbr_url`: the domain of the item's url, without a leading `www.`;
      `None` where `urlparse` raises `ValueError` on the url. */
  function AbbrUrl(k: Kind): (r: Option<string>)
    requires k.NewsItem?
    ensures k.url == "" ==> r == Some("")
    ensures k.url != "" ==> (r.None? <==> UrlParse(k.url).None?)
    ensures r.Some? && k.url != "" ==>
      var netloc := UrlFields(k.url).netloc;
      && (r.value == netloc || "www." + r.value == netloc)
      && ("www." + r.value == netloc <==> StartsWith(netloc, "www."))
  {
    if k.url == "" then Some("")
    else
      match UrlParse(k.url)
      case None => None
      case Some(parts) => Some(StripWww(parts.netloc))
  }

  /** A link `valid_url` accepted never makes `abbr_url` raise; its result is
      the domain after the `http://` or `https://`, less a leading `www.`. */
  lemma AbbrUrlOfValidUrl(k: Kind, prefix: string)
    requires k.NewsItem? && ValidUrl(k.url) == Some(true)
    requires (prefix == "http://" || prefix == "https://") && StartsWith(k.url, prefix)
    ensures AbbrUrl(k) == Some(StripWww(DomainAfter(k.url, prefix)))
  {
    ValidUrlWithPrefix(k.url, prefix);
    if prefix == "http://" {
      HttpUrlParts(k.url);
    } else {
      HttpsUrlParts(k.url);
    }
  }

  /** `comment_cost`: what posting a comment under rankable `id` costs, decided
      by whether its root is a link item or an "Ask SN" item. */
  function CommentCost(s: seq<Rankable>, id: Id): (cost: nat)
    requires Threaded(s) && id < |s|
  {
    var root := s[GetParentNewsItem(s, id)].kind;
    if IsNormalNewsItem(root) then COST_RESPOND_NEWS_ITEM
    else if IsAskSn(root) then COST_RESPOND_ASK_SN
    else 0
  }

  /** Posting under any rankable costs what replying to its root news item costs:
      2 points under a link item, nothing under an "Ask SN" item. */
  lemma CommentCostIsRootResponseCost(s: seq<Rankable>, id: Id)
    requires Threaded(s) && id < |s|
    ensures CommentCost(s, id) == ResponseCost(s[GetParentNewsItem(s, id)].kind)
    ensures CommentCost(s, id) == (if s[GetParentNewsItem(s, id)].kind.text == "" then 2 else 0)
  {
  }

  /** `vote_cost`: what voting on rankable `id` costs. */
  function VoteCost(s: seq<Rankable>, id: Id): (cost: nat)
    requires Threaded(s) && id < |s|
  {
    var root := s[GetParentNewsItem(s, id)].kind;
    if s[id].kind.NewsItem? then
      if IsAskSn(root) then COST_VOTE_ASK_SN
      else if IsNormalNewsItem(root) then COST_VOTE_NEWS_ITEM
      else 0
    else
      if IsNormalNewsItem(root) then COST_VOTE_NORMAL_COMMENT
      else if IsAskSn(root) then COST_VOTE_ASK_SN_COMMENT
      else 0
  }

  /** Voting on a news item is free; voting on a comment costs one point when
      the comment sits under a link item and nothing under an "Ask SN" item. */
  lemma VoteCostValues(s: seq<Rankable>, id: Id)
    requires Threaded(s) && id < |s|
    ensures s[id].kind.NewsItem? ==> VoteCost(s, id) == 0
    ensures s[id].kind.Comment? ==>
      VoteCost(s, id) == (if s[GetNewsItem(s, id)].kind.text == "" then 1 else 0)
  {
  }

  /** Costs depend only on the root, which stays put while the store grows or
      its ratings, flags and comment texts change. */
  lemma CostsStable(s: seq<Rankable>, t: seq<Rankable>, id: Id)
    requires Threaded(s) && Threaded(t) && id < |s| <= |t|
    requires SameShape(s, t[..|s|])
    ensures CommentCost(t, id) == CommentCost(s, id)
    ensures VoteCost(t, id) == VoteCost(s, id)
  {
    RootStable(s, t, id);
    assert Shape(s[id].kind) == Shape(t[..|s|][id].kind);
  }

  /** `can_vote`: the voter can pay for the vote. */
  predicate CanVote(s: seq<Rankable>, id: Id, voter: Profile)
    requires Threaded(s) && id < |s|
  {
    voter.commentPoints - VoteCost(s, id) >= 0
  }

  /** `can_post_comment`: the poster can pay for a comment under `id`. */
  predicate CanPostComment(s: seq<Rankable>, id: Id, poster: Profile)
    requires Threaded(s) && id < |s|
  {
    poster.commentPoints - CommentCost(s, id) >= 0
  }

  /** `can_be_downvoted`: only news items can be voted down. */
  predicate CanBeDownvoted(k: Kind) {
    !k.Comment?
  }

  /** Exactly one of `is_normal_news_item` and `is_ask_sn` holds, "normal"
      meaning no text; only news items can be voted down. */
  lemma KindPredicates(k: Kind)
    ensures k.NewsItem? ==> (IsNormalNewsItem(k) <==> !IsAskSn(k)) && (IsNormalNewsItem(k) <==> k.text == "")
    ensures CanBeDownvoted(k) <==> k.NewsItem?
  {
  }

  /** The balance checks with the default costs: voting on a comment under a
      link item needs one point, posting under a link item two, everything
      else only a balance that is not negative. */
  lemma BalanceChecks(s: seq<Rankable>, id: Id, u: Profile)
    requires Threaded(s) && id < |s|
    ensures CanVote(s, id, u) <==>
      u.commentPoints >= (if s[id].kind.Comment? && s[GetParentNewsItem(s, id)].kind.text == "" then 1 else 0)
    ensures CanPostComment(s, id, u) <==>
      u.commentPoints >= (if s[GetParentNewsItem(s, id)].kind.text == "" then 2 else 0)
  {
    VoteCostValues(s, id);
    CommentCostIsRootResponseCost(s, id);
  }

  /** `can_be_edited`: by its poster, while it is younger than the editing window. */
  predicate CanBeEdited(r: Rankable, profile: ProfileId, now: int) {
    r.poster == profile && r.datePosted > DatetimeAgo(now, 0, 0, 0, COMMENT_EDITABLE_MINS, 0)
  }

  /** `can_be_deleted`: the same rule as editing. */
  predicate CanBeDeleted(r: Rankable, profile: ProfileId, now: int) {
    CanBeEdited(r, profile, now)
  }

  /** The editing window is the last hour: a rankable posted at `now - 3600`
      or earlier can no longer be edited or deleted. */
  lemma EditWindow(r: Rankable, profile: ProfileId, now: int)
    ensures CanBeEdited(r, profile, now) <==> r.poster == profile && now - r.datePosted < 3600
    ensures CanBeDeleted(r, profile, now) <==> CanBeEdited(r, profile, now)
  {
  }

  /** `already_voted`: some vote on `id` is by `profile`. */
  predicate AlreadyVoted(ratings: seq<Rated>, id: Id, profile: ProfileId) {
    exists i | 0 <= i < |ratings| :: ratings[i].rankable == id && ratings[i].profile == profile
  }

  /** At most one vote per rankable and profile. */
  predicate OneRatingPerVoter(ratings: seq<Rated>) {
    forall i, j | 0 <= i < j < |ratings| ::
      !(ratings[i].rankable == ratings[j].rankable && ratings[i].profile == ratings[j].profile)
  }

  /** Recording a vote from someone who has not voted on that rankable yet keeps
      one vote per voter, and afterwards they have voted. */
  lemma AddRatingKeepsOnePerVoter(ratings: seq<Rated>, r: Rated)
    requires OneRatingPerVoter(ratings)
    requires !AlreadyVoted(ratings, r.rankable, r.profile)
    ensures OneRatingPerVoter(ratings + [r])
    ensures AlreadyVoted(ratings + [r], r.rankable, r.profile)
  {
    var t := ratings + [r];
    assert t[|ratings|] == r;
    forall i, j | 0 <= i < j < |t|
      ensures !(t[i].rankable == t[j].rankable && t[i].profile == t[j].profile)
    {
      if j == |ratings| {
        assert t[i] == ratings[i];
      }
    }
  }

  /** `update_ranking` on one rankable: a freshly computed ranking and the time
      it was computed; nothing else changes. */
  function Reranked(r: Rankable, now: int, rank: Ranker): (r': Rankable)
    ensures r'.ranking == rank(r.rating, r.datePosted, now) && r'.lastRankedDate == now
    ensures r'.poster == r.poster && r'.datePosted == r.datePosted && r'.dead == r.dead
    ensures r'.rating == r.rating && r'.kind == r.kind
  {
    r.(ranking := rank(r.rating, r.datePosted, now), lastRankedDate := now)
  }

  /** Re-ranking twice at the same moment is the same as re-ranking once. */
  lemma RerankedIdempotent(r: Rankable, now: int, rank: Ranker)
    ensures Reranked(Reranked(r, now, rank), now, rank) == Reranked(r, now, rank)
  {
  }
}
