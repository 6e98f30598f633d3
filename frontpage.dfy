/** `get_frontpage_querymanager` (news_app/helpers.py): the news items posted
    in the last four weeks, dead ones only for a viewer who asked to see them,
    by descending ranking and then descending posting date. The query is
    modelled as a filter over the rankables in id order followed by a stable
    sort, so rows equal on both keys come out in id order. */
module FrontPage {
  import opened Wrappers
  import opened Helpers
  import opened Models
  import opened Sorting

  /** `request.user.is_authenticated() and ...get_profile().option_show_dead`. */
  predicate ShowsDead(profiles: seq<Profile>, user: Option<ProfileId>) {
    user.Some? && user.value < |profiles| && profiles[user.value].optionShowDead
  }

  /** Whether rankable `id` passes the query's filter. */
  predicate OnFrontPage(s: seq<Rankable>, id: Id, showDead: bool, now: int)
    requires id < |s|
  {
    && s[id].kind.NewsItem?
    && s[id].datePosted > DatetimeAgo(now, 4, 0, 0, 0, 0)
    && (showDead || !s[id].dead)
  }

  /** The rankables from `from` on that pass the filter, in id order. */
  function CandidatesFrom(s: seq<Rankable>, from: nat, showDead: bool, now: int): (ids: seq<Id>)
    requires from <= |s|
    ensures forall k | 0 <= k < |ids| :: from <= ids[k] < |s| && OnFrontPage(s, ids[k], showDead, now)
    ensures forall id | from <= id < |s| && OnFrontPage(s, id, showDead, now) :: id in ids
    ensures StrictlyIncreasing(ids)
    decreases |s| - from
  {
    if from == |s| then []
    else if OnFrontPage(s, from, showDead, now) then [from] + CandidatesFrom(s, from + 1, showDead, now)
    else CandidatesFrom(s, from + 1, showDead, now)
  }

  /** `order_by('-ranking', '-date_posted')`. */
  function FrontPageKey(s: seq<Rankable>): nat -> SortKey {
    (id: nat) => if id < |s| then SortKey(s[id].ranking, s[id].datePosted) else SortKey(0.0, 0)
  }

  /** The front-page query for a viewer, at time `now`. */
  function FrontPageItems(s: seq<Rankable>, profiles: seq<Profile>, user: Option<ProfileId>, now: int): seq<Id> {
    SortDesc(CandidatesFrom(s, 0, ShowsDead(profiles, user), now), FrontPageKey(s))
  }

  /** An item is listed exactly when it is a news item posted less than four
      weeks before `now` (28 days of 86400 seconds) that is live or that the
      viewer has chosen to see although dead; none is listed twice. */
  lemma FrontPageMembers(s: seq<Rankable>, profiles: seq<Profile>, user: Option<ProfileId>, now: int, id: Id)
    ensures id in FrontPageItems(s, profiles, user, now) <==>
      && id < |s|
      && s[id].kind.NewsItem?
      && s[id].datePosted > now - 28 * 86400
      && (!s[id].dead || ShowsDead(profiles, user))
    ensures multiset(FrontPageItems(s, profiles, user, now))[id] <= 1
  {
    var candidates := CandidatesFrom(s, 0, ShowsDead(profiles, user), now);
    SortDescPermutes(candidates, FrontPageKey(s));
    assert DatetimeAgo(now, 4, 0, 0, 0, 0) == now - 28 * 86400;
    assert id in FrontPageItems(s, profiles, user, now) <==> id in multiset(candidates);
    if id in candidates {
      var k :| 0 <= k < |candidates| && candidates[k] == id;
      assert OnFrontPage(s, id, ShowsDead(profiles, user), now);
    }
    if id < |s| && OnFrontPage(s, id, ShowsDead(profiles, user), now) {
      assert id in candidates;
    }
    MultiplicityInIncreasing(candidates, id);
  }

  /** The list goes by descending ranking, equal rankings by descending
      posting date, rows equal on both in id order. */
  lemma FrontPageOrdered(s: seq<Rankable>, profiles: seq<Profile>, user: Option<ProfileId>, now: int)
    ensures
      var items := FrontPageItems(s, profiles, user, now);
      && (forall k | 0 <= k < |items| :: items[k] < |s|)
      && forall i, j | 0 <= i < j < |items| ::
        || s[items[i]].ranking > s[items[j]].ranking
        || (s[items[i]].ranking == s[items[j]].ranking && s[items[i]].datePosted > s[items[j]].datePosted)
        || (s[items[i]].ranking == s[items[j]].ranking && s[items[i]].datePosted == s[items[j]].datePosted
            && items[i] < items[j])
  {
    var candidates := CandidatesFrom(s, 0, ShowsDead(profiles, user), now);
    var items := FrontPageItems(s, profiles, user, now);
    SortDescOrdered(candidates, FrontPageKey(s));
    SortDescPermutes(candidates, FrontPageKey(s));
    forall k | 0 <= k < |items| ensures items[k] < |s| {
      assert items[k] in multiset(candidates);
    }
  }
}
