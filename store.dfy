/** The database behind the views: the rankables, the votes and the user
    profiles, as three tables. A row's position is its id; Django numbers
    rows from 1, so the id a URL or form carries is the position plus one.
    Rows are never removed (deletion only marks a rankable dead). */
module Storage {
  import opened Wrappers
  import opened PyStr
  import opened Models

  datatype Store = Store(rankables: seq<Rankable>, ratings: seq<Rated>, profiles: seq<Profile>)

  /** No two profiles share a user name (`User.username` is unique). */
  predicate DistinctUsernames(profiles: seq<Profile>) {
    forall i, j | 0 <= i < j < |profiles| :: profiles[i].username != profiles[j].username
  }

  /** The integrity the views keep: comments point back to older rows, every
      reference names an existing row, at most one vote per voter and
      rankable, and nobody's comment points are negative. */
  predicate Valid(st: Store) {
    && Threaded(st.rankables)
    && (forall i | 0 <= i < |st.rankables| :: st.rankables[i].poster < |st.profiles|)
    && (forall i | 0 <= i < |st.ratings| ::
          st.ratings[i].rankable < |st.rankables| && st.ratings[i].profile < |st.profiles|)
    && OneRatingPerVoter(st.ratings)
    && (forall p | 0 <= p < |st.profiles| :: st.profiles[p].commentPoints >= 0)
    && DistinctUsernames(st.profiles)
  }

  /** A logged-in user has a profile row. */
  predicate KnownUser(st: Store, user: Option<ProfileId>) {
    user.Some? ==> user.value < |st.profiles|
  }

  /** The primary key Django gives the row at position `id`. */
  function DbId(id: Id): nat {
    id + 1
  }

  /** `get_object_or_404(Rankable, id=text)`: `int(text)` must parse and name
      an existing row; a `ValueError` and a missing row are both a 404. */
  function LookupRankable(s: seq<Rankable>, text: string): (r: Option<Id>)
    ensures r.Some? ==> r.value < |s| && ParseInt(text) == Some(DbId(r.value) as int)
    ensures r.None? ==> forall id: nat | id < |s| :: ParseInt(text) != Some(DbId(id) as int)
  {
    match ParseInt(text)
    case None => None
    case Some(n) => if 1 <= n <= |s| then Some(n - 1) else None
  }

  /** `get_object_or_404(Comment, pk=text)`: as above, and the row must be a comment. */
  function LookupComment(s: seq<Rankable>, text: string): (r: Option<Id>)
    ensures r.Some? ==> r.value < |s| && s[r.value].kind.Comment? && ParseInt(text) == Some(DbId(r.value) as int)
    ensures r.None? ==> forall id: nat | id < |s| && s[id].kind.Comment? :: ParseInt(text) != Some(DbId(id) as int)
  {
    match LookupRankable(s, text)
    case None => None
    case Some(id) => if s[id].kind.Comment? then Some(id) else None
  }

  /** `get_object_or_404(NewsItem, pk=text)`. */
  function LookupNewsItem(s: seq<Rankable>, text: string): (r: Option<Id>)
    ensures r.Some? ==> r.value < |s| && s[r.value].kind.NewsItem? && ParseInt(text) == Some(DbId(r.value) as int)
    ensures r.None? ==> forall id: nat | id < |s| && s[id].kind.NewsItem? :: ParseInt(text) != Some(DbId(id) as int)
  {
    match LookupRankable(s, text)
    case None => None
    case Some(id) => if s[id].kind.NewsItem? then Some(id) else None
  }

  /** Looking up the decimal form of a row's primary key finds that row. */
  lemma LookupOfDbId(s: seq<Rankable>, id: Id)
    requires id < |s|
    ensures LookupRankable(s, IntToString(DbId(id))) == Some(id)
    ensures s[id].kind.Comment? ==> LookupComment(s, IntToString(DbId(id))) == Some(id)
    ensures s[id].kind.NewsItem? ==> LookupNewsItem(s, IntToString(DbId(id))) == Some(id)
  {
    ParseIntToString(DbId(id));
  }

  /** A key with one final newline finds the same row, since
      `int('7\n') == 7`. */
  lemma LookupOfDbIdNewline(s: seq<Rankable>, id: Id)
    requires id < |s|
    ensures LookupRankable(s, IntToString(DbId(id)) + "\n") == Some(id)
  {
    ParseIntFinalNewline(IntToString(DbId(id)));
    ParseIntToString(DbId(id));
  }

  /** A plus sign and white space before the key still find the row, since
      `int('+ 7') == 7`; a minus sign never does, as keys are positive. */
  lemma LookupSignedDbId(s: seq<Rankable>, id: Id, ws: string)
    requires id < |s|
    requires forall k | 0 <= k < |ws| :: IsSpace(ws[k])
    ensures LookupRankable(s, ['+'] + ws + NatToString(DbId(id))) == Some(id)
    ensures LookupRankable(s, ['-'] + ws + NatToString(DbId(id))) == None
  {
    ParseIntSpaceAfterSign('+', ws, DbId(id));
    ParseIntSpaceAfterSign('-', ws, DbId(id));
  }

  /** `UserProfile.objects.filter(user__username=name)`, first row from `from` on. */
  function FindProfileFrom(profiles: seq<Profile>, username: string, from: nat): (r: Option<ProfileId>)
    requires from <= |profiles|
    ensures r.Some? ==> from <= r.value < |profiles| && profiles[r.value].username == username
    ensures r.None? ==> forall p | from <= p < |profiles| :: profiles[p].username != username
    decreases |profiles| - from
  {
    if from == |profiles| then None
    else if profiles[from].username == username then Some(from)
    else FindProfileFrom(profiles, username, from + 1)
  }

  /** The profile of the user called `username`, if there is one. */
  function FindProfile(profiles: seq<Profile>, username: string): (r: Option<ProfileId>)
    ensures r.Some? ==> r.value < |profiles| && profiles[r.value].username == username
    ensures r.None? ==> forall p | 0 <= p < |profiles| :: profiles[p].username != username
  {
    FindProfileFrom(profiles, username, 0)
  }

  /** With distinct user names the profile found is the only one with that name. */
  lemma FindProfileUnique(profiles: seq<Profile>, username: string, p: ProfileId)
    requires DistinctUsernames(profiles)
    requires p < |profiles| && profiles[p].username == username
    ensures FindProfile(profiles, username) == Some(p)
  {
    var r := FindProfile(profiles, username);
    assert r.Some? && profiles[r.value].username == profiles[p].username;
  }

  /** Whether row `id` is a news item posted with link `url`. */
  predicate HasUrl(s: seq<Rankable>, id: Id, url: string)
    requires id < |s|
  {
    s[id].kind.NewsItem? && s[id].kind.url == url
  }

  /** The first news item from `from` on whose link is `url`, dead or not. */
  function NewsItemWithUrlFrom(s: seq<Rankable>, url: string, from: nat): (r: Option<Id>)
    requires from <= |s|
    ensures r.Some? ==> from <= r.value < |s| && HasUrl(s, r.value, url)
    ensures r.Some? ==> forall m | from <= m < r.value :: !HasUrl(s, m, url)
    ensures r.None? ==> forall m | from <= m < |s| :: !HasUrl(s, m, url)
    decreases |s| - from
  {
    if from == |s| then None
    else if HasUrl(s, from, url) then Some(from)
    else NewsItemWithUrlFrom(s, url, from + 1)
  }

  /** `NewsItem.objects.filter(url=url)[0]`, taking the rows in id order. */
  function FirstNewsItemWithUrl(s: seq<Rankable>, url: string): (r: Option<Id>)
    ensures r.Some? ==> r.value < |s| && HasUrl(s, r.value, url)
    ensures r.Some? ==> forall m | 0 <= m < r.value :: !HasUrl(s, m, url)
    ensures r.None? ==> forall m | 0 <= m < |s| :: !HasUrl(s, m, url)
  {
    NewsItemWithUrlFrom(s, url, 0)
  }

  /** The tables, updated row by row as the ORM's `save` and `create` do. */
  class Database {
    var rankables: seq<Rankable>
    var ratings: seq<Rated>
    var profiles: seq<Profile>

    constructor (st: Store)
      ensures Snapshot() == st
    {
      rankables := st.rankables;
      ratings := st.ratings;
      profiles := st.profiles;
    }

    /** The tables as a value. */
    function Snapshot(): Store
      reads this
    {
      Store(rankables, ratings, profiles)
    }

    /** `Rankable.update_ranking`: a fresh ranking and ranking time, saved. */
    method UpdateRanking(id: Id, now: int, rank: Ranker)
      requires id < |rankables|
      modifies this
      ensures rankables == old(rankables)[id := Reranked(old(rankables)[id], now, rank)]
      ensures ratings == old(ratings) && profiles == old(profiles)
    {
      var r := rankables[id];
      r := r.(ranking := rank(r.rating, r.datePosted, now));
      r := r.(lastRankedDate := now);
      rankables := rankables[id := r];
    }

    /** `save()` of a changed rankable row. */
    method SaveRankable(id: Id, r: Rankable)
      requires id < |rankables|
      modifies this
      ensures rankables == old(rankables)[id := r]
      ensures ratings == old(ratings) && profiles == old(profiles)
    {
      rankables := rankables[id := r];
    }

    /** `objects.create(...)` of a rankable: a new row with the next id. */
    method CreateRankable(r: Rankable) returns (id: Id)
      modifies this
      ensures id == |old(rankables)|
      ensures rankables == old(rankables) + [r]
      ensures ratings == old(ratings) && profiles == old(profiles)
    {
      id := |rankables|;
      rankables := rankables + [r];
    }

    /** `Rated.objects.create(...)`: one more vote row. */
    method CreateRated(r: Rated)
      modifies this
      ensures ratings == old(ratings) + [r]
      ensures rankables == old(rankables) && profiles == old(profiles)
    {
      ratings := ratings + [r];
    }

    /** `save()` of a changed profile row. */
    method SaveProfile(p: ProfileId, prof: Profile)
      requires p < |profiles|
      modifies this
      ensures profiles == old(profiles)[p := prof]
      ensures rankables == old(rankables) && ratings == old(ratings)
    {
      profiles := profiles[p := prof];
    }
  }
}
