# swoosh-news: a verified model of the points economy and the rating state machine

Swoosh News is a Django link-sharing site in the style of Hacker News: users
submit news items (a link, or an "Ask SN" text), comment on them in threads,
vote items and comments up or down, and pay with *comment points* for
posting and voting. Points are bought through PayPal. This project models,
in Dafny, the core of that application:

- the records and the rules computed from them (`news_app/models.py`):
  - the walk from a comment up to its root news item
  - the cost of commenting and of voting
  - who may vote, post, edit and delete
  - the field effects of `update_ranking`
- the state-changing views, each as a guarded transition over an explicit
  store and a session:
  - `vote`
  - `submit_comment`, `edit_comment` and the session rule of `comment`
  - `news_item` and `submit` (with `check_submission`)
  - `delete_rankable`
  - the PayPal credit in `news_app/signals.py`
- the helpers the views rest on (`news_app/helpers.py`):
  - the threaded comment listing `get_child_comments`
  - the front-page query
  - the paginator
  - `get_next_with_pages`, `datetime_ago` and `improve_url`
  - `get_pagenum`
- the validators of `news_app/validation.py`
- the request and session shortcuts of `news_app/shortcuts.py`

## How the model is organised

**Modules.** Each Python file of the core is one Dafny module. `Models`
holds the records and the rules. `Storage` holds the tables: a value
`Store` of three sequences (rankables, votes, profiles) and the class
`Database`, which holds the same three tables as fields that its methods
change in place. `Shortcuts` holds the session: a map value and the class
`Session` that changes it. `Http` holds requests, responses and the URLs the
views build.

**Ids.** A row's id is its position in its table. Django numbers rows from
1, so the id shown in a URL is `DbId(id) = id + 1`. Rows are never removed,
since deletion only marks a rankable dead. A comment is always created after
its parent, so a parent's id is smaller than its child's id (`Threaded`).
This is the well-founded measure for the root walk and for the comment tree.

**Views.** Every view is modelled twice:
- a pure function `View(store, session, request, ...) : Outcome`, giving
  the new tables, the new session and the response;
- a method `ViewView(db, session, ...)` that runs the view's steps in the
  source's order on the `Database` and `Session` objects. Its `ensures`
  states that its effect is exactly that function.

The properties of each view are lemmas about the function: error paths
change nothing, the exact change on success, and preservation of the
store's integrity invariant `Valid`.

**Parameters.** Time is whole seconds, passed to each operation as `now`.
The ranking formula is a parameter `rank`. Django's URL resolver, consulted
by `valid_next_redirect`, is a parameter `resolves`.

## Model

| member | source | states |
|---|---|---|
| Models.GetNewsItem | news_app/models.py:323-328 | the root reached by following `parent` links from a comment is a news item with a smaller id |
| Models.GetParentNewsItem | news_app/models.py:180-191 | the root of a news item is itself; the root of any rankable is a news item at or above it |
| Models.SharedRoot | news_app/models.py:323-328 | a comment and its parent have the same root news item |
| Models.RootIsOnlyNewsItemAbove | news_app/models.py:180-191 | the root lies on the rankable's parent chain, and it is the only news item on that chain |
| Models.RootStable | news_app/models.py:180-191 | roots do not move when rows are appended or when ratings, flags or comment texts change |
| Models.ResponseCost | news_app/models.py:305-312 | replying to a link item costs `NEWS_COST_RESPOND_NEWS_ITEM` (2); replying to an "Ask SN" item costs `NEWS_COST_RESPOND_ASK_SN` (0) |
| Models.KindPredicates | news_app/models.py:277-292 | exactly one of `is_normal_news_item` / `is_ask_sn` holds; "normal" means the text is empty; `can_be_downvoted` holds exactly for news items |
| Models.AbbrUrl | news_app/models.py:294-303 | an empty url gives ""; a url on which `urlparse` raises gives None (an uncaught `ValueError`); otherwise the url's network location, with a leading `www.` removed exactly when the location starts with one |
| Models.AbbrUrlOfValidUrl | news_app/models.py:294-303 | for a stored url that `valid_url` accepts, the abbreviation is its domain without a leading `www.` |
| Models.CommentCostIsRootResponseCost | news_app/models.py:209-221 | the comment cost under any rankable is its root's response cost: 2 under a link item, 0 under a text item |
| Models.VoteCostValues | news_app/models.py:231-250 | voting on a news item costs 0; voting on a comment costs 1 when its root is a link item and 0 when its root is a text item |
| Models.CostsStable | news_app/models.py:209-250 | comment and vote costs do not change when rows are appended or when ratings, flags or texts change |
| Models.BalanceChecks | news_app/models.py:200-207 | `can_vote` and `can_post_comment` hold iff the balance covers the cost (1 or 0 to vote, 2 or 0 to post, by the root's kind) |
| Models.EditWindow | news_app/models.py:167-178 | `can_be_edited` (and identically `can_be_deleted`) holds iff the user is the poster and the rankable is less than 3600 s (`NEWS_COMMENT_EDITABLE_MINS`) old |
| Models.AddRatingKeepsOnePerVoter | news_app/models.py:253-255 | adding a vote from someone who has not voted on that rankable keeps one vote per voter and rankable, and afterwards `already_voted` holds |
| Models.Reranked | news_app/models.py:102-110 | `update_ranking` sets `ranking` from the formula and `last_ranked_date` to now; rating, dead, poster, date and kind are untouched |
| Models.RerankedIdempotent | news_app/models.py:102-110 | re-ranking twice at the same moment equals re-ranking once |
| Helpers.MakeTimedelta | news_app/helpers.py:97-98 | a timedelta keeps 0 <= seconds < 86400 and the same total span |
| Helpers.DatetimeAgo | news_app/helpers.py:93-99 | `datetime_ago(w,d,h,m,s)` lies `(7w+d)*86400 + 3600h + 60m + s` seconds before now |
| Helpers.ImproveUrl | news_app/helpers.py:101-111 | the empty string is unchanged; a non-empty url raises (None) iff `urlparse` raises on it; otherwise a url with a scheme is unchanged and any other gets `http://` in front |
| Helpers.ImproveUrlHasScheme | news_app/helpers.py:101-111 | whenever `improve_url` returns, a non-empty result has a scheme |
| Helpers.ImproveUrlIdempotent | news_app/helpers.py:101-111 | applying `improve_url` to its own result gives that result again, unless `urlparse` raises on the result |
| Helpers.ImproveUrlKeepsScheme | news_app/helpers.py:107-111 | `http://` followed by a host with balanced brackets and no `/`, `?` or `#` is unchanged |
| Helpers.ImproveUrlAddsScheme | news_app/helpers.py:107-111 | a non-empty url without a colon that does not start with `//` gets `http://` in front |
| Helpers.GetNextWithPages | news_app/helpers.py:51-65 | page 1 gives the url itself; any other page gives the form-encoding of `url?page=N`, which decodes back to that string |
| Helpers.QuotePlusPageParameter | news_app/helpers.py:65 | form-encoding `?page=` gives `%3Fpage%3D` |
| Helpers.GetNextWithPagesFirstPage | news_app/helpers.py:57-58 | `get_next_with_pages('/', 1) == '/'` |
| Helpers.GetNextWithPagesSecondPage | news_app/helpers.py:59-60 | `get_next_with_pages('/', 2) == '%2F%3Fpage%3D2'` |
| Helpers.GetPagenum | news_app/helpers.py:67-76 | the page is the parsed `page` parameter, or 1 when the parameter is missing or is not an integer |
| Helpers.GetPagenumOfLink | news_app/helpers.py:67-76 | a page number written with `str` is read back unchanged |
| Helpers.GetPagenumSignedSpaced | news_app/helpers.py:67-76 | `?page=+ 2` is page 2 and `?page=- 2` is page -2, because `int()` skips white space after the sign |
| Helpers.NumPages | news_app/helpers.py:83 | there is always at least one page |
| Helpers.PageStartIsProduct | news_app/helpers.py:83-87 | page N starts at object `(N-1)*perPage` |
| Helpers.PageStartMonotone | news_app/helpers.py:83-87 | later pages start no earlier |
| Helpers.NumPagesCovers | news_app/helpers.py:83-89 | the pages cover every object, and no page after the first is empty |
| Helpers.NumPagesIsCeiling | news_app/helpers.py:83 | the page count is `ceil(max(1, count) / perPage)` |
| Helpers.PageBounds | news_app/helpers.py:83-89 | every existing page starts inside the list, and every page but the last is full |
| Helpers.GetPaginatorPage | news_app/helpers.py:78-91 | a valid page number gives that page and any other number (including numbers below 1) gives the last page; the page's objects are the matching slice, full except on the last page |
| Helpers.PageOfObject | news_app/helpers.py:78-91 | the object at index i is entry `i % perPage` of page `i / perPage + 1` |
| Validation.LengthBounds | news_app/validation.py:15-78 | `valid_email` iff length <= 100 (so "" is valid); `valid_password` iff 1..30; `valid_title` iff 1..100; `valid_comment_text` iff non-empty |
| Validation.ValidUrlWithPrefix | news_app/validation.py:80-100 | with an `http://` or `https://` prefix and at most 125 characters, a url raises iff its network location has an unpaired bracket; otherwise it is valid iff that domain has a dot and no empty label; longer urls are refused |
| Validation.ValidUrlIff | news_app/validation.py:80-100 | `valid_url` holds iff length <= 125, a web scheme prefix, balanced brackets and a well-formed domain after it; it raises iff the first two hold and a bracket is unpaired |
| Validation.ValidUrlNeedsDot | news_app/validation.py:91-92 | a domain without a dot is refused, unless `urlparse` raises on it first |
| Validation.ValidUrlNeedsWebScheme | news_app/validation.py:87-88 | a url without an `http://` or `https://` prefix is refused |
| Validation.ValidNextRedirect | news_app/validation.py:34-49 | `valid_next_redirect` raises (None) iff `urlparse` raises on `next`; it accepts only a url with no scheme and no network location |
| Validation.WordRun | news_app/validation.py:109 | the greedy `\w+` run is all word characters and stops at a non-word character |
| Validation.ValidUsernameAsWrittenIff | news_app/validation.py:102-115 | the code accepts exactly the intended user names, plus those same names followed by one newline |
| Validation.ValidUsernameWithoutNewline | news_app/validation.py:102-115 | without a newline, the code and the intended rule agree |
| Validation.ValidUsernameTrailingNewline | news_app/validation.py:109 | `'ab\n'` passes the check as written but is not a user name; `'\n'` alone fails both |
| Validation.ValidNextRejectsOtherSites | news_app/validation.py:34-49 | a `next` with an `http://` or `https://` prefix is never accepted: it is refused, or `urlparse` raises |
| Validation.SlashHasNoScheme | news_app/validation.py:42 | a string starting with `/` has no scheme |
| Validation.ValidNextRejectsNetworkPath | news_app/validation.py:42-43 | a network-path reference `//host/...` is refused, or raises when the host has an unpaired bracket |
| Validation.ValidNextPlainPath | news_app/validation.py:34-49 | a plain path is accepted iff the resolver knows it, whatever query or fragment follows |
| UrlLib.HttpUrlParts | news_app/validation.py:90 | `urlparse` of an `http://` url has scheme `http` and the domain as its network location, and raises iff that domain has an unpaired bracket |
| UrlLib.HttpsUrlParts | news_app/validation.py:90 | `urlparse` of an `https://` url has scheme `https` and the domain as its network location, and raises iff that domain has an unpaired bracket |
| UrlLib.UrlParse | news_app/validation.py:42 | `urlparse` raises exactly when the text after the scheme starts with `//` and the network location has `[` without `]` or `]` without `[`; otherwise it gives the split fields |
| UrlLib.UrlParseRaisesOnHost | news_app/helpers.py:108 | `urlparse('http://' + host)` raises iff the host has `[` without `]` or `]` without `[` |
| UrlLib.QuotePlusHasNoSeparators | news_app/helpers.py:65 | the form-encoded `next` contains no `/`, `?`, `=`, `&`, `#` or space, so it stays one parameter value |
| PyStr.SplitPiecesNonEmpty | news_app/validation.py:95-98 | no piece of `netloc.split('.')` is empty iff the domain is non-empty, does not start or end with a dot, and has no two dots in a row |
| PyStr.JoinSplit | news_app/validation.py:95-98 | splitting on the dot loses nothing: joining the pieces gives the domain back |
| PyStr.ParseInt | news_app/shortcuts.py:15-18 | `int()` succeeds only on a non-blank string, and a negative result comes from a leading minus |
| PyStr.ParseIntSpaceAfterSign | news_app/shortcuts.py:15-18 | `int()` reads a sign, then white space, then digits as the signed value (`int('+ 5') == 5`) |
| UrlLib.UnquotePlusQuotePlus | news_app/helpers.py:65 | form-decoding undoes form-encoding |
| PyStr.ParseIntToString | news_app/shortcuts.py:8-18 | `int(str(i)) == i`, so an id written into a URL is looked up again |
| Sorting.SortDescPermutes | news_app/helpers.py:41 | `sorted` only reorders: the result is a permutation of its input |
| Sorting.SortDescOrdered | news_app/helpers.py:41 | the stable sort puts larger keys first, and equal keys keep their input order |
| CommentTree.ChildrenFrom | news_app/models.py:321 | the child set from a given id on holds exactly the comments with that parent, in id order |
| CommentTree.Children | news_app/models.py:321 | `child_set` holds exactly the comments whose parent is the rankable, in increasing id order |
| CommentTree.SortedChildren | news_app/helpers.py:41 | the sorted replies are a permutation of the child set |
| CommentTree.ReplyOrder | news_app/helpers.py:41 | every rankable's replies, in display order, form a rearrangement of its child set |
| CommentTree.ReplyOrderSorted | news_app/helpers.py:41 | the display order of each child set is the descending-ranking sort |
| CommentTree.GetChildComments | news_app/helpers.py:33-49 | the loop-and-append listing equals the recursive pre-order specification |
| CommentTree.NoChildrenNoListing | news_app/helpers.py:46-47 | a rankable without replies lists nothing |
| CommentTree.DescendsThroughChild | news_app/helpers.py:46-47 | the comments below a child are the comments below the parent that descend through it, one generation closer |
| CommentTree.FlattenMembers | news_app/helpers.py:33-49 | an entry is listed iff its comment is below the rankable, is shown, and has depth `depth + generation - 1` |
| CommentTree.FlattenDistinct | news_app/helpers.py:33-49 | no comment is listed twice |
| CommentTree.FlattenHidesDead | news_app/helpers.py:43-47 | with `return_dead=False`, exactly the dead entries are dropped from the full listing, and live replies of dead comments remain |
| CommentTree.RepliesAreDeeper | news_app/helpers.py:47 | replies are listed one level deeper than the comment they answer |
| CommentTree.FlattenTopLevel | news_app/helpers.py:41-44 | the entries at the starting depth are exactly the direct replies, in display order |
| CommentTree.DisplayedRepliesOrdered | news_app/helpers.py:41 | the direct replies appear as a permutation of the child set, by descending ranking, ties in id order |
| CommentTree.FlattenBlock | news_app/helpers.py:41-47 | pre-order: every listed comment is followed immediately by the listing of its own replies |
| CommentTree.ListedComments | news_app/helpers.py:33-49 | the comments listed are exactly the shown comments below the rankable |
| CommentTree.DistinctCount | news_app/helpers.py:33-49 | a listing without repeats names as many comments as it has entries |
| CommentTree.NumChildCommentsCountsLive | news_app/models.py:136-144 | `num_child_comments` counts every live comment below the rankable exactly once |
| CommentTree.HasChildrenIff | news_app/models.py:146-154 | `has_children` holds iff the rankable has a reply, dead or alive |
| CommentTree.HasNondeadChildrenIff | news_app/models.py:156-165 | `has_nondead_children` holds iff some comment below is live, iff `num_child_comments > 0` |
| FrontPage.CandidatesFrom | news_app/helpers.py:20-27 | the filter keeps exactly the news items from four weeks back (dead ones only if asked for), in id order |
| FrontPage.FrontPageMembers | news_app/helpers.py:15-31 | an item is listed iff it is a news item posted less than 28 days ago that is live or that the viewer chose to see though dead; none is listed twice |
| FrontPage.FrontPageOrdered | news_app/helpers.py:29 | the list goes by descending ranking, then descending posting date |
| Storage.LookupRankable | news_app/shortcuts.py:8-18 | `get_object_or_404`: finds the row whose primary key is `int(text)`; a `ValueError` or a missing row gives None |
| Storage.LookupComment | news_app/shortcuts.py:8-18 | as above, and the row must be a comment |
| Storage.LookupNewsItem | news_app/shortcuts.py:8-18 | as above, and the row must be a news item |
| Storage.LookupOfDbId | news_app/shortcuts.py:8-18 | looking up the decimal form of a row's primary key finds that row |
| Storage.LookupOfDbIdNewline | news_app/shortcuts.py:8-18 | the decimal form of a row's key with one final newline finds the same row |
| Storage.LookupSignedDbId | news_app/shortcuts.py:8-18 | a plus sign and white space before the key still find the row; a minus sign never does |
| Storage.FindProfile | news_app/signals.py:28 | finds a profile with the given user name iff one exists |
| Storage.FindProfileUnique | news_app/signals.py:33 | with unique user names, the profile found is the only one with that name |
| Storage.FirstNewsItemWithUrl | news_app/views/news_items.py:180-181 | finds the lowest-id news item with the given url iff one exists |
| Storage.Database.constructor | news_app/models.py:18-84 | the tables start as the given store |
| Storage.Database.UpdateRanking | news_app/models.py:102-110 | the row is replaced by its re-ranked form; the other tables are unchanged |
| Storage.Database.SaveRankable | news_app/models.py:110 | `save()` replaces exactly one rankable row |
| Storage.Database.CreateRankable | news_app/views/news_items.py:195-196 | `create` appends one row and returns its id |
| Storage.Database.CreateRated | news_app/views/voting.py:58-59 | `Rated.objects.create` appends one vote row |
| Storage.Database.SaveProfile | news_app/views/voting.py:61-62 | `save()` replaces exactly one profile row |
| Shortcuts.ParamOr404 | news_app/shortcuts.py:21-38 | `get_from_POST_or_404` / `get_from_GET_or_404` return the value iff the key is present, and signal 404 otherwise |
| Shortcuts.ParamOr404AgreesWithGet | news_app/shortcuts.py:21-38 | where the shortcut does not 404 it returns what `dict.get` returns with any default, and a value just set under the key reads back |
| Shortcuts.PopPresent | news_app/shortcuts.py:46-52 | a present key yields its value and is removed; every other entry is unchanged |
| Shortcuts.PopAbsent | news_app/shortcuts.py:46-52 | an absent key yields the default and leaves the session unchanged |
| Shortcuts.PopReadOnce | news_app/shortcuts.py:46-52 | a second read of the same key yields the default |
| Shortcuts.PopThenPutBack | news_app/shortcuts.py:48-50 | putting the read value back restores the session |
| Shortcuts.PopTwo | news_app/shortcuts.py:46-52 | reading two keys in turn removes exactly those two keys |
| Shortcuts.DelIdempotent | news_app/shortcuts.py:55-61 | `del_from_session` removes exactly the key, and a second delete changes nothing |
| Shortcuts.DelIsPop | news_app/shortcuts.py:55-61 | deleting a key is reading it and dropping the value |
| Shortcuts.Session.constructor | news_app/shortcuts.py:41-61 | the session starts with the given entries |
| Shortcuts.Session.GetFromSession | news_app/shortcuts.py:41-52 | the in-place read returns the value and leaves the session as `PopFromSession` specifies |
| Shortcuts.Session.Delete | news_app/shortcuts.py:55-61 | the in-place delete leaves the session as `DelFromSession` specifies |
| Shortcuts.Session.Put | news_app/views/voting.py:44 | `request.session[key] = v` sets exactly that entry |
| Http.ReverseWithId | news_app/urls.py:7-15 | `reverse` of an id pattern succeeds iff the argument is a non-empty run of digits, optionally followed by one final newline (Python's `$` matches before it), and then gives the prefix followed by the argument as `quote_plus` encodes it |
| Http.ReverseOfIdArgument | news_app/urls.py:7-11 | digits reverse to prefix + digits; digits with a final newline reverse to prefix + digits + `%0A` |
| Http.ReverseRefusesPadding | news_app/urls.py:7-11 | a leading or trailing space, or two final newlines, make `reverse` fail |
| Http.NatToStringIsAscii | news_app/views/news_items.py:185-189 | the decimal form of an id is plain ASCII, so `urlencode` accepts it |
| Voting.ParseDirection | news_app/views/voting.py:25 | only `up` and `down` are directions |
| Voting.VoteStepOf | news_app/views/voting.py:21-52 | a vote can only be cast on an existing rankable by an existing profile who has not voted on it yet and can pay for it |
| Voting.VoteGuards | news_app/views/voting.py:21-52 | the guards, run against the tables without changing them, reach exactly the step `VoteStepOf` decides |
| Voting.VoteCastIff | news_app/views/voting.py:21-52 | a vote is cast iff the parameters are present, the direction is valid, `next` stays on site, the rankable exists, the user is logged in, has not voted, can pay, and is not voting a comment down |
| Voting.VoteRejectedChangesNothing | news_app/views/voting.py:21-52 | a refused vote changes no table; only the can't-pay case sets `voting_error` and redirects to buy points |
| Voting.VoteBadDirection | news_app/views/voting.py:25 | a direction other than up/down is a 404 with no change |
| Voting.VoteNextRaises | news_app/views/voting.py:25-26 | a `next` on which `urlparse` raises ends the vote in a server error that changes nothing |
| Voting.VoteAnonymous | news_app/views/voting.py:30-36 | an anonymous vote changes neither the tables nor the session |
| Voting.VoteAlreadyVoted | news_app/views/voting.py:40-41 | a repeated voter is redirected to `next` with rating, points and votes unchanged |
| Voting.VoteCannotPayFirst | news_app/views/voting.py:43-52 | the points check comes before the down-vote check: the error is "Not enough comment points" even for a down-vote on a comment |
| Voting.VoteDownOnComment | news_app/views/voting.py:50-52 | a down-vote on a comment is a 404 with no change |
| Voting.CastVoteEffect | news_app/views/voting.py:48-62 | rating moves by exactly ±1 on that rankable only, it is re-ranked, exactly one `Rated` is added, the voter pays exactly `vote_cost` and keeps a balance >= 0, and no one else changes |
| Voting.CastVoteSameShape | news_app/views/voting.py:48-57 | a vote leaves every rankable's kind and place in the tree unchanged |
| Voting.CastVoteKeepsCost | news_app/views/voting.py:61 | the cost charged after the rankable is saved equals the cost checked before |
| Voting.SameKindKeepsCost | news_app/views/voting.py:55-61 | saving a row whose kind is unchanged keeps the tree, so the vote cost recomputed after the save is the one checked before |
| Voting.CastVotePreservesValid | news_app/views/voting.py:40-62 | a cast vote keeps one vote per voter and rankable, and no negative balance |
| Voting.VotePreservesValid | news_app/views/voting.py:14-65 | every outcome of `vote` keeps the store valid |
| Voting.VoteTwice | news_app/views/voting.py:40-41 | repeating a vote that was cast is a no-op redirect |
| Voting.ApplyVote | news_app/views/voting.py:48-62 | the in-place writes of a vote produce exactly the `CastVote` tables |
| Voting.VoteView | news_app/views/voting.py:14-65 | the view run in place has exactly the effect and response of `Vote` |
| Comments.ReadDraftRule | news_app/views/comments.py:57-64 | the three session keys are always consumed; error and text are shown only when `str(comment_text_for_id)` equals the page's id |
| Comments.DraftShownOnItsPage | news_app/views/comments.py:57-64 | a draft kept for item N (stored as a number) is shown on the page whose URL id is `str(N)` |
| Comments.ShowItemEffect | news_app/views/comments.py:49-78 | an item page changes only the item's ranking fields, consumes the draft, and lists exactly the item's descendants at their depth |
| Comments.CommentPageFound | news_app/views/comments.py:49 | the comment page is a 404 iff the id names no comment |
| Comments.NewCommentCost | news_app/views/comments.py:140 | the new comment costs what a comment under its parent costs, because both have the same root |
| Comments.SubmitCommentChangesOnlyWhenAccepted | news_app/views/comments.py:93-141 | the tables change iff every guard passes (the parent exists and its id reverses, a final newline included), and then exactly by posting the submitted comment under the parent |
| Comments.SubmitCommentParentWithNewline | news_app/views/comments.py:93-141 | a parent id with a final newline still posts the comment under that parent and redirects to the parent's page with `%0A` after the id |
| Comments.SubmitCommentEmptyText | news_app/views/comments.py:110-113 | empty text sets "Comment not valid" and `comment_text_for_id`, and creates nothing |
| Comments.SubmitCommentAnonymous | news_app/views/comments.py:118-122 | an anonymous poster keeps `comment_text` and `comment_text_for_id`, goes to login, and creates nothing |
| Comments.SubmitCommentCannotPay | news_app/views/comments.py:126-130 | insufficient points set "Insufficient comment points", keep the text, and change no table |
| Comments.PostCommentEffect | news_app/views/comments.py:136-141 | exactly one comment under the parent (rating 1, live) and one up `Rated` by the poster; the poster pays the parent's `comment_cost` and keeps a balance >= 0; no one else changes |
| Comments.PostCommentPreservesValid | news_app/views/comments.py:136-141 | posting keeps the store valid |
| Comments.SubmitCommentPreservesValid | news_app/views/comments.py:81-153 | every outcome of `submit_comment` keeps the store valid |
| Comments.EditTarget | news_app/views/comments.py:162-185 | editing proceeds only for an existing, live comment that the logged-in user may still edit; the guards end in a server error iff the comment exists and `urlparse` raises on the `from` page, otherwise in a 404 |
| Comments.EditCommentFromRaises | news_app/views/comments.py:162-176 | a `from` on which `urlparse` raises ends the edit of an existing comment in a server error that changes nothing |
| Comments.EditGuards | news_app/views/comments.py:162-185 | the guards, run against the tables without changing them, reach exactly the target `EditTarget` decides |
| Comments.EditCommentChangesOnlyText | news_app/views/comments.py:181-211 | an accepted POST (existing live comment, `from` on the site, its poster inside the editing window, non-empty text) stores the new text under the same parent, changes nothing else and redirects to `from`; any other request leaves the tables unchanged |
| Comments.EditCommentPreservesValid | news_app/views/comments.py:155-213 | every outcome of `edit_comment` keeps the store valid and the tree unchanged |
| Comments.ReplaceTextPreservesValid | news_app/views/comments.py:209-210 | saving a comment with new text keeps the store valid and every comment under the same parent |
| Comments.EditCommentFormText | news_app/views/comments.py:188-199 | the form shows the kept text if it is truthy, otherwise the comment's own text; the two keys are consumed |
| Comments.ShowItemView | news_app/views/comments.py:49-78 | the page built in place (loop listing, three session reads, re-ranking) equals `ShowItem` |
| Comments.CommentView | news_app/views/comments.py:43-78 | the `comment` view run in place equals `CommentPage` |
| Comments.SubmitCommentView | news_app/views/comments.py:81-153 | the `submit_comment` view run in place equals `SubmitComment` |
| Comments.PostCommentInto | news_app/views/comments.py:136-141 | the in-place writes of a post produce exactly the `PostComment` tables |
| Comments.EditCommentView | news_app/views/comments.py:155-213 | the `edit_comment` view run in place equals `EditComment` |
| NewsItems.TitleErrorText | news_app/views/news_items.py:213-215 | the title message reads "Title must be between 1 and 100 characters" |
| NewsItems.CheckSubmissionPasses | news_app/views/news_items.py:207-230 | `check_submission` returns '' iff the title is 1..100 long and there is exactly one of a valid url or a text |
| NewsItems.CheckSubmissionTitleFirst | news_app/views/news_items.py:213-215 | a bad title is reported whatever the url and the text are |
| NewsItems.CheckSubmissionMessages | news_app/views/news_items.py:217-227 | neither gives 'Enter url or text'; both give 'Only url OR text (not both)'; a bad url gives 'URL not valid'; 'Text not valid' never occurs; the check raises iff only a url is given and `valid_url` raises on it |
| NewsItems.NewsItemPageFound | news_app/views/news_items.py:88 | the news item page is a 404 iff the id names no news item |
| NewsItems.SubmitErrorRoundTrip | news_app/views/news_items.py:131-168 | a rejected submission creates nothing and sets the four keys; the next GET shows exactly the title, improved url, text and message, and consumes them |
| NewsItems.StashedFormShown | news_app/views/news_items.py:130-151 | a GET with the four keys in the session renders exactly the stashed title, url, text and message and removes the keys |
| NewsItems.SubmitImproveUrlRaises | news_app/views/news_items.py:158 | a posted `http://` url whose host has an unpaired bracket makes `improve_url` raise: a server error, nothing changes |
| NewsItems.SubmitValidUrlRaises | news_app/views/news_items.py:158-160 | a posted url without a scheme whose host has an unpaired bracket gets `http://` and then makes `valid_url` raise inside `check_submission`: a server error, nothing changes |
| NewsItems.SubmitDuplicateUrl | news_app/views/news_items.py:180-190 | a url already posted creates nothing and redirects to an up-vote on the first item with that url |
| NewsItems.SubmitChangesOnlyWhenPosted | news_app/views/news_items.py:154-202 | a valid submission by a logged-in user whose url is new (or empty) posts exactly that item, keeps the session and redirects to `/news_item/N` for the new row; any other request leaves the tables unchanged |
| NewsItems.PostNewsItemEffect | news_app/views/news_items.py:195-198 | exactly one live news item (rating 1, valid title, a valid url or a text) and one up `Rated` by the poster; points unchanged |
| NewsItems.SubmitPreservesValid | news_app/views/news_items.py:118-202 | every outcome of `submit` keeps the store valid |
| NewsItems.NewsItemView | news_app/views/news_items.py:82-115 | the `news_item` view run in place equals `NewsItemPage` |
| NewsItems.SubmitView | news_app/views/news_items.py:118-202 | the `submit` view run in place equals `Submit` |
| Rankables.DeleteTarget | news_app/views/rankables.py:24-50 | deletion proceeds iff the rankable exists, `from` is a safe redirect, the user may delete it, and it is not dead; the guards end in a server error iff the rankable exists and `urlparse` raises on the `from` page, otherwise in a 404 |
| Rankables.DeleteRankableFromRaises | news_app/views/rankables.py:24-38 | a `from` on which `urlparse` raises ends the deletion of an existing rankable in a server error that changes nothing |
| Rankables.DeleteGuards | news_app/views/rankables.py:24-50 | the guards, run against the tables without changing them, reach exactly the target `DeleteTarget` decides |
| Rankables.DeleteChangesOnlyDead | news_app/views/rankables.py:43-76 | the session never changes; a confirmed "yes" by an allowed user on a live row, with `from` on the site, sets that row's `dead` from false to true, changes nothing else and redirects to `from`; any other request leaves the tables unchanged |
| Rankables.DeletePreservesValid | news_app/views/rankables.py:72-74 | a dead rankable never comes back, the tree keeps its shape, and the store stays valid |
| Rankables.KillPreservesValid | news_app/views/rankables.py:72-74 | marking one row dead keeps the store valid, the tree's shape and every other dead flag |
| Rankables.DeleteTwice | news_app/views/rankables.py:50 | deleting a rankable again stops at the guards (a 404, or a server error when `from` makes `urlparse` raise) with no change |
| Rankables.DeleteDeclined | news_app/views/rankables.py:70-76 | any answer other than "yes" returns to `from` and changes nothing |
| Rankables.DeleteRankableView | news_app/views/rankables.py:17-76 | the view run in place equals `DeleteRankable` |
| Signals.ProcessIpnCredits | news_app/signals.py:9-46 | credited iff the name fields agree, the user exists and `mc_gross*100` is a positive whole number; then exactly that user gains `int(points)` and nothing else changes; any error changes nothing |
| Signals.ProcessIpnErrors | news_app/signals.py:21-42 | the three refusals, in order, each with its message |
| Signals.PayingCents | news_app/signals.py:38-46 | paying `cents/100` dollars credits exactly `cents` points |
| Signals.FractionOfCentRefused | news_app/signals.py:39-42 | 0.005 dollars and 0 dollars are refused |
| Signals.ProcessIpnPreservesValid | news_app/signals.py:45-46 | a credit keeps the store valid |
| Signals.ProcessIpnView | news_app/signals.py:9-46 | the handler run in place equals `ProcessIpn` |

## Left out

- The ranking formula `calculate_ranking` (news_app/models.py:88-100) computes a floating-point value. It is the parameter `rank`; only the field effects of `update_ranking` are modelled.
- news_app/scripts/ (ranking daemon, fixture seeding, command line) are not part of this model. They are process plumbing.
- The login, user, payment and text views, news_app/context_processors.py and news_app/templatetags/news_extras.py are not part of this model. They are authentication, templates and routing glue.
- `process_err_ipn_signal` (news_app/signals.py:55-104) is not modelled. It composes and sends an e-mail; the model returns the error message instead.
- The stderr prints in news_app/signals.py are left out. They are output only.
- The list views `index`, `new_news_items` and `new_comments` are not modelled as views. Their pieces are: the front-page query (`FrontPage`), paging (`Helpers.GetPaginatorPage`, `Helpers.GetPagenum`) and `get_next_with_pages`.
- Template context that is only displayed is not kept in `Page`. This covers `header`, the view's own `next`, and the comment or news item objects beside the ids.
- `assert_or_404` is not a member. Every use of it is a `NotFound` branch at the same point in the view.
- Django's `User`, `is_authenticated` and `get_profile` are the request's `user: Option<ProfileId>`. Profile fields the core does not read (website, about, e-mail options, ip addresses, dates) are left out.
- `is_news_item` and `is_comment` are left out as members. A rankable's kind is a closed choice between `NewsItem` and `Comment`. As a result, three source branches cannot be reached and are not modelled: the `return None` branch of `get_parent_news_item`, the `return 0` fall-throughs of the cost functions, and the "comment or news item" guard of `delete_rankable`.
- The `else: raise Http404` branch of `vote` is left out. `direction` has already been checked.
- `NewsItem.url` and `text` set to `None` are modelled as the empty string. Python treats both as false.
- `is_finite()` in news_app/signals.py:39 is left out. `mc_gross` is a decimal amount and is modelled as an exact real.
- The application is taken to be mounted at the site root. `reverse` then yields `/login`, `/submit`, `/vote`, `/buy_points`, `/news_item/N`, `/comment/N` and `/edit_comment/N`.
- A failing `reverse` (`NoReverseMatch`) is modelled only where the argument comes from the request: a parent id in `submit_comment` that `int()` accepts but the pattern does not (` 5`, `+5`, `5 `) gives `ServerError`. Everywhere else the argument is a row's numeric id, which always matches. `reverse` is that of Django 1.5 and earlier (the URL configuration imports `django.conf.urls.defaults`), which matches with `$`, so one final newline passes; only ASCII digits are modelled for `\d`.
- `Http.UpVoteUrl` fixes one parameter order for `urlencode` of the four-key dictionary. That order is the one Python 2.7 produces on a 64-bit build.
- PyStr.ParseInt: only ASCII white space and digits are modelled. Python's `int()` also accepts other Unicode digits and, on a `unicode` argument, Unicode white space.
- `urlparse` is modelled for the scheme, network location and path, and for its one `ValueError` on a `str` argument: a network location with `[` but no `]`, or `]` but no `[`. No view catches that error, so it is the response `ServerError`. `urllib.unquote` and `quote_plus` are modelled on code points below 256.
- Transactions and concurrent requests are left out. The source has neither; every view runs alone.
- Storage.FirstNewsItemWithUrl: `filter(url=url)[0]` has no ORDER BY, so the first row is unspecified; the model takes the lowest id.
- CommentTree.Children: `child_set` is taken to come in primary-key order. The stable sort then breaks ranking ties by id.
- FrontPage.FrontPageOrdered: rows equal in both ranking and date come out in id order in the model. The SQL leaves that order unspecified.

## Findings

| source | as written | input that shows it | evidently intended | confidence | as-written member | corrected member |
|---|---|---|---|---|---|---|
| news_app/validation.py:109 | `re.match('^\w+$', username)`; Python's `$` also matches before a final newline | `'ab\n'` is accepted | a user name is 1 to 30 characters from `[A-Za-z0-9_]`, as the `user/(\w+)/` route can show | not executed | Validation.ValidUsernameAsWritten (counterexample: Validation.ValidUsernameTrailingNewline) | Validation.ValidUsername (related to the code by Validation.ValidUsernameAsWrittenIff) |
