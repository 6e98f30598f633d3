/** `get_child_comments` (news_app/helpers.py): the comments under a rankable,
    flattened in pre-order with their depth, siblings by descending ranking,
    and the dead ones optionally hidden (their live replies still shown). */
module CommentTree {
  import opened Models
  import opened Sorting

  /** One line of the flattened tree: `{'comment': com, 'depth': depth}`. */
  datatype Entry = Entry(comment: Id, depth: nat)

  predicate IsChildOf(s: seq<Rankable>, c: nat, p: Id) {
    c < |s| && s[c].kind.Comment? && s[c].kind.parent == p
  }

  /** The child set of `p` among the rankables from `from` on, in id order. */
  function ChildrenFrom(s: seq<Rankable>, p: Id, from: nat): (kids: seq<Id>)
    requires from <= |s|
    ensures forall k | 0 <= k < |kids| :: from <= kids[k] && IsChildOf(s, kids[k], p)
    ensures forall c | from <= c < |s| && IsChildOf(s, c, p) :: c in kids
    ensures StrictlyIncreasing(kids)
    decreases |s| - from
  {
    if from == |s| then []
    else if IsChildOf(s, from, p) then [from] + ChildrenFrom(s, p, from + 1)
    else ChildrenFrom(s, p, from + 1)
  }

  /** `p.child_set`, in primary-key order. */
  function Children(s: seq<Rankable>, p: Id): (kids: seq<Id>)
    requires Threaded(s)
    ensures forall k | 0 <= k < |kids| :: IsChildOf(s, kids[k], p) && p < kids[k]
    ensures forall c | IsChildOf(s, c, p) :: c in kids
    ensures StrictlyIncreasing(kids)
  {
    ChildrenFrom(s, p, 0)
  }

  /** Display order of siblings: `sorted(..., key=lambda cm: -cm.ranking)`. */
  function RankingKey(s: seq<Rankable>): nat -> SortKey {
    (id: nat) => if id < |s| then SortKey(s[id].ranking, 0) else SortKey(0.0, 0)
  }

  /** `sorted(p.child_set.all(), key=lambda cm: -cm.ranking)`. */
  function SortedChildren(s: seq<Rankable>, p: Id): (kids: seq<Id>)
    requires Threaded(s)
    ensures multiset(kids) == multiset(Children(s, p))
    ensures forall k | 0 <= k < |kids| :: IsChildOf(s, kids[k], p) && p < kids[k]
  {
    var kids := SortDesc(Children(s, p), RankingKey(s));
    SortDescPermutes(Children(s, p), RankingKey(s));
    forall k | 0 <= k < |kids| ensures IsChildOf(s, kids[k], p) && p < kids[k] {
      assert kids[k] in multiset(Children(s, p));
    }
    kids
  }

  /** Whether a comment is listed: all of them, or only live ones. */
  predicate Shown(s: seq<Rankable>, c: Id, returnDead: bool)
    requires c < |s|
  {
    returnDead || !s[c].dead
  }

  /** A table holding, for every rankable `p`, its replies in the order they
      are shown (`t[p]`): a rearrangement of its child set. */
  predicate ReplyTable(s: seq<Rankable>, t: seq<seq<Id>>)
    requires Threaded(s)
  {
    && |t| == |s|
    && forall p | 0 <= p < |s| ::
      && multiset(t[p]) == multiset(Children(s, p))
      && forall k | 0 <= k < |t[p]| :: IsChildOf(s, t[p][k], p) && p < t[p][k]
  }

  /** The reply order for the rankables with ids below `n`. */
  function ReplyOrderBelow(s: seq<Rankable>, n: nat): (t: seq<seq<Id>>)
    requires Threaded(s) && n <= |s|
    ensures |t| == n
    ensures forall p | 0 <= p < n ::
      && multiset(t[p]) == multiset(Children(s, p))
      && forall k | 0 <= k < |t[p]| :: IsChildOf(s, t[p][k], p) && p < t[p][k]
  {
    if n == 0 then [] else ReplyOrderBelow(s, n - 1) + [SortedChildren(s, n - 1)]
  }

  /** The order `get_child_comments` shows replies in: every child set sorted
      by descending ranking (see `ReplyOrderSorted`). */
  function ReplyOrder(s: seq<Rankable>): (t: seq<seq<Id>>)
    requires Threaded(s)
    ensures ReplyTable(s, t)
  {
    ReplyOrderBelow(s, |s|)
  }

  lemma {:induction false} ReplyOrderBelowSorted(s: seq<Rankable>, n: nat, p: Id)
    requires Threaded(s) && p < n <= |s|
    ensures ReplyOrderBelow(s, n)[p] == SortedChildren(s, p)
  {
    if p < n - 1 {
      ReplyOrderBelowSorted(s, n - 1, p);
    }
  }

  lemma ReplyOrderSorted(s: seq<Rankable>, p: Id)
    requires Threaded(s) && p < |s|
    ensures ReplyOrder(s)[p] == SortedChildren(s, p)
  {
    ReplyOrderBelowSorted(s, |s|, p);
  }

  /** The listing for the replies to `p`, each shown in the order `t` gives:
      `get_child_comments(p.child_set, depth, returnDead)` when `t` is
      `ReplyOrder(s)`. */
  function Flatten(s: seq<Rankable>, t: seq<seq<Id>>, p: Id, depth: nat, returnDead: bool): seq<Entry>
    requires Threaded(s) && ReplyTable(s, t) && p < |s|
    decreases |s| - p, 1, 0
  {
    FlattenKids(s, t, p, t[p], depth, returnDead)
  }

  /** The listing for a run of replies to `p`: each one (if shown) followed by
      the listing of its own replies one level deeper. */
  function FlattenKids(s: seq<Rankable>, t: seq<seq<Id>>, p: Id, kids: seq<Id>, depth: nat, returnDead: bool): seq<Entry>
    requires Threaded(s) && ReplyTable(s, t) && p < |s|
    requires forall k | 0 <= k < |kids| :: p < kids[k] < |s|
    decreases |s| - p, 0, |kids|
  {
    if kids == [] then []
    else
      var c := kids[|kids| - 1];
      FlattenKids(s, t, p, kids[..|kids| - 1], depth, returnDead)
        + (if Shown(s, c, returnDead) then [Entry(c, depth)] else [])
        + Flatten(s, t, c, depth + 1, returnDead)
  }

  /** `get_child_comments(p.child_set, depth, returnDead)`: one loop over the
      sorted replies, appending each one and then the listing of its replies. */
  method GetChildComments(s: seq<Rankable>, p: Id, depth: nat, returnDead: bool) returns (comments: seq<Entry>)
    requires Threaded(s) && p < |s|
    ensures comments == Flatten(s, ReplyOrder(s), p, depth, returnDead)
    decreases |s| - p
  {
    ghost var t := ReplyOrder(s);
    comments := [];
    var kids := SortedChildren(s, p);
    ReplyOrderSorted(s, p);
    for i := 0 to |kids|
      invariant comments == FlattenKids(s, t, p, kids[..i], depth, returnDead)
    {
      var com := kids[i];
      FlattenKidsStep(s, t, p, kids, i, depth, returnDead);
      ghost var before := comments;
      if returnDead || !s[com].dead {
        comments := comments + [Entry(com, depth)];
      }
      assert comments == before + (if Shown(s, com, returnDead) then [Entry(com, depth)] else []);
      if |Children(s, com)| > 0 {
        var nested := GetChildComments(s, com, depth + 1, returnDead);
        comments := comments + nested;
      } else {
        NoChildrenNoListing(s, t, com, depth + 1, returnDead);
        assert comments == comments + Flatten(s, t, com, depth + 1, returnDead);
      }
    }
    assert kids[..|kids|] == kids;
  }

  lemma FlattenKidsStep(s: seq<Rankable>, t: seq<seq<Id>>, p: Id, kids: seq<Id>, i: nat, depth: nat, returnDead: bool)
    requires Threaded(s) && ReplyTable(s, t) && p < |s| && i < |kids|
    requires forall k | 0 <= k < |kids| :: p < kids[k] < |s|
    ensures FlattenKids(s, t, p, kids[..i + 1], depth, returnDead)
      == FlattenKids(s, t, p, kids[..i], depth, returnDead)
        + (if Shown(s, kids[i], returnDead) then [Entry(kids[i], depth)] else [])
        + Flatten(s, t, kids[i], depth + 1, returnDead)
  {
    assert kids[..i + 1][..i] == kids[..i];
  }

  lemma FlattenKidsLast(s: seq<Rankable>, t: seq<seq<Id>>, p: Id, kids: seq<Id>, depth: nat, returnDead: bool)
    requires Threaded(s) && ReplyTable(s, t) && p < |s| && kids != []
    requires forall k | 0 <= k < |kids| :: p < kids[k] < |s|
    ensures
      var c := kids[|kids| - 1];
      FlattenKids(s, t, p, kids, depth, returnDead)
        == FlattenKids(s, t, p, kids[..|kids| - 1], depth, returnDead)
          + (if Shown(s, c, returnDead) then [Entry(c, depth)] else [])
          + Flatten(s, t, c, depth + 1, returnDead)
  {
  }

  lemma NoChildrenNoListing(s: seq<Rankable>, t: seq<seq<Id>>, p: Id, depth: nat, returnDead: bool)
    requires Threaded(s) && ReplyTable(s, t) && p < |s| && |Children(s, p)| == 0
    ensures Flatten(s, t, p, depth, returnDead) == []
  {
    assert |t[p]| == 0 by {
      assert |multiset(t[p])| == |multiset(Children(s, p))|;
    }
  }

  /** `c` is a comment somewhere below `p`. */
  predicate Descends(s: seq<Rankable>, c: nat, p: Id)
    requires Threaded(s)
    decreases c
  {
    c < |s| && s[c].kind.Comment? && (s[c].kind.parent == p || Descends(s, s[c].kind.parent, p))
  }

  /** How many parent links lead from `c` up to `p`. */
  function Generation(s: seq<Rankable>, c: nat, p: Id): (g: nat)
    requires Threaded(s) && Descends(s, c, p)
    ensures g >= 1
    decreases c
  {
    if s[c].kind.parent == p then 1 else 1 + Generation(s, s[c].kind.parent, p)
  }

  /** The child of `p` through which `c` descends from `p`. */
  function AncestorChild(s: seq<Rankable>, c: nat, p: Id): (k: Id)
    requires Threaded(s) && Descends(s, c, p)
    ensures IsChildOf(s, k, p) && p < k <= c
    decreases c
  {
    if s[c].kind.parent == p then c else AncestorChild(s, s[c].kind.parent, p)
  }

  lemma {:induction false} DescendsBelow(s: seq<Rankable>, c: nat, p: Id)
    requires Threaded(s) && Descends(s, c, p)
    ensures p < c
    decreases c
  {
    if s[c].kind.parent != p {
      DescendsBelow(s, s[c].kind.parent, p);
    }
  }

  /** The comments below a child `k` of `p` are exactly the comments below `p`
      reached through `k`, one generation further down. */
  lemma {:induction false} DescendsThroughChild(s: seq<Rankable>, c: nat, k: Id, p: Id)
    requires Threaded(s) && IsChildOf(s, k, p)
    ensures Descends(s, c, k) <==> Descends(s, c, p) && AncestorChild(s, c, p) == k && c != k
    ensures Descends(s, c, k) ==> Generation(s, c, p) == Generation(s, c, k) + 1
    decreases c
  {
    if c < |s| && s[c].kind.Comment? {
      var q := s[c].kind.parent;
      if q == p {
        if Descends(s, q, k) {
          DescendsBelow(s, q, k);
        }
      } else if q == k {
        assert Descends(s, k, p);
        assert AncestorChild(s, k, p) == k;
      } else {
        DescendsThroughChild(s, q, k, p);
        if Descends(s, q, k) {
          DescendsBelow(s, q, k);
        }
      }
    }
  }

  /** Which entries the listing for a run of replies holds. */
  lemma {:induction false} FlattenKidsMembers(s: seq<Rankable>, t: seq<seq<Id>>, p: Id, kids: seq<Id>, depth: nat, returnDead: bool, e: Entry)
    requires Threaded(s) && ReplyTable(s, t) && p < |s|
    requires forall k | 0 <= k < |kids| :: IsChildOf(s, kids[k], p) && p < kids[k] < |s|
    ensures e in FlattenKids(s, t, p, kids, depth, returnDead) <==>
      && Descends(s, e.comment, p)
      && AncestorChild(s, e.comment, p) in kids
      && e.depth == depth + Generation(s, e.comment, p) - 1
      && Shown(s, e.comment, returnDead)
    decreases |s| - p, 0, |kids|
  {
    if kids != [] {
      var init, c := kids[..|kids| - 1], kids[|kids| - 1];
      assert kids == init + [c];
      FlattenKidsMembers(s, t, p, init, depth, returnDead, e);
      FlattenMembers(s, t, c, depth + 1, returnDead, e);
      DescendsThroughChild(s, e.comment, c, p);
      if e.comment == c {
        assert Descends(s, c, p) && AncestorChild(s, c, p) == c && Generation(s, c, p) == 1;
      }
    }
  }

  /** The listing under `p` holds every comment below `p` that is shown, at its
      depth below `p` (direct replies at `depth`, each reply one deeper than
      the comment it answers), and nothing else. */
  lemma {:induction false} FlattenMembers(s: seq<Rankable>, t: seq<seq<Id>>, p: Id, depth: nat, returnDead: bool, e: Entry)
    requires Threaded(s) && ReplyTable(s, t) && p < |s|
    ensures e in Flatten(s, t, p, depth, returnDead) <==>
      && Descends(s, e.comment, p)
      && e.depth == depth + Generation(s, e.comment, p) - 1
      && Shown(s, e.comment, returnDead)
    decreases |s| - p, 1, 0
  {
    FlattenKidsMembers(s, t, p, t[p], depth, returnDead, e);
    if Descends(s, e.comment, p) {
      var k := AncestorChild(s, e.comment, p);
      assert k in Children(s, p);
      assert k in multiset(t[p]);
    }
  }

  predicate DistinctIds(kids: seq<Id>) {
    forall i, j | 0 <= i < j < |kids| :: kids[i] != kids[j]
  }

  /** No comment is listed twice. */
  predicate DistinctComments(es: seq<Entry>) {
    forall i, j | 0 <= i < j < |es| :: es[i].comment != es[j].comment
  }

  lemma DistinctAppend(a: seq<Entry>, b: seq<Entry>)
    requires DistinctComments(a) && DistinctComments(b)
    requires forall i, j | 0 <= i < |a| && 0 <= j < |b| :: a[i].comment != b[j].comment
    ensures DistinctComments(a + b)
  {
    var ab := a + b;
    forall i, j | 0 <= i < j < |ab| ensures ab[i].comment != ab[j].comment {
      if j < |a| {
        assert ab[i] == a[i] && ab[j] == a[j];
      } else if i >= |a| {
        assert ab[i] == b[i - |a|] && ab[j] == b[j - |a|];
      } else {
        assert ab[i] == a[i] && ab[j] == b[j - |a|];
      }
    }
  }

  /** A rearrangement of a child set names every reply once. */
  lemma TableDistinct(s: seq<Rankable>, t: seq<seq<Id>>, p: Id)
    requires Threaded(s) && ReplyTable(s, t) && p < |s|
    ensures DistinctIds(t[p])
  {
    var kids, shown := Children(s, p), t[p];
    forall i, j | 0 <= i < j < |shown| ensures shown[i] != shown[j] {
      var x := shown[i];
      assert multiset(shown)[x] >= 1 + multiset([shown[j]])[x] by {
        assert shown == shown[..i] + [x] + shown[i + 1..j] + [shown[j]] + shown[j + 1..];
      }
      MultiplicityInIncreasing(kids, x);
    }
  }

  lemma {:induction false} FlattenKidsDistinct(s: seq<Rankable>, t: seq<seq<Id>>, p: Id, kids: seq<Id>, depth: nat, returnDead: bool)
    requires Threaded(s) && ReplyTable(s, t) && p < |s|
    requires forall k | 0 <= k < |kids| :: IsChildOf(s, kids[k], p) && p < kids[k] < |s|
    requires DistinctIds(kids)
    ensures DistinctComments(FlattenKids(s, t, p, kids, depth, returnDead))
    decreases |s| - p, 0, |kids|
  {
    if kids != [] {
      var init, c := kids[..|kids| - 1], kids[|kids| - 1];
      var a := FlattenKids(s, t, p, init, depth, returnDead);
      var m := if Shown(s, c, returnDead) then [Entry(c, depth)] else [];
      var b := Flatten(s, t, c, depth + 1, returnDead);
      FlattenKidsDistinct(s, t, p, init, depth, returnDead);
      FlattenDistinct(s, t, c, depth + 1, returnDead);
      forall i | 0 <= i < |a|
        ensures Descends(s, a[i].comment, p) && AncestorChild(s, a[i].comment, p) in init
      {
        assert a[i] in a;
        FlattenKidsMembers(s, t, p, init, depth, returnDead, a[i]);
      }
      forall j | 0 <= j < |b|
        ensures b[j].comment != c && Descends(s, b[j].comment, p) && AncestorChild(s, b[j].comment, p) == c
      {
        assert b[j] in b;
        FlattenMembers(s, t, c, depth + 1, returnDead, b[j]);
        DescendsThroughChild(s, b[j].comment, c, p);
      }
      assert c !in init;
      assert Descends(s, c, p) && AncestorChild(s, c, p) == c;
      DistinctAppend(a, m);
      DistinctAppend(a + m, b);
    }
  }

  /** Every comment appears at most once in a listing; with the membership
      lemma, every shown comment below `p` appears exactly once. */
  lemma {:induction false} FlattenDistinct(s: seq<Rankable>, t: seq<seq<Id>>, p: Id, depth: nat, returnDead: bool)
    requires Threaded(s) && ReplyTable(s, t) && p < |s|
    ensures DistinctComments(Flatten(s, t, p, depth, returnDead))
    decreases |s| - p, 1, 0
  {
    TableDistinct(s, t, p);
    FlattenKidsDistinct(s, t, p, t[p], depth, returnDead);
  }

  /** The entries whose comment is not dead, in order. */
  function FilterLive(s: seq<Rankable>, es: seq<Entry>): (r: seq<Entry>)
    ensures forall e | e in r :: e in es && e.comment < |s| && !s[e.comment].dead
  {
    if es == [] then []
    else
      var e := es[0];
      (if e.comment < |s| && !s[e.comment].dead then [e] else []) + FilterLive(s, es[1..])
  }

  lemma DropAppend<T>(a: seq<T>, b: seq<T>)
    ensures a == [] ==> a + b == b
    ensures a != [] ==> (a + b)[0] == a[0] && (a + b)[1..] == a[1..] + b
  {
  }

  lemma {:induction false} FilterLiveAppend(s: seq<Rankable>, a: seq<Entry>, b: seq<Entry>)
    ensures FilterLive(s, a + b) == FilterLive(s, a) + FilterLive(s, b)
    decreases |a|
  {
    DropAppend(a, b);
    if a != [] {
      var e := a[0];
      var head := if e.comment < |s| && !s[e.comment].dead then [e] else [];
      FilterLiveAppend(s, a[1..], b);
      calc {
        FilterLive(s, a + b);
        head + FilterLive(s, a[1..] + b);
        head + (FilterLive(s, a[1..]) + FilterLive(s, b));
        (head + FilterLive(s, a[1..])) + FilterLive(s, b);
      }
    }
  }

  lemma {:induction false} FlattenKidsHidesDead(s: seq<Rankable>, t: seq<seq<Id>>, p: Id, kids: seq<Id>, depth: nat)
    requires Threaded(s) && ReplyTable(s, t) && p < |s|
    requires forall k | 0 <= k < |kids| :: p < kids[k] < |s|
    ensures FlattenKids(s, t, p, kids, depth, false) == FilterLive(s, FlattenKids(s, t, p, kids, depth, true))
    decreases |s| - p, 0, |kids|
  {
    if kids != [] {
      var init, c := kids[..|kids| - 1], kids[|kids| - 1];
      FlattenKidsHidesDead(s, t, p, init, depth);
      FlattenHidesDead(s, t, c, depth + 1);
      var a := FlattenKids(s, t, p, init, depth, true);
      var b := Flatten(s, t, c, depth + 1, true);
      FilterLiveAppend(s, a, [Entry(c, depth)]);
      FilterLiveAppend(s, a + [Entry(c, depth)], b);
      assert FilterLive(s, [Entry(c, depth)]) == (if !s[c].dead then [Entry(c, depth)] else []) by {
        assert [Entry(c, depth)][1..] == [];
      }
    }
  }

  /** Hiding dead comments drops exactly the dead entries from the full listing
      and keeps the rest in place, including live replies to dead comments. */
  lemma {:induction false} FlattenHidesDead(s: seq<Rankable>, t: seq<seq<Id>>, p: Id, depth: nat)
    requires Threaded(s) && ReplyTable(s, t) && p < |s|
    ensures Flatten(s, t, p, depth, false) == FilterLive(s, Flatten(s, t, p, depth, true))
    decreases |s| - p, 1, 0
  {
    FlattenKidsHidesDead(s, t, p, t[p], depth);
  }

  /** The comments listed at exactly depth `d`, in order. */
  function AtDepth(es: seq<Entry>, d: nat): (r: seq<Id>)
    ensures |r| <= |es|
  {
    if es == [] then []
    else AtDepth(es[..|es| - 1], d) + (if es[|es| - 1].depth == d then [es[|es| - 1].comment] else [])
  }

  lemma {:induction false} AtDepthAppend(a: seq<Entry>, b: seq<Entry>, d: nat)
    ensures AtDepth(a + b, d) == AtDepth(a, d) + AtDepth(b, d)
    decreases |b|
  {
    if b == [] {
      assert a + b == a;
    } else {
      AtDepthAppend(a, b[..|b| - 1], d);
      assert (a + b)[..|a + b| - 1] == a + b[..|b| - 1];
    }
  }

  lemma {:induction false} AtDepthNone(es: seq<Entry>, d: nat)
    requires forall i | 0 <= i < |es| :: es[i].depth != d
    ensures AtDepth(es, d) == []
    decreases |es|
  {
    if es != [] {
      AtDepthNone(es[..|es| - 1], d);
    }
  }

  lemma RepliesAreDeeper(s: seq<Rankable>, t: seq<seq<Id>>, c: Id, depth: nat)
    requires Threaded(s) && ReplyTable(s, t) && c < |s|
    ensures AtDepth(Flatten(s, t, c, depth + 1, true), depth) == []
  {
    var b := Flatten(s, t, c, depth + 1, true);
    forall i | 0 <= i < |b| ensures b[i].depth != depth {
      assert b[i] in b;
      FlattenMembers(s, t, c, depth + 1, true, b[i]);
    }
    AtDepthNone(b, depth);
  }

  /** The entries at depth `d` of `a`, then `c` at depth `d`, then `b` with
      nothing at depth `d`. */
  lemma AtDepthOfParts(a: seq<Entry>, c: Id, b: seq<Entry>, d: nat)
    requires AtDepth(b, d) == []
    ensures AtDepth(a + [Entry(c, d)] + b, d) == AtDepth(a, d) + [c]
  {
    AtDepthAppend(a, [Entry(c, d)], d);
    AtDepthAppend(a + [Entry(c, d)], b, d);
    assert AtDepth([Entry(c, d)], d) == [c] by {
      assert [Entry(c, d)][..0] == [];
    }
  }

  lemma {:induction false} FlattenKidsTopLevel(s: seq<Rankable>, t: seq<seq<Id>>, p: Id, kids: seq<Id>, depth: nat)
    requires Threaded(s) && ReplyTable(s, t) && p < |s|
    requires forall k | 0 <= k < |kids| :: p < kids[k] < |s|
    ensures AtDepth(FlattenKids(s, t, p, kids, depth, true), depth) == kids
    decreases |kids|
  {
    if kids != [] {
      var init, c := kids[..|kids| - 1], kids[|kids| - 1];
      var a := FlattenKids(s, t, p, init, depth, true);
      var b := Flatten(s, t, c, depth + 1, true);
      FlattenKidsLast(s, t, p, kids, depth, true);
      FlattenKidsTopLevel(s, t, p, init, depth);
      RepliesAreDeeper(s, t, c, depth);
      AtDepthOfParts(a, c, b, depth);
      assert kids == init + [c];
    }
  }

  /** The direct replies to `p` are the entries at `depth`, in the table's order. */
  lemma FlattenTopLevel(s: seq<Rankable>, t: seq<seq<Id>>, p: Id, depth: nat)
    requires Threaded(s) && ReplyTable(s, t) && p < |s|
    ensures AtDepth(Flatten(s, t, p, depth, true), depth) == t[p]
  {
    FlattenKidsTopLevel(s, t, p, t[p], depth);
  }

  /** In the listing `get_child_comments` builds, the direct replies to `p`
      are at `depth`, each reply once, by descending ranking, equal rankings
      in id (posting) order. */
  lemma DisplayedRepliesOrdered(s: seq<Rankable>, p: Id, depth: nat)
    requires Threaded(s) && p < |s|
    ensures multiset(AtDepth(Flatten(s, ReplyOrder(s), p, depth, true), depth)) == multiset(Children(s, p))
    ensures OrderedDesc(AtDepth(Flatten(s, ReplyOrder(s), p, depth, true), depth), RankingKey(s))
  {
    FlattenTopLevel(s, ReplyOrder(s), p, depth);
    ReplyOrderSorted(s, p);
    SortDescOrdered(Children(s, p), RankingKey(s));
  }

  /** `block` comes right after entry `i` of `es`. */
  predicate Follows(es: seq<Entry>, i: nat, block: seq<Entry>) {
    i + 1 + |block| <= |es| && es[i + 1..i + 1 + |block|] == block
  }

  /** Entry `i` of `es` is followed immediately by the listing of its replies. */
  predicate BlockAt(s: seq<Rankable>, t: seq<seq<Id>>, es: seq<Entry>, i: nat, returnDead: bool)
    requires Threaded(s) && ReplyTable(s, t)
  {
    i < |es| && es[i].comment < |s| && Follows(es, i, Flatten(s, t, es[i].comment, es[i].depth + 1, returnDead))
  }

  lemma BlockInPrefix(s: seq<Rankable>, t: seq<seq<Id>>, a: seq<Entry>, m: seq<Entry>, b: seq<Entry>, i: nat,
                      returnDead: bool)
    requires Threaded(s) && ReplyTable(s, t) && BlockAt(s, t, a, i, returnDead)
    ensures BlockAt(s, t, a + m + b, i, returnDead)
  {
    var block := Flatten(s, t, a[i].comment, a[i].depth + 1, returnDead);
    assert (a + m + b)[i] == a[i];
    assert (a + m + b)[i + 1..i + 1 + |block|] == a[i + 1..i + 1 + |block|];
  }

  lemma BlockAtHead(s: seq<Rankable>, t: seq<seq<Id>>, a: seq<Entry>, c: Id, depth: nat, b: seq<Entry>,
                    returnDead: bool)
    requires Threaded(s) && ReplyTable(s, t) && c < |s| && b == Flatten(s, t, c, depth + 1, returnDead)
    ensures BlockAt(s, t, a + [Entry(c, depth)] + b, |a|, returnDead)
  {
    var es := a + [Entry(c, depth)] + b;
    assert es[|a|] == Entry(c, depth);
    assert es[|a| + 1..|a| + 1 + |b|] == b;
  }

  lemma BlockInSuffix(s: seq<Rankable>, t: seq<seq<Id>>, a: seq<Entry>, b: seq<Entry>, j: nat, returnDead: bool)
    requires Threaded(s) && ReplyTable(s, t) && BlockAt(s, t, b, j, returnDead)
    ensures BlockAt(s, t, a + b, |a| + j, returnDead)
  {
    var block := Flatten(s, t, b[j].comment, b[j].depth + 1, returnDead);
    assert (a + b)[|a| + j] == b[j];
    assert (a + b)[|a| + j + 1..|a| + j + 1 + |block|] == b[j + 1..j + 1 + |block|];
  }

  /** Entry `i` of `a + m + b`, where `m` is at most the entry for `c` and
      `b` lists the replies of `c`, is followed by its replies, when this
      holds for its place in `a` or in `b`. */
  lemma BlockOfParts(s: seq<Rankable>, t: seq<seq<Id>>, a: seq<Entry>, m: seq<Entry>, b: seq<Entry>, c: Id,
                     depth: nat, i: nat, returnDead: bool)
    requires Threaded(s) && ReplyTable(s, t) && c < |s|
    requires b == Flatten(s, t, c, depth + 1, returnDead)
    requires m == [] || m == [Entry(c, depth)]
    requires i < |a| + |m| + |b|
    requires i < |a| ==> BlockAt(s, t, a, i, returnDead)
    requires i >= |a| + |m| ==> BlockAt(s, t, b, i - |a| - |m|, returnDead)
    ensures BlockAt(s, t, a + m + b, i, returnDead)
  {
    if i < |a| {
      BlockInPrefix(s, t, a, m, b, i, returnDead);
    } else if i < |a| + |m| {
      BlockAtHead(s, t, a, c, depth, b, returnDead);
    } else {
      BlockInSuffix(s, t, a + m, b, i - |a| - |m|, returnDead);
    }
  }

  lemma {:induction false} FlattenKidsBlock(s: seq<Rankable>, t: seq<seq<Id>>, p: Id, kids: seq<Id>, depth: nat, returnDead: bool, i: nat)
    requires Threaded(s) && ReplyTable(s, t) && p < |s|
    requires forall k | 0 <= k < |kids| :: p < kids[k] < |s|
    requires i < |FlattenKids(s, t, p, kids, depth, returnDead)|
    ensures BlockAt(s, t, FlattenKids(s, t, p, kids, depth, returnDead), i, returnDead)
    decreases |s| - p, 0, |kids|
  {
    var init, c := kids[..|kids| - 1], kids[|kids| - 1];
    var a := FlattenKids(s, t, p, init, depth, returnDead);
    var m := if Shown(s, c, returnDead) then [Entry(c, depth)] else [];
    var b := Flatten(s, t, c, depth + 1, returnDead);
    FlattenKidsLast(s, t, p, kids, depth, returnDead);
    if i < |a| {
      FlattenKidsBlock(s, t, p, init, depth, returnDead, i);
    } else if i >= |a| + |m| {
      FlattenBlock(s, t, c, depth + 1, returnDead, i - |a| - |m|);
    }
    BlockOfParts(s, t, a, m, b, c, depth, i, returnDead);
  }

  /** Pre-order: every listed comment is followed immediately by the listing of
      its own replies, one level deeper. */
  lemma {:induction false} FlattenBlock(s: seq<Rankable>, t: seq<seq<Id>>, p: Id, depth: nat, returnDead: bool, i: nat)
    requires Threaded(s) && ReplyTable(s, t) && p < |s|
    requires i < |Flatten(s, t, p, depth, returnDead)|
    ensures BlockAt(s, t, Flatten(s, t, p, depth, returnDead), i, returnDead)
    decreases |s| - p, 1, 0
  {
    FlattenKidsBlock(s, t, p, t[p], depth, returnDead, i);
  }

  /** The comments somewhere below `p` that are not dead. */
  ghost function LiveBelow(s: seq<Rankable>, p: Id): set<Id>
    requires Threaded(s)
  {
    set c | 0 <= c < |s| && Descends(s, c, p) && !s[c].dead
  }

  /** The comments a listing names. */
  ghost function Comments(es: seq<Entry>): set<Id> {
    set i | 0 <= i < |es| :: es[i].comment
  }

  lemma {:induction false} DistinctCount(es: seq<Entry>)
    requires DistinctComments(es)
    ensures |Comments(es)| == |es|
    decreases |es|
  {
    if es != [] {
      var init := es[..|es| - 1];
      DistinctCount(init);
      assert Comments(es) == Comments(init) + {es[|es| - 1].comment} by {
        forall c ensures c in Comments(es) <==> c in Comments(init) || c == es[|es| - 1].comment {
          if c in Comments(es) {
            var i :| 0 <= i < |es| && es[i].comment == c;
            if i < |es| - 1 {
              assert init[i].comment == c;
            }
          }
          if c in Comments(init) {
            var i :| 0 <= i < |init| && init[i].comment == c;
            assert es[i].comment == c;
          }
        }
      }
      assert es[|es| - 1].comment !in Comments(init);
    }
  }

  /** `Rankable.num_child_comments`: the length of the listing without dead comments. */
  function NumChildComments(s: seq<Rankable>, id: Id): nat
    requires Threaded(s) && id < |s|
  {
    |Flatten(s, ReplyOrder(s), id, 0, false)|
  }

  /** `Rankable.has_children`: whether the full listing is non-empty. */
  predicate HasChildren(s: seq<Rankable>, id: Id)
    requires Threaded(s) && id < |s|
  {
    |Flatten(s, ReplyOrder(s), id, 0, true)| > 0
  }

  /** `Rankable.has_nondead_children`: whether the listing without dead comments is non-empty. */
  predicate HasNondeadChildren(s: seq<Rankable>, id: Id)
    requires Threaded(s) && id < |s|
  {
    |Flatten(s, ReplyOrder(s), id, 0, false)| > 0
  }

  /** The shown comments are exactly the comments below `p` that are shown. */
  lemma ListedComments(s: seq<Rankable>, t: seq<seq<Id>>, p: Id, returnDead: bool)
    requires Threaded(s) && ReplyTable(s, t) && p < |s|
    ensures Comments(Flatten(s, t, p, 0, returnDead))
      == set c | 0 <= c < |s| && Descends(s, c, p) && Shown(s, c, returnDead)
  {
    var es := Flatten(s, t, p, 0, returnDead);
    forall c ensures c in Comments(es) <==> 0 <= c < |s| && Descends(s, c, p) && Shown(s, c, returnDead) {
      if c in Comments(es) {
        var i :| 0 <= i < |es| && es[i].comment == c;
        assert es[i] in es;
        FlattenMembers(s, t, p, 0, returnDead, es[i]);
      }
      if 0 <= c < |s| && Descends(s, c, p) && Shown(s, c, returnDead) {
        var e := Entry(c, Generation(s, c, p) - 1);
        FlattenMembers(s, t, p, 0, returnDead, e);
        var i :| 0 <= i < |es| && es[i] == e;
      }
    }
  }

  /** `num_child_comments` counts every live comment below the rankable once. */
  lemma NumChildCommentsCountsLive(s: seq<Rankable>, id: Id)
    requires Threaded(s) && id < |s|
    ensures NumChildComments(s, id) == |LiveBelow(s, id)|
  {
    var es := Flatten(s, ReplyOrder(s), id, 0, false);
    ListedComments(s, ReplyOrder(s), id, false);
    assert Comments(es) == LiveBelow(s, id);
    FlattenDistinct(s, ReplyOrder(s), id, 0, false);
    DistinctCount(es);
  }

  /** `has_children` holds exactly when the rankable has a reply, dead or alive. */
  lemma HasChildrenIff(s: seq<Rankable>, id: Id)
    requires Threaded(s) && id < |s|
    ensures HasChildren(s, id) <==> |Children(s, id)| > 0
  {
    var es := Flatten(s, ReplyOrder(s), id, 0, true);
    if |es| > 0 {
      assert es[0] in es;
      FlattenMembers(s, ReplyOrder(s), id, 0, true, es[0]);
      assert AncestorChild(s, es[0].comment, id) in Children(s, id);
    }
    if |Children(s, id)| > 0 {
      var k := Children(s, id)[0];
      assert Descends(s, k, id) && Generation(s, k, id) == 1;
      FlattenMembers(s, ReplyOrder(s), id, 0, true, Entry(k, 0));
    }
  }

  /** `has_nondead_children` holds exactly when some comment below the
      rankable, at any depth, is not dead. */
  lemma HasNondeadChildrenIff(s: seq<Rankable>, id: Id)
    requires Threaded(s) && id < |s|
    ensures HasNondeadChildren(s, id) <==> LiveBelow(s, id) != {}
    ensures HasNondeadChildren(s, id) <==> NumChildComments(s, id) > 0
  {
    NumChildCommentsCountsLive(s, id);
  }
}
