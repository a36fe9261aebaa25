/** The home page's client-side feed: the excerpt shown on each card, the
    optimistic vote update, the popular-tag ranking, and the bookkeeping of
    the infinitely scrolled list of posts. */
module HomeFeed {
  import opened JsString
  import opened Models
  import Utils

  /** A post as the feed receives it from the list endpoint. */
  datatype FeedPost = FeedPost(id: Id, title: seq<char>, content: seq<char>,
                               tags: seq<seq<char>>, upvotes: int)

  // -------------------------------------------------------------------------
  // Excerpt

  const ExcerptLength: nat := 200

  /** The card's excerpt: content over 200 characters is cut to its first 200
      and marked with "..."; shorter content is shown whole. */
  function Excerpt(content: seq<char>): (r: seq<char>)
    ensures |content| <= ExcerptLength ==> r == content
    ensures |content| > ExcerptLength ==> |r| == ExcerptLength + 3 && content[..ExcerptLength] <= r
    ensures r == Utils.TruncateText(content, ExcerptLength)
  {
    if |content| > ExcerptLength then Substring(content, 0, ExcerptLength) + "..." else content
  }

  // -------------------------------------------------------------------------
  // Optimistic vote

  function Upvoted(p: FeedPost, postId: Id, value: int): FeedPost
  {
    if p.id == postId then p.(upvotes := p.upvotes + value) else p
  }

  /** The list after a vote on `postId` succeeded: the matching post's score
      moves by `value`, and nothing else changes. */
  function OptimisticVote(posts: seq<FeedPost>, postId: Id, value: int): (r: seq<FeedPost>)
    ensures |r| == |posts|
    ensures forall i :: 0 <= i < |r| ==> r[i].(upvotes := 0) == posts[i].(upvotes := 0)
    ensures forall i :: 0 <= i < |r| && posts[i].id != postId ==> r[i] == posts[i]
    ensures forall i :: 0 <= i < |r| && posts[i].id == postId ==> r[i].upvotes == posts[i].upvotes + value
  {
    seq(|posts|, i requires 0 <= i < |posts| => Upvoted(posts[i], postId, value))
  }

  /** Voting back with the opposite value restores the list. */
  lemma OptimisticVoteUndo(posts: seq<FeedPost>, postId: Id, value: int)
    ensures OptimisticVote(OptimisticVote(posts, postId, value), postId, -value) == posts
  {
    var r := OptimisticVote(OptimisticVote(posts, postId, value), postId, -value);
    forall i | 0 <= i < |posts| ensures r[i] == posts[i] {
      if posts[i].id == postId {
        assert r[i].(upvotes := 0) == posts[i].(upvotes := 0);
      }
    }
  }

  function TotalUpvotes(posts: seq<FeedPost>): int
  {
    if posts == [] then 0 else TotalUpvotes(posts[..|posts| - 1]) + posts[|posts| - 1].upvotes
  }

  /** How many cards show post `postId`. */
  function Occurrences(posts: seq<FeedPost>, postId: Id): nat
  {
    if posts == [] then 0
    else Occurrences(posts[..|posts| - 1], postId) + (if posts[|posts| - 1].id == postId then 1 else 0)
  }

  /** The page's total score moves by `value` for each card of the voted
      post: by exactly `value` when the post is listed once. */
  lemma {:induction false} OptimisticVoteTotal(posts: seq<FeedPost>, postId: Id, value: int)
    ensures TotalUpvotes(OptimisticVote(posts, postId, value))
         == TotalUpvotes(posts) + value * Occurrences(posts, postId)
  {
    if posts != [] {
      var n := |posts|;
      var init := posts[..n - 1];
      OptimisticVoteTotal(init, postId, value);
      var r := OptimisticVote(posts, postId, value);
      assert r[..n - 1] == OptimisticVote(init, postId, value);
    }
  }

  // -------------------------------------------------------------------------
  // Popular tags

  /** `posts.flatMap(post => post.tags)` */
  function AllTags(posts: seq<FeedPost>): (r: seq<seq<char>>)
    ensures forall t :: t in r <==> exists i :: 0 <= i < |posts| && t in posts[i].tags
  {
    if posts == [] then []
    else
      var init := posts[..|posts| - 1];
      assert forall i :: 0 <= i < |init| ==> init[i] == posts[i];
      AllTags(init) + posts[|posts| - 1].tags
  }

  /** How often tag `t` occurs in `tags`. */
  function Count(tags: seq<seq<char>>, t: seq<char>): nat
  {
    if tags == [] then 0
    else Count(tags[..|tags| - 1], t) + (if tags[|tags| - 1] == t then 1 else 0)
  }

  lemma {:induction false} CountPositive(tags: seq<seq<char>>, t: seq<char>)
    ensures t in tags <==> Count(tags, t) > 0
  {
    if tags != [] {
      CountPositive(tags[..|tags| - 1], t);
      assert tags == tags[..|tags| - 1] + [tags[|tags| - 1]];
    }
  }

  /** The `reduce` into an object of counts: one pass from the left, each tag
      adding one to its entry, which starts at 0. */
  function Tally(tags: seq<seq<char>>): (r: map<seq<char>, nat>)
    ensures forall t :: t in r <==> t in tags
    ensures forall t :: t in r ==> r[t] == Count(tags, t)
  {
    if tags == [] then map[]
    else
      var init := tags[..|tags| - 1];
      var last := tags[|tags| - 1];
      var acc := Tally(init);
      assert tags == init + [last];
      CountPositive(init, last);
      acc[last := (if last in acc then acc[last] else 0) + 1]
  }

  predicate NoDuplicates<T(==)>(s: seq<T>)
  {
    forall i, j :: 0 <= i < j < |s| ==> s[i] != s[j]
  }

  /** The object's keys in insertion order: each tag where it first occurs. */
  function FirstOccurrences(tags: seq<seq<char>>): (r: seq<seq<char>>)
    ensures forall t :: t in r <==> t in tags
    ensures NoDuplicates(r)
  {
    if tags == [] then []
    else
      var init := tags[..|tags| - 1];
      var last := tags[|tags| - 1];
      assert tags == init + [last];
      var d := FirstOccurrences(init);
      if last in d then d else d + [last]
  }

  type Entry = (seq<char>, nat)

  /** `Object.entries(tagCounts)` */
  function Entries(tags: seq<seq<char>>): (r: seq<Entry>)
    ensures forall e: Entry :: e in r <==> e.0 in tags && e.1 == Count(tags, e.0)
    ensures forall i, j :: 0 <= i < j < |r| ==> r[i].0 != r[j].0
  {
    var keys := FirstOccurrences(tags);
    var counts := Tally(tags);
    var r := seq(|keys|, i requires 0 <= i < |keys| => (keys[i], counts[keys[i]]));
    assert forall e: Entry :: e in r <==> e.0 in tags && e.1 == Count(tags, e.0) by {
      forall e: Entry | e.0 in tags && e.1 == Count(tags, e.0) ensures e in r {
        var i :| 0 <= i < |keys| && keys[i] == e.0;
        assert r[i] == e;
      }
    }
    r
  }

  predicate ByCountDescending(s: seq<Entry>)
  {
    forall i, j :: 0 <= i < j < |s| ==> s[i].1 >= s[j].1
  }

  predicate DistinctKeys(s: seq<Entry>)
  {
    forall i, j :: 0 <= i < j < |s| ==> s[i].0 != s[j].0
  }

  /** Places `e` before the first entry whose count does not exceed its own. */
  function InsertByCount(e: Entry, s: seq<Entry>): (r: seq<Entry>)
    requires ByCountDescending(s)
    ensures |r| == |s| + 1
    ensures forall x :: x in r <==> x == e || x in s
    ensures ByCountDescending(r)
  {
    if s == [] || e.1 >= s[0].1 then [e] + s
    else
      var tail := InsertByCount(e, s[1..]);
      assert forall x :: x in tail ==> x.1 <= s[0].1;
      [s[0]] + tail
  }

  lemma {:induction false} InsertKeepsKeysDistinct(e: Entry, s: seq<Entry>)
    requires ByCountDescending(s) && DistinctKeys(s)
    requires forall x :: x in s ==> x.0 != e.0
    ensures DistinctKeys(InsertByCount(e, s))
  {
    if !(s == [] || e.1 >= s[0].1) {
      InsertKeepsKeysDistinct(e, s[1..]);
      var tail := InsertByCount(e, s[1..]);
      assert forall x :: x in tail ==> x.0 != s[0].0 by {
        forall x | x in tail ensures x.0 != s[0].0 {
          if x != e {
            var k :| 0 <= k < |s[1..]| && s[1..][k] == x;
            assert s[k + 1] == x;
          }
        }
      }
    }
  }

  /** The comparator `(a, b) => b[1] - a[1]` under a stable sort: by count,
      highest first, ties in their original order. */
  function SortByCount(s: seq<Entry>): (r: seq<Entry>)
    ensures |r| == |s|
    ensures forall x :: x in r <==> x in s
    ensures ByCountDescending(r)
  {
    if s == [] then [] else InsertByCount(s[0], SortByCount(s[1..]))
  }

  lemma {:induction false} SortKeepsKeysDistinct(s: seq<Entry>)
    requires DistinctKeys(s)
    ensures DistinctKeys(SortByCount(s))
  {
    if s != [] {
      assert DistinctKeys(s[1..]) by {
        forall i, j | 0 <= i < j < |s[1..]| ensures s[1..][i].0 != s[1..][j].0 {
          assert s[1..][i] == s[i + 1] && s[1..][j] == s[j + 1];
        }
      }
      SortKeepsKeysDistinct(s[1..]);
      forall x | x in SortByCount(s[1..]) ensures x.0 != s[0].0 {
        var k :| 0 <= k < |s[1..]| && s[1..][k] == x;
        assert s[k + 1] == x;
      }
      InsertKeepsKeysDistinct(s[0], SortByCount(s[1..]));
    }
  }

  const PopularTagLimit: nat := 10

  function Ranking(posts: seq<FeedPost>): seq<Entry>
  {
    SortByCount(Entries(AllTags(posts)))
  }

  /** `.map(([tag]) => tag)` */
  function Keys(s: seq<Entry>): (r: seq<seq<char>>)
    ensures |r| == |s| && forall i :: 0 <= i < |s| ==> r[i] == s[i].0
  {
    seq(|s|, i requires 0 <= i < |s| => s[i].0)
  }

  /** `.slice(0, 10)` */
  function Top(ranked: seq<Entry>): (r: seq<Entry>)
    ensures |r| == if |ranked| < PopularTagLimit then |ranked| else PopularTagLimit
    ensures forall i :: 0 <= i < |r| ==> r[i] == ranked[i]
  {
    ranked[..if |ranked| < PopularTagLimit then |ranked| else PopularTagLimit]
  }

  /** The popular tags: entries sorted by count, the first ten, their tags. */
  function PopularTags(posts: seq<FeedPost>): (r: seq<seq<char>>)
    ensures |r| <= PopularTagLimit
    ensures forall t :: t in r ==> t in AllTags(posts)
  {
    var ranked := Ranking(posts);
    var r := Keys(Top(ranked));
    assert forall i :: 0 <= i < |r| ==> ranked[i] in ranked;
    r
  }

  lemma PopularTagsAt(posts: seq<FeedPost>, i: nat)
    requires i < |PopularTags(posts)|
    ensures |PopularTags(posts)| == if |Ranking(posts)| < PopularTagLimit then |Ranking(posts)| else PopularTagLimit
    ensures i < |Ranking(posts)| && PopularTags(posts)[i] == Ranking(posts)[i].0
    ensures Ranking(posts)[i].1 == Count(AllTags(posts), PopularTags(posts)[i])
  {
    assert Ranking(posts)[i] in Ranking(posts);
  }

  /** The popular tags are distinct, listed by how often they occur, most
      frequent first. */
  lemma PopularTagsRanked(posts: seq<FeedPost>)
    ensures NoDuplicates(PopularTags(posts))
    ensures forall i, j :: 0 <= i < j < |PopularTags(posts)| ==>
              Count(AllTags(posts), PopularTags(posts)[i]) >= Count(AllTags(posts), PopularTags(posts)[j])
  {
    var all := AllTags(posts);
    var r := PopularTags(posts);
    SortKeepsKeysDistinct(Entries(all));
    forall i, j | 0 <= i < j < |r|
      ensures r[i] != r[j] && Count(all, r[i]) >= Count(all, r[j])
    {
      PopularTagsAt(posts, i);
      PopularTagsAt(posts, j);
    }
  }

  /** No tag left out occurs more often than one that is listed, and a tag is
      left out only when ten others are listed. */
  lemma PopularTagsAreTop(posts: seq<FeedPost>, x: seq<char>)
    requires x in AllTags(posts) && x !in PopularTags(posts)
    ensures |PopularTags(posts)| == PopularTagLimit
    ensures forall t :: t in PopularTags(posts) ==> Count(AllTags(posts), t) >= Count(AllTags(posts), x)
  {
    var all := AllTags(posts);
    var ranked := Ranking(posts);
    var r := PopularTags(posts);
    var e: Entry := (x, Count(all, x));
    assert e in ranked;
    var k :| 0 <= k < |ranked| && ranked[k] == e;
    if k < |r| {
      PopularTagsAt(posts, k);
      assert false;
    }
    PopularTagsAt(posts, 0);
    ListedOutrank(posts, k);
  }

  lemma ListedOutrank(posts: seq<FeedPost>, k: nat)
    requires |PopularTags(posts)| <= k < |Ranking(posts)|
    ensures forall t :: t in PopularTags(posts) ==> Count(AllTags(posts), t) >= Ranking(posts)[k].1
  {
    var r := PopularTags(posts);
    forall t | t in r ensures Count(AllTags(posts), t) >= Ranking(posts)[k].1 {
      var i :| 0 <= i < |r| && r[i] == t;
      PopularTagsAt(posts, i);
    }
  }

  // -------------------------------------------------------------------------
  // Feed requests

  function DigitChar(d: nat): (c: char)
    requires d < 10
    ensures IsDigit(c)
  {
    ['0', '1', '2', '3', '4', '5', '6', '7', '8', '9'][d]
  }

  /** The decimal form of `n`, as a template literal prints it. */
  function Decimal(n: nat): (r: seq<char>)
    ensures r != [] && forall k :: 0 <= k < |r| ==> IsDigit(r[k])
  {
    if n < 10 then [DigitChar(n)] else Decimal(n / 10) + [DigitChar(n % 10)]
  }

  const PostsPath: seq<char> := "/api/posts?"

  /** The list URL for page `page`; the tag filter is added when a tag is
      selected, an empty tag counting as none. */
  function FeedUrl(selectedTag: Option<seq<char>>, page: nat): seq<char>
  {
    if selectedTag.Some? && selectedTag.value != [] then
      PostsPath + "tag=" + selectedTag.value + "&page=" + Decimal(page)
    else PostsPath + "page=" + Decimal(page)
  }

  predicate Contains(s: seq<char>, p: seq<char>)
  {
    exists k :: 0 <= k <= |s| - |p| && s[k..][..|p|] == p
  }

  lemma PlainUrlLetters(page: nat)
    ensures var u := PostsPath + "page=" + Decimal(page);
            forall k :: 0 <= k < |u| && u[k] == 't' ==> k == 8
  {
    var u := PostsPath + "page=" + Decimal(page);
    forall k | 0 <= k < |u| ensures u[k] == 't' ==> k == 8 {
      if k >= 16 {
        assert u[k] == Decimal(page)[k - 16];
      }
    }
  }

  lemma TaggedUrlHasFilter(tag: seq<char>, page: nat)
    ensures Contains(PostsPath + "tag=" + tag + "&page=" + Decimal(page), "tag=")
  {
    var w := PostsPath + "tag=";
    var u := w + (tag + "&page=" + Decimal(page));
    assert w[11..][..4] == "tag=";
    assert u[11..][..|"tag="|] == w[11..][..4];
    assert PostsPath + "tag=" + tag + "&page=" + Decimal(page) == u;
  }

  lemma PlainUrlHasNoFilter(page: nat)
    ensures !Contains(PostsPath + "page=" + Decimal(page), "tag=")
  {
    var u := PostsPath + "page=" + Decimal(page);
    PlainUrlLetters(page);
    var p: seq<char> := "tag=";
    assert u[9] == PostsPath[9] == 's';
    forall k | 0 <= k <= |u| - |p| ensures u[k..][..|p|] != p {
      assert u[k..][..|p|][0] == u[k] && u[k..][..|p|][1] == u[k + 1];
      if u[k] == 't' {
        assert u[k + 1] == u[9];
      }
    }
  }

  /** The URL carries the tag filter exactly when a non-empty tag is
      selected. */
  lemma FeedUrlFiltersByTag(selectedTag: Option<seq<char>>, page: nat)
    ensures Contains(FeedUrl(selectedTag, page), "tag=")
        <==> selectedTag.Some? && selectedTag.value != []
  {
    if selectedTag.Some? && selectedTag.value != [] {
      TaggedUrlHasFilter(selectedTag.value, page);
    } else {
      PlainUrlHasNoFilter(page);
    }
  }

  /** What a feed request yields: a failed response, a rejected promise, or
      the parsed body, whose `error`, `posts` and `pagination.hasNextPage`
      may each be absent. */
  datatype FeedResponse =
    | HttpError(status: nat)
    | Rejected(message: seq<char>)
    | Body(error: Option<seq<char>>, posts: Option<seq<FeedPost>>, hasNextPage: Option<bool>)

  /** The message stored when the request fails, or None when it succeeds;
      an empty `error` field is falsy and does not fail. */
  function FailureOf(response: FeedResponse): (r: Option<seq<char>>)
    ensures r == None <==> response.Body? && (response.error == None || response.error.value == [])
  {
    match response
    case HttpError(status) => Some("HTTP error! status: " + Decimal(status))
    case Rejected(message) => Some(message)
    case Body(error, _, _) =>
      if error.Some? && error.value != [] then Some(error.value) else None
  }

  /** The home page's list state. */
  class Feed {
    var posts: seq<FeedPost>
    var page: nat
    var hasMore: bool
    var loading: bool
    var loadingMore: bool
    var error: Option<seq<char>>
    var selectedTag: Option<seq<char>>
    var popularTags: seq<seq<char>>

    constructor ()
      ensures posts == [] && page == 1 && hasMore && loading && !loadingMore
      ensures error == None && selectedTag == None && popularTags == []
    {
      posts, page, hasMore := [], 1, true;
      loading, loadingMore := true, false;
      error, selectedTag, popularTags := None, None, [];
    }

    /** `fetchPosts(reset)` given what the request yields; returns the URL it
        requests. A reset asks for page 1 and clears the list first; on
        success the new posts replace or extend the list and `page` moves
        past the page fetched; on failure the message is kept and the paging
        state stays. */
    method FetchPosts(reset: bool, response: FeedResponse) returns (url: seq<char>)
      modifies this
      ensures var currentPage := if reset then 1 else old(page);
              url == FeedUrl(selectedTag, currentPage)
      ensures var kept := if reset then [] else old(posts);
              match FailureOf(response)
              case None =>
                var fetched := if response.posts.Some? then response.posts.value else [];
                && posts == kept + fetched
                && page == (if reset then 1 else old(page)) + 1
                && hasMore == (response.hasNextPage == Some(true))
                && error == old(error)
              case Some(message) =>
                && posts == kept && page == old(page) && hasMore == old(hasMore)
                && error == Some(message)
      ensures !loading && !loadingMore
      ensures selectedTag == old(selectedTag) && popularTags == old(popularTags)
    {
      var currentPage := if reset then 1 else page;
      url := FeedUrl(selectedTag, currentPage);
      if reset {
        loading := true;
        posts := [];
      } else {
        loadingMore := true;
      }
      var failure := FailureOf(response);
      if failure.Some? {
        error := failure;
      } else {
        var newPosts := if response.posts.Some? then response.posts.value else [];
        if reset {
          posts := newPosts;
        } else {
          posts := posts + newPosts;
        }
        hasMore := response.hasNextPage == Some(true);
        page := currentPage + 1;
      }
      loading, loadingMore := false, false;
    }

    /** `fetchPopularTags` given what the request for the first hundred
        posts yields; a failure leaves the tags as they were. */
    method FetchPopularTags(response: FeedResponse)
      modifies this
      ensures FailureOf(response).Some? ==> popularTags == old(popularTags)
      ensures FailureOf(response).None? ==>
                popularTags == PopularTags(if response.posts.Some? then response.posts.value else [])
      ensures posts == old(posts) && page == old(page) && hasMore == old(hasMore)
      ensures error == old(error) && selectedTag == old(selectedTag)
      ensures loading == old(loading) && loadingMore == old(loadingMore)
    {
      if FailureOf(response).None? {
        var allPosts := if response.posts.Some? then response.posts.value else [];
        popularTags := PopularTags(allPosts);
      }
    }

    /** `handleVote` after the vote request succeeded. */
    method HandleVote(postId: Id, value: int)
      modifies this
      ensures posts == OptimisticVote(old(posts), postId, value)
      ensures page == old(page) && hasMore == old(hasMore) && error == old(error)
      ensures selectedTag == old(selectedTag) && popularTags == old(popularTags)
      ensures loading == old(loading) && loadingMore == old(loadingMore)
    {
      posts := OptimisticVote(posts, postId, value);
    }
  }
}
