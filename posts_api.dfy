/** The feed handlers (`/api/posts`): `GET` selects one page of the posts
    collection, optionally restricted to a tag and to an author, and streams
    it as server-sent events; `POST` validates a multipart form and stores a
    new post. */
module PostsApi {
  import opened JsString
  import opened Models
  import opened Sessions

  // -------------------------------------------------------------------------
  // Pagination

  const DefaultPage: int := 1
  const DefaultLimit: int := 8

  /** `parseInt(searchParams.get(name) || fallback)` for a parameter that is
      absent (None) or a well-formed integer. */
  function ParamOr(param: Option<int>, fallback: int): (r: int)
    ensures param.None? ==> r == fallback
    ensures param.Some? ==> r == param.value
  {
    match param
    case None => fallback
    case Some(v) => v
  }

  /** The number of posts the pages before `page` hold. */
  function Skip(page: int, limit: int): (r: int)
    ensures page >= 1 && limit >= 0 ==> r >= 0
    ensures page < 1 && limit > 0 ==> r < 0
  {
    (page - 1) * limit
  }

  /** `Math.ceil(totalPosts / limit)`: the fewest pages of `limit` posts that
      hold `total` posts. */
  function TotalPages(total: nat, limit: int): (r: nat)
    requires limit > 0
    ensures r * limit >= total
    ensures total > 0 ==> (r - 1) * limit < total
    ensures total == 0 ==> r == 0
  {
    var q := (total + limit - 1) / limit;
    assert q * limit + (total + limit - 1) % limit == total + limit - 1;
    q
  }

  /** The page metadata of the `pagination` event. */
  datatype Pagination = Pagination(currentPage: int, totalPages: nat, totalPosts: nat,
                                   hasNextPage: bool, hasPrevPage: bool)

  function PaginationFor(page: int, limit: int, total: nat): (r: Pagination)
    requires limit > 0
    ensures r.totalPosts == total && r.totalPages == TotalPages(total, limit)
    ensures r.hasNextPage <==> page < TotalPages(total, limit)
    ensures r.hasPrevPage <==> page > 1
  {
    var pages := TotalPages(total, limit);
    Pagination(page, pages, total, page < pages, page > 1)
  }

  /** A next page exists exactly when posts remain after this one. */
  lemma HasNextMeansMore(page: int, limit: int, total: nat)
    requires limit > 0 && page >= 1
    ensures PaginationFor(page, limit, total).hasNextPage <==> Skip(page, limit) + limit < total
  {
    var pages := TotalPages(total, limit);
    assert Skip(page, limit) + limit == page * limit;
    if page < pages {
      assert page <= pages - 1;
      assert page * limit <= (pages - 1) * limit;
    } else {
      assert page * limit >= pages * limit;
    }
  }

  // -------------------------------------------------------------------------
  // Selection

  /** The `query` object: `tags` when a tag is given, `userId` when an author
      is. */
  datatype Query = Query(tag: Option<seq<char>>, author: Option<Id>)

  predicate Selects(q: Query, p: Post)
  {
    && (q.tag.Some? ==> q.tag.value in p.tags)
    && (q.author.Some? ==> p.userId == q.author.value)
  }

  /** `Post.find(query)` over the collection, which is held newest first. */
  function Matching(posts: seq<Post>, q: Query): (r: seq<Post>)
    ensures |r| <= |posts|
  {
    if posts == [] then []
    else
      var last := posts[|posts| - 1];
      Matching(posts[..|posts| - 1], q) + (if Selects(q, last) then [last] else [])
  }

  lemma {:induction false} MatchingMembers(posts: seq<Post>, q: Query, p: Post)
    ensures p in Matching(posts, q) <==> p in posts && Selects(q, p)
  {
    if posts != [] {
      MatchingMembers(posts[..|posts| - 1], q, p);
      assert posts == posts[..|posts| - 1] + [posts[|posts| - 1]];
    }
  }

  /** `.skip(skip).limit(limit)` on the matching posts. */
  function Window(s: seq<Post>, skip: nat, limit: nat): (r: seq<Post>)
    ensures |r| <= limit
    ensures forall k :: 0 <= k < |r| ==> skip + k < |s| && r[k] == s[skip + k]
    ensures |r| == (if skip >= |s| then 0 else if skip + limit <= |s| then limit else |s| - skip)
  {
    if skip >= |s| then [] else s[skip..if skip + limit <= |s| then skip + limit else |s|]
  }

  /** The messages of the event stream. */
  datatype Event =
    | PostsEvent(data: seq<Post>)
    | PaginationEvent(info: Pagination)
    | EndEvent
    | ErrorEvent(message: seq<char>)

  datatype ListResponse =
    | Events(events: seq<Event>)  // a stream that ends normally
    | StreamAborted               // `controller.error`: the query failed inside the stream

  /** A successful page: the posts event when the page is not empty, then
      the pagination and end events. */
  function PageEvents(items: seq<Post>, info: Pagination): (r: seq<Event>)
    ensures |r| >= 2 && r[|r| - 1] == EndEvent && r[|r| - 2] == PaginationEvent(info)
    ensures items != [] <==> r[0] == PostsEvent(items)
  {
    (if items != [] then [PostsEvent(items)] else []) + [PaginationEvent(info), EndEvent]
  }

  /** `GET /api/posts?page=&limit=&tag=&userId=`: `tag` and `username` are
      empty when absent; `posts` is the collection, newest first. */
  method ListPosts(pageParam: Option<int>, limitParam: Option<int>, tag: seq<char>,
                   username: seq<char>, session: Session, users: Users, posts: seq<Post>)
    returns (r: ListResponse)
    requires ParamOr(limitParam, DefaultLimit) > 0
    ensures username != [] && !Authenticated(session) ==>
              r == Events([ErrorEvent("Authentication required")])
    ensures username != [] && Authenticated(session) && username !in users.byUsername ==>
              r == Events([ErrorEvent("User not found")])
    ensures (username == [] || (Authenticated(session) && username in users.byUsername)) ==>
              var page := ParamOr(pageParam, DefaultPage);
              var limit := ParamOr(limitParam, DefaultLimit);
              var q := Query(if tag != [] then Some(tag) else None,
                             if username != [] then Some(users.byUsername[username]) else None);
              var selected := Matching(posts, q);
              r == if page < 1 then StreamAborted
                   else Events(PageEvents(Window(selected, Skip(page, limit), limit),
                                          PaginationFor(page, limit, |selected|)))
  {
    var page := ParamOr(pageParam, DefaultPage);
    var limit := ParamOr(limitParam, DefaultLimit);
    var skip := Skip(page, limit);
    var query := Query(None, None);
    if tag != [] {
      query := query.(tag := Some(tag));
    }
    if username != [] {
      if !Authenticated(session) {
        return Events([ErrorEvent("Authentication required")]);
      }
      if username !in users.byUsername {
        return Events([ErrorEvent("User not found")]);
      }
      query := query.(author := Some(users.byUsername[username]));
    }
    if skip < 0 {
      return StreamAborted;
    }
    var selected := Matching(posts, query);
    var items := Window(selected, skip, limit);
    r := Events(PageEvents(items, PaginationFor(page, limit, |selected|)));
  }

  /** Every listed post satisfies the filters and comes from the collection,
      and the page holds at most `limit` posts. */
  lemma ListedPostsMatch(posts: seq<Post>, q: Query, page: int, limit: int, k: nat)
    requires page >= 1 && limit > 0
    requires k < |Window(Matching(posts, q), Skip(page, limit), limit)|
    ensures var p := Window(Matching(posts, q), Skip(page, limit), limit)[k];
            p in posts && Selects(q, p)
  {
    var s := Matching(posts, q);
    MatchingMembers(posts, q, s[Skip(page, limit) + k]);
  }

  /** Consecutive pages continue each other: page n + 1 starts where page n
      ends. */
  lemma PagesAreConsecutive(s: seq<Post>, page: int, limit: int)
    requires page >= 1 && limit > 0
    requires Skip(page, limit) + limit <= |s|
    ensures Window(s, Skip(page, limit), limit) + Window(s, Skip(page + 1, limit), limit)
         == Window(s, Skip(page, limit), 2 * limit)
  {
    SkipNext(page, limit);
    WindowsJoin(s, Skip(page, limit), limit);
  }

  lemma SkipNext(page: int, limit: int)
    ensures Skip(page + 1, limit) == Skip(page, limit) + limit
  {
    assert (page + 1 - 1) * limit == (page - 1) * limit + limit;
  }

  /** Two adjacent windows make one window twice as long. */
  lemma WindowsJoin(s: seq<Post>, a: nat, limit: nat)
    requires a + limit <= |s|
    ensures Window(s, a, limit) + Window(s, a + limit, limit) == Window(s, a, 2 * limit)
  {
    var w1 := Window(s, a, limit);
    var w2 := Window(s, a + limit, limit);
    var w := Window(s, a, 2 * limit);
    assert |w1 + w2| == |w|;
    forall k | 0 <= k < |w| ensures (w1 + w2)[k] == w[k] {
      if k >= limit {
        assert (w1 + w2)[k] == w2[k - limit];
      }
    }
  }

  // -------------------------------------------------------------------------
  // `POST /api/posts`

  const MaxImageSize: nat := 5 * 1024 * 1024

  /** A multipart form value. */
  datatype FormValue = Text(text: seq<char>) | File(size: nat, mimeType: seq<char>)

  datatype FormEntry = FormEntry(key: seq<char>, value: FormValue)

  /** `formEntries.filter(([key]) => key.startsWith('image'))` */
  function ImageEntries(entries: seq<FormEntry>): (r: seq<FormEntry>)
    ensures forall k :: 0 <= k < |r| ==> r[k] in entries && StartsWith(r[k].key, "image")
  {
    if entries == [] then []
    else
      var last := entries[|entries| - 1];
      ImageEntries(entries[..|entries| - 1]) + (if StartsWith(last.key, "image") then [last] else [])
  }

  /** The entries the loop turns into images: non-empty files. */
  predicate Processed(e: FormEntry)
  {
    e.value.File? && e.value.size > 0
  }

  function ProcessedFiles(entries: seq<FormEntry>): (r: seq<FormValue>)
    ensures forall k :: 0 <= k < |r| ==> r[k].File? && r[k].size > 0
  {
    if entries == [] then []
    else
      var last := entries[|entries| - 1];
      ProcessedFiles(entries[..|entries| - 1]) + (if Processed(last) then [last.value] else [])
  }

  datatype ImagesOutcome = Images(files: seq<FormValue>) | ImageTooLarge

  /** Some processed file is over 5 MiB. */
  predicate Oversized(imageFiles: seq<FormEntry>)
  {
    exists k :: 0 <= k < |imageFiles| && Processed(imageFiles[k]) && imageFiles[k].value.size > MaxImageSize
  }

  /** The image loop: stops at the first processed file over 5 MiB, and
      otherwise collects the processed files in order (their data URLs carry
      the MIME type and the base64 of the bytes, which are not modelled). */
  method CollectImages(imageFiles: seq<FormEntry>) returns (r: ImagesOutcome)
    ensures r.ImageTooLarge? <==> Oversized(imageFiles)
    ensures r.Images? ==> r.files == ProcessedFiles(imageFiles)
  {
    var urls: seq<FormValue> := [];
    for i := 0 to |imageFiles|
      invariant urls == ProcessedFiles(imageFiles[..i])
      invariant forall k :: 0 <= k < i ==> !(Processed(imageFiles[k]) && imageFiles[k].value.size > MaxImageSize)
    {
      var e := imageFiles[i];
      assert imageFiles[..i + 1][..i] == imageFiles[..i];
      if e.value.File? && e.value.size > 0 {
        if e.value.size > MaxImageSize {
          return ImageTooLarge;
        }
        urls := urls + [e.value];
      }
    }
    assert imageFiles[..|imageFiles|] == imageFiles;
    r := Images(urls);
  }

  /** The `tags` field: empty when absent, the parsed list when it parses,
      and empty when it does not. `parsed` is the outcome of `JSON.parse`
      on the field (None when it throws). */
  function TagsField(tagsString: seq<char>, parsed: Option<seq<seq<char>>>): (r: seq<seq<char>>)
    ensures tagsString == [] || parsed.None? ==> r == []
    ensures tagsString != [] && parsed.Some? ==> r == parsed.value
  {
    if tagsString == [] then []
    else match parsed
      case None => []
      case Some(t) => t
  }

  datatype CreateResponse =
    | AuthRequired         // 401 'Authentication required'
    | UserNotFound         // 404 'User not found'
    | MissingFields        // 400 'Title and content are required'
    | ImageTooBig          // 400 'Each image must be less than 5MB'
    | SaveFailed           // 500 'Failed to create post': schema validation on save
    | Created(post: Post)  // 201

  /** The outcome of `POST /api/posts`, checked in the route's order:
      401, 404, 400 for missing fields, 400 for an oversized image, then
      the save, which fails (500) when the stored record does not validate. */
  function CreateOutcome(session: Session, users: Users, title: seq<char>, content: seq<char>,
                         tagsString: seq<char>, parsedTags: Option<seq<seq<char>>>,
                         entries: seq<FormEntry>, newId: Id, now: int): (r: CreateResponse)
    ensures !Authenticated(session) ==> r == AuthRequired
    ensures Authenticated(session) && ResolveUser(session, users).None? ==> r == UserNotFound
    ensures (Authenticated(session) && ResolveUser(session, users).Some?
             && (title == [] || content == [])) ==> r == MissingFields
    ensures r == ImageTooBig <==>
              && Authenticated(session) && ResolveUser(session, users).Some?
              && title != [] && content != [] && Oversized(ImageEntries(entries))
    ensures r.Created? ==>
              && Authenticated(session) && ResolveUser(session, users).Some?
              && title != [] && content != [] && !Oversized(ImageEntries(entries))
              && r.post == NewPost(newId, ResolveUser(session, users).value, title, content,
                                   TagsField(tagsString, parsedTags), now)
              && ValidPost(r.post)
    ensures r == SaveFailed <==>
              && Authenticated(session) && ResolveUser(session, users).Some?
              && title != [] && content != [] && !Oversized(ImageEntries(entries))
              && (|Trim(title)| == 0 || |Trim(title)| > MaxTitleLength || ResolveUser(session, users).value == [])
  {
    if !Authenticated(session) then AuthRequired
    else
      var user := ResolveUser(session, users);
      if user.None? then UserNotFound
      else if title == [] || content == [] then MissingFields
      else if Oversized(ImageEntries(entries)) then ImageTooBig
      else
        var post := NewPost(newId, user.value, title, content, TagsField(tagsString, parsedTags), now);
        if !ValidPost(post) then SaveFailed else Created(post)
  }

  /** The route's checks in order, then the record the save would store. */
  method Respond(session: Session, users: Users, title: seq<char>, content: seq<char>,
                 tagsString: seq<char>, parsedTags: Option<seq<seq<char>>>,
                 entries: seq<FormEntry>, newId: Id, now: int) returns (r: CreateResponse)
    ensures r == CreateOutcome(session, users, title, content, tagsString, parsedTags, entries, newId, now)
  {
    if !Authenticated(session) {
      return AuthRequired;
    }
    var user := ResolveUser(session, users);
    if user.None? {
      return UserNotFound;
    }
    if title == [] || content == [] {
      return MissingFields;
    }
    var tags := TagsField(tagsString, parsedTags);
    var imageFiles := ImageEntries(entries);
    var images := CollectImages(imageFiles);
    if images.ImageTooLarge? {
      return ImageTooBig;
    }
    // The schema declares no `imageUrls` path: strict mode drops the images.
    var post := NewPost(newId, user.value, title, content, tags, now);
    if !ValidPost(post) {
      return SaveFailed;
    }
    r := Created(post);
  }

  lemma PrependKeepsValid(post: Post, posts: seq<Post>)
    requires ValidPost(post) && forall i :: 0 <= i < |posts| ==> ValidPost(posts[i])
    ensures forall i :: 0 <= i < |[post] + posts| ==> ValidPost(([post] + posts)[i])
  {
    assert forall i :: 1 <= i < |[post] + posts| ==> ([post] + posts)[i] == posts[i - 1];
  }

  /** The posts collection. */
  class PostStore {
    var posts: seq<Post>
    const users: Users

    ghost predicate Valid()
      reads this
    {
      ValidUsers(users) && forall i :: 0 <= i < |posts| ==> ValidPost(posts[i])
    }

    constructor (users: Users)
      requires ValidUsers(users)
      ensures Valid() && this.users == users && posts == []
    {
      this.users := users;
      posts := [];
    }

    /** Creates a post of the session's user from the form fields (empty when
        absent) and entries; `newId` and `now` are assigned by the database.
        The new post goes to the front: the collection is held newest first. */
    method Create(session: Session, title: seq<char>, content: seq<char>, tagsString: seq<char>,
                  parsedTags: Option<seq<seq<char>>>, entries: seq<FormEntry>,
                  newId: Id, now: int) returns (r: CreateResponse)
      requires Valid()
      modifies this
      ensures Valid()
      ensures r == CreateOutcome(session, users, title, content, tagsString, parsedTags, entries, newId, now)
      ensures posts == if r.Created? then [r.post] + old(posts) else old(posts)
    {
      r := Respond(session, users, title, content, tagsString, parsedTags, entries, newId, now);
      if r.Created? {
        PrependKeepsValid(r.post, posts);
        posts := [r.post] + posts;
      }
    }
  }
}
