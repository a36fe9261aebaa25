/** The comment handlers (`/api/comments`): `GET` assembles the fetched
    comments of a post into a reply forest, `POST` validates and stores a new
    comment. The forest is kept as the handler builds it: one node per
    comment id (the `commentMap`), whose `replies` hold the ids of the child
    nodes, and the list of root ids. Holding ids rather than copies is exact,
    since the handler pushes the very node objects the map holds. */
module Comments {
  import opened Models
  import opened Sessions

  /** A comment with its `replies`. */
  datatype Node = Node(comment: Comment, replies: seq<Id>)

  // -------------------------------------------------------------------------
  // Specification

  function IdSet(cs: seq<Comment>): set<Id>
  {
    set c | c in cs :: c.id
  }

  function IdsOf(cs: seq<Comment>): (r: seq<Id>)
    ensures |r| == |cs| && forall k :: 0 <= k < |cs| ==> r[k] == cs[k].id
  {
    seq(|cs|, k requires 0 <= k < |cs| => cs[k].id)
  }

  /** The comments of `cs` whose `parentId` is `parent`, in the order of `cs`:
      `parent` None gives the root comments, Some(q) the replies of q. */
  function ChildrenOf(cs: seq<Comment>, parent: Option<Id>): seq<Comment>
  {
    if cs == [] then []
    else
      var last := cs[|cs| - 1];
      ChildrenOf(cs[..|cs| - 1], parent) + (if last.parentId == parent then [last] else [])
  }

  /** MongoDB `_id`s are unique within a collection. */
  predicate UniqueIds(cs: seq<Comment>)
  {
    forall i, j :: 0 <= i < j < |cs| ==> cs[i].id != cs[j].id
  }

  /** The order of the query's `sort({ createdAt: -1 })`. */
  predicate NewestFirst(cs: seq<Comment>)
  {
    forall i, j :: 0 <= i < j < |cs| ==> cs[i].createdAt >= cs[j].createdAt
  }

  predicate NoDuplicates(s: seq<Id>)
  {
    forall i, j :: 0 <= i < j < |s| ==> s[i] != s[j]
  }

  // -------------------------------------------------------------------------
  // The assembly (`GET`)

  lemma ChildrenOfStep(cs: seq<Comment>, i: nat, parent: Option<Id>)
    requires i < |cs|
    ensures IdsOf(ChildrenOf(cs[..i + 1], parent))
         == IdsOf(ChildrenOf(cs[..i], parent)) + (if cs[i].parentId == parent then [cs[i].id] else [])
  {
    assert cs[..i + 1][..i] == cs[..i];
  }

  /** The first pass: a node with empty `replies` for every id. */
  method IndexComments(cs: seq<Comment>) returns (nodes: map<Id, Node>)
    ensures nodes.Keys == IdSet(cs)
    ensures forall id :: id in nodes ==>
              nodes[id].comment in cs && nodes[id].comment.id == id && nodes[id].replies == []
  {
    nodes := map[];
    for i := 0 to |cs|
      invariant nodes.Keys == IdSet(cs[..i])
      invariant forall id :: id in nodes ==>
                  nodes[id].comment in cs[..i] && nodes[id].comment.id == id && nodes[id].replies == []
    {
      assert cs[..i + 1] == cs[..i] + [cs[i]];
      nodes := nodes[cs[i].id := Node(cs[i], [])];
    }
    assert cs[..|cs|] == cs;
  }

  /** The second pass: each comment with a parent is appended to that
      parent's `replies` when the parent was fetched, each comment without
      one to the roots. */
  method LinkReplies(cs: seq<Comment>, index: map<Id, Node>) returns (nodes: map<Id, Node>, roots: seq<Id>)
    requires index.Keys == IdSet(cs)
    requires forall id :: id in index ==> index[id].replies == []
    ensures nodes.Keys == index.Keys
    ensures forall id :: id in nodes ==> nodes[id].comment == index[id].comment
    ensures forall id :: id in nodes ==> nodes[id].replies == IdsOf(ChildrenOf(cs, Some(id)))
    ensures roots == IdsOf(ChildrenOf(cs, None))
  {
    nodes := index;
    roots := [];
    for i := 0 to |cs|
      invariant nodes.Keys == index.Keys
      invariant forall id :: id in nodes ==> nodes[id].comment == index[id].comment
      invariant forall id :: id in nodes ==> nodes[id].replies == IdsOf(ChildrenOf(cs[..i], Some(id)))
      invariant roots == IdsOf(ChildrenOf(cs[..i], None))
    {
      var c := cs[i];
      ChildrenOfStep(cs, i, None);
      forall id | id in nodes
        ensures IdsOf(ChildrenOf(cs[..i + 1], Some(id)))
             == IdsOf(ChildrenOf(cs[..i], Some(id))) + (if c.parentId == Some(id) then [c.id] else [])
      {
        ChildrenOfStep(cs, i, Some(id));
      }
      if c.parentId.Some? {
        var pid := c.parentId.value;
        if pid in nodes {
          nodes := nodes[pid := nodes[pid].(replies := nodes[pid].replies + [c.id])];
        }
      } else {
        roots := roots + [c.id];
      }
    }
    assert cs[..|cs|] == cs;
  }

  /** The two passes over the fetched comments. */
  method BuildTree(cs: seq<Comment>) returns (nodes: map<Id, Node>, roots: seq<Id>)
    ensures nodes.Keys == IdSet(cs)
    ensures forall id :: id in nodes ==> nodes[id].comment in cs && nodes[id].comment.id == id
    ensures forall id :: id in nodes ==> nodes[id].replies == IdsOf(ChildrenOf(cs, Some(id)))
    ensures roots == IdsOf(ChildrenOf(cs, None))
  {
    var index := IndexComments(cs);
    nodes, roots := LinkReplies(cs, index);
  }

  datatype GetResponse =
    | MissingPostId                                // 400 'Post ID is required'
    | Forest(nodes: map<Id, Node>, roots: seq<Id>) // 200, the root nodes with their replies

  /** `GET /api/comments?postId=...`; `fetched` is the query's result, the
      post's comments newest first. */
  method GetComments(postId: Id, fetched: seq<Comment>) returns (r: GetResponse)
    ensures postId == [] <==> r == MissingPostId
    ensures r.Forest? ==> r.roots == IdsOf(ChildrenOf(fetched, None))
    ensures r.Forest? ==> r.nodes.Keys == IdSet(fetched)
    ensures r.Forest? ==> forall id :: id in r.nodes ==>
              r.nodes[id].comment in fetched && r.nodes[id].comment.id == id
              && r.nodes[id].replies == IdsOf(ChildrenOf(fetched, Some(id)))
  {
    if postId == [] {
      return MissingPostId;
    }
    var nodes, roots := BuildTree(fetched);
    r := Forest(nodes, roots);
  }

  // -------------------------------------------------------------------------
  // Lemmas about the forest

  /** The children of `parent` are exactly the comments with that parent. */
  lemma {:induction false} ChildrenOfMembers(cs: seq<Comment>, parent: Option<Id>, c: Comment)
    ensures c in ChildrenOf(cs, parent) <==> c in cs && c.parentId == parent
  {
    if cs != [] {
      ChildrenOfMembers(cs[..|cs| - 1], parent, c);
      assert cs == cs[..|cs| - 1] + [cs[|cs| - 1]];
    }
  }

  lemma IdsOfMembers(cs: seq<Comment>, id: Id)
    ensures id in IdsOf(cs) <==> exists c :: c in cs && c.id == id
  {
    if id in IdsOf(cs) {
      var k :| 0 <= k < |cs| && IdsOf(cs)[k] == id;
      assert cs[k] in cs;
    }
  }

  /** A comment's id is listed among the roots exactly when it has no
      parent, and among the replies of q exactly when q is its parent. */
  lemma Placement(cs: seq<Comment>, parent: Option<Id>, i: nat)
    requires UniqueIds(cs) && i < |cs|
    ensures cs[i].id in IdsOf(ChildrenOf(cs, parent)) <==> cs[i].parentId == parent
  {
    IdsOfMembers(ChildrenOf(cs, parent), cs[i].id);
    ChildrenOfMembers(cs, parent, cs[i]);
    if cs[i].id in IdsOf(ChildrenOf(cs, parent)) {
      var c :| c in ChildrenOf(cs, parent) && c.id == cs[i].id;
      ChildrenOfMembers(cs, parent, c);
      var j :| 0 <= j < |cs| && cs[j] == c;
      assert i == j;
    }
  }

  /** A comment whose parent was not fetched is neither a root nor anyone's
      reply: there is no fallback for it. */
  lemma OrphanDropped(cs: seq<Comment>, i: nat)
    requires UniqueIds(cs) && i < |cs|
    requires cs[i].parentId.Some? && cs[i].parentId.value !in IdSet(cs)
    ensures cs[i].id !in IdsOf(ChildrenOf(cs, None))
    ensures forall q :: q in IdSet(cs) ==> cs[i].id !in IdsOf(ChildrenOf(cs, Some(q)))
  {
    Placement(cs, None, i);
    forall q | q in IdSet(cs) ensures cs[i].id !in IdsOf(ChildrenOf(cs, Some(q))) {
      Placement(cs, Some(q), i);
    }
  }

  lemma {:induction false} ChildrenOfNoDuplicates(cs: seq<Comment>, parent: Option<Id>)
    requires UniqueIds(cs)
    ensures NoDuplicates(IdsOf(ChildrenOf(cs, parent)))
  {
    if cs != [] {
      var init := cs[..|cs| - 1];
      var last := cs[|cs| - 1];
      ChildrenOfNoDuplicates(init, parent);
      forall c | c in ChildrenOf(init, parent) ensures c.id != last.id {
        ChildrenOfMembers(init, parent, c);
      }
    }
  }

  /** With unique ids every comment is placed at most once in the forest:
      no list repeats an id, and a comment sits in one list only. */
  lemma AtMostOnce(cs: seq<Comment>, i: nat)
    requires UniqueIds(cs) && i < |cs|
    ensures NoDuplicates(IdsOf(ChildrenOf(cs, None)))
    ensures forall q :: NoDuplicates(IdsOf(ChildrenOf(cs, Some(q))))
    ensures forall p, p' ::
              (cs[i].id in IdsOf(ChildrenOf(cs, p)) && cs[i].id in IdsOf(ChildrenOf(cs, p'))) ==> p == p'
  {
    ChildrenOfNoDuplicates(cs, None);
    forall q ensures NoDuplicates(IdsOf(ChildrenOf(cs, Some(q)))) {
      ChildrenOfNoDuplicates(cs, Some(q));
    }
    forall p, p' | cs[i].id in IdsOf(ChildrenOf(cs, p)) && cs[i].id in IdsOf(ChildrenOf(cs, p'))
      ensures p == p'
    {
      Placement(cs, p, i);
      Placement(cs, p', i);
    }
  }

  /** Roots and every `replies` list keep the query's newest-first order. */
  lemma {:induction false} ChildrenOfNewestFirst(cs: seq<Comment>, parent: Option<Id>)
    requires NewestFirst(cs)
    ensures NewestFirst(ChildrenOf(cs, parent))
  {
    if cs != [] {
      var init := cs[..|cs| - 1];
      var last := cs[|cs| - 1];
      ChildrenOfNewestFirst(init, parent);
      forall c | c in ChildrenOf(init, parent) ensures c.createdAt >= last.createdAt {
        ChildrenOfMembers(init, parent, c);
      }
    }
  }

  /** `id` is reached from the roots of the forest within n levels. */
  predicate Shown(cs: seq<Comment>, id: Id, n: nat)
    decreases n
  {
    n > 0 &&
    (id in IdsOf(ChildrenOf(cs, None)) ||
     exists q :: q in IdSet(cs) && id in IdsOf(ChildrenOf(cs, Some(q))) && Shown(cs, q, n - 1))
  }

  /** The parent chain of `id` within `cs` ends at a parentless comment after
      fewer than n steps. */
  predicate Rooted(cs: seq<Comment>, id: Id, n: nat)
    decreases n
  {
    n > 0 &&
    exists i :: 0 <= i < |cs| && cs[i].id == id &&
      (cs[i].parentId.None? ||
       (cs[i].parentId.value in IdSet(cs) && Rooted(cs, cs[i].parentId.value, n - 1)))
  }

  /** A comment is shown exactly when its parent chain within the fetched
      comments ends at a root. */
  lemma {:induction false} ShownIffRooted(cs: seq<Comment>, id: Id, n: nat)
    requires UniqueIds(cs)
    ensures Shown(cs, id, n) <==> Rooted(cs, id, n)
    decreases n
  {
    if n > 0 {
      if Shown(cs, id, n) {
        if id in IdsOf(ChildrenOf(cs, None)) {
          IdsOfMembers(ChildrenOf(cs, None), id);
          var c :| c in ChildrenOf(cs, None) && c.id == id;
          ChildrenOfMembers(cs, None, c);
          var i :| 0 <= i < |cs| && cs[i] == c;
          assert Rooted(cs, id, n);
        } else {
          var q :| q in IdSet(cs) && id in IdsOf(ChildrenOf(cs, Some(q))) && Shown(cs, q, n - 1);
          IdsOfMembers(ChildrenOf(cs, Some(q)), id);
          var c :| c in ChildrenOf(cs, Some(q)) && c.id == id;
          ChildrenOfMembers(cs, Some(q), c);
          var i :| 0 <= i < |cs| && cs[i] == c;
          ShownIffRooted(cs, q, n - 1);
          assert Rooted(cs, id, n);
        }
      }
      if Rooted(cs, id, n) {
        var i :| 0 <= i < |cs| && cs[i].id == id &&
          (cs[i].parentId.None? ||
           (cs[i].parentId.value in IdSet(cs) && Rooted(cs, cs[i].parentId.value, n - 1)));
        Placement(cs, cs[i].parentId, i);
        if cs[i].parentId.Some? {
          ShownIffRooted(cs, cs[i].parentId.value, n - 1);
        }
      }
    }
  }

  /** A comment that names itself as its parent is never shown. */
  lemma {:induction false} SelfParentedVanishes(cs: seq<Comment>, i: nat, n: nat)
    requires UniqueIds(cs) && i < |cs| && cs[i].parentId == Some(cs[i].id)
    ensures !Shown(cs, cs[i].id, n)
  {
    if n > 0 {
      SelfParentedVanishes(cs, i, n - 1);
      ShownIffRooted(cs, cs[i].id, n);
      ShownIffRooted(cs, cs[i].id, n - 1);
    }
  }

  // -------------------------------------------------------------------------
  // `POST /api/comments`

  datatype CreateResponse =
    | AuthRequired            // 401 'Authentication required'
    | MissingFields           // 400 'Post ID and content are required'
    | UserNotFound            // 404 'User not found'
    | SaveFailed              // 500 'Failed to create comment': schema validation on save
    | Created(comment: Comment) // 201

  /** The comments collection. */
  class CommentStore {
    var comments: seq<Comment>
    const users: Users

    ghost predicate Valid()
      reads this
    {
      ValidUsers(users) && forall i :: 0 <= i < |comments| ==> ValidComment(comments[i])
    }

    constructor (users: Users)
      requires ValidUsers(users)
      ensures Valid() && this.users == users && comments == []
    {
      this.users := users;
      comments := [];
    }

    /** Creates a comment of the session's user; `newId` and `now` are the
        ObjectId and the timestamp the database assigns, and an empty
        `parentId` stands for an absent or empty one in the body. */
    method Create(session: Session, postId: Id, content: seq<char>, parentId: Id,
                  newId: Id, now: int) returns (r: CreateResponse)
      requires Valid()
      modifies this
      ensures Valid()
      ensures !Authenticated(session) ==> r == AuthRequired
      ensures (Authenticated(session) && (postId == [] || content == [])) ==> r == MissingFields
      ensures (Authenticated(session) && postId != [] && content != []
               && ResolveUser(session, users).None?) ==> r == UserNotFound
      ensures !r.Created? ==> comments == old(comments)
      ensures r.Created? <==>
                Authenticated(session) && postId != [] && content != []
                && ResolveUser(session, users).Some? && |content| <= MaxCommentLength
      ensures r.Created? ==>
                && r.comment == Comment(newId, postId, ResolveUser(session, users).value, content,
                                        if parentId == [] then None else Some(parentId), now)
                && ValidComment(r.comment)
      ensures r.Created? ==> comments == old(comments) + [r.comment]
    {
      if !Authenticated(session) {
        return AuthRequired;
      }
      if postId == [] || content == [] {
        return MissingFields;
      }
      var user := ResolveUser(session, users);
      if user.None? {
        return UserNotFound;
      }
      var parent := if parentId == [] then None else Some(parentId);
      var comment := Comment(newId, postId, user.value, content, parent, now);
      if !ValidComment(comment) {
        return SaveFailed;
      }
      comments := comments + [comment];
      r := Created(comment);
    }
  }
}
