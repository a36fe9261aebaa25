/** The stored records of the three Mongoose schemas, as values, with the
    validation each schema runs on save and the normalisation its setters
    apply. */
module Models {
  import opened JsString

  datatype Option<T> = None | Some(value: T)

  /** A MongoDB ObjectId, as its hex string; the empty string stands for a
      missing id. */
  type Id = seq<char>

  // -------------------------------------------------------------------------
  // Vote

  datatype Vote = Vote(userId: Id, postId: Id, value: int)

  /** Both references are required, and `value` is one of the enum [-1, 1]. */
  predicate ValidVote(v: Vote)
  {
    v.userId != [] && v.postId != [] && (v.value == -1 || v.value == 1)
  }

  /** Does `v` record a vote of user `u` on post `p`? */
  predicate Addresses(v: Vote, u: Id, p: Id)
  {
    v.userId == u && v.postId == p
  }

  /** The compound unique index on (userId, postId). */
  predicate UniqueVotePairs(votes: seq<Vote>)
  {
    forall i, j :: 0 <= i < j < |votes| ==> !Addresses(votes[j], votes[i].userId, votes[i].postId)
  }

  // -------------------------------------------------------------------------
  // Comment

  const MaxCommentLength: nat := 1000

  /** `parentId` null marks a root comment; `createdAt` is the timestamp the
      schema's `timestamps` option adds. */
  datatype Comment = Comment(id: Id, postId: Id, userId: Id, content: seq<char>,
                             parentId: Option<Id>, createdAt: int)

  /** Both references are required; content is required, 1 to 1000 long. */
  predicate ValidComment(c: Comment)
  {
    c.postId != [] && c.userId != [] && 1 <= |c.content| <= MaxCommentLength
  }

  // -------------------------------------------------------------------------
  // Post

  const MaxTitleLength: nat := 300

  /** The schema's fields; `imageUrl` null when absent. */
  datatype Post = Post(id: Id, userId: Id, title: seq<char>, content: seq<char>,
                       imageUrl: Option<seq<char>>, tags: seq<seq<char>>,
                       upvotes: int, createdAt: int)

  /** The tag setters: `trim` and `lowercase`. */
  function NormalizeTag(tag: seq<char>): (r: seq<char>)
    ensures IsTrimmed(r) && IsLowerCased(r)
    ensures |r| <= |tag|
  {
    LowerTrimCommute(tag);
    ToLowerIsLowerCased(Trim(tag));
    Trim(ToLower(tag))
  }

  /** A stored tag is already normal: normalising again changes nothing. */
  lemma NormalizeTagIdempotent(tag: seq<char>)
    ensures NormalizeTag(NormalizeTag(tag)) == NormalizeTag(tag)
  {
    var r := NormalizeTag(tag);
    ToLowerIsLowerCased(r);
    TrimOfTrimmed(r);
  }

  function NormalizeTags(tags: seq<seq<char>>): (r: seq<seq<char>>)
    ensures |r| == |tags|
    ensures forall i :: 0 <= i < |tags| ==> r[i] == NormalizeTag(tags[i])
    ensures forall i :: 0 <= i < |r| ==> IsTrimmed(r[i]) && IsLowerCased(r[i])
  {
    seq(|tags|, i requires 0 <= i < |tags| => NormalizeTag(tags[i]))
  }

  lemma NormalizeTagsIdempotent(tags: seq<seq<char>>)
    ensures NormalizeTags(NormalizeTags(tags)) == NormalizeTags(tags)
  {
    var r := NormalizeTags(tags);
    forall i | 0 <= i < |tags|
      ensures NormalizeTags(r)[i] == r[i]
    {
      NormalizeTagIdempotent(tags[i]);
    }
  }

  /** `new Post({...})`: the title setter trims, every tag is normalised,
      `upvotes` defaults to 0 and `imageUrl` to null. */
  function NewPost(id: Id, userId: Id, title: seq<char>, content: seq<char>,
                   tags: seq<seq<char>>, createdAt: int): (p: Post)
    ensures IsTrimmed(p.title) && p.title == Trim(title)
    ensures p.tags == NormalizeTags(tags)
    ensures forall i :: 0 <= i < |p.tags| ==> IsTrimmed(p.tags[i]) && IsLowerCased(p.tags[i])
    ensures p.upvotes == 0 && p.imageUrl == None
  {
    Post(id, userId, Trim(title), content, None, NormalizeTags(tags), 0, createdAt)
  }

  /** Validation on save: the user reference is required, the (trimmed)
      title is 1 to 300 long and content is non-empty. */
  predicate ValidPost(p: Post)
  {
    p.userId != [] && 1 <= |p.title| <= MaxTitleLength && |p.content| >= 1
  }

  /** Building a record from a stored record's own fields reproduces it: the
      setters are idempotent. */
  lemma NewPostStable(id: Id, userId: Id, title: seq<char>, content: seq<char>,
                      tags: seq<seq<char>>, createdAt: int)
    ensures var p := NewPost(id, userId, title, content, tags, createdAt);
            NewPost(p.id, p.userId, p.title, p.content, p.tags, p.createdAt) == p
  {
    var p := NewPost(id, userId, title, content, tags, createdAt);
    var q := NewPost(p.id, p.userId, p.title, p.content, p.tags, p.createdAt);
    TrimOfTrimmed(p.title);
    NormalizeTagsIdempotent(tags);
  }
}
