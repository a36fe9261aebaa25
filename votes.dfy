/** The vote handler (`POST /api/votes`) over an in-memory store: the vote
    documents, each post's denormalised `upvotes` counter and the users
    collection. Each request is one atomic step. */
module Votes {
  import opened Models
  import opened Sessions

  datatype VoteResponse =
    | AuthRequired            // 401 'Authentication required'
    | InvalidVote             // 400 'Post ID and vote value (1 or -1) are required'
    | UserNotFound            // 404 'User not found'
    | PostNotFound            // 404 'Post not found'
    | Recorded(upvotes: int)  // 200 'Vote recorded successfully', the post's new tally

  function StatusCode(r: VoteResponse): int
  {
    match r
    case AuthRequired => 401
    case InvalidVote => 400
    case UserNotFound => 404
    case PostNotFound => 404
    case Recorded(_) => 200
  }

  /** `postId` is present and `value` is one of [1, -1]. */
  predicate WellFormedRequest(postId: Id, value: int)
  {
    postId != [] && (value == 1 || value == -1)
  }

  // -------------------------------------------------------------------------
  // The ledger as a specification

  /** The first vote at or after index `k` that addresses (u, p). */
  function FindFrom(votes: seq<Vote>, u: Id, p: Id, k: nat): (r: Option<nat>)
    requires k <= |votes|
    ensures r.Some? ==> k <= r.value < |votes| && Addresses(votes[r.value], u, p)
    ensures r.Some? ==> forall j :: k <= j < r.value ==> !Addresses(votes[j], u, p)
    ensures r.None? ==> forall j :: k <= j < |votes| ==> !Addresses(votes[j], u, p)
    decreases |votes| - k
  {
    if k == |votes| then None
    else if Addresses(votes[k], u, p) then Some(k)
    else FindFrom(votes, u, p, k + 1)
  }

  /** `Vote.findOne({ userId, postId })` */
  function FindVote(votes: seq<Vote>, u: Id, p: Id): (r: Option<nat>)
    ensures r.Some? ==> r.value < |votes| && Addresses(votes[r.value], u, p)
    ensures r.None? ==> forall j :: 0 <= j < |votes| ==> !Addresses(votes[j], u, p)
  {
    FindFrom(votes, u, p, 0)
  }

  /** The value of u's vote on p, if there is one. */
  function VoteOf(votes: seq<Vote>, u: Id, p: Id): Option<int>
  {
    match FindVote(votes, u, p)
    case Some(i) => Some(votes[i].value)
    case None => None
  }

  /** The sum of the values of the votes on post p. */
  function Tally(votes: seq<Vote>, p: Id): int
  {
    if votes == [] then 0
    else Tally(votes[..|votes| - 1], p) + Share(votes[|votes| - 1], p)
  }

  /** What one vote contributes to post p's tally. */
  function Share(v: Vote, p: Id): int
  {
    if v.postId == p then v.value else 0
  }

  /** The ledger after user u votes `value` on p: a first vote is inserted,
      the same vote again is deleted (retraction), the opposite vote
      overwrites the stored value (flip). */
  function ApplyVote(votes: seq<Vote>, u: Id, p: Id, value: int): seq<Vote>
  {
    match FindVote(votes, u, p)
    case Some(i) =>
      if votes[i].value == value then votes[..i] + votes[i + 1..]
      else votes[i := votes[i].(value := value)]
    case None => votes + [Vote(u, p, value)]
  }

  /** The `$inc` applied to the post's `upvotes` in each of the three cases. */
  function TallyDelta(votes: seq<Vote>, u: Id, p: Id, value: int): int
  {
    match FindVote(votes, u, p)
    case Some(i) => if votes[i].value == value then -value else value * 2
    case None => value
  }

  /** What the store keeps true: every vote document passes schema
      validation, the (userId, postId) index is unique, and every post's
      counter is the sum of its votes. */
  predicate LedgerInvariant(votes: seq<Vote>, upvotes: map<Id, int>)
  {
    && (forall i :: 0 <= i < |votes| ==> ValidVote(votes[i]))
    && UniqueVotePairs(votes)
    && (forall p :: p in upvotes ==> upvotes[p] == Tally(votes, p))
  }

  // -------------------------------------------------------------------------
  // Lemmas about the specification

  /** Under the unique index, any vote addressing (u, p) is the one found. */
  lemma FoundIsUnique(votes: seq<Vote>, u: Id, p: Id, i: nat)
    requires UniqueVotePairs(votes) && i < |votes| && Addresses(votes[i], u, p)
    ensures FindVote(votes, u, p) == Some(i)
  {
  }

  lemma {:induction false} TallyConcat(a: seq<Vote>, b: seq<Vote>, p: Id)
    ensures Tally(a + b, p) == Tally(a, p) + Tally(b, p)
    decreases |b|
  {
    if b == [] {
      assert a + b == a;
    } else {
      assert (a + b)[..|a + b| - 1] == a + b[..|b| - 1];
      TallyConcat(a, b[..|b| - 1], p);
    }
  }

  /** The tally of a ledger split around index i. */
  lemma TallySplit(votes: seq<Vote>, i: nat, p: Id)
    requires i < |votes|
    ensures Tally(votes, p) == Tally(votes[..i], p) + Share(votes[i], p) + Tally(votes[i + 1..], p)
  {
    assert votes == votes[..i] + [votes[i]] + votes[i + 1..];
    TallyConcat(votes[..i] + [votes[i]], votes[i + 1..], p);
    TallyConcat(votes[..i], [votes[i]], p);
    assert Tally([votes[i]], p) == Share(votes[i], p) by {
      assert [votes[i]][..0] == [];
    }
  }

  lemma TallyReplace(votes: seq<Vote>, i: nat, v: Vote, p: Id)
    requires i < |votes|
    ensures Tally(votes[i := v], p) == Tally(votes, p) - Share(votes[i], p) + Share(v, p)
  {
    var w := votes[i := v];
    TallySplit(votes, i, p);
    TallySplit(w, i, p);
    assert w[..i] == votes[..i] && w[i + 1..] == votes[i + 1..];
  }

  lemma TallyRemove(votes: seq<Vote>, i: nat, p: Id)
    requires i < |votes|
    ensures Tally(votes[..i] + votes[i + 1..], p) == Tally(votes, p) - Share(votes[i], p)
  {
    TallySplit(votes, i, p);
    TallyConcat(votes[..i], votes[i + 1..], p);
  }

  lemma TallyAppend(votes: seq<Vote>, v: Vote, p: Id)
    ensures Tally(votes + [v], p) == Tally(votes, p) + Share(v, p)
  {
    assert (votes + [v])[..|votes|] == votes;
  }

  /** The tally moves by exactly the handler's `$inc` on the addressed post,
      and not at all on any other post. */
  lemma ApplyVoteTally(votes: seq<Vote>, u: Id, p: Id, value: int, q: Id)
    requires forall i :: 0 <= i < |votes| ==> ValidVote(votes[i])
    requires value == 1 || value == -1
    ensures Tally(ApplyVote(votes, u, p, value), q)
         == Tally(votes, q) + (if q == p then TallyDelta(votes, u, p, value) else 0)
  {
    match FindVote(votes, u, p)
    case Some(i) =>
      if votes[i].value == value {
        TallyRemove(votes, i, q);
      } else {
        TallyReplace(votes, i, votes[i].(value := value), q);
      }
    case None =>
      TallyAppend(votes, Vote(u, p, value), q);
  }

  lemma ApplyVoteUnique(votes: seq<Vote>, u: Id, p: Id, value: int)
    requires UniqueVotePairs(votes)
    ensures UniqueVotePairs(ApplyVote(votes, u, p, value))
  {
    var w := ApplyVote(votes, u, p, value);
    match FindVote(votes, u, p)
    case Some(i) =>
      if votes[i].value == value {
        forall a, b | 0 <= a < b < |w|
          ensures !Addresses(w[b], w[a].userId, w[a].postId)
        {
          var a' := if a < i then a else a + 1;
          var b' := if b < i then b else b + 1;
          assert w[a] == votes[a'] && w[b] == votes[b'];
        }
      }
    case None =>
  }

  /** The state machine on the addressed pair: no vote becomes `value`, the
      same vote becomes no vote, the opposite vote becomes `value`; and the
      vote of every other (user, post) pair is unchanged. */
  lemma ApplyVoteSpec(votes: seq<Vote>, u: Id, p: Id, value: int)
    requires UniqueVotePairs(votes)
    ensures VoteOf(ApplyVote(votes, u, p, value), u, p)
         == (if VoteOf(votes, u, p) == Some(value) then None else Some(value))
    ensures forall u', p' :: (u', p') != (u, p) ==>
              VoteOf(ApplyVote(votes, u, p, value), u', p') == VoteOf(votes, u', p')
  {
    var w := ApplyVote(votes, u, p, value);
    ApplyVoteUnique(votes, u, p, value);
    match FindVote(votes, u, p)
    case Some(i) =>
      if votes[i].value == value {
        assert forall j :: 0 <= j < |w| ==> w[j] == votes[if j < i then j else j + 1];
        forall j | 0 <= j < |w| ensures !Addresses(w[j], u, p) {
          var j' := if j < i then j else j + 1;
          if j' < i {
            assert !Addresses(votes[i], votes[j'].userId, votes[j'].postId);
          } else {
            assert !Addresses(votes[j'], votes[i].userId, votes[i].postId);
          }
        }
        forall u', p' | (u', p') != (u, p)
          ensures VoteOf(w, u', p') == VoteOf(votes, u', p')
        {
          match FindVote(votes, u', p')
          case Some(j) =>
            FoundIsUnique(w, u', p', if j < i then j else j - 1);
          case None =>
        }
      } else {
        FoundIsUnique(w, u, p, i);
        forall u', p' | (u', p') != (u, p)
          ensures VoteOf(w, u', p') == VoteOf(votes, u', p')
        {
          match FindVote(votes, u', p')
          case Some(j) =>
            FoundIsUnique(w, u', p', j);
          case None =>
        }
      }
    case None =>
      FoundIsUnique(w, u, p, |votes|);
      forall u', p' | (u', p') != (u, p)
        ensures VoteOf(w, u', p') == VoteOf(votes, u', p')
      {
        match FindVote(votes, u', p')
        case Some(j) =>
          FoundIsUnique(w, u', p', j);
        case None =>
      }
  }

  /** Each branch keeps the ledger invariant, with the addressed post's
      counter moved by the handler's `$inc`. */
  lemma ApplyVotePreservesInvariant(votes: seq<Vote>, upvotes: map<Id, int>, u: Id, p: Id, value: int)
    requires LedgerInvariant(votes, upvotes)
    requires p in upvotes && ValidVote(Vote(u, p, value))
    ensures LedgerInvariant(ApplyVote(votes, u, p, value),
                            upvotes[p := upvotes[p] + TallyDelta(votes, u, p, value)])
  {
    var w := ApplyVote(votes, u, p, value);
    var m := upvotes[p := upvotes[p] + TallyDelta(votes, u, p, value)];
    ApplyVoteUnique(votes, u, p, value);
    forall q | q in m ensures m[q] == Tally(w, q) {
      ApplyVoteTally(votes, u, p, value, q);
    }
    match FindVote(votes, u, p)
    case Some(i) =>
      if votes[i].value == value {
        assert forall j :: 0 <= j < |w| ==> w[j] == votes[if j < i then j else j + 1];
      }
    case None =>
  }

  /** Voting the same way twice, starting from no vote, restores both the
      ledger and the tally. */
  lemma RetractionLaw(votes: seq<Vote>, u: Id, p: Id, value: int)
    requires VoteOf(votes, u, p) == None
    ensures ApplyVote(ApplyVote(votes, u, p, value), u, p, value) == votes
    ensures TallyDelta(votes, u, p, value)
          + TallyDelta(ApplyVote(votes, u, p, value), u, p, value) == 0
  {
    var w := ApplyVote(votes, u, p, value);
    assert w == votes + [Vote(u, p, value)];
    assert Addresses(w[|votes|], u, p);
    assert forall j :: 0 <= j < |votes| ==> w[j] == votes[j];
    assert FindVote(w, u, p) == Some(|votes|);
    assert w[..|votes|] + w[|votes| + 1..] == votes;
  }

  /** An up-vote followed by a down-vote, starting from no vote, leaves a
      stored down-vote and a net tally change of -1. */
  lemma FlipLaw(votes: seq<Vote>, u: Id, p: Id)
    requires UniqueVotePairs(votes) && VoteOf(votes, u, p) == None
    ensures VoteOf(ApplyVote(ApplyVote(votes, u, p, 1), u, p, -1), u, p) == Some(-1)
    ensures TallyDelta(votes, u, p, 1) + TallyDelta(ApplyVote(votes, u, p, 1), u, p, -1) == -1
  {
    var w := ApplyVote(votes, u, p, 1);
    ApplyVoteSpec(votes, u, p, 1);
    ApplyVoteUnique(votes, u, p, 1);
    ApplyVoteSpec(w, u, p, -1);
  }

  // -------------------------------------------------------------------------
  // The handler

  class Ledger {
    /** The vote documents. */
    var votes: seq<Vote>
    /** Post id to the post's `upvotes`; the keys are the existing posts. */
    var upvotes: map<Id, int>
    const users: Users

    ghost predicate Valid()
      reads this
    {
      LedgerInvariant(votes, upvotes) && ValidUsers(users)
    }

    /** A store with the given users and posts and no votes; a new post's
        `upvotes` is 0. */
    constructor (users: Users, posts: set<Id>)
      requires ValidUsers(users)
      ensures Valid() && this.users == users
      ensures votes == [] && upvotes == map p | p in posts :: 0
    {
      this.users := users;
      votes := [];
      upvotes := map p | p in posts :: 0;
    }

    /** `POST /api/votes` with body `{ postId, value }`. */
    method Cast(session: Session, postId: Id, value: int) returns (r: VoteResponse)
      requires Valid()
      modifies this
      ensures Valid()
      ensures !Authenticated(session) ==> r == AuthRequired
      ensures Authenticated(session) && !WellFormedRequest(postId, value) ==> r == InvalidVote
      ensures (Authenticated(session) && WellFormedRequest(postId, value)
               && ResolveUser(session, users).None?) ==> r == UserNotFound
      ensures (Authenticated(session) && WellFormedRequest(postId, value)
               && ResolveUser(session, users).Some? && postId !in old(upvotes)) ==> r == PostNotFound
      ensures !r.Recorded? ==> votes == old(votes) && upvotes == old(upvotes)
      ensures r.Recorded? ==>
                && Authenticated(session) && WellFormedRequest(postId, value)
                && ResolveUser(session, users).Some? && postId in old(upvotes)
                && var u := ResolveUser(session, users).value;
                && votes == ApplyVote(old(votes), u, postId, value)
                && upvotes == old(upvotes)[postId := old(upvotes)[postId]
                                           + TallyDelta(old(votes), u, postId, value)]
                && r.upvotes == upvotes[postId] == Tally(votes, postId)
    {
      if !Authenticated(session) {
        return AuthRequired;
      }
      if !WellFormedRequest(postId, value) {
        return InvalidVote;
      }
      var user := ResolveUser(session, users);
      if user.None? {
        return UserNotFound;
      }
      if postId !in upvotes {
        return PostNotFound;
      }
      var u := user.value;
      ApplyVotePreservesInvariant(votes, upvotes, u, postId, value);
      var existing := FindVote(votes, u, postId);
      match existing {
        case Some(i) =>
          if votes[i].value == value {
            votes := votes[..i] + votes[i + 1..];
            upvotes := upvotes[postId := upvotes[postId] - value];
          } else {
            votes := votes[i := votes[i].(value := value)];
            upvotes := upvotes[postId := upvotes[postId] + value * 2];
          }
        case None =>
          votes := votes + [Vote(u, postId, value)];
          upvotes := upvotes[postId := upvotes[postId] + value];
      }
      r := Recorded(upvotes[postId]);
    }
  }
}
