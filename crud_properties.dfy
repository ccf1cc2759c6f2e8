/**
 * Properties of the store operations of `thinga/crud.py` that relate several
 * calls: the life cycle of a session under any sequence of logins, logouts
 * and verifications, and the accumulation of image scores.
 */
module CrudProperties {
  import opened Wrappers
  import Enums
  import opened Models
  import opened Crud
  import Schemas

  // ------------------------------------------------------- one call at a time

  /** `deactivate_session` sets INACTIVE whatever the status was, touches no other session, and ignores an unknown token. */
  lemma DeactivateForcesInactive(sessions: SessionTable, accessToken: Token)
    ensures Deactivate(sessions, accessToken).Keys == sessions.Keys
    ensures accessToken in sessions ==>
      Deactivate(sessions, accessToken)[accessToken] == sessions[accessToken].(status := Enums.Inactive)
    ensures forall k :: k in sessions && k != accessToken ==> Deactivate(sessions, accessToken)[k] == sessions[k]
    ensures accessToken !in sessions ==> Deactivate(sessions, accessToken) == sessions
  {
  }

  /** Logging out twice leaves the same table as logging out once. */
  lemma DeactivateIdempotent(sessions: SessionTable, accessToken: Token)
    ensures Deactivate(Deactivate(sessions, accessToken), accessToken) == Deactivate(sessions, accessToken)
  {
  }

  /**
   * `verify_session` returns nothing exactly when the token is unknown, the
   * session is INACTIVE or EXPIRED, or the fingerprint differs; and then it
   * changes nothing.
   */
  lemma VerifyRejects(sessions: SessionTable, accessToken: Token, fp: string, now: Instant)
    ensures Verify(sessions, accessToken, fp, now).found.None?
        <==> (|| accessToken !in sessions
              || sessions[accessToken].status in {Enums.Inactive, Enums.Expired}
              || sessions[accessToken].clientFingerprint != fp)
    ensures Verify(sessions, accessToken, fp, now).found.None? ==>
      Verify(sessions, accessToken, fp, now).sessions == sessions
  {
  }

  /** An ACTIVE, matching session past its expiry is marked EXPIRED and still returned on that call. */
  lemma VerifyDiscoversExpiry(sessions: SessionTable, accessToken: Token, fp: string, now: Instant)
    requires accessToken in sessions
    requires sessions[accessToken].status == Enums.Active && sessions[accessToken].clientFingerprint == fp
    requires sessions[accessToken].expiresAt <= now
    ensures var expired := sessions[accessToken].(status := Enums.Expired);
      Verify(sessions, accessToken, fp, now) == VerifyOutcome(sessions[accessToken := expired], Some(expired))
  {
  }

  /** An ACTIVE, matching session before its expiry is returned and nothing changes. */
  lemma VerifyLiveSession(sessions: SessionTable, accessToken: Token, fp: string, now: Instant)
    requires accessToken in sessions
    requires sessions[accessToken].status == Enums.Active && sessions[accessToken].clientFingerprint == fp
    requires now < sessions[accessToken].expiresAt
    ensures Verify(sessions, accessToken, fp, now) == VerifyOutcome(sessions, Some(sessions[accessToken]))
  {
  }

  /**
   * A session created at `now` verifies with its own fingerprint until
   * `now + days`, is found expired from then on, and never verifies with a
   * different fingerprint.
   */
  lemma NewSessionLifetime(sessions: SessionTable, token: Token, fp: string, userId: int, now: Instant,
                           days: int, later: Instant, otherFp: string)
    requires token !in sessions && otherFp != fp
    ensures var s := NewSession(token, fp, userId, now, days);
      var table := sessions[token := s];
      && (later < now + days * MicrosPerDay ==> Verify(table, token, fp, later) == VerifyOutcome(table, Some(s)))
      && (later >= now + days * MicrosPerDay ==> Verify(table, token, fp, later).found == Some(s.(status := Enums.Expired)))
      && Verify(table, token, otherFp, later) == VerifyOutcome(table, None)
  {
  }

  // --------------------------------------------------- any sequence of calls

  /** One call of the session operations, with its arguments. */
  datatype SessionEvent =
    | Login(accessToken: Token, clientFingerprint: string, userId: int, now: Instant, sessionExpireDays: int)
    | Logout(accessToken: Token)
    | Check(accessToken: Token, clientFingerprint: string, now: Instant)

  /**
   * The table after one call. A login whose token is already taken changes
   * nothing: the unique index on the token refuses the insert. Nor does one
   * whose expiry overflows `datetime`.
   */
  function Apply(sessions: SessionTable, e: SessionEvent): SessionTable {
    match e
    case Login(token, fp, userId, now, days) =>
      if token in sessions || !ExpiryRepresentable(now, days) then sessions
      else sessions[token := NewSession(token, fp, userId, now, days)]
    case Logout(token) => Deactivate(sessions, token)
    case Check(token, fp, now) => Verify(sessions, token, fp, now).sessions
  }

  /** The table after a sequence of calls. */
  function Replay(sessions: SessionTable, events: seq<SessionEvent>): SessionTable
    decreases |events|
  {
    if events == [] then sessions else Replay(Apply(sessions, events[0]), events[1..])
  }

  /**
   * The status moves the code can make: ACTIVE to anything, anything to
   * INACTIVE (logout does not look at the status), or no move. Nothing ever
   * becomes ACTIVE again.
   */
  predicate StatusStep(before: Enums.SessionStatus, after: Enums.SessionStatus) {
    before == after || before == Enums.Active || after == Enums.Inactive
  }

  /** Token, fingerprint, expiry and owner of a session never change. */
  predicate SameBinding(a: Session, b: Session) {
    && a.accessToken == b.accessToken
    && a.clientFingerprint == b.clientFingerprint
    && a.expiresAt == b.expiresAt
    && a.userId == b.userId
  }

  /** Every session of `before` is still in `after`, with the same binding and an allowed status move. */
  ghost predicate Evolves(before: SessionTable, after: SessionTable) {
    forall k :: k in before ==>
      k in after && SameBinding(before[k], after[k]) && StatusStep(before[k].status, after[k].status)
  }

  lemma ApplyEvolves(sessions: SessionTable, e: SessionEvent)
    ensures Evolves(sessions, Apply(sessions, e))
  {
  }

  lemma EvolvesTransitive(a: SessionTable, b: SessionTable, c: SessionTable)
    requires Evolves(a, b) && Evolves(b, c)
    ensures Evolves(a, c)
  {
    forall k | k in a
      ensures k in c && SameBinding(a[k], c[k]) && StatusStep(a[k].status, c[k].status)
    {
      assert k in b;
    }
  }

  /** No sequence of calls removes a session, rebinds it, or brings it back to ACTIVE. */
  lemma {:induction false} ReplayEvolves(sessions: SessionTable, events: seq<SessionEvent>)
    ensures Evolves(sessions, Replay(sessions, events))
    decreases |events|
  {
    if events != [] {
      var next := Apply(sessions, events[0]);
      ApplyEvolves(sessions, events[0]);
      ReplayEvolves(next, events[1..]);
      EvolvesTransitive(sessions, next, Replay(next, events[1..]));
    }
  }

  /** INACTIVE and EXPIRED are terminal: a session in either never becomes ACTIVE again. */
  lemma NeverReactivated(sessions: SessionTable, events: seq<SessionEvent>, accessToken: Token)
    requires accessToken in sessions && sessions[accessToken].status != Enums.Active
    ensures accessToken in Replay(sessions, events)
    ensures Replay(sessions, events)[accessToken].status != Enums.Active
  {
    ReplayEvolves(sessions, events);
  }

  /**
   * Once a verification has found a session expired, every later
   * verification of that token fails, whatever happened in between.
   */
  lemma ExpiredNeverVerifiesAgain(sessions: SessionTable, accessToken: Token, fp: string, now: Instant,
                                  events: seq<SessionEvent>, laterFp: string, later: Instant)
    requires Verify(sessions, accessToken, fp, now).found.Some?
    requires Verify(sessions, accessToken, fp, now).found.value.status == Enums.Expired
    ensures Verify(Replay(Verify(sessions, accessToken, fp, now).sessions, events), accessToken, laterFp, later).found
         == None
  {
    var afterDiscovery := Verify(sessions, accessToken, fp, now).sessions;
    NeverReactivated(afterDiscovery, events, accessToken);
  }

  /** After a logout the token never verifies again, whatever happens later. */
  lemma LoggedOutNeverVerifies(sessions: SessionTable, accessToken: Token, events: seq<SessionEvent>,
                               fp: string, later: Instant)
    requires accessToken in sessions
    ensures Verify(Replay(Deactivate(sessions, accessToken), events), accessToken, fp, later).found == None
  {
    NeverReactivated(Deactivate(sessions, accessToken), events, accessToken);
  }

  // ------------------------------------------------------------------ scores

  /** `update_image_score` adds one to that image's score and changes nothing else. */
  lemma ScoreIncrementedAddsOne(images: map<int, Image>, imageId: int)
    requires imageId in images
    ensures ScoreIncremented(images, imageId).Keys == images.Keys
    ensures ScoreIncremented(images, imageId)[imageId].score == images[imageId].score + 1
    ensures ScoreIncremented(images, imageId)[imageId] == images[imageId].(score := images[imageId].score + 1)
    ensures forall k :: k in images && k != imageId ==> ScoreIncremented(images, imageId)[k] == images[k]
  {
  }

  /**
   * Every stored image has the id and the score `schemas.Image` demands, so
   * it serialises exactly when its two strings fit the schema's bounds.
   */
  lemma StoredImageMeetsSchema(images: map<int, Image>, nextImageId: int, imageId: int)
    requires ImagesValid(images, nextImageId) && imageId in images
    ensures images[imageId].id >= 1 && images[imageId].score >= 0
    ensures Schemas.ValidImageOut(images[imageId])
        <==> |images[imageId].mediaFile| <= Schemas.MediaFileMax
             && Schemas.OptionalAtMost(images[imageId].altText, Schemas.AltTextMax)
  {
  }

  /**
   * A rating row between a stored user and a stored image always passes
   * `RatingCreate`: both primary keys are positive.
   */
  lemma StoredRowsMakeValidRating(users: map<int, User>, nextUserId: int, images: map<int, Image>,
                                  nextImageId: int, rating: Rating)
    requires UsersValid(users, nextUserId) && ImagesValid(images, nextImageId)
    requires rating.userId in users && rating.imageId in images
    ensures Schemas.ValidRatingCreate(rating.userId, rating.imageId)
  {
  }

  /** The images after `n` ratings of one image. */
  function RatedTimes(images: map<int, Image>, imageId: int, n: nat): (r: map<int, Image>)
    requires imageId in images
    ensures r.Keys == images.Keys
  {
    if n == 0 then images else ScoreIncremented(RatedTimes(images, imageId, n - 1), imageId)
  }

  /** Ratings are not deduplicated: `n` ratings raise the score by exactly `n` and touch no other image. */
  lemma {:induction false} RatingsAccumulate(images: map<int, Image>, imageId: int, n: nat)
    requires imageId in images
    ensures RatedTimes(images, imageId, n)[imageId].score == images[imageId].score + n
    ensures forall k :: k in images && k != imageId ==> RatedTimes(images, imageId, n)[k] == images[k]
  {
    if n > 0 {
      RatingsAccumulate(images, imageId, n - 1);
    }
  }
}
