/**
 * The activity cloud object: publishing an activity, signing up for it and
 * cancelling a sign-up, with the activity's participant count kept in step
 * with its sign-up records. The two writes of a sign-up or a cancellation
 * are separate (no transaction): when the second one fails the error is
 * reported but the first one stays written.
 */
module Activity {
  import opened Common
  import opened Text
  import opened Records
  import opened Store

  const ActivityTypes: seq<string> := ["online", "offline", "hybrid"]

  const MaxTitleLength := 100

  /** Activity status 1: open for sign-up (the default of a new activity). */
  const ActivityOpen := 1

  // ---------------------------------------------------------------------
  // validateActivityData and publishActivity
  // ---------------------------------------------------------------------

  /**
   * The fields `publishActivity` reads. Numbers follow JavaScript truthiness
   * (0 is a missing value); `location` is the name of the location object,
   * `None` when no object was given.
   */
  datatype ActivityInput = ActivityInput(
    title: string,
    cover: string,
    description: string,
    content: string,
    activityType: string,
    location: Option<string>,
    onlineLink: string,
    startTime: int,
    endTime: int,
    signupDeadline: int,
    maxParticipants: int,
    fee: int,
    status: int,
    tags: seq<string>)

  /** An offline or hybrid activity needs a location with a name. */
  predicate NeedsLocation(activityType: string)
  {
    activityType == "offline" || activityType == "hybrid"
  }

  /** `validateActivityData`: the first rule the input breaks, always reported as INVALID_PARAM. */
  function ActivityDataError(input: ActivityInput, now: int): (e: Option<ErrCode>)
    ensures e.Some? ==> e.value == InvalidParam
    ensures e.None? <==>
      && Trim(input.title) != "" && Utf16Length(input.title) <= MaxTitleLength
      && input.startTime != 0 && now <= input.startTime
      && (input.endTime == 0 || input.startTime < input.endTime)
      && input.activityType in ActivityTypes
      && (NeedsLocation(input.activityType) ==> input.location.Some? && input.location.value != "")
  {
    if input.title == "" || Trim(input.title) == "" then Some(InvalidParam)
    else if Utf16Length(input.title) > MaxTitleLength then Some(InvalidParam)
    else if input.startTime == 0 then Some(InvalidParam)
    else if input.startTime < now then Some(InvalidParam)
    else if input.endTime != 0 && input.endTime <= input.startTime then Some(InvalidParam)
    else if input.activityType !in ActivityTypes then Some(InvalidParam)
    else if NeedsLocation(input.activityType) && (input.location.None? || input.location.value == "") then Some(InvalidParam)
    else None
  }

  /** The publishing gate reads the profile field `verifyStatus`, not the alumni status. */
  predicate VerifyStatusIsOne(u: User)
  {
    "verifyStatus" in u.profile && u.profile["verifyStatus"] == Num(1)
  }

  /** The first check of `publishActivity` that fails, if any. */
  function PublishError(users: map<Id, User>, uid: Id, input: ActivityInput, now: int): (e: Option<ErrCode>)
    ensures e.None? <==>
      uid != "" && ActivityDataError(input, now).None? && uid in users && VerifyStatusIsOne(users[uid])
  {
    if uid == "" then Some(TokenInvalid)
    else if ActivityDataError(input, now).Some? then ActivityDataError(input, now)
    else if uid !in users then Some(UserNotFound)
    else if !VerifyStatusIsOne(users[uid]) then Some(NotVerified)
    else None
  }

  /**
   * An alumnus whose alumni status is verified but whose profile has no
   * `verifyStatus` of 1 is refused: no modelled operation writes that field.
   */
  lemma VerifiedAlumnusMayBeRefused(users: map<Id, User>, uid: Id, input: ActivityInput, now: int)
    requires uid != "" && uid in users && IsVerified(users[uid]) && "verifyStatus" !in users[uid].profile
    requires ActivityDataError(input, now).None?
    ensures PublishError(users, uid, input, now) == Some(NotVerified)
  {
  }

  /**
   * The activity `publishActivity` stores: trimmed title, no participants,
   * the sign-up deadline defaulting to the start time and the status to
   * open.
   */
  function NewActivity(input: ActivityInput, uid: Id, now: int): (a: Activity)
    ensures a.title == Trim(input.title) && a.organizerId == uid && a.currentParticipants == 0 && a.viewCount == 0
    ensures a.signupDeadline == (if input.signupDeadline != 0 then input.signupDeadline else input.startTime)
    ensures a.status == (if input.status != 0 then input.status else ActivityOpen)
    ensures a.maxParticipants == input.maxParticipants && a.startTime == input.startTime
    ensures a.endTime == (if input.endTime != 0 then Some(input.endTime) else None)
  {
    Activity(
      Trim(input.title), input.cover, input.description, input.content, uid, input.activityType,
      input.location, input.onlineLink, input.startTime,
      if input.endTime != 0 then Some(input.endTime) else None,
      if input.signupDeadline != 0 then input.signupDeadline else input.startTime,
      input.maxParticipants, 0, input.fee,
      if input.status != 0 then input.status else ActivityOpen,
      0, input.tags, now, now)
  }

  /** `publishActivity(activityData)`: a verified user stores a new activity and gets its id. */
  method PublishActivity(db: Database, uid: Id, input: ActivityInput, now: int, newActivityId: Id) returns (r: Result<Id>)
    requires newActivityId !in db.activities
    modifies db`activities
    ensures var e := PublishError(db.users, uid, input, now);
      e.Some? ==> r == Err(e.value) && db.activities == old(db.activities)
    ensures PublishError(db.users, uid, input, now).None? ==>
      r == Ok(newActivityId) && db.activities == old(db.activities)[newActivityId := NewActivity(input, uid, now)]
    ensures ActivityInv(old(db.activities), db.signups) ==> ActivityInv(db.activities, db.signups)
  {
    var e := PublishError(db.users, uid, input, now);
    if e.Some? {
      return Err(e.value);
    }
    if ActivityInv(db.activities, db.signups) {
      PublishKeepsActivityInv(db.activities, db.signups, newActivityId, NewActivity(input, uid, now));
    }
    db.activities := db.activities[newActivityId := NewActivity(input, uid, now)];
    r := Ok(newActivityId);
  }

  // ---------------------------------------------------------------------
  // Sign-ups and the invariant
  // ---------------------------------------------------------------------

  /** A sign-up of `uid` for `aid` that is not cancelled (`status: neq(-1)`). */
  predicate CurrentSignup(s: Signup, aid: Id, uid: Id)
  {
    s.activityId == aid && s.userId == uid && s.status != Cancelled
  }

  predicate HasCurrentSignup(signups: map<Id, Signup>, aid: Id, uid: Id)
  {
    exists sid :: sid in signups && CurrentSignup(signups[sid], aid, uid)
  }

  /** The sign-ups that count as participants of `aid`: every one not cancelled. */
  function Participants(signups: map<Id, Signup>, aid: Id): set<Id>
  {
    set sid | sid in signups && signups[sid].activityId == aid && signups[sid].status != Cancelled
  }

  /**
   * Every sign-up belongs to a stored activity, every participant count is
   * the number of sign-ups not cancelled, a positive capacity is never
   * exceeded, and a user has at most one current sign-up per activity.
   */
  ghost predicate ActivityInv(activities: map<Id, Activity>, signups: map<Id, Signup>)
  {
    && SignupsOwned(activities, signups)
    && CountsMatch(activities, signups)
    && WithinCapacity(activities)
    && OneCurrentSignup(signups)
  }

  ghost predicate SignupsOwned(activities: map<Id, Activity>, signups: map<Id, Signup>)
  {
    forall sid :: sid in signups ==> signups[sid].activityId in activities
  }

  ghost predicate CountsMatch(activities: map<Id, Activity>, signups: map<Id, Signup>)
  {
    forall aid :: aid in activities ==> activities[aid].currentParticipants == |Participants(signups, aid)|
  }

  ghost predicate WithinCapacity(activities: map<Id, Activity>)
  {
    forall aid :: aid in activities && activities[aid].maxParticipants > 0 ==>
      activities[aid].currentParticipants <= activities[aid].maxParticipants
  }

  ghost predicate OneCurrentSignup(signups: map<Id, Signup>)
  {
    forall s1, s2 :: s1 in signups && s2 in signups && s1 != s2
      && signups[s1].status != Cancelled && signups[s2].status != Cancelled
      && signups[s1].activityId == signups[s2].activityId
      ==> signups[s1].userId != signups[s2].userId
  }

  lemma ParticipantsAfterPut(signups: map<Id, Signup>, sid: Id, s: Signup, aid: Id)
    ensures Participants(signups[sid := s], aid) ==
      (Participants(signups, aid) - {sid}) + (if s.activityId == aid && s.status != Cancelled then {sid} else {})
  {
  }

  /** A new activity has no sign-ups, so storing it with no participants keeps the invariant. */
  lemma PublishKeepsActivityInv(activities: map<Id, Activity>, signups: map<Id, Signup>, aid: Id, a: Activity)
    requires ActivityInv(activities, signups) && aid !in activities && a.currentParticipants == 0
    ensures ActivityInv(activities[aid := a], signups)
  {
    assert Participants(signups, aid) == {};
  }

  /** The first check of `signupActivity` that fails, if any. */
  function SignupError(activities: map<Id, Activity>, signups: map<Id, Signup>, uid: Id, aid: Id, now: int): (e: Option<ErrCode>)
    ensures e.None? <==>
      && uid != "" && aid != "" && aid in activities
      && activities[aid].status == ActivityOpen
      && !(activities[aid].signupDeadline != 0 && now > activities[aid].signupDeadline)
      && !HasCurrentSignup(signups, aid, uid)
      && !(activities[aid].maxParticipants > 0 && activities[aid].currentParticipants >= activities[aid].maxParticipants)
  {
    if uid == "" then Some(TokenInvalid)
    else if aid == "" then Some(InvalidParam)
    else if aid !in activities then Some(ActivityNotFound)
    else if activities[aid].status != ActivityOpen then Some(ActivityNotOpen)
    else if activities[aid].signupDeadline != 0 && now > activities[aid].signupDeadline then Some(SignupExpired)
    else if HasCurrentSignup(signups, aid, uid) then Some(AlreadySignedUp)
    else if activities[aid].maxParticipants > 0 && activities[aid].currentParticipants >= activities[aid].maxParticipants then Some(ActivityFull)
    else None
  }

  /** The contact fields of a sign-up request; a missing field is the empty string. */
  datatype SignupInput = SignupInput(contactName: string, contactPhone: string, remark: string)

  function NewSignup(aid: Id, uid: Id, input: SignupInput, now: int): (s: Signup)
    ensures CurrentSignup(s, aid, uid) && s.status == SignedUp && s.signupTime == now
  {
    Signup(aid, uid, input.contactName, input.contactPhone, input.remark, SignedUp, now, None)
  }

  /** Adds `delta` participants to an activity; a missing activity is left alone. */
  function AddParticipants(activities: map<Id, Activity>, aid: Id, delta: int): (r: map<Id, Activity>)
    ensures r.Keys == activities.Keys
    ensures forall k :: k in activities && k != aid ==> r[k] == activities[k]
    ensures aid in activities ==> r[aid] == activities[aid].(currentParticipants := activities[aid].currentParticipants + delta)
  {
    if aid in activities then activities[aid := activities[aid].(currentParticipants := activities[aid].currentParticipants + delta)]
    else activities
  }

  lemma {:induction false} SignupKeepsCounts(activities: map<Id, Activity>, signups: map<Id, Signup>, aid: Id, sid: Id, s: Signup)
    requires CountsMatch(activities, signups) && sid !in signups && s.activityId == aid && s.status != Cancelled
    ensures CountsMatch(AddParticipants(activities, aid, 1), signups[sid := s])
  {
    var signups' := signups[sid := s];
    var activities' := AddParticipants(activities, aid, 1);
    forall k | k in activities'
      ensures activities'[k].currentParticipants == |Participants(signups', k)|
    {
      ParticipantsAfterPut(signups, sid, s, k);
      assert sid !in Participants(signups, k);
    }
  }

  lemma {:induction false} SignupKeepsOneCurrent(signups: map<Id, Signup>, aid: Id, uid: Id, sid: Id, s: Signup)
    requires OneCurrentSignup(signups) && sid !in signups && !HasCurrentSignup(signups, aid, uid)
    requires s.activityId == aid && s.userId == uid
    ensures OneCurrentSignup(signups[sid := s])
  {
    var signups' := signups[sid := s];
    forall s1, s2 | s1 in signups' && s2 in signups' && s1 != s2
          && signups'[s1].status != Cancelled && signups'[s2].status != Cancelled
          && signups'[s1].activityId == signups'[s2].activityId
      ensures signups'[s1].userId != signups'[s2].userId
    {
      if s1 == sid {
        assert !CurrentSignup(signups[s2], aid, uid);
      } else if s2 == sid {
        assert !CurrentSignup(signups[s1], aid, uid);
      }
    }
  }

  /** A complete sign-up keeps the invariant; in particular it never takes an activity past its capacity. */
  lemma {:induction false} SignupKeepsActivityInv(activities: map<Id, Activity>, signups: map<Id, Signup>, uid: Id, aid: Id,
                                                  input: SignupInput, now: int, sid: Id)
    requires ActivityInv(activities, signups) && sid !in signups
    requires SignupError(activities, signups, uid, aid, now).None?
    ensures ActivityInv(AddParticipants(activities, aid, 1), signups[sid := NewSignup(aid, uid, input, now)])
  {
    var s := NewSignup(aid, uid, input, now);
    SignupKeepsCounts(activities, signups, aid, sid, s);
    SignupKeepsOneCurrent(signups, aid, uid, sid, s);
  }

  /**
   * When the count update after a sign-up fails, the stored sign-up is not
   * counted: the participant count of that activity is one short.
   */
  lemma {:induction false} HalfSignupBreaksCount(activities: map<Id, Activity>, signups: map<Id, Signup>, uid: Id, aid: Id,
                                                 input: SignupInput, now: int, sid: Id)
    requires ActivityInv(activities, signups) && sid !in signups
    requires SignupError(activities, signups, uid, aid, now).None?
    ensures activities[aid].currentParticipants + 1 == |Participants(signups[sid := NewSignup(aid, uid, input, now)], aid)|
    ensures !ActivityInv(activities, signups[sid := NewSignup(aid, uid, input, now)])
  {
    ParticipantsAfterPut(signups, sid, NewSignup(aid, uid, input, now), aid);
    assert sid !in Participants(signups, aid);
  }

  /**
   * `signupActivity(activityId, signupData)`: stores a sign-up, then counts
   * it. `countFails` is a failure of the second write.
   */
  method SignupActivity(db: Database, uid: Id, aid: Id, input: SignupInput, now: int, countFails: bool, newSignupId: Id)
    returns (r: Result<Unit>)
    requires newSignupId !in db.signups
    modifies db`signups, db`activities
    ensures var e := SignupError(old(db.activities), old(db.signups), uid, aid, now);
      e.Some? ==> r == Err(e.value) && db.signups == old(db.signups) && db.activities == old(db.activities)
    ensures SignupError(old(db.activities), old(db.signups), uid, aid, now).None? ==>
      && db.signups == old(db.signups)[newSignupId := NewSignup(aid, uid, input, now)]
      && (countFails ==> r == Err(SignupActivityFailed) && db.activities == old(db.activities))
      && (!countFails ==> r == Ok(Unit) && db.activities == AddParticipants(old(db.activities), aid, 1))
    ensures ActivityInv(old(db.activities), old(db.signups)) && !countFails ==> ActivityInv(db.activities, db.signups)
  {
    var e := SignupError(db.activities, db.signups, uid, aid, now);
    if e.Some? {
      return Err(e.value);
    }
    if ActivityInv(db.activities, db.signups) {
      SignupKeepsActivityInv(db.activities, db.signups, uid, aid, input, now, newSignupId);
    }
    db.signups := db.signups[newSignupId := NewSignup(aid, uid, input, now)];
    if countFails {
      return Err(SignupActivityFailed);
    }
    db.activities := AddParticipants(db.activities, aid, 1);
    r := Ok(Unit);
  }

  // ---------------------------------------------------------------------
  // cancelSignup
  // ---------------------------------------------------------------------

  /** The checks of `cancelSignup` before it looks at the sign-up found. */
  function CancelError(signups: map<Id, Signup>, uid: Id, aid: Id): (e: Option<ErrCode>)
    ensures e.None? <==> uid != "" && aid != "" && HasCurrentSignup(signups, aid, uid)
  {
    if uid == "" then Some(TokenInvalid)
    else if aid == "" then Some(InvalidParam)
    else if !HasCurrentSignup(signups, aid, uid) then Some(SignupNotFound)
    else None
  }

  /** A sign-up marked cancelled at `now`. */
  function Withdrawn(s: Signup, now: int): (w: Signup)
    ensures w.status == Cancelled && w.activityId == s.activityId && w.userId == s.userId
  {
    s.(status := Cancelled, cancelTime := Some(now))
  }

  lemma {:induction false} CancelKeepsCounts(activities: map<Id, Activity>, signups: map<Id, Signup>, sid: Id, now: int)
    requires CountsMatch(activities, signups) && sid in signups && signups[sid].status != Cancelled
    ensures CountsMatch(AddParticipants(activities, signups[sid].activityId, -1), signups[sid := Withdrawn(signups[sid], now)])
  {
    var s := signups[sid];
    var signups' := signups[sid := Withdrawn(s, now)];
    var activities' := AddParticipants(activities, s.activityId, -1);
    forall k | k in activities'
      ensures activities'[k].currentParticipants == |Participants(signups', k)|
    {
      ParticipantsAfterPut(signups, sid, Withdrawn(s, now), k);
      if k == s.activityId {
        assert sid in Participants(signups, k);
      }
    }
  }

  /** Cancelling a current sign-up, and uncounting it, keeps the invariant. */
  lemma {:induction false} CancelKeepsActivityInv(activities: map<Id, Activity>, signups: map<Id, Signup>, sid: Id, now: int)
    requires ActivityInv(activities, signups) && sid in signups && signups[sid].status != Cancelled
    ensures ActivityInv(AddParticipants(activities, signups[sid].activityId, -1), signups[sid := Withdrawn(signups[sid], now)])
  {
    CancelKeepsCounts(activities, signups, sid, now);
    var activities' := AddParticipants(activities, signups[sid].activityId, -1);
    assert WithinCapacity(activities') by {
      forall k | k in activities' && activities'[k].maxParticipants > 0
        ensures activities'[k].currentParticipants <= activities'[k].maxParticipants
      {
      }
    }
  }

  /** After a cancellation the user has no current sign-up for the activity, so signing up again is not refused as a duplicate. */
  lemma CancelAllowsSignupAgain(activities: map<Id, Activity>, signups: map<Id, Signup>, sid: Id, now: int)
    requires ActivityInv(activities, signups) && sid in signups && signups[sid].status != Cancelled
    ensures var s := signups[sid];
      !HasCurrentSignup(signups[sid := Withdrawn(s, now)], s.activityId, s.userId)
  {
  }

  /**
   * What `cancelSignup` does with the current sign-up `sid` it found: a
   * checked-in one is refused with nothing changed; otherwise the sign-up is
   * cancelled and, unless the second write fails, uncounted.
   */
  predicate CancelOutcome(signups0: map<Id, Signup>, activities0: map<Id, Activity>,
                          signups: map<Id, Signup>, activities: map<Id, Activity>,
                          uid: Id, aid: Id, now: int, countFails: bool, r: Result<Unit>, sid: Id)
  {
    && sid in signups0 && CurrentSignup(signups0[sid], aid, uid)
    && (signups0[sid].status == CheckedIn ==>
          r == Err(AlreadyCheckedIn) && signups == signups0 && activities == activities0)
    && (signups0[sid].status != CheckedIn ==>
          && signups == signups0[sid := Withdrawn(signups0[sid], now)]
          && (countFails ==> r == Err(CancelSignupFailed) && activities == activities0)
          && (!countFails ==> r == Ok(Unit) && activities == AddParticipants(activities0, aid, -1)))
  }

  /**
   * `cancelSignup(activityId)`: cancels the caller's current sign-up unless
   * it is checked in, then uncounts it. `countFails` is a failure of the
   * second write.
   */
  method CancelSignup(db: Database, uid: Id, aid: Id, now: int, countFails: bool) returns (r: Result<Unit>)
    modifies db`signups, db`activities
    ensures var e := CancelError(old(db.signups), uid, aid);
      e.Some? ==> r == Err(e.value) && db.signups == old(db.signups) && db.activities == old(db.activities)
    ensures CancelError(old(db.signups), uid, aid).None? ==>
      exists sid :: CancelOutcome(old(db.signups), old(db.activities), db.signups, db.activities, uid, aid, now, countFails, r, sid)
    ensures ActivityInv(old(db.activities), old(db.signups)) && !countFails ==> ActivityInv(db.activities, db.signups)
  {
    var e := CancelError(db.signups, uid, aid);
    if e.Some? {
      return Err(e.value);
    }
    var sid :| sid in db.signups && CurrentSignup(db.signups[sid], aid, uid);
    var s := db.signups[sid];
    if s.status == CheckedIn {
      r := Err(AlreadyCheckedIn);
      assert CancelOutcome(old(db.signups), old(db.activities), db.signups, db.activities, uid, aid, now, countFails, r, sid);
      return;
    }
    var signups0, activities0 := db.signups, db.activities;
    if ActivityInv(activities0, signups0) {
      CancelKeepsActivityInv(activities0, signups0, sid, now);
    }
    db.signups := signups0[sid := Withdrawn(s, now)];
    if countFails {
      r := Err(CancelSignupFailed);
    } else {
      db.activities := AddParticipants(activities0, aid, -1);
      r := Ok(Unit);
    }
    assert CancelOutcome(signups0, activities0, db.signups, db.activities, uid, aid, now, countFails, r, sid);
  }

  /** A freshly published open activity accepts a first sign-up from any user up to its deadline. */
  lemma FreshActivityAcceptsSignup(activities: map<Id, Activity>, signups: map<Id, Signup>, uid: Id, aid: Id,
                                   input: ActivityInput, organizer: Id, published: int, now: int)
    requires ActivityInv(activities, signups) && aid !in activities
    requires uid != "" && aid != "" && (input.status == 0 || input.status == ActivityOpen)
    requires now <= NewActivity(input, organizer, published).signupDeadline
    ensures SignupError(activities[aid := NewActivity(input, organizer, published)], signups, uid, aid, now).None?
  {
  }
}
