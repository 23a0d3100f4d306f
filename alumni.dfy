/**
 * The alumni cloud object: profile updates, submission of a verification
 * request, the verification status view, and peer recommendation with its
 * quorum-based automatic verification.
 */
module Alumni {
  import opened Common
  import opened Text
  import opened Educations
  import opened Records
  import opened Store
  import opened CardNumber

  // ---------------------------------------------------------------------
  // updateMyProfile
  // ---------------------------------------------------------------------

  const AllowedProfileFields: seq<string> := [
    "avatar", "realName", "educations", "currentCompany",
    "currentPosition", "industry", "province", "city",
    "interests", "bio", "contactVisible", "profileVisible",
    "idCard", "classTeacher", "middleSchool", "teachers", "messageToSchool"]

  const MaxInterests := 10

  /** `value.length` for strings and lists; other values have no length. */
  function LengthOf(v: Value): Option<nat>
  {
    match v
    case Str(s) => Some(Utf16Length(s))
    case StrList(items) => Some(|items|)
    case EduList(edus) => Some(|edus|)
    case _ => None
  }

  /**
   * What the education validator sees: the list when the value is a list of
   * education entries, `None` otherwise (a non-array, or an array whose
   * entries carry no valid degree, fails the same way).
   */
  function AsEducationList(v: Value): Option<seq<Education>>
  {
    if v.EduList? then Some(v.edus) else None
  }

  /** The first check of `updateMyProfile` that rejects the whitelisted update, if any. */
  function ProfileUpdateError(uid: Id, updateData: map<string, Value>, currentYear: int): (e: Option<ErrCode>)
    ensures e.None? <==>
      && uid != "" && updateData != map[]
      && ("educations" in updateData && Truthy(updateData["educations"]) ==>
            ValidateEducations(AsEducationList(updateData["educations"]), "university", currentYear))
      && ("interests" in updateData && Truthy(updateData["interests"]) && LengthOf(updateData["interests"]).Some? ==>
            LengthOf(updateData["interests"]).value <= MaxInterests)
    ensures e.None? && "educations" in updateData && updateData["educations"].EduList? ==>
      ValidateEducations(Some(updateData["educations"].edus), "university", currentYear)
    ensures e.Some? ==> e.value in {TokenInvalid, InvalidParam}
  {
    if uid == "" then Some(TokenInvalid)
    else if |updateData| == 0 then Some(InvalidParam)
    else if "educations" in updateData && Truthy(updateData["educations"])
      && !ValidateEducations(AsEducationList(updateData["educations"]), "university", currentYear)
    then Some(InvalidParam)
    else if "interests" in updateData && Truthy(updateData["interests"])
      && LengthOf(updateData["interests"]).Some? && LengthOf(updateData["interests"]).value > MaxInterests
    then Some(InvalidParam)
    else None
  }

  /** Every education list stored on an account passes the university validation. */
  ghost predicate StoredEducationsValid(users: map<Id, User>, currentYear: int)
  {
    forall id :: id in users && "educations" in users[id].profile && users[id].profile["educations"].EduList? ==>
      ValidateEducations(Some(users[id].profile["educations"].edus), "university", currentYear)
  }

  /** An update that is not rejected stores no invalid education list. */
  lemma {:induction false} AcceptedUpdateKeepsEducations(users: map<Id, User>, uid: Id, updateData: map<string, Value>, currentYear: int)
    requires ProfileUpdateError(uid, updateData, currentYear).None?
    ensures StoredEducationsValid(users, currentYear) && uid in users ==>
      StoredEducationsValid(users[uid := users[uid].(profile := users[uid].profile + updateData)], currentYear)
  {
    if StoredEducationsValid(users, currentYear) && uid in users {
      var u' := users[uid].(profile := users[uid].profile + updateData);
      var users' := users[uid := u'];
      forall id | id in users' && "educations" in users'[id].profile && users'[id].profile["educations"].EduList?
        ensures ValidateEducations(Some(users'[id].profile["educations"].edus), "university", currentYear)
      {
        if id == uid && "educations" in updateData {
          assert u'.profile["educations"] == updateData["educations"];
        }
      }
    }
  }

  /** A profile update writes only whitelisted keys: every other key keeps its value, and none appears. */
  lemma ProfileUpdateKeepsOtherKeys(profile: map<string, Value>, data: map<string, Value>)
    ensures var p := profile + Restrict(data, AllowedProfileFields);
      forall k :: k !in AllowedProfileFields ==> (k in p <==> k in profile) && (k in p ==> p[k] == profile[k])
    ensures var p := profile + Restrict(data, AllowedProfileFields);
      forall k :: k in AllowedProfileFields && k in data ==> k in p && p[k] == data[k]
  {
  }

  /**
   * `updateMyProfile(data)`: copies the whitelisted keys the request defines
   * into the caller's document, after the education and interest checks.
   */
  method UpdateMyProfile(db: Database, uid: Id, data: map<string, Value>, currentYear: int) returns (r: Result<Unit>)
    modifies db`users
    ensures var e := ProfileUpdateError(uid, Restrict(data, AllowedProfileFields), currentYear);
      && (e.Some? ==> r == Err(e.value) && db.users == old(db.users))
      && (e.None? ==> r == Ok(Unit))
    ensures r.Ok? ==> db.users == if uid in old(db.users)
      then old(db.users)[uid := old(db.users)[uid].(profile := old(db.users)[uid].profile + Restrict(data, AllowedProfileFields))]
      else old(db.users)
    ensures StoredEducationsValid(old(db.users), currentYear) ==> StoredEducationsValid(db.users, currentYear)
  {
    if uid == "" {
      return Err(TokenInvalid);
    }
    var updateData := PickFields(data, AllowedProfileFields);
    var e := ProfileUpdateError(uid, updateData, currentYear);
    if e.Some? {
      return Err(e.value);
    }
    if uid in db.users {
      AcceptedUpdateKeepsEducations(db.users, uid, updateData, currentYear);
      db.users := db.users[uid := db.users[uid].(profile := db.users[uid].profile + updateData)];
    }
    r := Ok(Unit);
  }

  // ---------------------------------------------------------------------
  // submitVerification
  // ---------------------------------------------------------------------

  /** The verification form; `schoolType` is `None` when the request leaves it undefined. */
  datatype VerificationData = VerificationData(
    realName: string,
    educations: Option<seq<Education>>,
    proofUrls: seq<string>,
    workInfo: string,
    message: string,
    city: string,
    cardPhotoUrl: string,
    diplomaUrls: seq<string>,
    schoolType: Option<string>)

  /** The validator's `schoolType` parameter defaults to a university. */
  function SchoolTypeOf(data: VerificationData): string
  {
    match data.schoolType
    case None => "university"
    case Some(t) => t
  }

  /** The first input check of `submitVerification` that fails, if any. */
  function SubmissionError(uid: Id, data: VerificationData, currentYear: int): (e: Option<ErrCode>)
    ensures e.None? <==>
      && uid != ""
      && 2 <= Utf16Length(data.realName) <= 20
      && data.workInfo != "" && data.city != "" && data.cardPhotoUrl != ""
      && ValidateEducations(data.educations, SchoolTypeOf(data), currentYear)
    ensures e.Some? && uid != "" ==> e == Some(InvalidParam)
  {
    if uid == "" then Some(TokenInvalid)
    else if data.realName == "" || Utf16Length(data.realName) < 2 || Utf16Length(data.realName) > 20 then Some(InvalidParam)
    else if data.workInfo == "" then Some(InvalidParam)
    else if data.city == "" then Some(InvalidParam)
    else if data.cardPhotoUrl == "" then Some(InvalidParam)
    else if !ValidateEducations(data.educations, SchoolTypeOf(data), currentYear) then Some(InvalidParam)
    else None
  }

  /** The profile keys a submission writes; the optional ones only when given. */
  function SubmittedFields(data: VerificationData): map<string, Value>
  {
    var base := map[
      "realName" := Str(data.realName),
      "educations" := EduList(if data.educations.Some? then data.educations.value else []),
      "workInfo" := Str(data.workInfo),
      "city" := Str(data.city),
      "cardPhotoUrl" := Str(data.cardPhotoUrl)];
    var withMessage := if data.message != "" then base["messageToSchool" := Str(data.message)] else base;
    var withDiplomas := if |data.diplomaUrls| > 0 then withMessage["diplomaUrls" := StrList(data.diplomaUrls)] else withMessage;
    if |data.proofUrls| > 0 then withDiplomas["verifyProof" := StrList(data.proofUrls)] else withDiplomas
  }

  /**
   * The account after a submission: back to pending review with the
   * submitted data, nothing else of the verification state touched (a
   * submission never verifies or issues a card by itself).
   */
  function Submitted(u: User, data: VerificationData, now: int): (s: User)
    ensures s.alumniStatus == Some(Pending) && s.submitTime == Some(now)
    ensures s.alumniCardNo == u.alumniCardNo && s.alumniVerifyTime == u.alumniVerifyTime
    ensures s.alumniVerifyMethod == u.alumniVerifyMethod && s.recommendCount == u.recommendCount
    ensures s.friendCount == u.friendCount && s.role == u.role
    ensures data.educations.Some? ==> EducationsOf(s) == data.educations.value
    ensures forall k :: k in u.profile && k !in SubmittedFields(data) ==> k in s.profile && s.profile[k] == u.profile[k]
  {
    u.(alumniStatus := Some(Pending), submitTime := Some(now), profile := u.profile + SubmittedFields(data))
  }

  /** A valid education list for any school type is also valid for a university. */
  lemma UniversityIsWeakest(educations: Option<seq<Education>>, schoolType: string, currentYear: int)
    requires ValidateEducations(educations, schoolType, currentYear)
    ensures ValidateEducations(educations, "university", currentYear)
  {
    ValidateEducationsMeaning(educations, schoolType, currentYear);
    ValidateEducationsMeaning(educations, "university", currentYear);
  }

  /**
   * `submitVerification(data)`: validates the form, refuses an already
   * verified account, and stores the submission as pending review.
   */
  method SubmitVerification(db: Database, uid: Id, data: VerificationData, now: int, currentYear: int)
    returns (r: Result<int>)
    modifies db`users
    ensures var e := SubmissionError(uid, data, currentYear);
      e.Some? ==> r == Err(e.value) && db.users == old(db.users)
    ensures SubmissionError(uid, data, currentYear).None? && uid in old(db.users) && IsVerified(old(db.users)[uid]) ==>
      r == Err(AlreadyVerified) && db.users == old(db.users)
    ensures SubmissionError(uid, data, currentYear).None? && !(uid in old(db.users) && IsVerified(old(db.users)[uid])) ==>
      && r == Ok(Pending)
      && db.users == if uid in old(db.users) then old(db.users)[uid := Submitted(old(db.users)[uid], data, now)] else old(db.users)
    ensures StoredEducationsValid(old(db.users), currentYear) ==> StoredEducationsValid(db.users, currentYear)
  {
    var e := SubmissionError(uid, data, currentYear);
    if e.Some? {
      return Err(e.value);
    }
    if uid in db.users && db.users[uid].alumniStatus == Some(Verified) {
      return Err(AlreadyVerified);
    }
    if uid in db.users {
      UniversityIsWeakest(data.educations, SchoolTypeOf(data), currentYear);
      ghost var old' := db.users;
      db.users := db.users[uid := Submitted(db.users[uid], data, now)];
      assert db.users[uid].profile["educations"] == EduList(data.educations.value);
      assert forall id :: id in db.users && id != uid ==> db.users[id] == old'[id];
    }
    r := Ok(Pending);
  }

  // ---------------------------------------------------------------------
  // getVerificationStatus
  // ---------------------------------------------------------------------

  datatype VerificationStatus = VerificationStatus(
    status: int,
    verifyTime: Option<int>,
    recommendCount: int,
    requiredRecommendCount: Option<int>)

  /** `features.recommendCount || 3`: the recommendations the quorum needs. */
  function RequiredRecommendCount(features: SchoolFeatures): (n: int)
    ensures n != 0
    ensures features.recommendCount != 0 ==> n == features.recommendCount
  {
    if features.recommendCount == 0 then 3 else features.recommendCount
  }

  /**
   * `getVerificationStatus()`: an account without a status reads as pending;
   * the required count is reported only when recommendation verification
   * is enabled.
   */
  function GetVerificationStatus(users: map<Id, User>, uid: Id, features: SchoolFeatures): (r: Result<VerificationStatus>)
    ensures uid == "" ==> r == Err(TokenInvalid)
    ensures uid != "" && uid !in users ==> r == Err(UserNotFound)
    ensures uid != "" && uid in users ==> r.Ok?
    ensures r.Ok? ==> users[uid].alumniStatus.None? ==> r.value.status == Pending
    ensures r.Ok? ==> users[uid].alumniStatus.Some? ==> r.value.status == users[uid].alumniStatus.value
    ensures r.Ok? ==> r.value.verifyTime == users[uid].alumniVerifyTime
    ensures r.Ok? ==> r.value.recommendCount == users[uid].recommendCount
    ensures r.Ok? ==> (r.value.requiredRecommendCount.Some? <==> features.enableRecommendVerify)
    ensures r.Ok? && features.enableRecommendVerify ==> r.value.requiredRecommendCount == Some(RequiredRecommendCount(features))
  {
    if uid == "" then Err(TokenInvalid)
    else if uid !in users then Err(UserNotFound)
    else
      var u := users[uid];
      Ok(VerificationStatus(
        match u.alumniStatus case None => 0 case Some(s) => s,
        u.alumniVerifyTime,
        u.recommendCount,
        if features.enableRecommendVerify then Some(RequiredRecommendCount(features)) else None))
  }

  // ---------------------------------------------------------------------
  // recommendAlumni
  // ---------------------------------------------------------------------

  /** An effective (status 0) recommendation from `from` to `to` exists. */
  predicate HasEffectiveRecommendation(recs: map<Id, Recommendation>, from: Id, to: Id)
  {
    exists id :: id in recs && recs[id].fromUserId == from && recs[id].toUserId == to && recs[id].status == 0
  }

  function EffectiveRecommendationIds(recs: map<Id, Recommendation>, to: Id): set<Id>
  {
    set id | id in recs && recs[id].toUserId == to && recs[id].status == 0
  }

  /** How many effective recommendations the account has received. */
  function EffectiveRecommendations(recs: map<Id, Recommendation>, to: Id): nat
  {
    |EffectiveRecommendationIds(recs, to)|
  }

  /** The first check of `recommendAlumni` that fails, if any. */
  function RecommendError(users: map<Id, User>, recs: map<Id, Recommendation>, uid: Id, toUserId: Id): (e: Option<ErrCode>)
    ensures e.None? <==>
      && uid != "" && toUserId != "" && toUserId != uid
      && uid in users && IsVerified(users[uid])
      && toUserId in users && !IsVerified(users[toUserId])
      && !HasEffectiveRecommendation(recs, uid, toUserId)
  {
    if uid == "" then Some(TokenInvalid)
    else if toUserId == "" then Some(InvalidParam)
    else if toUserId == uid then Some(InvalidParam)
    else if !(uid in users && users[uid].alumniStatus == Some(Verified)) then Some(NotVerified)
    else if toUserId !in users then Some(UserNotFound)
    else if users[toUserId].alumniStatus == Some(Verified) then Some(AlreadyVerified)
    else if HasEffectiveRecommendation(recs, uid, toUserId) then Some(AlreadyRecommended)
    else None
  }

  /** Once an account is verified, every further recommendation of it is refused. */
  lemma VerifiedTargetRefused(users: map<Id, User>, recs: map<Id, Recommendation>, uid: Id, toUserId: Id)
    requires toUserId in users && IsVerified(users[toUserId])
    ensures RecommendError(users, recs, uid, toUserId).Some?
    ensures uid != "" && toUserId != "" && uid != toUserId && uid in users && IsVerified(users[uid]) ==>
      RecommendError(users, recs, uid, toUserId) == Some(AlreadyVerified)
  {
  }

  /** Recording a fresh recommendation raises the target's effective count by exactly one. */
  lemma {:induction false} AddedRecommendationCounts(recs: map<Id, Recommendation>, id: Id, rec: Recommendation)
    requires id !in recs && rec.status == 0
    ensures EffectiveRecommendations(recs[id := rec], rec.toUserId) == EffectiveRecommendations(recs, rec.toUserId) + 1
    ensures forall t :: t != rec.toUserId ==> EffectiveRecommendations(recs[id := rec], t) == EffectiveRecommendations(recs, t)
  {
    assert EffectiveRecommendationIds(recs[id := rec], rec.toUserId) == EffectiveRecommendationIds(recs, rec.toUserId) + {id};
    forall t | t != rec.toUserId
      ensures EffectiveRecommendations(recs[id := rec], t) == EffectiveRecommendations(recs, t)
    {
      assert EffectiveRecommendationIds(recs[id := rec], t) == EffectiveRecommendationIds(recs, t);
    }
  }

  /** The enrollment year of the primary education, 0 when there is none. */
  function PrimaryEnrollmentYear(u: User): int
  {
    match PrimaryEducation(EducationsOf(u))
    case None => 0
    case Some(e) => e.enrollmentYear
  }

  /** The card issued on reaching the quorum: only when the primary education has an enrollment year. */
  function QuorumCard(users: map<Id, User>, u: User): (c: Option<string>)
    ensures c.Some? <==> PrimaryEnrollmentYear(u) != 0
  {
    var year := PrimaryEnrollmentYear(u);
    if year != 0 then Some(AllocateCardNo(users, year)) else None
  }

  /** The account after reaching the quorum. */
  function QuorumVerified(u: User, total: int, now: int, card: Option<string>): (v: User)
    ensures IsVerified(v) && v.alumniVerifyTime == Some(now) && v.alumniVerifyMethod == Some("recommend")
    ensures v.recommendCount == total
    ensures v.alumniCardNo == if card.Some? then card else u.alumniCardNo
    ensures v.profile == u.profile && v.friendCount == u.friendCount && v.role == u.role
  {
    u.(alumniStatus := Some(Verified), alumniVerifyTime := Some(now), alumniVerifyMethod := Some("recommend"),
       recommendCount := total, alumniCardNo := if card.Some? then card else u.alumniCardNo)
  }

  /**
   * What a quorum card needs to stay unique: a primary enrollment year, when
   * there is one, of four digits, whose existing cards are well formed.
   */
  ghost predicate QuorumCardReady(users: map<Id, User>, id: Id)
  {
    id in users ==>
      var y := PrimaryEnrollmentYear(users[id]);
      y != 0 ==> FourDigitYear(y) && YearCardsWellFormed(users, y)
  }

  predicate QuorumReached(features: SchoolFeatures, total: int)
  {
    features.enableRecommendVerify && total >= RequiredRecommendCount(features)
  }

  /**
   * The quorum card keeps card numbers unique when the primary enrollment
   * year has four digits and the year's cards are well formed.
   */
  lemma QuorumKeepsCardsUnique(users: map<Id, User>, id: Id, total: int, now: int)
    requires id in users && CardsUnique(users) && QuorumCardReady(users, id)
    ensures CardsUnique(users[id := QuorumVerified(users[id], total, now, QuorumCard(users, users[id]))])
  {
    var v := QuorumVerified(users[id], total, now, QuorumCard(users, users[id]));
    var y := PrimaryEnrollmentYear(users[id]);
    if y != 0 {
      AssignAllocatedCard(users, id, v, y);
    } else {
      SameCardKeepsCardsUnique(users, id, v);
    }
  }

  /**
   * Recording a recommendation keeps card numbers unique: the count bump
   * leaves the card alone, and a reached quorum issues a fresh one.
   */
  lemma RecommendKeepsCardsUnique(users: map<Id, User>, id: Id, quorum: bool, total: int, now: int)
    requires id in users && CardsUnique(users) && QuorumCardReady(users, id)
    ensures var target := users[id];
      var bumped := target.(recommendCount := target.recommendCount + 1);
      CardsUnique(users[id := if quorum then QuorumVerified(bumped, total, now, QuorumCard(users, target)) else bumped])
  {
    var target := users[id];
    var bumped := target.(recommendCount := target.recommendCount + 1);
    if quorum {
      assert QuorumVerified(bumped, total, now, QuorumCard(users, target)) == QuorumVerified(target, total, now, QuorumCard(users, target));
      QuorumKeepsCardsUnique(users, id, total, now);
    } else {
      SameCardKeepsCardsUnique(users, id, bumped);
    }
  }

  /**
   * `recommendAlumni({toUserId, message, relation})`: records the
   * recommendation, counts it, and verifies the account once the effective
   * recommendations reach the configured quorum. The audit-log write after
   * the verification is not guarded: when it fails the caller gets the
   * store error while the verification stays written.
   */
  method RecommendAlumni(db: Database, uid: Id, toUserId: Id, message: string, relation: string,
                         features: SchoolFeatures, now: int, newRecId: Id, logFails: bool)
    returns (r: Result<Unit>)
    requires newRecId !in db.recommendations
    modifies db`users, db`recommendations, db`verifyLogs
    ensures var e := RecommendError(old(db.users), old(db.recommendations), uid, toUserId);
      e.Some? ==> (r == Err(e.value) && db.users == old(db.users)
        && db.recommendations == old(db.recommendations) && db.verifyLogs == old(db.verifyLogs))
    ensures RecommendError(old(db.users), old(db.recommendations), uid, toUserId).None? ==>
      && db.recommendations == old(db.recommendations)[newRecId := Recommendation(uid, toUserId, message, relation, 0, now)]
      && var target := old(db.users)[toUserId];
         var bumped := target.(recommendCount := target.recommendCount + 1);
         var total := EffectiveRecommendations(db.recommendations, toUserId);
         && total == EffectiveRecommendations(old(db.recommendations), toUserId) + 1
         && (QuorumReached(features, total) && EducationsNotAList(target) ==>
              db.users == old(db.users)[toUserId := bumped] && db.verifyLogs == old(db.verifyLogs) && r == Err(ScriptTypeError))
         && (QuorumReached(features, total) && !EducationsNotAList(target) ==>
              && db.users == old(db.users)[toUserId := QuorumVerified(bumped, total, now, QuorumCard(old(db.users), target))]
              && (logFails ==> r == Err(StoreFailure) && db.verifyLogs == old(db.verifyLogs))
              && (!logFails ==> (r == Ok(Unit) && db.verifyLogs ==
                    old(db.verifyLogs) + [RecommendLog(toUserId, total, RequiredRecommendCount(features), uid, now)])))
         && (!QuorumReached(features, total) ==>
              db.users == old(db.users)[toUserId := bumped] && db.verifyLogs == old(db.verifyLogs) && r == Ok(Unit))
    ensures CardsUnique(old(db.users)) && QuorumCardReady(old(db.users), toUserId) ==> CardsUnique(db.users)
  {
    var e := RecommendError(db.users, db.recommendations, uid, toUserId);
    if e.Some? {
      return Err(e.value);
    }
    var target := db.users[toUserId];
    var rec := Recommendation(uid, toUserId, message, relation, 0, now);
    AddedRecommendationCounts(db.recommendations, newRecId, rec);
    var recs := db.recommendations[newRecId := rec];
    var total := EffectiveRecommendations(recs, toUserId);
    var bumped := target.(recommendCount := target.recommendCount + 1);
    var quorum := QuorumReached(features, total);
    // the primary education is looked up only once the quorum is reached
    var verify := quorum && !EducationsNotAList(target);
    var updated := if verify then QuorumVerified(bumped, total, now, QuorumCard(db.users, target)) else bumped;
    if CardsUnique(db.users) && QuorumCardReady(db.users, toUserId) {
      RecommendKeepsCardsUnique(db.users, toUserId, verify, total, now);
    }
    db.recommendations := recs;
    db.users := db.users[toUserId := updated];
    if quorum && !verify {
      r := Err(ScriptTypeError);
    } else if verify && logFails {
      r := Err(StoreFailure);
    } else {
      if verify {
        db.verifyLogs := db.verifyLogs + [RecommendLog(toUserId, total, RequiredRecommendCount(features), uid, now)];
      }
      r := Ok(Unit);
    }
  }
}
