/**
 * The administration cloud object: the administrator gate run before every
 * call, saving the school configuration's feature switches, reviewing a
 * pending verification, and setting an account's status directly.
 */
module Admin {
  import opened Common
  import opened Text
  import opened Educations
  import opened Records
  import opened Store
  import opened CardNumber
  import opened Alumni

  // ---------------------------------------------------------------------
  // The administrator gate
  // ---------------------------------------------------------------------

  const AdminRoles: seq<string> := ["admin", "super_admin", "alumni_admin"]

  /** `user.role && user.role.some(r => adminRoles.includes(r))`. */
  predicate HasAdminRole(role: seq<string>)
  {
    exists r :: r in role && r in AdminRoles
  }

  /** The error the gate throws, if any: no valid token, no account, no administrator role. */
  function AdminGate(users: map<Id, User>, uid: Id): (e: Option<ErrCode>)
    ensures e.None? <==> uid != "" && uid in users && HasAdminRole(users[uid].role)
    ensures e.Some? ==> e.value in {NotLoggedIn, AdminUserMissing, NoAdminRole}
  {
    if uid == "" then Some(NotLoggedIn)
    else if uid !in users then Some(AdminUserMissing)
    else if !HasAdminRole(users[uid].role) then Some(NoAdminRole)
    else None
  }

  /** Any one of the three administrator roles opens the gate, whatever else the role list holds. */
  lemma AnyAdminRoleSuffices(users: map<Id, User>, uid: Id, r: string)
    requires uid != "" && uid in users && r in users[uid].role && r in AdminRoles
    ensures AdminGate(users, uid).None?
  {
  }

  // ---------------------------------------------------------------------
  // saveSchoolConfig: feature switches
  // ---------------------------------------------------------------------

  /** A JSON value as the request carries it; `JUndefined` is a missing key. */
  datatype Json = JUndefined | JNull | JBool(b: bool) | JNum(n: int) | JStr(s: string)

  /** The `features` part of a configuration request; a request without it has every key undefined. */
  datatype RawFeatures = RawFeatures(
    enableVerification: Json,
    enableFriendship: Json,
    enableChat: Json,
    enableActivity: Json,
    enableRecommendVerify: Json,
    recommendCount: Json,
    requireProof: Json)

  /** `String(value)`, the conversion parseInt applies first. */
  function ToJsString(j: Json): string
  {
    match j
    case JUndefined => "undefined"
    case JNull => "null"
    case JBool(b) => if b then "true" else "false"
    case JNum(n) => IntToString(n)
    case JStr(s) => s
  }

  /** `parseInt(value) || 3`: NaN and 0 fall back to three. */
  function NormalizeCount(j: Json): (n: int)
    ensures n != 0
  {
    match ParseInt(ToJsString(j))
    case None => 3
    case Some(v) => if v != 0 then v else 3
  }

  /**
   * The feature switches `saveSchoolConfig` stores: switches on unless sent
   * as `false`, except recommendation verification and proof upload, which
   * are on only when sent as `true`.
   */
  function NormalizeFeatures(raw: RawFeatures): (f: SchoolFeatures)
    ensures f.enableVerification <==> raw.enableVerification != JBool(false)
    ensures f.enableFriendship <==> raw.enableFriendship != JBool(false)
    ensures f.enableChat <==> raw.enableChat != JBool(false)
    ensures f.enableActivity <==> raw.enableActivity != JBool(false)
    ensures f.enableRecommendVerify <==> raw.enableRecommendVerify == JBool(true)
    ensures f.requireProof <==> raw.requireProof == JBool(true)
    ensures f.recommendCount != 0
    // the alumni object's quorum for these switches is the saved count itself
    ensures RequiredRecommendCount(f) == f.recommendCount
  {
    SchoolFeatures(
      raw.enableVerification != JBool(false),
      raw.enableFriendship != JBool(false),
      raw.enableChat != JBool(false),
      raw.enableActivity != JBool(false),
      raw.enableRecommendVerify == JBool(true),
      NormalizeCount(raw.recommendCount),
      raw.requireProof == JBool(true))
  }

  /** The stored features as a later request would send them back. */
  function AsRequest(f: SchoolFeatures): RawFeatures
  {
    RawFeatures(JBool(f.enableVerification), JBool(f.enableFriendship), JBool(f.enableChat),
      JBool(f.enableActivity), JBool(f.enableRecommendVerify), JNum(f.recommendCount), JBool(f.requireProof))
  }

  /** Saving a saved configuration again stores the same switches. */
  lemma NormalizeIdempotent(raw: RawFeatures)
    ensures NormalizeFeatures(AsRequest(NormalizeFeatures(raw))) == NormalizeFeatures(raw)
  {
    ParseIntToString(NormalizeCount(raw.recommendCount));
  }

  /** A request without features stores the defaults the configuration view reports. */
  lemma MissingFeaturesDefaults()
    ensures NormalizeFeatures(RawFeatures(JUndefined, JUndefined, JUndefined, JUndefined, JUndefined, JUndefined, JUndefined))
      == SchoolFeatures(true, true, true, true, false, 3, false)
  {
    assert ParseInt("undefined") == None by {
      assert SkipWhitespace("undefined") == "undefined";
      assert DecimalPrefix("undefined") == "";
    }
  }

  /** A count written as a decimal string or a number is stored as that number unless it is 0. */
  lemma NormalizeCountOfNumber(n: int)
    ensures NormalizeCount(JNum(n)) == if n == 0 then 3 else n
    ensures NormalizeCount(JStr(IntToString(n))) == if n == 0 then 3 else n
  {
    ParseIntToString(n);
  }

  /**
   * `saveSchoolConfig(config)`: a missing configuration is refused with code
   * 1; otherwise the normalized feature switches replace the stored ones.
   */
  method SaveSchoolConfig(db: Database, adminUid: Id, config: Option<RawFeatures>) returns (r: Result<Unit>)
    modifies db`schoolFeatures
    ensures var g := AdminGate(db.users, adminUid);
      && (g.Some? ==> r == Err(g.value) && db.schoolFeatures == old(db.schoolFeatures))
      && (g.None? && config.None? ==> r == Err(AdminCode(1)) && db.schoolFeatures == old(db.schoolFeatures))
      && (g.None? && config.Some? ==> r == Ok(Unit) && db.schoolFeatures == Some(NormalizeFeatures(config.value)))
  {
    var g := AdminGate(db.users, adminUid);
    if g.Some? {
      return Err(g.value);
    }
    if config.None? {
      return Err(AdminCode(1));
    }
    db.schoolFeatures := Some(NormalizeFeatures(config.value));
    r := Ok(Unit);
  }

  // ---------------------------------------------------------------------
  // reviewVerification
  // ---------------------------------------------------------------------

  /** The first check of `reviewVerification` that fails, if any. */
  function ReviewError(users: map<Id, User>, adminUid: Id, id: Id, status: int): (e: Option<ErrCode>)
    ensures e.None? <==>
      && AdminGate(users, adminUid).None?
      && id != "" && status in {Verified, Rejected}
      && id in users && users[id].alumniStatus == Some(Pending)
      && !(status == Verified && EducationsNotAList(users[id]))
  {
    var g := AdminGate(users, adminUid);
    if g.Some? then g
    else if id == "" then Some(AdminCode(1))
    else if status !in {Verified, Rejected} then Some(AdminCode(2))
    else if id !in users then Some(AdminCode(3))
    else if users[id].alumniStatus != Some(Pending) then Some(AdminCode(4))
    else if status == Verified && EducationsNotAList(users[id]) then Some(ScriptTypeError)
    else None
  }

  /** The year an approval issues the card for: the primary enrollment year, else the current year. */
  function ReviewYear(u: User, currentYear: int): (y: int)
    requires !EducationsNotAList(u)
    ensures PrimaryEnrollmentYear(u) != 0 ==> y == PrimaryEnrollmentYear(u)
    ensures PrimaryEnrollmentYear(u) == 0 ==> y == currentYear
  {
    var y := PrimaryEnrollmentYear(u);
    if y != 0 then y else currentYear
  }

  /**
   * The account after a review. Both outcomes record the decision time,
   * the method and the reviewer; only an approval issues a card, and only a
   * rejection with a reason stores the reason.
   */
  function Reviewed(users: map<Id, User>, id: Id, status: int, rejectReason: string, adminUid: Id, now: int, currentYear: int): (v: User)
    requires id in users && (status == Verified ==> !EducationsNotAList(users[id]))
    ensures v.alumniStatus == Some(status)
    ensures v.alumniVerifyTime == Some(now) && v.alumniVerifyMethod == Some("admin_review") && v.reviewerId == Some(adminUid)
    ensures status == Verified ==> v.alumniCardNo == Some(AllocateCardNo(users, ReviewYear(users[id], currentYear)))
    ensures status != Verified ==> v.alumniCardNo == users[id].alumniCardNo
    ensures v.rejectReason == if status == Rejected && rejectReason != "" then Some(rejectReason) else users[id].rejectReason
    ensures v.profile == users[id].profile && v.friendCount == users[id].friendCount && v.role == users[id].role
  {
    var u := users[id];
    var decided := u.(alumniStatus := Some(status), alumniVerifyTime := Some(now),
                      alumniVerifyMethod := Some("admin_review"), reviewerId := Some(adminUid));
    var withReason := if status == Rejected && rejectReason != "" then decided.(rejectReason := Some(rejectReason)) else decided;
    if status == Verified
    then withReason.(alumniCardNo := Some(AllocateCardNo(users, ReviewYear(u, currentYear))))
    else withReason
  }

  /** The audit entry of a review. */
  function ReviewLog(id: Id, status: int, rejectReason: string, adminUid: Id, now: int): VerifyLog
  {
    AdminReviewLog(id, if status == Verified then "approved" else "rejected",
      if status == Rejected then rejectReason else "", adminUid, now)
  }

  /** A reviewed account is no longer pending: reviewing it again is refused with code 4. */
  lemma ReviewDecidesOnce(users: map<Id, User>, adminUid: Id, id: Id, status: int, status': int,
                          rejectReason: string, now: int, currentYear: int)
    requires ReviewError(users, adminUid, id, status).None?
    requires status' in {Verified, Rejected}
    ensures var users' := users[id := Reviewed(users, id, status, rejectReason, adminUid, now, currentYear)];
      ReviewError(users', adminUid, id, status') == Some(AdminCode(4))
  {
    var users' := users[id := Reviewed(users, id, status, rejectReason, adminUid, now, currentYear)];
    assert users'[adminUid].role == users[adminUid].role;
  }

  /** An approval keeps card numbers unique when the card year has four digits and its cards are well formed. */
  lemma ApprovalKeepsCardsUnique(users: map<Id, User>, id: Id, rejectReason: string, adminUid: Id, now: int, currentYear: int)
    requires id in users && CardsUnique(users) && !EducationsNotAList(users[id])
    requires var y := ReviewYear(users[id], currentYear); FourDigitYear(y) && YearCardsWellFormed(users, y)
    ensures CardsUnique(users[id := Reviewed(users, id, Verified, rejectReason, adminUid, now, currentYear)])
  {
    AssignAllocatedCard(users, id, Reviewed(users, id, Verified, rejectReason, adminUid, now, currentYear),
      ReviewYear(users[id], currentYear));
  }

  /** An approval's card year has four digits and the cards already issued for it are well formed. */
  ghost predicate ApprovalCardReady(users: map<Id, User>, id: Id, status: int, currentYear: int)
  {
    status == Verified && id in users && !EducationsNotAList(users[id]) ==>
      var y := ReviewYear(users[id], currentYear);
      FourDigitYear(y) && YearCardsWellFormed(users, y)
  }

  /** Either outcome of a review keeps card numbers unique, provided an approval's card year is ready. */
  lemma ReviewKeepsCardsUnique(users: map<Id, User>, adminUid: Id, id: Id, status: int, rejectReason: string,
                               now: int, currentYear: int)
    requires ReviewError(users, adminUid, id, status).None?
    ensures CardsUnique(users) && ApprovalCardReady(users, id, status, currentYear) ==>
      CardsUnique(users[id := Reviewed(users, id, status, rejectReason, adminUid, now, currentYear)])
  {
    if CardsUnique(users) && ApprovalCardReady(users, id, status, currentYear) {
      if status == Verified {
        ApprovalKeepsCardsUnique(users, id, rejectReason, adminUid, now, currentYear);
      } else {
        SameCardKeepsCardsUnique(users, id, Reviewed(users, id, status, rejectReason, adminUid, now, currentYear));
      }
    }
  }

  /**
   * `reviewVerification({id, status, rejectReason})`: decides a pending
   * submission. The audit-log write is guarded: when it fails the decision
   * still stands and the call still succeeds.
   */
  method ReviewVerification(db: Database, adminUid: Id, id: Id, status: int, rejectReason: string,
                            now: int, currentYear: int, logFails: bool)
    returns (r: Result<Unit>)
    modifies db`users, db`verifyLogs
    ensures var e := ReviewError(old(db.users), adminUid, id, status);
      e.Some? ==> (r == Err(e.value) && db.users == old(db.users) && db.verifyLogs == old(db.verifyLogs))
    ensures ReviewError(old(db.users), adminUid, id, status).None? ==>
      && r == Ok(Unit)
      && db.users == old(db.users)[id := Reviewed(old(db.users), id, status, rejectReason, adminUid, now, currentYear)]
      && db.verifyLogs == old(db.verifyLogs) + (if logFails then [] else [ReviewLog(id, status, rejectReason, adminUid, now)])
    ensures CardsUnique(old(db.users)) && ApprovalCardReady(old(db.users), id, status, currentYear) ==> CardsUnique(db.users)
  {
    var e := ReviewError(db.users, adminUid, id, status);
    if e.Some? {
      return Err(e.value);
    }
    ReviewKeepsCardsUnique(db.users, adminUid, id, status, rejectReason, now, currentYear);
    db.users := db.users[id := Reviewed(db.users, id, status, rejectReason, adminUid, now, currentYear)];
    if !logFails {
      db.verifyLogs := db.verifyLogs + [ReviewLog(id, status, rejectReason, adminUid, now)];
    }
    r := Ok(Unit);
  }

  // ---------------------------------------------------------------------
  // updateAlumniStatus
  // ---------------------------------------------------------------------

  /** The first check of `updateAlumniStatus` that fails, if any. */
  function StatusUpdateError(users: map<Id, User>, adminUid: Id, userId: Id, status: int): (e: Option<ErrCode>)
    ensures e.None? <==> AdminGate(users, adminUid).None? && userId != "" && status in {Pending, Verified, Rejected}
  {
    var g := AdminGate(users, adminUid);
    if g.Some? then g
    else if userId == "" then Some(AdminCode(1))
    else if status !in {Pending, Verified, Rejected} then Some(AdminCode(2))
    else None
  }

  /**
   * `updateAlumniStatus({userId, alumniStatus})`: sets any of the three
   * statuses from any status, outside the review workflow; the card number,
   * verification time and method are left as they were.
   */
  method UpdateAlumniStatus(db: Database, adminUid: Id, userId: Id, status: int, now: int) returns (r: Result<Unit>)
    modifies db`users
    ensures var e := StatusUpdateError(old(db.users), adminUid, userId, status);
      e.Some? ==> (r == Err(e.value) && db.users == old(db.users))
    ensures StatusUpdateError(old(db.users), adminUid, userId, status).None? ==>
      && r == Ok(Unit)
      && db.users == if userId in old(db.users)
         then old(db.users)[userId := old(db.users)[userId].(alumniStatus := Some(status),
                statusUpdateDate := Some(now), statusUpdateBy := Some(adminUid))]
         else old(db.users)
  {
    var e := StatusUpdateError(db.users, adminUid, userId, status);
    if e.Some? {
      return Err(e.value);
    }
    if userId in db.users {
      db.users := db.users[userId := db.users[userId].(alumniStatus := Some(status),
        statusUpdateDate := Some(now), statusUpdateBy := Some(adminUid))];
    }
    r := Ok(Unit);
  }
}
