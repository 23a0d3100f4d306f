/**
 * The documents of the AlumNet store: user accounts, card requests and
 * friendships, recommendations and the verification audit log,
 * organizations and their member records, activities and sign-ups.
 */
module Records {
  import opened Common
  import opened Educations

  // ---------------------------------------------------------------------
  // Users
  // ---------------------------------------------------------------------

  /** A value held under a free-form document key. */
  datatype Value =
    | Str(s: string)
    | Bool(b: bool)
    | Num(n: int)
    | StrList(items: seq<string>)
    | EduList(edus: seq<Education>)
    | Null

  /** JavaScript truthiness of a stored value (every array is truthy). */
  predicate Truthy(v: Value)
  {
    match v
    case Str(s) => s != ""
    case Bool(b) => b
    case Num(n) => n != 0
    case Null => false
    case StrList(_) => true
    case EduList(_) => true
  }

  /** Alumni status codes: pending review, verified, rejected. */
  const Pending := 0
  const Verified := 1
  const Rejected := 2

  /**
   * A user account. The verification and relationship workflows read and
   * write the typed fields; every other document field (profile data such as
   * `educations`, `realName`, `contactVisible`, `profileVisible`, `mobile`,
   * `email`, `verifyStatus`) lives in `profile` under its own key.
   */
  datatype User = User(
    alumniStatus: Option<int>,
    alumniCardNo: Option<string>,
    alumniVerifyTime: Option<int>,
    alumniVerifyMethod: Option<string>,
    reviewerId: Option<Id>,
    rejectReason: Option<string>,
    submitTime: Option<int>,
    statusUpdateDate: Option<int>,
    statusUpdateBy: Option<Id>,
    recommendCount: int,
    friendCount: int,
    role: seq<string>,
    profile: map<string, Value>)

  /** The user's education list; a missing or non-list value reads as no entries. */
  function EducationsOf(u: User): seq<Education>
  {
    if "educations" in u.profile && u.profile["educations"].EduList? then u.profile["educations"].edus else []
  }

  /**
   * The stored `educations` is present but neither a list nor `null`, so
   * `u.educations?.find(...)` throws a TypeError. Such a value gets stored
   * when a profile update sends a falsy non-list, which skips validation.
   */
  predicate EducationsNotAList(u: User)
  {
    "educations" in u.profile && (u.profile["educations"].Str? || u.profile["educations"].Bool? || u.profile["educations"].Num?)
  }

  predicate IsVerified(u: User)
  {
    u.alumniStatus == Some(Verified)
  }

  /** A profile flag explicitly stored as `false` (`x === false`). */
  predicate FlagIsFalse(u: User, key: string)
  {
    key in u.profile && u.profile[key] == Bool(false)
  }

  /** Adds `delta` to a user's counter field; a missing document is left alone. */
  function AddFriendCount(users: map<Id, User>, id: Id, delta: int): (r: map<Id, User>)
    ensures r.Keys == users.Keys
    ensures forall k :: k in users && k != id ==> r[k] == users[k]
    ensures id in users ==> r[id] == users[id].(friendCount := users[id].friendCount + delta)
  {
    if id in users then users[id := users[id].(friendCount := users[id].friendCount + delta)] else users
  }

  // ---------------------------------------------------------------------
  // School configuration
  // ---------------------------------------------------------------------

  /**
   * The `features` object of the school configuration, as the alumni cloud
   * object reads it: a flag is its truthiness, a `recommendCount` of 0 is a
   * count that is missing or falsy.
   */
  datatype SchoolFeatures = SchoolFeatures(
    enableVerification: bool,
    enableFriendship: bool,
    enableChat: bool,
    enableActivity: bool,
    enableRecommendVerify: bool,
    recommendCount: int,
    requireProof: bool)

  // ---------------------------------------------------------------------
  // Card requests and friendships
  // ---------------------------------------------------------------------

  /** Card request status codes 0..3. */
  datatype RequestStatus = ReqPending | ReqAccepted | ReqRejected | ReqExpired

  /** A request to exchange contact cards. An `expireTime` of 0 means none was stored. */
  datatype CardRequest = CardRequest(
    fromUserId: Id,
    toUserId: Id,
    message: string,
    status: RequestStatus,
    expireTime: int,
    createTime: int,
    handleTime: Option<int>,
    rejectReason: Option<string>)

  /** Friendship status codes 1..4. */
  datatype FriendStatus = Normal | DeletedByA | DeletedByB | DeletedByBoth

  /** A friendship between two users, stored with the smaller id as `userIdA`. */
  datatype Friendship = Friendship(
    userIdA: Id,
    userIdB: Id,
    sourceRequestId: Id,
    status: FriendStatus,
    createTime: int,
    remarkA: Option<string>,
    remarkB: Option<string>,
    updateTime: Option<int>)

  // ---------------------------------------------------------------------
  // Recommendations and the verification audit log
  // ---------------------------------------------------------------------

  /** A recommendation; every recommendation is written with status 0 (effective). */
  datatype Recommendation = Recommendation(
    fromUserId: Id,
    toUserId: Id,
    message: string,
    relation: string,
    status: int,
    createTime: int)

  datatype VerifyLog =
    | AdminReviewLog(userId: Id, result: string, rejectReason: string, operatorId: Id, createTime: int)
    | RecommendLog(userId: Id, recommendCount: int, requiredCount: int, lastRecommenderId: Id, createTime: int)

  // ---------------------------------------------------------------------
  // Organizations
  // ---------------------------------------------------------------------

  /**
   * An organization. Its descriptive string fields (`logo`, `cover`,
   * `description`, `announcement`, and the type-specific `region`,
   * `industry`, `college`, `interest`) live in `info` under their own keys.
   */
  datatype Organization = Organization(
    name: string,
    orgType: string,
    info: map<string, string>,
    creatorId: Id,
    memberCount: int,
    activityCount: int,
    status: int,
    createTime: int,
    updateTime: int)

  /** Member record status codes: applied, active, left, rejected. */
  const MemberApplied := 0
  const MemberActive := 1
  const MemberLeft := 2
  const MemberRejected := 3

  datatype Member = Member(
    organizationId: Id,
    userId: Id,
    role: string,
    status: int,
    joinTime: Option<int>,
    createTime: int,
    updateTime: int)

  // ---------------------------------------------------------------------
  // Activities
  // ---------------------------------------------------------------------

  /** An activity; `location` holds the name of the location object when one was given. */
  datatype Activity = Activity(
    title: string,
    cover: string,
    description: string,
    content: string,
    organizerId: Id,
    activityType: string,
    location: Option<string>,
    onlineLink: string,
    startTime: int,
    endTime: Option<int>,
    signupDeadline: int,
    maxParticipants: int,
    currentParticipants: int,
    fee: int,
    status: int,
    viewCount: int,
    tags: seq<string>,
    createTime: int,
    updateTime: int)

  /** Sign-up status codes: signed up, checked in, cancelled. */
  const SignedUp := 0
  const CheckedIn := 1
  const Cancelled := -1

  datatype Signup = Signup(
    activityId: Id,
    userId: Id,
    contactName: string,
    contactPhone: string,
    remark: string,
    status: int,
    signupTime: int,
    cancelTime: Option<int>)
}
