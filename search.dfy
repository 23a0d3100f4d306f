/**
 * The alumni search cloud object: the read side of the directory. A search
 * is a filter over the user collection sorted by id and cut into pages by a
 * cursor; the detail view shows contact fields only to friends.
 */
module Search {
  import opened Common
  import opened Text
  import opened Educations
  import opened Records
  import opened Friend

  const DefaultPageSize := 20

  const MaxPageSize := 50

  /** The page size of the same-year, same-city and same-industry lists. */
  const NeighbourPageSize := 10

  // ---------------------------------------------------------------------
  // getCardRequestStatus
  // ---------------------------------------------------------------------

  /** The card-request state between the caller and another user, from the caller's side. */
  datatype RequestView = Sent(requestId: Id) | Received(requestId: Id)

  /**
   * `getCardRequestStatus(me, target)`: a pending request from the caller
   * wins over one to the caller; the id is that of some matching request.
   */
  ghost function CardRequestStatus(requests: map<Id, CardRequest>, me: Id, target: Id): (v: Option<RequestView>)
    ensures v.Some? && v.value.Sent? <==> HasPending(requests, me, target)
    ensures v.Some? && v.value.Received? <==> !HasPending(requests, me, target) && HasPending(requests, target, me)
    ensures v.Some? && v.value.Sent? ==>
      v.value.requestId in requests && PendingFromTo(requests[v.value.requestId], me, target)
    ensures v.Some? && v.value.Received? ==>
      v.value.requestId in requests && PendingFromTo(requests[v.value.requestId], target, me)
  {
    if HasPending(requests, me, target) then
      var rid :| rid in requests && PendingFromTo(requests[rid], me, target);
      Some(Sent(rid))
    else if HasPending(requests, target, me) then
      var rid :| rid in requests && PendingFromTo(requests[rid], target, me);
      Some(Received(rid))
    else None
  }

  /**
   * While the friendship invariant holds there is at most one pending
   * request between two users, so the reported request is that one.
   */
  lemma CardRequestStatusIsThePendingRequest(s: FriendState, me: Id, target: Id, rid: Id)
    requires RelationInv(s) && rid in s.requests && PendingFromTo(s.requests[rid], me, target)
    ensures CardRequestStatus(s.requests, me, target) == Some(Sent(rid))
  {
  }

  /** Both users see the same pending request, one as sent and the other as received. */
  lemma CardRequestStatusMirrors(requests: map<Id, CardRequest>, me: Id, target: Id)
    requires HasPending(requests, me, target) && !HasPending(requests, target, me)
    ensures CardRequestStatus(requests, me, target).value.Sent?
    ensures CardRequestStatus(requests, target, me).value.Received?
  {
  }

  // ---------------------------------------------------------------------
  // doSearchAlumni: the filter, the page size and the page window
  // ---------------------------------------------------------------------

  /**
   * The search parameters. A 0 year or an empty string is a criterion that
   * was not given; `pageSize` is `None` when the caller left it out.
   */
  datatype SearchParams = SearchParams(
    enrollmentYear: int,
    college: string,
    major: string,
    industry: string,
    city: string,
    province: string,
    interests: seq<string>,
    cursor: string,
    pageSize: Option<int>)

  /** `Math.min(Math.max(1, pageSize), 50)` with the default of 20 for a missing size. */
  function PageLimit(pageSize: Option<int>): (l: int)
    ensures 1 <= l <= MaxPageSize
    ensures pageSize.None? ==> l == DefaultPageSize
    ensures pageSize.Some? && 1 <= pageSize.value <= MaxPageSize ==> l == pageSize.value
    ensures pageSize.Some? && pageSize.value < 1 ==> l == 1
    ensures pageSize.Some? && pageSize.value > MaxPageSize ==> l == MaxPageSize
  {
    var size := if pageSize.Some? then pageSize.value else DefaultPageSize;
    var atLeastOne := if size < 1 then 1 else size;
    if atLeastOne > MaxPageSize then MaxPageSize else atLeastOne
  }

  predicate ProfileStrIs(u: User, key: string, s: string)
  {
    key in u.profile && u.profile[key] == Str(s)
  }

  /** `interests: dbCmd.in(list)` on a list field: some stored interest is in the list. */
  predicate InterestMatches(u: User, interests: seq<string>)
  {
    "interests" in u.profile &&
    match u.profile["interests"]
    case StrList(items) => exists i :: 0 <= i < |items| && items[i] in interests
    case Str(s) => s in interests
    case _ => false
  }

  /**
   * The optional criteria. Each condition on `educations.*` is met by some
   * entry of the list on its own, so year, college and major may come from
   * different entries.
   */
  predicate CriteriaMatch(u: User, p: SearchParams)
  {
    var edus := EducationsOf(u);
    && (p.enrollmentYear != 0 ==> exists i :: 0 <= i < |edus| && edus[i].enrollmentYear == p.enrollmentYear)
    && (p.college != "" ==> exists i :: 0 <= i < |edus| && edus[i].college == p.college)
    && (p.major != "" ==> exists i :: 0 <= i < |edus| && edus[i].major == p.major)
    && (p.industry != "" ==> ProfileStrIs(u, "industry", p.industry))
    && (p.city != "" ==> ProfileStrIs(u, "city", p.city))
    && (p.province != "" ==> ProfileStrIs(u, "province", p.province))
    && (|p.interests| > 0 ==> InterestMatches(u, p.interests))
  }

  /**
   * The match stage as written: verified, not hidden, and then the `_id`
   * condition, which is "not the caller" without a cursor and "after the
   * cursor" with one (the second replaces the first).
   */
  predicate Matches(users: map<Id, User>, id: Id, uid: Id, p: SearchParams)
  {
    && id in users
    && IsVerified(users[id])
    && !FlagIsFalse(users[id], "profileVisible")
    && CriteriaMatch(users[id], p)
    && (if p.cursor != "" then Less(p.cursor, id) else id != uid)
  }

  /** Strictly increasing ids: the `sort({_id: 1})` order of distinct document ids. */
  predicate Ascending(ids: seq<Id>)
  {
    forall i, j :: 0 <= i < j < |ids| ==> Less(ids[i], ids[j])
  }

  /**
   * `data` is what the aggregation returns with `limit(limit + 1)`: matching
   * ids in ascending order, the first ones of all the matching ids.
   */
  ghost predicate IsQueryResult(users: map<Id, User>, uid: Id, p: SearchParams, limit: int, data: seq<Id>)
  {
    && |data| <= limit + 1
    && Ascending(data)
    && (forall i :: 0 <= i < |data| ==> Matches(users, data[i], uid, p))
    && (forall id :: Matches(users, id, uid, p) && id !in data ==>
          |data| == limit + 1 && |data| > 0 && Less(data[|data| - 1], id))
  }

  /** One page of results: the ids of the rows, whether more follow, and the cursor for the next page. */
  datatype Page = Page(list: seq<Id>, hasMore: bool, cursor: Option<Id>)

  /** Cuts the `limit + 1` rows of the query down to a page. */
  function Window(data: seq<Id>, limit: int): (pg: Page)
    requires limit >= 1
    ensures pg.hasMore <==> |data| > limit
    ensures |pg.list| <= limit && pg.list <= data
    ensures !pg.hasMore ==> pg.list == data
    ensures pg.hasMore ==> |pg.list| == limit
    ensures pg.cursor.None? <==> |pg.list| == 0
    ensures pg.cursor.Some? ==> pg.cursor.value == pg.list[|pg.list| - 1]
  {
    var hasMore := |data| > limit;
    var list := if hasMore then data[..limit] else data;
    Page(list, hasMore, if |list| > 0 then Some(list[|list| - 1]) else None)
  }

  /**
   * Some row of the page stores `educations` as a string, number or boolean:
   * deriving its `primaryEducation` calls `find` on a value without it.
   */
  predicate PageThrows(users: map<Id, User>, list: seq<Id>)
  {
    exists i :: 0 <= i < |list| && list[i] in users && EducationsNotAList(users[list[i]])
  }

  /**
   * `searchAlumni(params)`: the caller must be signed in; `data` is the
   * query's answer, cut down to a page whose rows then get their primary
   * education, which throws on a row whose `educations` is not a list.
   */
  function SearchAlumni(users: map<Id, User>, uid: Id, p: SearchParams, data: seq<Id>): (r: Result<Page>)
    ensures uid == "" <==> r == Err(TokenInvalid)
    ensures r == Err(ScriptTypeError) <==>
      uid != "" && exists id :: id in Window(data, PageLimit(p.pageSize)).list && id in users && EducationsNotAList(users[id])
    ensures r.Ok? <==>
      uid != "" && forall id :: id in Window(data, PageLimit(p.pageSize)).list && id in users ==> !EducationsNotAList(users[id])
    ensures r.Ok? ==> r.value == Window(data, PageLimit(p.pageSize))
  {
    var pg := Window(data, PageLimit(p.pageSize));
    if uid == "" then Err(TokenInvalid)
    else if PageThrows(users, pg.list) then Err(ScriptTypeError)
    else Ok(pg)
  }

  /**
   * Every listed row matches, is verified and visible; without a cursor it
   * is never the caller, with one it comes after the cursor.
   */
  lemma SearchRowsMatch(users: map<Id, User>, uid: Id, p: SearchParams, data: seq<Id>, id: Id)
    requires IsQueryResult(users, uid, p, PageLimit(p.pageSize), data)
    requires SearchAlumni(users, uid, p, data).Ok? && id in SearchAlumni(users, uid, p, data).value.list
    ensures id in users && IsVerified(users[id]) && !FlagIsFalse(users[id], "profileVisible")
    ensures CriteriaMatch(users[id], p)
    ensures p.cursor == "" ==> id != uid
    ensures p.cursor != "" ==> Less(p.cursor, id)
  {
    var pg := Window(data, PageLimit(p.pageSize));
    var i :| 0 <= i < |pg.list| && pg.list[i] == id;
    assert data[i] == id;
  }

  /**
   * Paging skips nothing: a matching id after the cursor that is not on
   * the page comes after the page's own cursor, so the next page can reach
   * it; and when no more rows follow, every matching id is on the page.
   */
  lemma {:induction false} NextPageReachesRest(users: map<Id, User>, uid: Id, p: SearchParams, data: seq<Id>, id: Id)
    requires IsQueryResult(users, uid, p, PageLimit(p.pageSize), data)
    requires Matches(users, id, uid, p)
    ensures var pg := Window(data, PageLimit(p.pageSize));
      id !in pg.list ==> pg.hasMore && pg.cursor.Some? && Less(pg.cursor.value, id)
  {
    var limit := PageLimit(p.pageSize);
    var pg := Window(data, limit);
    assert forall i :: 0 <= i < |pg.list| ==> pg.list[i] == data[i];
    if id !in pg.list {
      if id in data {
        var i :| 0 <= i < |data| && data[i] == id;
        assert i == limit;
        assert Less(data[limit - 1], data[limit]);
      } else {
        LessTransitive(data[limit - 1], data[limit], id);
      }
    }
  }

  /**
   * With a cursor the caller is not excluded: a verified, visible caller
   * whose id is after the cursor and who meets the criteria matches their
   * own search.
   */
  lemma CursorAdmitsCaller(users: map<Id, User>, uid: Id, p: SearchParams)
    requires uid in users && IsVerified(users[uid]) && !FlagIsFalse(users[uid], "profileVisible")
    requires CriteriaMatch(users[uid], p) && p.cursor != "" && Less(p.cursor, uid)
    ensures Matches(users, uid, uid, p)
  {
  }

  /** Without a cursor the caller never matches their own search. */
  lemma FirstPageExcludesCaller(users: map<Id, User>, uid: Id, p: SearchParams)
    requires p.cursor == ""
    ensures !Matches(users, uid, uid, p)
  {
  }

  // ---------------------------------------------------------------------
  // getAlumniDetail
  // ---------------------------------------------------------------------

  /** The profile keys the detail query reads. */
  const DetailFields: seq<string> := [
    "avatar", "realName", "nickname", "gender", "educations", "currentCompany", "currentPosition",
    "industry", "province", "city", "interests", "bio", "contactVisible", "mobile", "email"]

  /** The detail view of an alumnus. */
  datatype AlumniDetail = AlumniDetail(
    id: Id,
    alumniStatus: Option<int>,
    alumniVerifyTime: Option<int>,
    friendCount: int,
    profile: map<string, Value>,
    isFriend: bool,
    cardRequestStatus: Option<RequestView>)

  /** The first check of `getAlumniDetail` that fails, if any. */
  function DetailError(users: map<Id, User>, uid: Id, userId: Id): (e: Option<ErrCode>)
    ensures e.None? <==> uid != "" && userId != "" && userId in users && IsVerified(users[userId])
  {
    if uid == "" then Some(TokenInvalid)
    else if userId == "" then Some(InvalidParam)
    else if userId !in users then Some(UserNotFound)
    else if !IsVerified(users[userId]) then Some(NotVerified)
    else None
  }

  /** Contact fields are shown only to a friend, and only when the owner has not hidden them. */
  predicate ShowsContact(friends: map<Id, Friendship>, u: User, uid: Id, userId: Id)
  {
    IsFriend(friends, uid, userId) && !FlagIsFalse(u, "contactVisible")
  }

  /** The profile the detail view returns: the read fields, without mobile and email unless shown. */
  function DetailProfile(u: User, show: bool): (m: map<string, Value>)
    ensures !show ==> "mobile" !in m && "email" !in m
    ensures forall k :: k in m ==> k in u.profile && m[k] == u.profile[k] && k in DetailFields
    ensures forall k :: k in u.profile && k in DetailFields && (show || (k != "mobile" && k != "email")) ==> k in m
  {
    var read := Restrict(u.profile, DetailFields);
    if show then read else read - {"mobile", "email"}
  }

  /** `getAlumniDetail(userId)`. */
  ghost function AlumniDetailOf(users: map<Id, User>, friends: map<Id, Friendship>, requests: map<Id, CardRequest>,
                                uid: Id, userId: Id): (r: Result<AlumniDetail>)
    ensures DetailError(users, uid, userId).Some? ==> r == Err(DetailError(users, uid, userId).value)
    ensures DetailError(users, uid, userId).None? ==> r.Ok?
    ensures r.Ok? ==> r.value.isFriend == IsFriend(friends, uid, userId)
    ensures r.Ok? ==> r.value.cardRequestStatus == CardRequestStatus(requests, uid, userId)
    ensures r.Ok? && ("mobile" in r.value.profile || "email" in r.value.profile) ==>
      r.value.isFriend && !FlagIsFalse(users[userId], "contactVisible")
  {
    var e := DetailError(users, uid, userId);
    if e.Some? then Err(e.value)
    else
      var u := users[userId];
      Ok(AlumniDetail(userId, u.alumniStatus, u.alumniVerifyTime, u.friendCount,
                      DetailProfile(u, ShowsContact(friends, u, uid, userId)),
                      IsFriend(friends, uid, userId), CardRequestStatus(requests, uid, userId)))
  }

  /** A friend who has not hidden their contact fields shows the stored mobile and email. */
  lemma FriendSeesContact(users: map<Id, User>, friends: map<Id, Friendship>, requests: map<Id, CardRequest>,
                          uid: Id, userId: Id)
    requires DetailError(users, uid, userId).None?
    requires IsFriend(friends, uid, userId) && !FlagIsFalse(users[userId], "contactVisible")
    ensures var r := AlumniDetailOf(users, friends, requests, uid, userId);
      ("mobile" in users[userId].profile ==> r.value.profile["mobile"] == users[userId].profile["mobile"]) &&
      ("email" in users[userId].profile ==> r.value.profile["email"] == users[userId].profile["email"])
  {
  }

  /** Whether the contact fields show is the same from both sides of a friendship. */
  lemma ContactVisibilityNeedsFriendship(friends: map<Id, Friendship>, u: User, uid: Id, userId: Id)
    ensures ShowsContact(friends, u, uid, userId) <==> IsFriend(friends, userId, uid) && !FlagIsFalse(u, "contactVisible")
  {
    IsFriendSymmetric(friends, uid, userId);
  }

  // ---------------------------------------------------------------------
  // getSameYearAlumni
  // ---------------------------------------------------------------------

  /** What a neighbour list does: answer an empty page at once, or run a search. */
  datatype SearchPlan = EmptyPage | RunSearch(params: SearchParams)

  /** The enrollment year of the caller's primary education, if it has one. */
  function PrimaryYear(users: map<Id, User>, uid: Id): (y: Option<int>)
    ensures y.Some? <==> uid in users && PrimaryEducation(EducationsOf(users[uid])).Some?
                         && PrimaryEducation(EducationsOf(users[uid])).value.enrollmentYear != 0
    ensures y.Some? ==> y.value == PrimaryEducation(EducationsOf(users[uid])).value.enrollmentYear
    ensures y.Some? ==> exists e :: e in EducationsOf(users[uid]) && e.enrollmentYear == y.value
  {
    if uid !in users then None
    else match PrimaryEducation(EducationsOf(users[uid]))
      case None => None
      case Some(e) => if e.enrollmentYear == 0 then None else Some(e.enrollmentYear)
  }

  /**
   * A stored `educations` that is truthy but not a list: looking for its
   * primary entry calls a method the value does not have, a TypeError.
   */
  predicate EducationsThrow(users: map<Id, User>, uid: Id)
  {
    uid in users && EducationsNotAList(users[uid]) && Truthy(users[uid].profile["educations"])
  }

  /** `getSameYearAlumni({pageSize, cursor})`: a search on the caller's primary enrollment year. */
  function SameYearAlumni(users: map<Id, User>, uid: Id, pageSize: Option<int>, cursor: string): (r: Result<SearchPlan>)
    ensures uid == "" <==> r == Err(TokenInvalid)
    ensures r == Err(ScriptTypeError) <==> uid != "" && EducationsThrow(users, uid)
    ensures r.Ok? <==> uid != "" && !EducationsThrow(users, uid)
    ensures r.Ok? ==> (r.value == EmptyPage <==> PrimaryYear(users, uid).None?)
    ensures r.Ok? && r.value.RunSearch? ==>
      r.value.params.enrollmentYear == PrimaryYear(users, uid).value && r.value.params.cursor == cursor
      && r.value.params.college == "" && r.value.params.major == "" && r.value.params.city == ""
      && r.value.params.industry == "" && r.value.params.province == "" && r.value.params.interests == []
  {
    if uid == "" then Err(TokenInvalid)
    else if EducationsThrow(users, uid) then Err(ScriptTypeError)
    else match PrimaryYear(users, uid)
      case None => Ok(EmptyPage)
      case Some(y) =>
        var size := if pageSize.Some? then pageSize.value else NeighbourPageSize;
        Ok(RunSearch(SearchParams(y, "", "", "", "", "", [], cursor, Some(size))))
  }

  /** The empty page the neighbour lists answer with: no rows, no more, no cursor. */
  function EmptyResult(): (pg: Page)
    ensures pg.list == [] && !pg.hasMore && pg.cursor.None?
    ensures pg == Window([], 1)
  {
    Page([], false, None)
  }

  /** Every alumnus a same-year search lists shares an enrollment year with the caller's primary education. */
  lemma SameYearRowsShareYear(users: map<Id, User>, uid: Id, pageSize: Option<int>, cursor: string, data: seq<Id>, id: Id)
    requires SameYearAlumni(users, uid, pageSize, cursor).Ok?
    requires SameYearAlumni(users, uid, pageSize, cursor).value.RunSearch?
    requires var p := SameYearAlumni(users, uid, pageSize, cursor).value.params;
      IsQueryResult(users, uid, p, PageLimit(p.pageSize), data)
      && SearchAlumni(users, uid, p, data).Ok? && id in SearchAlumni(users, uid, p, data).value.list
    ensures id in users
    ensures exists e :: e in EducationsOf(users[id]) && e.enrollmentYear == PrimaryYear(users, uid).value
  {
    var p := SameYearAlumni(users, uid, pageSize, cursor).value.params;
    SearchRowsMatch(users, uid, p, data, id);
    var edus := EducationsOf(users[id]);
    var i :| 0 <= i < |edus| && edus[i].enrollmentYear == p.enrollmentYear;
    assert edus[i] in edus;
  }
}
