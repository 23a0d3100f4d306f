/**
 * The organization cloud object: creating and updating alumni
 * organizations, and the membership workflow (apply, approve or reject,
 * leave) with the organization's member count kept in step.
 */
module Organization {
  import opened Common
  import opened Text
  import opened Records
  import opened Store

  const OrgTypes: seq<string> := ["regional", "industry", "college", "interest"]

  /** The keys `update` copies from the request when they are defined. */
  const OrgUpdateFields: seq<string> :=
    ["name", "logo", "cover", "description", "announcement", "region", "industry", "college", "interest"]

  /** Organization status: 1 is active; 0 also blocks the name. */
  const OrgActive := 1

  // ---------------------------------------------------------------------
  // Member records
  // ---------------------------------------------------------------------

  /** A record that is applied for or active (`status in [0, 1]`). */
  predicate Live(m: Member)
  {
    m.status == MemberApplied || m.status == MemberActive
  }

  predicate LiveRecord(m: Member, orgId: Id, uid: Id)
  {
    m.organizationId == orgId && m.userId == uid && Live(m)
  }

  predicate ActiveRecord(m: Member, orgId: Id, uid: Id)
  {
    m.organizationId == orgId && m.userId == uid && m.status == MemberActive
  }

  /** The record `checkAdminPermission` looks for: an active creator or admin of the organization. */
  predicate AdminRecord(m: Member, orgId: Id, uid: Id)
  {
    ActiveRecord(m, orgId, uid) && (m.role == "creator" || m.role == "admin")
  }

  predicate IsOrgAdmin(members: map<Id, Member>, orgId: Id, uid: Id)
  {
    exists mid :: mid in members && AdminRecord(members[mid], orgId, uid)
  }

  /** `checkAdminPermission(organizationId, uid)`: NO_PERMISSION unless the user manages the organization. */
  function AdminPermissionError(members: map<Id, Member>, orgId: Id, uid: Id): (e: Option<ErrCode>)
    ensures e.None? <==> IsOrgAdmin(members, orgId, uid)
    ensures e.Some? ==> e.value == NoPermission
  {
    if IsOrgAdmin(members, orgId, uid) then None else Some(NoPermission)
  }

  function ActiveMembers(members: map<Id, Member>, orgId: Id): set<Id>
  {
    set mid | mid in members && members[mid].organizationId == orgId && members[mid].status == MemberActive
  }

  lemma ActiveAfterPut(members: map<Id, Member>, mid: Id, m: Member, orgId: Id)
    ensures ActiveMembers(members[mid := m], orgId) ==
      (ActiveMembers(members, orgId) - {mid}) + (if m.organizationId == orgId && m.status == MemberActive then {mid} else {})
  {
  }

  /** A record that joins or leaves the active set moves the count of its organization by one. */
  lemma ActiveCountAfterPut(members: map<Id, Member>, mid: Id, m: Member, orgId: Id)
    requires mid in members ==> members[mid].status != MemberActive || members[mid].organizationId == m.organizationId
    ensures |ActiveMembers(members[mid := m], orgId)| ==
      |ActiveMembers(members, orgId)|
      - (if mid in members && members[mid].organizationId == orgId && members[mid].status == MemberActive then 1 else 0)
      + (if m.organizationId == orgId && m.status == MemberActive then 1 else 0)
  {
    ActiveAfterPut(members, mid, m, orgId);
    if mid in members && members[mid].organizationId == orgId && members[mid].status == MemberActive {
      assert mid in ActiveMembers(members, orgId);
    } else {
      assert mid !in ActiveMembers(members, orgId);
    }
  }

  // ---------------------------------------------------------------------
  // Invariants
  // ---------------------------------------------------------------------

  /**
   * Every member record belongs to an existing organization, every
   * organization's member count is the number of its active records, and a
   * user has at most one live record per organization.
   */
  ghost predicate OrgInv(orgs: map<Id, Organization>, members: map<Id, Member>)
  {
    && (forall mid :: mid in members ==> members[mid].organizationId in orgs)
    && (forall oid :: oid in orgs ==> orgs[oid].memberCount == |ActiveMembers(members, oid)|)
    && (forall m1, m2 :: m1 in members && m2 in members && m1 != m2 && Live(members[m1]) && Live(members[m2])
          && members[m1].organizationId == members[m2].organizationId
          ==> members[m1].userId != members[m2].userId)
  }

  /** An organization that still holds its name (`status in [0, 1]`). */
  predicate HoldsName(o: Organization)
  {
    o.status == 0 || o.status == OrgActive
  }

  /** No two organizations that hold their names share a non-empty name. */
  ghost predicate NamesUnique(orgs: map<Id, Organization>)
  {
    forall o1, o2 :: o1 in orgs && o2 in orgs && o1 != o2 && HoldsName(orgs[o1]) && HoldsName(orgs[o2])
      && orgs[o1].name != ""
      ==> orgs[o1].name != orgs[o2].name
  }

  /** Some organization other than `except` holds `name`. */
  predicate NameTaken(orgs: map<Id, Organization>, name: string, except: Option<Id>)
  {
    exists oid :: oid in orgs && Some(oid) != except && HoldsName(orgs[oid]) && orgs[oid].name == name
  }

  /** Adds `delta` to an organization's member count; a missing organization is left alone. */
  function AdjustMemberCount(orgs: map<Id, Organization>, orgId: Id, delta: int, now: int): (r: map<Id, Organization>)
    ensures r.Keys == orgs.Keys
    ensures forall k :: k in orgs && k != orgId ==> r[k] == orgs[k]
    ensures orgId in orgs ==> r[orgId] == orgs[orgId].(memberCount := orgs[orgId].memberCount + delta, updateTime := now)
  {
    if orgId in orgs then orgs[orgId := orgs[orgId].(memberCount := orgs[orgId].memberCount + delta, updateTime := now)]
    else orgs
  }

  /** Changing one record's status and the count of its organization by the same amount keeps the invariant. */
  lemma {:induction false} StatusChangeKeepsOrgInv(orgs: map<Id, Organization>, members: map<Id, Member>, mid: Id, m: Member, delta: int, now: int)
    requires OrgInv(orgs, members) && mid in members
    requires m.organizationId == members[mid].organizationId && m.userId == members[mid].userId
    requires Live(m) ==> Live(members[mid])
    requires delta == (if m.status == MemberActive then 1 else 0) - (if members[mid].status == MemberActive then 1 else 0)
    ensures OrgInv(AdjustMemberCount(orgs, m.organizationId, delta, now), members[mid := m])
  {
    var orgs' := AdjustMemberCount(orgs, m.organizationId, delta, now);
    var members' := members[mid := m];
    forall oid | oid in orgs'
      ensures orgs'[oid].memberCount == |ActiveMembers(members', oid)|
    {
      ActiveCountAfterPut(members, mid, m, oid);
    }
  }

  /** Changing a record between statuses that are not active keeps the invariant with the counts untouched. */
  lemma InactiveChangeKeepsOrgInv(orgs: map<Id, Organization>, members: map<Id, Member>, mid: Id, m: Member)
    requires OrgInv(orgs, members) && mid in members
    requires m.organizationId == members[mid].organizationId && m.userId == members[mid].userId
    requires Live(m) ==> Live(members[mid])
    requires m.status != MemberActive && members[mid].status != MemberActive
    ensures OrgInv(orgs, members[mid := m])
  {
    forall oid | oid in orgs
      ensures orgs[oid].memberCount == |ActiveMembers(members[mid := m], oid)|
    {
      ActiveCountAfterPut(members, mid, m, oid);
    }
  }

  /** Adding a record that is neither active nor a second live record of its user keeps the invariant. */
  lemma AddRecordKeepsOrgInv(orgs: map<Id, Organization>, members: map<Id, Member>, mid: Id, m: Member)
    requires OrgInv(orgs, members) && mid !in members && m.organizationId in orgs
    requires m.status != MemberActive
    requires Live(m) ==> !exists k :: k in members && LiveRecord(members[k], m.organizationId, m.userId)
    ensures OrgInv(orgs, members[mid := m])
  {
    forall oid | oid in orgs
      ensures orgs[oid].memberCount == |ActiveMembers(members[mid := m], oid)|
    {
      ActiveCountAfterPut(members, mid, m, oid);
    }
    var members' := members[mid := m];
    forall m1, m2 | m1 in members' && m2 in members' && m1 != m2 && Live(members'[m1]) && Live(members'[m2])
          && members'[m1].organizationId == members'[m2].organizationId
      ensures members'[m1].userId != members'[m2].userId
    {
      if m1 == mid {
        assert !LiveRecord(members[m2], m.organizationId, m.userId);
      } else if m2 == mid {
        assert !LiveRecord(members[m1], m.organizationId, m.userId);
      }
    }
  }

  /** A new organization id has no records yet. */
  lemma NoActiveMembersOfNewOrg(orgs: map<Id, Organization>, members: map<Id, Member>, oid: Id)
    requires forall mid :: mid in members ==> members[mid].organizationId in orgs
    requires oid !in orgs
    ensures ActiveMembers(members, oid) == {}
  {
  }

  /** Adding a new organization together with its one active record keeps the invariant. */
  lemma {:induction false} AddOrganizationKeepsOrgInv(orgs: map<Id, Organization>, members: map<Id, Member>, oid: Id, o: Organization, mid: Id, m: Member)
    requires OrgInv(orgs, members) && oid !in orgs && mid !in members
    requires o.memberCount == 1 && m.organizationId == oid && m.status == MemberActive
    ensures OrgInv(orgs[oid := o], members[mid := m])
  {
    var orgs' := orgs[oid := o];
    var members' := members[mid := m];
    NoActiveMembersOfNewOrg(orgs, members, oid);
    forall k | k in orgs'
      ensures orgs'[k].memberCount == |ActiveMembers(members', k)|
    {
      ActiveCountAfterPut(members, mid, m, k);
    }
    forall m1, m2 | m1 in members' && m2 in members' && m1 != m2 && Live(members'[m1]) && Live(members'[m2])
          && members'[m1].organizationId == members'[m2].organizationId
      ensures members'[m1].userId != members'[m2].userId
    {
      if m1 != mid && m2 != mid {
        assert members'[m1] == members[m1] && members'[m2] == members[m2];
      }
    }
    assert forall k :: k in members' ==> members'[k].organizationId in orgs';
  }

  /** Adding an organization under a non-empty name nobody holds keeps names unique. */
  lemma AddNameKeepsNamesUnique(orgs: map<Id, Organization>, oid: Id, o: Organization)
    requires NamesUnique(orgs) && oid !in orgs && o.name != "" && !NameTaken(orgs, o.name, None)
    ensures NamesUnique(orgs[oid := o])
  {
  }

  // ---------------------------------------------------------------------
  // create
  // ---------------------------------------------------------------------

  /** The fields `create` reads from its request; the empty string is a missing value. */
  datatype OrgInput = OrgInput(
    name: string,
    orgType: string,
    logo: string,
    cover: string,
    description: string,
    region: string,
    industry: string,
    college: string,
    interest: string)

  /** The first check of `create` that fails, if any. */
  function CreateError(orgs: map<Id, Organization>, uid: Id, input: OrgInput): (e: Option<ErrCode>)
    ensures e.None? <==>
      && uid != "" && Trim(input.name) != "" && input.orgType in OrgTypes
      && !NameTaken(orgs, Trim(input.name), None)
  {
    if uid == "" then Some(TokenInvalid)
    else if input.name == "" || Trim(input.name) == "" then Some(InvalidParam)
    else if input.orgType !in OrgTypes then Some(InvalidParam)
    else if NameTaken(orgs, Trim(input.name), None) then Some(NameExists)
    else None
  }

  /** The type-specific key stored for the organization's own type, when it was given. */
  function TypeInfo(input: OrgInput): (m: map<string, string>)
    ensures forall k :: k in m ==> m[k] != ""
    ensures "region" in m <==> input.orgType == "regional" && input.region != ""
    ensures "industry" in m <==> input.orgType == "industry" && input.industry != ""
    ensures "college" in m <==> input.orgType == "college" && input.college != ""
    ensures "interest" in m <==> input.orgType == "interest" && input.interest != ""
    ensures |m.Keys| <= 1
  {
    if input.orgType == "regional" && input.region != "" then map["region" := input.region]
    else if input.orgType == "industry" && input.industry != "" then map["industry" := input.industry]
    else if input.orgType == "college" && input.college != "" then map["college" := input.college]
    else if input.orgType == "interest" && input.interest != "" then map["interest" := input.interest]
    else map[]
  }

  /** The organization `create` stores: trimmed name, one member, no activities, active. */
  function NewOrganization(input: OrgInput, uid: Id, now: int): (o: Organization)
    ensures o.name == Trim(input.name) && o.orgType == input.orgType && o.creatorId == uid
    ensures o.memberCount == 1 && o.activityCount == 0 && o.status == OrgActive
  {
    var info := map["logo" := input.logo, "cover" := input.cover, "description" := input.description, "announcement" := ""];
    Organization(Trim(input.name), input.orgType, info + TypeInfo(input), uid, 1, 0, OrgActive, now, now)
  }

  /** The creator's own member record. */
  function CreatorRecord(orgId: Id, uid: Id, now: int): (m: Member)
    ensures AdminRecord(m, orgId, uid) && m.role == "creator"
  {
    Member(orgId, uid, "creator", MemberActive, Some(now), now, now)
  }

  /** Creating an organization keeps both invariants, and its creator manages it. */
  lemma CreateKeepsInvariants(orgs: map<Id, Organization>, members: map<Id, Member>, uid: Id,
                              input: OrgInput, now: int, newOrgId: Id, newMemberId: Id)
    requires OrgInv(orgs, members) && NamesUnique(orgs)
    requires CreateError(orgs, uid, input).None?
    requires newOrgId !in orgs && newMemberId !in members
    ensures var orgs' := orgs[newOrgId := NewOrganization(input, uid, now)];
      var members' := members[newMemberId := CreatorRecord(newOrgId, uid, now)];
      OrgInv(orgs', members') && NamesUnique(orgs') && IsOrgAdmin(members', newOrgId, uid)
  {
    var o := NewOrganization(input, uid, now);
    var m := CreatorRecord(newOrgId, uid, now);
    AddOrganizationKeepsOrgInv(orgs, members, newOrgId, o, newMemberId, m);
    AddNameKeepsNamesUnique(orgs, newOrgId, o);
    assert AdminRecord(members[newMemberId := m][newMemberId], newOrgId, uid);
  }

  /**
   * `create(data)`: stores the organization and its creator's record in one
   * transaction and returns the new organization's id.
   */
  method Create(db: Database, uid: Id, input: OrgInput, now: int, txFails: bool, newOrgId: Id, newMemberId: Id)
    returns (r: Result<Id>)
    requires newOrgId !in db.organizations && newMemberId !in db.orgMembers
    modifies db`organizations, db`orgMembers
    ensures var e := CreateError(old(db.organizations), uid, input);
      e.Some? ==> r == Err(e.value) && db.organizations == old(db.organizations) && db.orgMembers == old(db.orgMembers)
    ensures CreateError(old(db.organizations), uid, input).None? && txFails ==>
      r == Err(SystemError) && db.organizations == old(db.organizations) && db.orgMembers == old(db.orgMembers)
    ensures CreateError(old(db.organizations), uid, input).None? && !txFails ==>
      && r == Ok(newOrgId)
      && db.organizations == old(db.organizations)[newOrgId := NewOrganization(input, uid, now)]
      && db.orgMembers == old(db.orgMembers)[newMemberId := CreatorRecord(newOrgId, uid, now)]
    ensures OrgInv(old(db.organizations), old(db.orgMembers)) && NamesUnique(old(db.organizations)) ==>
      OrgInv(db.organizations, db.orgMembers) && NamesUnique(db.organizations)
  {
    var e := CreateError(db.organizations, uid, input);
    if e.Some? {
      return Err(e.value);
    }
    if txFails {
      return Err(SystemError);
    }
    var o := NewOrganization(input, uid, now);
    var m := CreatorRecord(newOrgId, uid, now);
    ghost var orgs0, members0 := db.organizations, db.orgMembers;
    db.organizations := db.organizations[newOrgId := o];
    db.orgMembers := db.orgMembers[newMemberId := m];
    r := Ok(newOrgId);
    if OrgInv(orgs0, members0) && NamesUnique(orgs0) {
      CreateKeepsInvariants(orgs0, members0, uid, input, now, newOrgId, newMemberId);
    }
  }

  // ---------------------------------------------------------------------
  // update
  // ---------------------------------------------------------------------

  /** The first check of `update` that fails, if any; only a non-empty name is checked for uniqueness. */
  function UpdateError(orgs: map<Id, Organization>, members: map<Id, Member>, uid: Id, id: Id, data: map<string, string>): (e: Option<ErrCode>)
    ensures e.None? <==>
      && uid != "" && id != "" && IsOrgAdmin(members, id, uid)
      && !("name" in data && data["name"] != "" && NameTaken(orgs, Trim(data["name"]), Some(id)))
  {
    if uid == "" then Some(TokenInvalid)
    else if id == "" then Some(InvalidParam)
    else if !IsOrgAdmin(members, id, uid) then Some(NoPermission)
    else if "name" in data && data["name"] != "" && NameTaken(orgs, Trim(data["name"]), Some(id)) then Some(NameExists)
    else None
  }

  /**
   * The organization after `update`: each whitelisted key the request
   * defines is copied, a non-empty name trimmed; the member count, the
   * creator and the status are untouched.
   */
  function Updated(o: Organization, picked: map<string, string>, now: int): (o': Organization)
    ensures o'.memberCount == o.memberCount && o'.creatorId == o.creatorId && o'.status == o.status
    ensures o'.orgType == o.orgType && o'.updateTime == now
    ensures "name" in picked ==> o'.name == (if picked["name"] != "" then Trim(picked["name"]) else "")
    ensures "name" !in picked ==> o'.name == o.name
    ensures forall k :: k in picked && k != "name" ==> k in o'.info && o'.info[k] == picked[k]
    ensures forall k :: k in o.info && k !in picked ==> k in o'.info && o'.info[k] == o.info[k]
  {
    var name := if "name" in picked then (if picked["name"] != "" then Trim(picked["name"]) else "") else o.name;
    o.(name := name, info := o.info + (picked - {"name"}), updateTime := now)
  }

  /** A successful update keeps member counts, membership and unique names. */
  lemma UpdateKeepsInvariants(orgs: map<Id, Organization>, members: map<Id, Member>, uid: Id, id: Id,
                              data: map<string, string>, now: int)
    requires OrgInv(orgs, members) && NamesUnique(orgs)
    requires UpdateError(orgs, members, uid, id, data).None? && id in orgs
    ensures var orgs' := orgs[id := Updated(orgs[id], Restrict(data, OrgUpdateFields), now)];
      OrgInv(orgs', members) && NamesUnique(orgs')
  {
  }

  /** `update(id, data)`: an organization's creator or administrator edits it. */
  method Update(db: Database, uid: Id, id: Id, data: map<string, string>, now: int) returns (r: Result<Unit>)
    modifies db`organizations
    ensures var e := UpdateError(old(db.organizations), db.orgMembers, uid, id, data);
      e.Some? ==> r == Err(e.value) && db.organizations == old(db.organizations)
    ensures UpdateError(old(db.organizations), db.orgMembers, uid, id, data).None? ==>
      && r == Ok(Unit)
      && db.organizations == if id in old(db.organizations)
         then old(db.organizations)[id := Updated(old(db.organizations)[id], Restrict(data, OrgUpdateFields), now)]
         else old(db.organizations)
    ensures OrgInv(old(db.organizations), db.orgMembers) && NamesUnique(old(db.organizations)) ==>
      OrgInv(db.organizations, db.orgMembers) && NamesUnique(db.organizations)
  {
    var e := UpdateError(db.organizations, db.orgMembers, uid, id, data);
    if e.Some? {
      return Err(e.value);
    }
    var picked := PickFields(data, OrgUpdateFields);
    if id in db.organizations {
      if OrgInv(db.organizations, db.orgMembers) && NamesUnique(db.organizations) {
        UpdateKeepsInvariants(db.organizations, db.orgMembers, uid, id, data, now);
      }
      db.organizations := db.organizations[id := Updated(db.organizations[id], picked, now)];
    }
    r := Ok(Unit);
  }

  // ---------------------------------------------------------------------
  // join
  // ---------------------------------------------------------------------

  /** The checks of `join` before its membership lookup. */
  function JoinError(orgs: map<Id, Organization>, uid: Id, orgId: Id): (e: Option<ErrCode>)
    ensures e.None? <==> uid != "" && orgId != "" && orgId in orgs && orgs[orgId].status == OrgActive
  {
    if uid == "" then Some(TokenInvalid)
    else if orgId == "" then Some(InvalidParam)
    else if orgId !in orgs || orgs[orgId].status != OrgActive then Some(NotFound)
    else None
  }

  predicate HasLiveRecord(members: map<Id, Member>, orgId: Id, uid: Id)
  {
    exists mid :: mid in members && LiveRecord(members[mid], orgId, uid)
  }

  /** The application `join` stores. */
  function Application(orgId: Id, uid: Id, now: int): Member
  {
    Member(orgId, uid, "member", MemberApplied, None, now, now)
  }

  /** An application keeps the invariant: it is not active and is the user's only live record there. */
  lemma JoinKeepsOrgInv(orgs: map<Id, Organization>, members: map<Id, Member>, uid: Id, orgId: Id, now: int, newMemberId: Id)
    requires OrgInv(orgs, members) && orgId in orgs && newMemberId !in members
    requires !HasLiveRecord(members, orgId, uid)
    ensures OrgInv(orgs, members[newMemberId := Application(orgId, uid, now)])
  {
    AddRecordKeepsOrgInv(orgs, members, newMemberId, Application(orgId, uid, now));
  }

  /** After an application every live record of the user in that organization is pending, so applying again is refused as pending. */
  lemma RejoinIsPending(members: map<Id, Member>, uid: Id, orgId: Id, now: int, newMemberId: Id)
    requires !HasLiveRecord(members, orgId, uid)
    ensures var members' := members[newMemberId := Application(orgId, uid, now)];
      && HasLiveRecord(members', orgId, uid)
      && forall mid :: mid in members' && LiveRecord(members'[mid], orgId, uid) ==> members'[mid].status == MemberApplied
  {
    var members' := members[newMemberId := Application(orgId, uid, now)];
    assert LiveRecord(members'[newMemberId], orgId, uid);
  }

  /** `join(organizationId)`: applies for membership of an active organization. */
  method Join(db: Database, uid: Id, orgId: Id, now: int, newMemberId: Id) returns (r: Result<Unit>)
    requires newMemberId !in db.orgMembers
    modifies db`orgMembers
    ensures var e := JoinError(db.organizations, uid, orgId);
      e.Some? ==> r == Err(e.value) && db.orgMembers == old(db.orgMembers)
    ensures JoinError(db.organizations, uid, orgId).None? && HasLiveRecord(old(db.orgMembers), orgId, uid) ==>
      && db.orgMembers == old(db.orgMembers)
      && exists mid :: mid in old(db.orgMembers) && LiveRecord(old(db.orgMembers)[mid], orgId, uid)
           && r == Err(if old(db.orgMembers)[mid].status == MemberApplied then AlreadyPending else AlreadyMember)
    ensures JoinError(db.organizations, uid, orgId).None? && !HasLiveRecord(old(db.orgMembers), orgId, uid) ==>
      r == Ok(Unit) && db.orgMembers == old(db.orgMembers)[newMemberId := Application(orgId, uid, now)]
    ensures OrgInv(db.organizations, old(db.orgMembers)) ==> OrgInv(db.organizations, db.orgMembers)
  {
    var e := JoinError(db.organizations, uid, orgId);
    if e.Some? {
      return Err(e.value);
    }
    if HasLiveRecord(db.orgMembers, orgId, uid) {
      var mid :| mid in db.orgMembers && LiveRecord(db.orgMembers[mid], orgId, uid);
      if db.orgMembers[mid].status == MemberApplied {
        return Err(AlreadyPending);
      }
      return Err(AlreadyMember);
    }
    if OrgInv(db.organizations, db.orgMembers) {
      JoinKeepsOrgInv(db.organizations, db.orgMembers, uid, orgId, now, newMemberId);
    }
    db.orgMembers := db.orgMembers[newMemberId := Application(orgId, uid, now)];
    r := Ok(Unit);
  }

  // ---------------------------------------------------------------------
  // leave
  // ---------------------------------------------------------------------

  /** The checks of `leave` before its membership lookup. */
  function LeaveError(members: map<Id, Member>, uid: Id, orgId: Id): (e: Option<ErrCode>)
    ensures e.None? <==> uid != "" && orgId != "" && exists mid :: mid in members && ActiveRecord(members[mid], orgId, uid)
  {
    if uid == "" then Some(TokenInvalid)
    else if orgId == "" then Some(InvalidParam)
    else if !exists mid :: mid in members && ActiveRecord(members[mid], orgId, uid) then Some(NotMember)
    else None
  }

  /**
   * `leave(organizationId)`: a member other than the creator leaves; the
   * record becomes "left" and the member count drops by one, in one
   * transaction. A creator's record is never changed.
   */
  method Leave(db: Database, uid: Id, orgId: Id, now: int, txFails: bool) returns (r: Result<Unit>)
    modifies db`organizations, db`orgMembers
    ensures var e := LeaveError(old(db.orgMembers), uid, orgId);
      e.Some? ==> r == Err(e.value) && db.organizations == old(db.organizations) && db.orgMembers == old(db.orgMembers)
    ensures LeaveError(old(db.orgMembers), uid, orgId).None? ==>
      exists mid :: mid in old(db.orgMembers) && ActiveRecord(old(db.orgMembers)[mid], orgId, uid)
        && (old(db.orgMembers)[mid].role == "creator" ==>
              r == Err(CreatorCannotLeave) && db.organizations == old(db.organizations) && db.orgMembers == old(db.orgMembers))
        && (old(db.orgMembers)[mid].role != "creator" && txFails ==>
              r == Err(SystemError) && db.organizations == old(db.organizations) && db.orgMembers == old(db.orgMembers))
        && (old(db.orgMembers)[mid].role != "creator" && !txFails ==>
              && r == Ok(Unit)
              && db.orgMembers == old(db.orgMembers)[mid := old(db.orgMembers)[mid].(status := MemberLeft, updateTime := now)]
              && db.organizations == AdjustMemberCount(old(db.organizations), orgId, -1, now))
    ensures OrgInv(old(db.organizations), old(db.orgMembers)) ==> OrgInv(db.organizations, db.orgMembers)
  {
    var e := LeaveError(db.orgMembers, uid, orgId);
    if e.Some? {
      return Err(e.value);
    }
    var mid :| mid in db.orgMembers && ActiveRecord(db.orgMembers[mid], orgId, uid);
    var m := db.orgMembers[mid];
    if m.role == "creator" {
      return Err(CreatorCannotLeave);
    }
    if txFails {
      return Err(SystemError);
    }
    var m' := m.(status := MemberLeft, updateTime := now);
    if OrgInv(db.organizations, db.orgMembers) {
      StatusChangeKeepsOrgInv(db.organizations, db.orgMembers, mid, m', -1, now);
    }
    db.orgMembers := db.orgMembers[mid := m'];
    db.organizations := AdjustMemberCount(db.organizations, orgId, -1, now);
    r := Ok(Unit);
  }

  // ---------------------------------------------------------------------
  // handleJoinRequest
  // ---------------------------------------------------------------------

  /** The first check of `handleJoinRequest` that fails, if any. */
  function JoinRequestError(members: map<Id, Member>, uid: Id, memberId: Id, action: string): (e: Option<ErrCode>)
    ensures e.None? <==>
      && uid != "" && memberId != "" && (action == "approve" || action == "reject")
      && memberId in members && members[memberId].status == MemberApplied
      && IsOrgAdmin(members, members[memberId].organizationId, uid)
  {
    if uid == "" then Some(TokenInvalid)
    else if memberId == "" then Some(InvalidParam)
    else if action != "approve" && action != "reject" then Some(InvalidParam)
    else if memberId !in members then Some(NotFound)
    else if members[memberId].status != MemberApplied then Some(AlreadyProcessed)
    else AdminPermissionError(members, members[memberId].organizationId, uid)
  }

  /** An approved applicant is an active member and is counted; nobody else's record changes. */
  lemma ApprovalCounts(orgs: map<Id, Organization>, members: map<Id, Member>, memberId: Id, now: int)
    requires OrgInv(orgs, members) && memberId in members && members[memberId].status == MemberApplied
    ensures var m := members[memberId];
      var members' := members[memberId := m.(status := MemberActive, joinTime := Some(now), updateTime := now)];
      ActiveMembers(members', m.organizationId) == ActiveMembers(members, m.organizationId) + {memberId}
      && memberId !in ActiveMembers(members, m.organizationId)
  {
    var m := members[memberId];
    ActiveAfterPut(members, memberId, m.(status := MemberActive, joinTime := Some(now), updateTime := now), m.organizationId);
  }

  /**
   * `handleJoinRequest({memberId, action})`: a manager of the organization
   * approves (in one transaction with the count) or rejects an application.
   */
  method HandleJoinRequest(db: Database, uid: Id, memberId: Id, action: string, now: int, txFails: bool) returns (r: Result<Unit>)
    modifies db`organizations, db`orgMembers
    ensures var e := JoinRequestError(old(db.orgMembers), uid, memberId, action);
      e.Some? ==> r == Err(e.value) && db.organizations == old(db.organizations) && db.orgMembers == old(db.orgMembers)
    ensures JoinRequestError(old(db.orgMembers), uid, memberId, action).None? && action == "approve" && txFails ==>
      r == Err(SystemError) && db.organizations == old(db.organizations) && db.orgMembers == old(db.orgMembers)
    ensures JoinRequestError(old(db.orgMembers), uid, memberId, action).None? && action == "approve" && !txFails ==>
      && var m := old(db.orgMembers)[memberId];
         && r == Ok(Unit)
         && db.orgMembers == old(db.orgMembers)[memberId := m.(status := MemberActive, joinTime := Some(now), updateTime := now)]
         && db.organizations == AdjustMemberCount(old(db.organizations), m.organizationId, 1, now)
    ensures JoinRequestError(old(db.orgMembers), uid, memberId, action).None? && action == "reject" ==>
      && r == Ok(Unit)
      && db.orgMembers == old(db.orgMembers)[memberId := old(db.orgMembers)[memberId].(status := MemberRejected, updateTime := now)]
      && db.organizations == old(db.organizations)
    ensures OrgInv(old(db.organizations), old(db.orgMembers)) ==> OrgInv(db.organizations, db.orgMembers)
  {
    var e := JoinRequestError(db.orgMembers, uid, memberId, action);
    if e.Some? {
      return Err(e.value);
    }
    var m := db.orgMembers[memberId];
    if action == "approve" {
      if txFails {
        return Err(SystemError);
      }
      var m' := m.(status := MemberActive, joinTime := Some(now), updateTime := now);
      if OrgInv(db.organizations, db.orgMembers) {
        StatusChangeKeepsOrgInv(db.organizations, db.orgMembers, memberId, m', 1, now);
      }
      db.orgMembers := db.orgMembers[memberId := m'];
      db.organizations := AdjustMemberCount(db.organizations, m.organizationId, 1, now);
    } else {
      var m' := m.(status := MemberRejected, updateTime := now);
      if OrgInv(db.organizations, db.orgMembers) {
        InactiveChangeKeepsOrgInv(db.organizations, db.orgMembers, memberId, m');
      }
      db.orgMembers := db.orgMembers[memberId := m'];
    }
    r := Ok(Unit);
  }
}
