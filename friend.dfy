/**
 * The card-exchange and friendship protocol of the friend cloud object.
 * A card request is pending until its receiver accepts or rejects it, or
 * until a handling attempt finds it lapsed (seven days after sending). An
 * accepted request adds a friendship stored under the sorted id pair; each
 * side can then set its own remark or delete the friendship on its side.
 */
module Friend {
  import opened Common
  import opened Text
  import opened Records
  import opened Store

  const RequestExpireDays := 7

  /** Seven days in milliseconds. */
  const RequestExpireMillis := RequestExpireDays * 24 * 60 * 60 * 1000

  const MaxRemarkLength := 50

  /** The three collections the protocol reads and writes. */
  datatype FriendState = FriendState(requests: map<Id, CardRequest>, friends: map<Id, Friendship>, users: map<Id, User>)

  function StateOf(db: Database): FriendState
    reads db
  {
    FriendState(db.cardRequests, db.friends, db.users)
  }

  // ---------------------------------------------------------------------
  // Pairs, friendships and pending requests
  // ---------------------------------------------------------------------

  /** Two unordered pairs of ids are the same pair. */
  predicate SamePair(a: Id, b: Id, c: Id, d: Id)
  {
    (a == c && b == d) || (a == d && b == c)
  }

  /** The friendship is stored under the sorted pair of `a` and `b` (the store query). */
  predicate OnPair(f: Friendship, a: Id, b: Id)
  {
    var p := SortPair(a, b);
    f.userIdA == p.0 && f.userIdB == p.1
  }

  /** A friendship stored with the smaller id first is on a pair exactly when it links the two ids. */
  lemma OnPairLinks(f: Friendship, a: Id, b: Id)
    requires Less(f.userIdA, f.userIdB)
    ensures OnPair(f, a, b) <==> SamePair(f.userIdA, f.userIdB, a, b)
  {
    LessAsymmetric(f.userIdA, f.userIdB);
    LessIrreflexive(f.userIdA);
  }

  /** `where({userIdA, userIdB, status: 1})` finds this friendship. */
  predicate ActiveOn(f: Friendship, a: Id, b: Id)
  {
    OnPair(f, a, b) && f.status == Normal
  }

  predicate IsFriend(friends: map<Id, Friendship>, a: Id, b: Id)
  {
    exists fid :: fid in friends && ActiveOn(friends[fid], a, b)
  }

  /** Being friends does not depend on who asks. */
  lemma IsFriendSymmetric(friends: map<Id, Friendship>, a: Id, b: Id)
    ensures IsFriend(friends, a, b) <==> IsFriend(friends, b, a)
  {
    SortPairSymmetric(a, b);
  }

  predicate PendingFromTo(q: CardRequest, from: Id, to: Id)
  {
    q.fromUserId == from && q.toUserId == to && q.status == ReqPending
  }

  /** `where({fromUserId, toUserId, status: 0})` finds a request; its expiry time is not looked at. */
  predicate HasPending(requests: map<Id, CardRequest>, from: Id, to: Id)
  {
    exists rid :: rid in requests && PendingFromTo(requests[rid], from, to)
  }

  /** A pending request whose expiry time has passed; an expiry time of 0 never passes. */
  predicate Lapsed(q: CardRequest, now: int)
  {
    q.expireTime != 0 && q.expireTime < now
  }

  // ---------------------------------------------------------------------
  // Invariants of the store
  // ---------------------------------------------------------------------

  /**
   * The relationship invariant: no request to oneself, friendships stored
   * with the smaller id first, at most one pending request per pair in
   * either direction, no pending request between friends, and at most one
   * active friendship per pair.
   */
  ghost predicate RelationInv(s: FriendState)
  {
    && (forall rid :: rid in s.requests ==> s.requests[rid].fromUserId != s.requests[rid].toUserId)
    && (forall fid :: fid in s.friends ==> Less(s.friends[fid].userIdA, s.friends[fid].userIdB))
    && (forall r1, r2 :: r1 in s.requests && r2 in s.requests && r1 != r2
          && s.requests[r1].status == ReqPending && s.requests[r2].status == ReqPending
          ==> !SamePair(s.requests[r1].fromUserId, s.requests[r1].toUserId, s.requests[r2].fromUserId, s.requests[r2].toUserId))
    && (forall rid, fid :: rid in s.requests && fid in s.friends
          && s.requests[rid].status == ReqPending && s.friends[fid].status == Normal
          ==> !SamePair(s.friends[fid].userIdA, s.friends[fid].userIdB, s.requests[rid].fromUserId, s.requests[rid].toUserId))
    && (forall f1, f2 :: f1 in s.friends && f2 in s.friends && f1 != f2
          && s.friends[f1].status == Normal && s.friends[f2].status == Normal
          ==> !SamePair(s.friends[f1].userIdA, s.friends[f1].userIdB, s.friends[f2].userIdA, s.friends[f2].userIdB))
  }

  /** The friendship still appears in `u`'s friend count: `u` is one side and has not deleted it. */
  predicate VisibleTo(f: Friendship, u: Id)
  {
    || (u == f.userIdA && (f.status == Normal || f.status == DeletedByB))
    || (u == f.userIdB && (f.status == Normal || f.status == DeletedByA))
  }

  function VisibleFriendships(friends: map<Id, Friendship>, u: Id): set<Id>
  {
    set fid | fid in friends && VisibleTo(friends[fid], u)
  }

  /** Every stored friend count is the number of friendships its owner has not deleted. */
  ghost predicate CountInv(s: FriendState)
  {
    forall u :: u in s.users ==> s.users[u].friendCount == |VisibleFriendships(s.friends, u)|
  }

  lemma VisibleAfterPut(friends: map<Id, Friendship>, fid: Id, f: Friendship, u: Id)
    ensures VisibleFriendships(friends[fid := f], u) ==
      (VisibleFriendships(friends, u) - {fid}) + (if VisibleTo(f, u) then {fid} else {})
  {
  }

  // ---------------------------------------------------------------------
  // Handling a request (doHandleCardRequest)
  // ---------------------------------------------------------------------

  datatype HandleOutcome = Accepted(friendUserId: Id) | Declined

  /** The first check of `doHandleCardRequest` that fails, if any. */
  function HandleError(requests: map<Id, CardRequest>, uid: Id, rid: Id, action: string): (e: Option<ErrCode>)
    ensures e.None? <==>
      && uid != "" && rid != "" && (action == "accept" || action == "reject")
      && rid in requests && requests[rid].toUserId == uid && requests[rid].status == ReqPending
  {
    if uid == "" then Some(TokenInvalid)
    else if rid == "" then Some(InvalidParam)
    else if action != "accept" && action != "reject" then Some(InvalidParam)
    else if rid !in requests then Some(RequestNotFound)
    else if requests[rid].toUserId != uid then Some(NoPermission)
    else if requests[rid].status != ReqPending then Some(RequestProcessed)
    else None
  }

  /** The friendship an accepted request adds: a new record, stored under the sorted pair. */
  function NewFriendship(q: CardRequest, rid: Id, now: int): (f: Friendship)
    ensures OnPair(f, q.fromUserId, q.toUserId) && f.status == Normal && f.sourceRequestId == rid
    ensures q.fromUserId != q.toUserId ==> Less(f.userIdA, f.userIdB)
  {
    var p := SortPair(q.fromUserId, q.toUserId);
    Friendship(p.0, p.1, rid, Normal, now, None, None, None)
  }

  /**
   * The result and the new state of handling request `rid` with `action`.
   * A lapsed request is marked expired and the call fails; an acceptance is
   * one transaction that either fails as a whole (`txFails`) or marks the
   * request accepted, adds a friendship and counts it for both users.
   */
  function Handle(s: FriendState, uid: Id, rid: Id, action: string, reason: string, now: int,
                  txFails: bool, newFriendId: Id): (out: (Result<HandleOutcome>, FriendState))
    ensures var e := HandleError(s.requests, uid, rid, action); e.Some? ==> out == (Err(e.value), s)
    ensures out.0.Err? ==>
      && out.1.friends == s.friends && out.1.users == s.users && out.1.requests.Keys == s.requests.Keys
      && (forall k :: k in s.requests && k != rid ==> out.1.requests[k] == s.requests[k])
    ensures out.0 == Err(RequestExpired) <==>
      HandleError(s.requests, uid, rid, action).None? && Lapsed(s.requests[rid], now)
    ensures out.0 == Err(RequestExpired) ==> out.1.requests[rid].status == ReqExpired
    ensures out.0.Ok? <==>
      && HandleError(s.requests, uid, rid, action).None? && !Lapsed(s.requests[rid], now)
      && (action == "reject" || !txFails)
    ensures out.0.Ok? && action == "accept" ==>
      && var q := s.requests[rid];
         && out.0.value == Accepted(q.fromUserId)
         && out.1.requests == s.requests[rid := q.(status := ReqAccepted, handleTime := Some(now))]
         && out.1.friends == s.friends[newFriendId := NewFriendship(q, rid, now)]
         && out.1.users == AddFriendCount(AddFriendCount(s.users, q.fromUserId, 1), q.toUserId, 1)
    ensures out.0.Ok? && action == "reject" ==>
      && out.0.value == Declined
      && out.1.requests == s.requests[rid := s.requests[rid].(status := ReqRejected,
           rejectReason := Some(reason), handleTime := Some(now))]
      && out.1.friends == s.friends && out.1.users == s.users
  {
    var e := HandleError(s.requests, uid, rid, action);
    if e.Some? then (Err(e.value), s)
    else
      var q := s.requests[rid];
      if Lapsed(q, now) then
        (Err(RequestExpired), s.(requests := s.requests[rid := q.(status := ReqExpired, handleTime := Some(now))]))
      else if action == "accept" then
        if txFails then (Err(SystemError), s)
        else
          (Ok(Accepted(q.fromUserId)),
           FriendState(
             s.requests[rid := q.(status := ReqAccepted, handleTime := Some(now))],
             s.friends[newFriendId := NewFriendship(q, rid, now)],
             AddFriendCount(AddFriendCount(s.users, q.fromUserId, 1), q.toUserId, 1)))
      else
        (Ok(Declined), s.(requests := s.requests[rid := q.(status := ReqRejected,
           rejectReason := Some(reason), handleTime := Some(now))]))
  }

  /** After an acceptance the two users are friends, whoever asks. */
  lemma AcceptMakesFriends(s: FriendState, uid: Id, rid: Id, now: int, newFriendId: Id)
    requires Handle(s, uid, rid, "accept", "", now, false, newFriendId).0.Ok?
    ensures var q := s.requests[rid]; var s' := Handle(s, uid, rid, "accept", "", now, false, newFriendId).1;
      IsFriend(s'.friends, q.fromUserId, q.toUserId) && IsFriend(s'.friends, q.toUserId, q.fromUserId)
  {
    var q := s.requests[rid];
    var s' := Handle(s, uid, rid, "accept", "", now, false, newFriendId).1;
    assert ActiveOn(s'.friends[newFriendId], q.fromUserId, q.toUserId);
    IsFriendSymmetric(s'.friends, q.fromUserId, q.toUserId);
  }

  /** Marking a pending request as handled keeps the relationship invariant. */
  lemma CloseRequestKeepsRelationInv(s: FriendState, rid: Id, q: CardRequest)
    requires RelationInv(s) && rid in s.requests
    requires q.fromUserId == s.requests[rid].fromUserId && q.toUserId == s.requests[rid].toUserId
    requires q.status != ReqPending
    ensures RelationInv(s.(requests := s.requests[rid := q]))
  {
  }

  /** The state an acceptance writes, as a function of the request and the state before. */
  function AcceptedState(s: FriendState, rid: Id, now: int, newFriendId: Id): FriendState
    requires rid in s.requests
  {
    var q := s.requests[rid];
    FriendState(
      s.requests[rid := q.(status := ReqAccepted, handleTime := Some(now))],
      s.friends[newFriendId := NewFriendship(q, rid, now)],
      AddFriendCount(AddFriendCount(s.users, q.fromUserId, 1), q.toUserId, 1))
  }

  /**
   * Accepting a pending request keeps the relationship invariant: the new
   * friendship is the only active one on its pair, because the pending
   * request excluded an active one and was the only pending request there.
   */
  lemma {:induction false} AcceptKeepsRelationInv(s: FriendState, rid: Id, now: int, newFriendId: Id)
    requires RelationInv(s) && newFriendId !in s.friends
    requires rid in s.requests && s.requests[rid].status == ReqPending
    ensures RelationInv(AcceptedState(s, rid, now, newFriendId))
  {
    var q := s.requests[rid];
    var f := NewFriendship(q, rid, now);
    var s' := AcceptedState(s, rid, now, newFriendId);
    CloseRequestKeepsRelationInv(s, rid, s'.requests[rid]);
    OnPairLinks(f, q.fromUserId, q.toUserId);
    assert SamePair(f.userIdA, f.userIdB, q.fromUserId, q.toUserId);
    forall fid | fid in s.friends && s.friends[fid].status == Normal
      ensures !SamePair(s.friends[fid].userIdA, s.friends[fid].userIdB, f.userIdA, f.userIdB)
    {
    }
    forall r2 | r2 in s'.requests && s'.requests[r2].status == ReqPending
      ensures !SamePair(f.userIdA, f.userIdB, s'.requests[r2].fromUserId, s'.requests[r2].toUserId)
    {
      assert r2 != rid;
    }
  }

  lemma NewFriendshipVisible(q: CardRequest, rid: Id, now: int, u: Id)
    ensures VisibleTo(NewFriendship(q, rid, now), u) <==> u == q.fromUserId || u == q.toUserId
  {
  }

  /** Adding a friendship that `u` sees adds one to the number `u` sees. */
  lemma CountAfterAdd(friends: map<Id, Friendship>, fid: Id, f: Friendship, u: Id)
    requires fid !in friends
    ensures |VisibleFriendships(friends[fid := f], u)| == |VisibleFriendships(friends, u)| + (if VisibleTo(f, u) then 1 else 0)
  {
    VisibleAfterPut(friends, fid, f, u);
    assert fid !in VisibleFriendships(friends, u);
  }

  /** Accepting counts the new friendship once for each of two different users. */
  lemma {:induction false} AcceptKeepsCountInv(s: FriendState, rid: Id, now: int, newFriendId: Id)
    requires CountInv(s) && newFriendId !in s.friends
    requires rid in s.requests && s.requests[rid].fromUserId != s.requests[rid].toUserId
    ensures CountInv(AcceptedState(s, rid, now, newFriendId))
  {
    var q := s.requests[rid];
    var f := NewFriendship(q, rid, now);
    var s' := AcceptedState(s, rid, now, newFriendId);
    forall u | u in s'.users
      ensures s'.users[u].friendCount == |VisibleFriendships(s'.friends, u)|
    {
      CountAfterAdd(s.friends, newFriendId, f, u);
      NewFriendshipVisible(q, rid, now, u);
      assert s'.users[u].friendCount == s.users[u].friendCount + (if u == q.fromUserId || u == q.toUserId then 1 else 0);
    }
  }

  /** Handling a request keeps the relationship invariant and the friend counts. */
  lemma {:induction false} HandleKeepsInvariants(s: FriendState, uid: Id, rid: Id, action: string, reason: string,
                                                 now: int, txFails: bool, newFriendId: Id)
    requires newFriendId !in s.friends
    requires RelationInv(s) && CountInv(s)
    ensures var s' := Handle(s, uid, rid, action, reason, now, txFails, newFriendId).1;
      RelationInv(s') && CountInv(s')
  {
    var out := Handle(s, uid, rid, action, reason, now, txFails, newFriendId);
    if out.1 != s {
      if out.0.Ok? && action == "accept" {
        assert out.1 == AcceptedState(s, rid, now, newFriendId);
        AcceptKeepsRelationInv(s, rid, now, newFriendId);
        AcceptKeepsCountInv(s, rid, now, newFriendId);
      } else {
        CloseRequestKeepsRelationInv(s, rid, out.1.requests[rid]);
        assert out.1 == s.(requests := s.requests[rid := out.1.requests[rid]]);
      }
    }
  }

  /**
   * `handleCardRequest({requestId, action, rejectReason})`: the receiver
   * accepts or rejects a pending request.
   */
  method HandleCardRequest(db: Database, uid: Id, rid: Id, action: string, reason: string, now: int,
                           txFails: bool, newFriendId: Id)
    returns (r: Result<HandleOutcome>)
    requires newFriendId !in db.friends
    modifies db`cardRequests, db`friends, db`users
    ensures (r, StateOf(db)) == Handle(old(StateOf(db)), uid, rid, action, reason, now, txFails, newFriendId)
    ensures RelationInv(old(StateOf(db))) && CountInv(old(StateOf(db))) ==> RelationInv(StateOf(db)) && CountInv(StateOf(db))
  {
    ghost var s0 := StateOf(db);
    if RelationInv(s0) && CountInv(s0) {
      HandleKeepsInvariants(s0, uid, rid, action, reason, now, txFails, newFriendId);
    }
    var e := HandleError(db.cardRequests, uid, rid, action);
    if e.Some? {
      return Err(e.value);
    }
    var q := db.cardRequests[rid];
    if Lapsed(q, now) {
      db.cardRequests := db.cardRequests[rid := q.(status := ReqExpired, handleTime := Some(now))];
      return Err(ErrCode.RequestExpired);
    }
    if action == "accept" {
      if txFails {
        return Err(SystemError);
      }
      db.cardRequests := db.cardRequests[rid := q.(status := ReqAccepted, handleTime := Some(now))];
      db.friends := db.friends[newFriendId := NewFriendship(q, rid, now)];
      db.users := AddFriendCount(db.users, q.fromUserId, 1);
      db.users := AddFriendCount(db.users, q.toUserId, 1);
      r := Ok(Accepted(q.fromUserId));
    } else {
      db.cardRequests := db.cardRequests[rid := q.(status := ReqRejected, rejectReason := Some(reason), handleTime := Some(now))];
      r := Ok(Declined);
    }
  }

  // ---------------------------------------------------------------------
  // Sending a request
  // ---------------------------------------------------------------------

  datatype SendOutcome = RequestSent(requestId: Id) | Handled(outcome: HandleOutcome)

  /** The first check of `sendCardRequest` that fails, if any. */
  function SendError(s: FriendState, uid: Id, to: Id): (e: Option<ErrCode>)
    ensures e.None? <==>
      && uid != "" && to != "" && to != uid
      && uid in s.users && IsVerified(s.users[uid])
      && to in s.users && IsVerified(s.users[to])
      && !IsFriend(s.friends, uid, to) && !HasPending(s.requests, uid, to)
  {
    if uid == "" then Some(TokenInvalid)
    else if to == "" || to == uid then Some(InvalidParam)
    else if uid !in s.users || !IsVerified(s.users[uid]) then Some(NotVerified)
    else if to !in s.users then Some(UserNotFound)
    else if !IsVerified(s.users[to]) then Some(TargetNotVerified)
    else if IsFriend(s.friends, uid, to) then Some(AlreadyFriend)
    else if HasPending(s.requests, uid, to) then Some(ErrCode.RequestPending)
    else None
  }

  /** The request `sendCardRequest` stores: pending, expiring seven days after it was sent. */
  function NewRequest(uid: Id, to: Id, message: string, now: int): (q: CardRequest)
    ensures PendingFromTo(q, uid, to) && q.expireTime == now + RequestExpireMillis
  {
    CardRequest(uid, to, message, ReqPending, now + RequestExpireMillis, now, None, None)
  }

  /** The result of the nested handling call, as `sendCardRequest` returns it. */
  function AsSendResult(out: (Result<HandleOutcome>, FriendState)): (Result<SendOutcome>, FriendState)
  {
    match out.0
    case Ok(h) => (Ok(Handled(h)), out.1)
    case Err(e) => (Err(e), out.1)
  }

  /** A stored request stays pending-and-counted for seven days and lapses only after that. */
  lemma NewRequestLifetime(uid: Id, to: Id, message: string, now: int, t: int)
    requires now >= 0
    ensures var q := NewRequest(uid, to, message, now);
      && (CountedPending(q, to, t) <==> t < now + RequestExpireMillis)
      && (Lapsed(q, t) <==> t > now + RequestExpireMillis)
  {
  }

  /** Once a request is stored, sending it again is refused as pending, even after it lapses. */
  lemma ResendRefused(s: FriendState, uid: Id, to: Id, message: string, now: int, newRequestId: Id)
    requires SendError(s, uid, to).None?
    ensures var s' := s.(requests := s.requests[newRequestId := NewRequest(uid, to, message, now)]);
      SendError(s', uid, to) == Some(ErrCode.RequestPending)
  {
    var s' := s.(requests := s.requests[newRequestId := NewRequest(uid, to, message, now)]);
    assert PendingFromTo(s'.requests[newRequestId], uid, to);
  }

  /** Storing a new request after the checks pass keeps both invariants. */
  lemma {:induction false} SendKeepsInvariants(s: FriendState, uid: Id, to: Id, message: string, now: int, newRequestId: Id)
    requires RelationInv(s) && CountInv(s)
    requires SendError(s, uid, to).None? && !HasPending(s.requests, to, uid)
    requires newRequestId !in s.requests
    ensures var s' := s.(requests := s.requests[newRequestId := NewRequest(uid, to, message, now)]);
      RelationInv(s') && CountInv(s')
  {
    var q := NewRequest(uid, to, message, now);
    var s' := s.(requests := s.requests[newRequestId := q]);
    forall r2 | r2 in s.requests && s.requests[r2].status == ReqPending
      ensures !SamePair(q.fromUserId, q.toUserId, s.requests[r2].fromUserId, s.requests[r2].toUserId)
    {
    }
    forall fid | fid in s.friends && s.friends[fid].status == Normal
      ensures !SamePair(s.friends[fid].userIdA, s.friends[fid].userIdB, q.fromUserId, q.toUserId)
    {
      OnPairLinks(s.friends[fid], uid, to);
    }
  }

  /**
   * `sendCardRequest({toUserId, message})`. When the target already has a
   * pending request to the caller, sending accepts that request instead
   * (which fails as expired when it has lapsed); otherwise one new pending
   * request is stored.
   */
  method SendCardRequest(db: Database, uid: Id, to: Id, message: string, now: int,
                         txFails: bool, newRequestId: Id, newFriendId: Id)
    returns (r: Result<SendOutcome>)
    requires newRequestId !in db.cardRequests && newFriendId !in db.friends
    modifies db`cardRequests, db`friends, db`users
    ensures var e := SendError(old(StateOf(db)), uid, to);
      e.Some? ==> r == Err(e.value) && StateOf(db) == old(StateOf(db))
    ensures SendError(old(StateOf(db)), uid, to).None? && HasPending(old(db.cardRequests), to, uid) ==>
      exists rid :: rid in old(db.cardRequests) && PendingFromTo(old(db.cardRequests)[rid], to, uid)
        && (r, StateOf(db)) == AsSendResult(Handle(old(StateOf(db)), uid, rid, "accept", "", now, txFails, newFriendId))
    ensures SendError(old(StateOf(db)), uid, to).None? && !HasPending(old(db.cardRequests), to, uid) ==>
      && r == Ok(RequestSent(newRequestId))
      && StateOf(db) == old(StateOf(db)).(requests := old(db.cardRequests)[newRequestId := NewRequest(uid, to, message, now)])
    ensures RelationInv(old(StateOf(db))) && CountInv(old(StateOf(db))) ==> RelationInv(StateOf(db)) && CountInv(StateOf(db))
  {
    ghost var s0 := StateOf(db);
    var e := SendError(StateOf(db), uid, to);
    if e.Some? {
      return Err(e.value);
    }
    if HasPending(db.cardRequests, to, uid) {
      var rid :| rid in db.cardRequests && PendingFromTo(db.cardRequests[rid], to, uid);
      var h := HandleCardRequest(db, uid, rid, "accept", "", now, txFails, newFriendId);
      match h
      case Ok(o) => r := Ok(Handled(o));
      case Err(c) => r := Err(c);
      assert (r, StateOf(db)) == AsSendResult(Handle(s0, uid, rid, "accept", "", now, txFails, newFriendId));
    } else {
      if RelationInv(s0) && CountInv(s0) {
        SendKeepsInvariants(s0, uid, to, message, now, newRequestId);
      }
      db.cardRequests := db.cardRequests[newRequestId := NewRequest(uid, to, message, now)];
      r := Ok(RequestSent(newRequestId));
    }
  }

  // ---------------------------------------------------------------------
  // Pending request count
  // ---------------------------------------------------------------------

  /** The filter of `getPendingRequestCount`: pending, to `uid`, expiring strictly after now. */
  predicate CountedPending(q: CardRequest, uid: Id, now: int)
  {
    q.toUserId == uid && q.status == ReqPending && q.expireTime > now
  }

  function PendingRequestCount(requests: map<Id, CardRequest>, uid: Id, now: int): (r: Result<nat>)
    ensures r.Err? <==> uid == ""
  {
    if uid == "" then Err(TokenInvalid)
    else Ok(|set rid | rid in requests && CountedPending(requests[rid], uid, now)|)
  }

  /** Every counted request is one its receiver can still accept at that moment. */
  lemma CountedRequestIsHandleable(requests: map<Id, CardRequest>, uid: Id, rid: Id, now: int)
    requires uid != "" && rid != "" && rid in requests && CountedPending(requests[rid], uid, now)
    ensures HandleError(requests, uid, rid, "accept").None? && !Lapsed(requests[rid], now)
  {
  }

  // ---------------------------------------------------------------------
  // Cancelling a request
  // ---------------------------------------------------------------------

  /** The first check of `cancelCardRequest` that fails, if any. */
  function CancelError(requests: map<Id, CardRequest>, uid: Id, rid: Id): (e: Option<ErrCode>)
    ensures e.None? <==>
      uid != "" && rid != "" && rid in requests && requests[rid].fromUserId == uid && requests[rid].status == ReqPending
  {
    if uid == "" then Some(TokenInvalid)
    else if rid == "" then Some(InvalidParam)
    else if rid !in requests then Some(RequestNotFound)
    else if requests[rid].fromUserId != uid then Some(NoPermission)
    else if requests[rid].status != ReqPending then Some(RequestProcessed)
    else None
  }

  /** After a cancellation no request is pending between the two users, so either may send again. */
  lemma CancelClearsPair(s: FriendState, uid: Id, rid: Id)
    requires RelationInv(s) && CancelError(s.requests, uid, rid).None?
    ensures var q := s.requests[rid];
      !HasPending(s.requests - {rid}, q.fromUserId, q.toUserId) && !HasPending(s.requests - {rid}, q.toUserId, q.fromUserId)
  {
  }

  /** `cancelCardRequest({requestId})`: the sender removes a request that is still pending. */
  method CancelCardRequest(db: Database, uid: Id, rid: Id) returns (r: Result<Unit>)
    modifies db`cardRequests
    ensures var e := CancelError(old(db.cardRequests), uid, rid);
      e.Some? ==> r == Err(e.value) && db.cardRequests == old(db.cardRequests)
    ensures CancelError(old(db.cardRequests), uid, rid).None? ==>
      r == Ok(Unit) && db.cardRequests == old(db.cardRequests) - {rid}
    ensures RelationInv(old(StateOf(db))) && CountInv(old(StateOf(db))) ==> RelationInv(StateOf(db)) && CountInv(StateOf(db))
  {
    var e := CancelError(db.cardRequests, uid, rid);
    if e.Some? {
      return Err(e.value);
    }
    db.cardRequests := db.cardRequests - {rid};
    r := Ok(Unit);
  }

  // ---------------------------------------------------------------------
  // Remarks
  // ---------------------------------------------------------------------

  /** The first check of `setFriendRemark` that fails, if any. */
  function RemarkError(friends: map<Id, Friendship>, uid: Id, friendUserId: Id, remark: string): (e: Option<ErrCode>)
    ensures e.None? <==>
      uid != "" && friendUserId != "" && Utf16Length(remark) <= MaxRemarkLength && IsFriend(friends, uid, friendUserId)
  {
    if uid == "" then Some(TokenInvalid)
    else if friendUserId == "" then Some(InvalidParam)
    else if Utf16Length(remark) > MaxRemarkLength then Some(InvalidParam)
    else if !IsFriend(friends, uid, friendUserId) then Some(NotFriend)
    else None
  }

  /** The caller's side of the friendship gets the remark; the other side's remark is left alone. */
  function Remarked(f: Friendship, isUserA: bool, remark: string, now: int): (g: Friendship)
    ensures isUserA ==> g.remarkA == Some(remark) && g.remarkB == f.remarkB
    ensures !isUserA ==> g.remarkB == Some(remark) && g.remarkA == f.remarkA
    ensures g.userIdA == f.userIdA && g.userIdB == f.userIdB && g.status == f.status && g.updateTime == Some(now)
  {
    if isUserA then f.(remarkA := Some(remark), updateTime := Some(now))
    else f.(remarkB := Some(remark), updateTime := Some(now))
  }

  /** Replacing a friendship by one on the same pair with the same status keeps both invariants. */
  lemma SameLinkKeepsInvariants(s: FriendState, fid: Id, g: Friendship)
    requires RelationInv(s) && CountInv(s) && fid in s.friends
    requires g.userIdA == s.friends[fid].userIdA && g.userIdB == s.friends[fid].userIdB && g.status == s.friends[fid].status
    ensures RelationInv(s.(friends := s.friends[fid := g])) && CountInv(s.(friends := s.friends[fid := g]))
  {
    forall u ensures VisibleFriendships(s.friends[fid := g], u) == VisibleFriendships(s.friends, u) {
      VisibleAfterPut(s.friends, fid, g, u);
    }
  }

  /** `setFriendRemark({friendUserId, remark})`. */
  method SetFriendRemark(db: Database, uid: Id, friendUserId: Id, remark: string, now: int) returns (r: Result<Unit>)
    modifies db`friends
    ensures var e := RemarkError(old(db.friends), uid, friendUserId, remark);
      e.Some? ==> r == Err(e.value) && db.friends == old(db.friends)
    ensures RemarkError(old(db.friends), uid, friendUserId, remark).None? ==>
      && r == Ok(Unit)
      && exists fid :: fid in old(db.friends) && ActiveOn(old(db.friends)[fid], uid, friendUserId)
           && db.friends == old(db.friends)[fid := Remarked(old(db.friends)[fid], uid == SortPair(uid, friendUserId).0, remark, now)]
    ensures RelationInv(old(StateOf(db))) && CountInv(old(StateOf(db))) ==> RelationInv(StateOf(db)) && CountInv(StateOf(db))
  {
    var e := RemarkError(db.friends, uid, friendUserId, remark);
    if e.Some? {
      return Err(e.value);
    }
    var fid :| fid in db.friends && ActiveOn(db.friends[fid], uid, friendUserId);
    var isUserA := uid == SortPair(uid, friendUserId).0;
    var g := Remarked(db.friends[fid], isUserA, remark, now);
    if RelationInv(StateOf(db)) && CountInv(StateOf(db)) {
      SameLinkKeepsInvariants(StateOf(db), fid, g);
    }
    db.friends := db.friends[fid := g];
    r := Ok(Unit);
  }

  // ---------------------------------------------------------------------
  // Deleting a friend
  // ---------------------------------------------------------------------

  /** The first check of `deleteFriend` that fails, if any; only an active friendship is found. */
  function DeleteError(friends: map<Id, Friendship>, uid: Id, friendUserId: Id): (e: Option<ErrCode>)
    ensures e.None? <==> uid != "" && friendUserId != "" && IsFriend(friends, uid, friendUserId)
  {
    if uid == "" then Some(TokenInvalid)
    else if friendUserId == "" then Some(InvalidParam)
    else if !IsFriend(friends, uid, friendUserId) then Some(NotFriend)
    else None
  }

  /**
   * The status a deletion moves a friendship to, or `None` for
   * ALREADY_DELETED: an active friendship becomes deleted by the caller's
   * side; one already deleted by the other side becomes deleted by both.
   */
  function NewStatus(status: FriendStatus, isUserA: bool): (ns: Option<FriendStatus>)
    ensures status == Normal ==> ns == Some(if isUserA then DeletedByA else DeletedByB)
    ensures ns == Some(DeletedByBoth) <==> (status == DeletedByA && !isUserA) || (status == DeletedByB && isUserA)
    ensures ns.None? <==> status == DeletedByBoth || (status == DeletedByA && isUserA) || (status == DeletedByB && !isUserA)
  {
    match status
    case Normal => Some(if isUserA then DeletedByA else DeletedByB)
    case DeletedByA => if isUserA then None else Some(DeletedByBoth)
    case DeletedByB => if isUserA then Some(DeletedByBoth) else None
    case DeletedByBoth => None
  }

  /** The other user's friend count changes only when both sides have deleted. */
  function OtherSideDelta(ns: FriendStatus): int
  {
    if ns == DeletedByBoth then -1 else 0
  }

  /**
   * The state a deletion writes. The lookup only finds active friendships,
   * so the new status is deleted-by-A or deleted-by-B and the other user's
   * count is never decremented.
   */
  function Deleted(s: FriendState, fid: Id, uid: Id, friendUserId: Id, now: int): (s': FriendState)
    requires fid in s.friends && s.friends[fid].status == Normal
    ensures s'.requests == s.requests && s'.friends.Keys == s.friends.Keys
    ensures forall k :: k in s.friends && k != fid ==> s'.friends[k] == s.friends[k]
    ensures s'.friends[fid].status == (if uid == SortPair(uid, friendUserId).0 then DeletedByA else DeletedByB)
    ensures s'.friends[fid].status != DeletedByBoth
    ensures s'.users == AddFriendCount(s.users, uid, -1)
  {
    var f := s.friends[fid];
    var isUserA := uid == SortPair(uid, friendUserId).0;
    var ns := NewStatus(f.status, isUserA).value;
    FriendState(s.requests,
      s.friends[fid := f.(status := ns, updateTime := Some(now))],
      AddFriendCount(AddFriendCount(s.users, uid, -1), friendUserId, OtherSideDelta(ns)))
  }

  /** Deleting on one side only retires an active friendship, which keeps the relationship invariant. */
  lemma DeleteKeepsRelationInv(s: FriendState, fid: Id, uid: Id, friendUserId: Id, now: int)
    requires RelationInv(s)
    requires fid in s.friends && s.friends[fid].status == Normal
    ensures RelationInv(Deleted(s, fid, uid, friendUserId, now))
  {
  }

  /** The caller stops counting the deleted friendship; the other side still counts it. */
  lemma DeletedVisibility(f: Friendship, g: Friendship, uid: Id, friendUserId: Id, u: Id)
    requires Less(f.userIdA, f.userIdB) && ActiveOn(f, uid, friendUserId)
    requires g.userIdA == f.userIdA && g.userIdB == f.userIdB
    requires g.status == (if uid == SortPair(uid, friendUserId).0 then DeletedByA else DeletedByB)
    ensures uid != friendUserId
    ensures VisibleTo(f, uid) && !VisibleTo(g, uid)
    ensures u != uid ==> (VisibleTo(g, u) <==> VisibleTo(f, u))
  {
    OnPairLinks(f, uid, friendUserId);
    LessIrreflexive(f.userIdA);
  }

  /** The number of friendships `u` sees drops by one for the caller and stays put for everyone else. */
  lemma DeletedCount(friends: map<Id, Friendship>, fid: Id, g: Friendship, uid: Id, friendUserId: Id, u: Id)
    requires fid in friends && Less(friends[fid].userIdA, friends[fid].userIdB) && ActiveOn(friends[fid], uid, friendUserId)
    requires g.userIdA == friends[fid].userIdA && g.userIdB == friends[fid].userIdB
    requires g.status == (if uid == SortPair(uid, friendUserId).0 then DeletedByA else DeletedByB)
    ensures |VisibleFriendships(friends[fid := g], u)| == |VisibleFriendships(friends, u)| - (if u == uid then 1 else 0)
  {
    DeletedVisibility(friends[fid], g, uid, friendUserId, u);
    VisibleAfterPut(friends, fid, g, u);
    if u == uid {
      assert fid in VisibleFriendships(friends, u);
    } else if VisibleTo(g, u) {
      assert fid in VisibleFriendships(friends, u);
    }
  }

  /** A one-sided deletion keeps every friend count equal to what its owner sees. */
  lemma {:induction false} DeleteKeepsCountInv(s: FriendState, fid: Id, uid: Id, friendUserId: Id, now: int)
    requires RelationInv(s) && CountInv(s)
    requires fid in s.friends && ActiveOn(s.friends[fid], uid, friendUserId)
    ensures CountInv(Deleted(s, fid, uid, friendUserId, now))
  {
    var s' := Deleted(s, fid, uid, friendUserId, now);
    assert s'.friends == s.friends[fid := s'.friends[fid]];
    forall u | u in s'.users
      ensures s'.users[u].friendCount == |VisibleFriendships(s'.friends, u)|
    {
      DeletedCount(s.friends, fid, s'.friends[fid], uid, friendUserId, u);
    }
  }

  /** `deleteFriend({friendUserId})`: one-sided deletion in one transaction. */
  method DeleteFriend(db: Database, uid: Id, friendUserId: Id, now: int, txFails: bool) returns (r: Result<Unit>)
    modifies db`friends, db`users
    ensures var e := DeleteError(old(db.friends), uid, friendUserId);
      e.Some? ==> r == Err(e.value) && StateOf(db) == old(StateOf(db))
    ensures DeleteError(old(db.friends), uid, friendUserId).None? && txFails ==>
      r == Err(SystemError) && StateOf(db) == old(StateOf(db))
    ensures DeleteError(old(db.friends), uid, friendUserId).None? && !txFails ==>
      && r == Ok(Unit)
      && exists fid :: fid in old(db.friends) && ActiveOn(old(db.friends)[fid], uid, friendUserId)
           && StateOf(db) == Deleted(old(StateOf(db)), fid, uid, friendUserId, now)
    ensures RelationInv(old(StateOf(db))) && CountInv(old(StateOf(db))) ==> RelationInv(StateOf(db)) && CountInv(StateOf(db))
  {
    ghost var s0 := StateOf(db);
    var e := DeleteError(db.friends, uid, friendUserId);
    if e.Some? {
      return Err(e.value);
    }
    var fid :| fid in db.friends && ActiveOn(db.friends[fid], uid, friendUserId);
    var f := db.friends[fid];
    var isUserA := uid == SortPair(uid, friendUserId).0;
    var ns := NewStatus(f.status, isUserA).value;
    if txFails {
      return Err(SystemError);
    }
    if RelationInv(s0) && CountInv(s0) {
      DeleteKeepsRelationInv(s0, fid, uid, friendUserId, now);
      DeleteKeepsCountInv(s0, fid, uid, friendUserId, now);
    }
    db.friends := db.friends[fid := f.(status := ns, updateTime := Some(now))];
    db.users := AddFriendCount(db.users, uid, -1);
    db.users := AddFriendCount(db.users, friendUserId, OtherSideDelta(ns));
    r := Ok(Unit);
    assert StateOf(db) == Deleted(s0, fid, uid, friendUserId, now);
  }
}
