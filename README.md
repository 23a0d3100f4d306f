# AlumNet core in Dafny

This project models the server-side core of AlumNet, a serverless alumni network. It covers the following.

**Trust workflow on user accounts**
- Self-submission of a verification request.
- Administrator review and administrator override.
- Automatic verification once enough peers recommend an account.
- The allocator of alumni card numbers: the year followed by an eight-digit sequence.

**Relationships**
- The card-request and friendship protocol: lazy seven-day expiry, a reverse pending request collapsing into an acceptance, friendships stored under the sorted pair of ids, per-side remarks, one-sided deletion and `friendCount` bookkeeping.
- Organization membership.
- Activity sign-ups.

**Read side and client**
- The read-side rules of the alumni search.
- The client's theme helpers.

**How the model is built**
- The database is one `Store.Database` object. It holds a map from document id to record for each collection, and the verification audit log as a sequence.
- Each cloud object is a module. Its operations are methods on that object, and each method modifies only the collections it writes.
- Each method is specified by pure functions of the state before the call:
  - an error function gives the first check that fails and the error code it raises;
  - a new-state function gives what a successful call writes.
- Invariants are proved preserved by every operation that writes them:
  - at most one pending request per pair of users, and no pending request between friends;
  - every `friendCount` is the number of friendships its owner has not deleted;
  - every organization's `memberCount` is its number of active members;
  - every activity's `currentParticipants` is its number of sign-ups that are not cancelled;
  - card numbers are unique, wherever the year a new card is drawn for has four digits and that year's existing cards are well formed (the premises of `CardNumber.AssignAllocatedCard`);
  - stored education lists are valid.

**What stands in for the environment**
- These become parameters: the clock (`Date.now()`), the current year, the school configuration, the ids of new documents, the failure of a transaction (`txFails`), and the failure of a non-transactional second write (`logFails`, `countFails`).
- String lengths are JavaScript's `.length`: UTF-16 code units, so a character above U+FFFF counts twice (`Text.Utf16Length`).
- A method call on a stored value of the wrong type (`educations` saved as a string, number or boolean, then searched with `.find`) throws a JavaScript TypeError; the model answers it with the error code `ScriptTypeError`, and the writes made before the throw stay.
- JavaScript truthiness is kept: a numeric field of 0 or a string field of `""` is treated as absent, as the code's `if (x)` tests do.
- String order (`Array.prototype.sort` on ids, the store's `orderBy` and `_id` comparisons) is code-point lexicographic order.

## Model

| member | source | states |
|---|---|---|
| Educations.EntriesValid | uniCloud-alipay/cloudfunctions/alumni-co/index.obj.js:94-134 | the loop over the entries accepts exactly when every entry has a known degree, an enrollment year in 1900..current year, a graduation year not before it, and the head teacher / middle school a non-university school needs |
| Educations.ValidateEducationsMeaning | uniCloud-alipay/cloudfunctions/alumni-co/index.obj.js:79-144 | the validator accepts exactly a list (not a missing value) of 1..5 valid entries with at most one flagged primary |
| Educations.PrimaryCountAtMostOne | uniCloud-alipay/cloudfunctions/alumni-co/index.obj.js:137-143 | counting at most one primary flag is the same as no two distinct primary entries |
| Educations.PrimaryCountZero | uniCloud-alipay/cloudfunctions/alumni-co/index.obj.js:137 | no primary flag is counted exactly when no entry carries the flag |
| Educations.FirstPrimary | uniCloud-alipay/cloudfunctions/alumni-co/index.obj.js:545 | the index found is the first entry flagged primary; none is found only when no entry is flagged |
| Educations.PrimaryEducation | uniCloud-alipay/cloudfunctions/alumni-admin-co/index.obj.js:353 | the primary education is an entry of the list, the flagged one when any is flagged, otherwise the first entry; none only for an empty list |
| Educations.PrimaryEducationUnique | uniCloud-alipay/cloudfunctions/alumni-co/index.obj.js:545 | with at most one primary flag (as validation ensures) the flagged entry is the primary education |
| Common.PickFields | uniCloud-alipay/cloudfunctions/alumni-co/index.obj.js:262-268 | the copied object holds exactly the whitelisted keys the request defines, each with the request's value |
| Text.Utf16Length | uniCloud-alipay/cloudfunctions/alumni-activity-co/index.obj.js:30 | `.length` counts UTF-16 units: a single character counts one up to U+FFFF and two above; the total lies between one and two per character |
| Text.Utf16LengthAppend | uniCloud-alipay/cloudfunctions/alumni-activity-co/index.obj.js:30 | the length of a concatenation is the sum of the lengths, so with the single-character case every string counts one unit per character up to U+FFFF and two per character above |
| Text.PadStart | uniCloud-alipay/cloudfunctions/alumni-co/index.obj.js:57 | a string shorter than the width is filled on the left with the fill character up to the width and ends with the original; a longer one is kept |
| Text.SortPair | uniCloud-alipay/cloudfunctions/alumni-friend-co/index.obj.js:101 | `[x, y].sort()` yields the same two ids with the smaller first, strictly when they differ |
| Text.SortPairSymmetric | uniCloud-alipay/cloudfunctions/alumni-friend-co/index.obj.js:233 | the sorted pair does not depend on argument order |
| Text.SortPairSame | uniCloud-alipay/cloudfunctions/alumni-friend-co/index.obj.js:737 | two sorted pairs agree exactly when they are made of the same two ids |
| Text.MaxString | uniCloud-alipay/cloudfunctions/alumni-co/index.obj.js:155-163 | `orderBy(..., 'desc').limit(1)` picks a member of the set that no other member exceeds |
| Text.ParseIntToString | uniCloud-alipay/cloudfunctions/alumni-admin-co/index.obj.js:135 | `parseInt(String(i))` gives back `i` |
| Text.TrimIdempotent | uniCloud-alipay/cloudfunctions/alumni-organization-co/index.obj.js:255 | trimming a trimmed string changes nothing |
| CardNumber.CardNoRoundTrip | uniCloud-alipay/cloudfunctions/alumni-co/index.obj.js:56-59 | for a four-digit year and a sequence below 10^8 the card number has 12 characters, starts with the year, and `parseInt(card.substring(4))` gives the sequence back |
| CardNumber.CardOrder | uniCloud-alipay/cloudfunctions/alumni-co/index.obj.js:155-163 | cards of one year sort as strings in the order of their sequences |
| CardNumber.SplitCard | uniCloud-alipay/cloudfunctions/alumni-co/index.obj.js:159 | a card matched by the year prefix is the year followed by its suffix |
| CardNumber.NextSequenceExceeds | uniCloud-alipay/cloudfunctions/alumni-co/index.obj.js:151-172 | with well-formed cards the next sequence is 1 for a year without cards, otherwise the greatest issued sequence plus one, and it exceeds every sequence issued for the year |
| CardNumber.AllocatedCardIsNew | uniCloud-alipay/cloudfunctions/alumni-co/index.obj.js:151-172 | the allocated card number is held by no account |
| CardNumber.SameCardKeepsCardsUnique | uniCloud-alipay/cloudfunctions/alumni-admin-co/index.obj.js:340-373 | an update that leaves the card alone keeps card numbers unique |
| CardNumber.AssignAllocatedCard | uniCloud-alipay/cloudfunctions/alumni-admin-co/index.obj.js:352-373 | giving an account the allocated card keeps card numbers unique |
| Alumni.ProfileUpdateError | uniCloud-alipay/cloudfunctions/alumni-co/index.obj.js:251-291 | an update passes exactly with a caller, a non-empty whitelisted update, a university-valid education list whenever `educations` is truthy, and at most 10 interests whenever a truthy `interests` has a length; a falsy `educations` of any type is let through unchecked; failures are TOKEN_INVALID or INVALID_PARAM |
| Alumni.ProfileUpdateKeepsOtherKeys | uniCloud-alipay/cloudfunctions/alumni-co/index.obj.js:255-268 | a profile update writes only whitelisted keys the request defines; every other key keeps its value |
| Alumni.AcceptedUpdateKeepsEducations | uniCloud-alipay/cloudfunctions/alumni-co/index.obj.js:278-282 | an accepted update never stores an invalid education list |
| Alumni.UpdateMyProfile | uniCloud-alipay/cloudfunctions/alumni-co/index.obj.js:251-297 | the caller's document gets exactly the defined whitelisted keys, after the checks; an error changes nothing; stored education lists stay valid |
| Alumni.SubmissionError | uniCloud-alipay/cloudfunctions/alumni-co/index.obj.js:304-352 | a submission passes exactly with a caller, a real name of 2..20 UTF-16 units, work info, city, card photo and valid educations for the school type; input failures are INVALID_PARAM |
| Alumni.Submitted | uniCloud-alipay/cloudfunctions/alumni-co/index.obj.js:360-380 | a submission sets status 0 and the submit time and stores the submitted education list; it leaves card, verify time and method, counters, role and the other profile keys alone, so there is no automatic approval |
| Alumni.UniversityIsWeakest | uniCloud-alipay/cloudfunctions/alumni-co/index.obj.js:120-134 | an education list valid for any school type is valid for a university |
| Alumni.SubmitVerification | uniCloud-alipay/cloudfunctions/alumni-co/index.obj.js:304-389 | an invalid form changes nothing; a verified account is refused with ALREADY_VERIFIED; otherwise the account becomes the submitted one |
| Alumni.RequiredRecommendCount | uniCloud-alipay/cloudfunctions/alumni-co/index.obj.js:429-431 | the quorum is the configured count whenever one is set, and it is never 0 |
| Alumni.GetVerificationStatus | uniCloud-alipay/cloudfunctions/alumni-co/index.obj.js:395-436 | missing token and missing account are errors; a missing status reads as pending; the recommendation count is the stored one (0 when absent); the quorum is reported exactly when recommendation verification is on |
| Alumni.RecommendError | uniCloud-alipay/cloudfunctions/alumni-co/index.obj.js:446-510 | a recommendation passes exactly for a verified caller and a different, existing, unverified target not yet recommended by this caller with status 0 |
| Alumni.VerifiedTargetRefused | uniCloud-alipay/cloudfunctions/alumni-co/index.obj.js:490-495 | a verified account cannot be recommended again, and a verified caller gets ALREADY_VERIFIED for it |
| Alumni.AddedRecommendationCounts | uniCloud-alipay/cloudfunctions/alumni-co/index.obj.js:512-533 | a new status-0 recommendation raises its target's effective count by exactly one and no one else's |
| Alumni.QuorumCard | uniCloud-alipay/cloudfunctions/alumni-co/index.obj.js:545-557 | the quorum issues a card exactly when the primary education has an enrollment year |
| Alumni.QuorumVerified | uniCloud-alipay/cloudfunctions/alumni-co/index.obj.js:547-559 | reaching the quorum sets status 1, method 'recommend', the verify time and the recommendation total, and the card only when one was issued |
| Alumni.QuorumKeepsCardsUnique | uniCloud-alipay/cloudfunctions/alumni-co/index.obj.js:547-559 | whether or not the account already had a card, the quorum's update keeps card numbers unique when its enrollment year's cards are well formed |
| Alumni.RecommendKeepsCardsUnique | uniCloud-alipay/cloudfunctions/alumni-co/index.obj.js:523-559 | both the count bump and the quorum's verification keep card numbers unique |
| Alumni.RecommendAlumni | uniCloud-alipay/cloudfunctions/alumni-co/index.obj.js:446-578 | one recommendation is added and the target's count is raised; with recommendation verification on and the quorum reached the target is verified; an unguarded audit-log failure is reported while the verification stays written; an `educations` stored as a non-list throws a TypeError once the quorum is reached, after the recommendation and the bump are written and before any verification or log; card numbers stay unique |
| Admin.AdminGate | uniCloud-alipay/cloudfunctions/alumni-admin-co/index.obj.js:36-63 | the gate opens exactly for a signed-in account whose role list contains admin, super_admin or alumni_admin |
| Admin.AnyAdminRoleSuffices | uniCloud-alipay/cloudfunctions/alumni-admin-co/index.obj.js:55-60 | any one administrator role opens the gate, whatever else the role list holds |
| Admin.NormalizeCount | uniCloud-alipay/cloudfunctions/alumni-admin-co/index.obj.js:135 | the stored quorum count is never 0, since a 0 or an unreadable count falls back to 3 |
| Admin.NormalizeFeatures | uniCloud-alipay/cloudfunctions/alumni-admin-co/index.obj.js:129-137 | four switches are on unless sent as `false`; recommendation verification and proof upload are on only when sent as `true`; the count is never 0 and is the quorum the alumni object applies to these switches |
| Admin.NormalizeIdempotent | uniCloud-alipay/cloudfunctions/alumni-admin-co/index.obj.js:129-137 | saving the saved switches again stores the same switches |
| Admin.MissingFeaturesDefaults | uniCloud-alipay/cloudfunctions/alumni-admin-co/index.obj.js:129-137 | a request without features stores the default switches and a count of 3 |
| Admin.NormalizeCountOfNumber | uniCloud-alipay/cloudfunctions/alumni-admin-co/index.obj.js:135 | a count sent as a number or as its decimal string is stored as that number, 3 for 0 |
| Admin.SaveSchoolConfig | uniCloud-alipay/cloudfunctions/alumni-admin-co/index.obj.js:109-156 | behind the gate, a missing configuration is refused with code 1; otherwise the normalized switches are stored |
| Admin.ReviewError | uniCloud-alipay/cloudfunctions/alumni-admin-co/index.obj.js:314-337 | behind the gate, a review passes exactly with an id, a status of 1 or 2, an existing account and a current status of exactly 0, and, for an approval, an `educations` that is not a string, number or boolean; codes 1..4 otherwise, and a TypeError for such an approval |
| Admin.ReviewYear | uniCloud-alipay/cloudfunctions/alumni-admin-co/index.obj.js:353-354 | the card year is the primary enrollment year, else the current year |
| Admin.Reviewed | uniCloud-alipay/cloudfunctions/alumni-admin-co/index.obj.js:340-373 | both outcomes write status, verify time, method 'admin_review' and reviewer; only approval issues the allocated card; a reject reason is stored only for status 2 with a reason |
| Admin.ReviewDecidesOnce | uniCloud-alipay/cloudfunctions/alumni-admin-co/index.obj.js:335-337 | a reviewed account can not be reviewed again (code 4), by any administrator, including one who reviewed themselves |
| Admin.ApprovalKeepsCardsUnique | uniCloud-alipay/cloudfunctions/alumni-admin-co/index.obj.js:352-373 | an approval keeps card numbers unique |
| Admin.ReviewKeepsCardsUnique | uniCloud-alipay/cloudfunctions/alumni-admin-co/index.obj.js:340-373 | either review outcome keeps card numbers unique when an approval's card year is ready |
| Admin.ReviewVerification | uniCloud-alipay/cloudfunctions/alumni-admin-co/index.obj.js:314-392 | an error (including the approval TypeError) changes nothing; otherwise the account becomes the reviewed one and the call succeeds; the audit entry is appended unless its write fails, which is swallowed; card numbers stay unique |
| Admin.StatusUpdateError | uniCloud-alipay/cloudfunctions/alumni-admin-co/index.obj.js:541-552 | behind the gate, an override passes exactly with a user id and a status of 0, 1 or 2 |
| Admin.UpdateAlumniStatus | uniCloud-alipay/cloudfunctions/alumni-admin-co/index.obj.js:541-559 | the status is written from any prior status with the update date and administrator; card, verify time and method are untouched |
| Friend.OnPairLinks | uniCloud-alipay/cloudfunctions/alumni-friend-co/index.obj.js:737-752 | a friendship stored with the smaller id first is found under a pair exactly when it links those two ids |
| Friend.IsFriendSymmetric | uniCloud-alipay/cloudfunctions/alumni-search-co/index.obj.js:52-63 | being friends does not depend on who asks |
| Friend.VisibleAfterPut | uniCloud-alipay/cloudfunctions/alumni-friend-co/index.obj.js:111-117 | replacing one friendship changes the friendships a user sees by that record alone |
| Friend.HandleError | uniCloud-alipay/cloudfunctions/alumni-friend-co/index.obj.js:41-84 | handling passes exactly with a caller, a request id, an action of accept or reject, an existing request addressed to the caller and still pending |
| Friend.NewFriendship | uniCloud-alipay/cloudfunctions/alumni-friend-co/index.obj.js:101-117 | the accepted request adds a new active friendship under the sorted pair, with the request as its source |
| Friend.Handle | uniCloud-alipay/cloudfunctions/alumni-friend-co/index.obj.js:41-153 | errors change nothing; a lapsed request only becomes expired; acceptance marks the request, adds one friendship and raises both counts, all or nothing; rejection marks the request with its reason and touches nothing else |
| Friend.AcceptMakesFriends | uniCloud-alipay/cloudfunctions/alumni-friend-co/index.obj.js:100-141 | after an acceptance the two users are friends, whoever asks |
| Friend.CloseRequestKeepsRelationInv | uniCloud-alipay/cloudfunctions/alumni-friend-co/index.obj.js:87-96 | marking a pending request handled keeps the relationship invariant |
| Friend.AcceptKeepsRelationInv | uniCloud-alipay/cloudfunctions/alumni-friend-co/index.obj.js:100-141 | an acceptance keeps the relationship invariant: no request to oneself, pairs stored smaller id first, at most one pending request per pair, no pending request beside an active friendship, and one active friendship per pair |
| Friend.NewFriendshipVisible | uniCloud-alipay/cloudfunctions/alumni-friend-co/index.obj.js:111-117 | the new friendship is seen by exactly its two users |
| Friend.CountAfterAdd | uniCloud-alipay/cloudfunctions/alumni-friend-co/index.obj.js:119-131 | adding a friendship a user sees adds one to the number that user sees |
| Friend.AcceptKeepsCountInv | uniCloud-alipay/cloudfunctions/alumni-friend-co/index.obj.js:100-141 | after an acceptance every friend count is still the number of friendships its owner sees |
| Friend.HandleKeepsInvariants | uniCloud-alipay/cloudfunctions/alumni-friend-co/index.obj.js:41-153 | every outcome of handling keeps both invariants |
| Friend.HandleCardRequest | uniCloud-alipay/cloudfunctions/alumni-friend-co/index.obj.js:312-314 | the result and the new collections are those of `Handle`, and both invariants are kept |
| Friend.SendError | uniCloud-alipay/cloudfunctions/alumni-friend-co/index.obj.js:181-263 | sending passes exactly for a verified caller and a different, existing, verified target who is not a friend and has no pending request from the caller, lapsed or not |
| Friend.NewRequest | uniCloud-alipay/cloudfunctions/alumni-friend-co/index.obj.js:280-291 | the stored request is pending from the caller to the target and expires seven days after now |
| Friend.NewRequestLifetime | uniCloud-alipay/cloudfunctions/alumni-friend-co/index.obj.js:12 | a new request is counted as pending before now + 7 days and lapses only after it |
| Friend.ResendRefused | uniCloud-alipay/cloudfunctions/alumni-friend-co/index.obj.js:250-263 | once stored, sending the same request again is refused as pending, even after it lapses |
| Friend.SendKeepsInvariants | uniCloud-alipay/cloudfunctions/alumni-friend-co/index.obj.js:280-291 | storing a new request after the checks keeps both invariants |
| Friend.SendCardRequest | uniCloud-alipay/cloudfunctions/alumni-friend-co/index.obj.js:181-302 | errors change nothing; a pending request the other way is handled as an acceptance instead; otherwise exactly one new request is stored; both invariants are kept |
| Friend.PendingRequestCount | uniCloud-alipay/cloudfunctions/alumni-friend-co/index.obj.js:503-519 | only a missing caller is an error; every other caller gets a count |
| Friend.CountedRequestIsHandleable | uniCloud-alipay/cloudfunctions/alumni-friend-co/index.obj.js:503-519 | every counted request can be accepted by its receiver at that moment without lapsing |
| Friend.CancelError | uniCloud-alipay/cloudfunctions/alumni-friend-co/index.obj.js:812-849 | cancelling passes exactly for the sender of an existing request that is still pending |
| Friend.CancelClearsPair | uniCloud-alipay/cloudfunctions/alumni-friend-co/index.obj.js:825-849 | after a cancellation no request is pending between the two users |
| Friend.CancelCardRequest | uniCloud-alipay/cloudfunctions/alumni-friend-co/index.obj.js:812-855 | the request is removed and nothing else changes; both invariants are kept |
| Friend.RemarkError | uniCloud-alipay/cloudfunctions/alumni-friend-co/index.obj.js:671-703 | a remark passes exactly with a friend id, at most 50 UTF-16 units and an active friendship |
| Friend.Remarked | uniCloud-alipay/cloudfunctions/alumni-friend-co/index.obj.js:704-716 | the caller's side gets the remark and the other side's remark is kept; pair and status are unchanged |
| Friend.SameLinkKeepsInvariants | uniCloud-alipay/cloudfunctions/alumni-friend-co/index.obj.js:704-716 | a friendship rewritten on the same pair with the same status keeps both invariants |
| Friend.SetFriendRemark | uniCloud-alipay/cloudfunctions/alumni-friend-co/index.obj.js:671-719 | only the found friendship changes, to the remarked one; both invariants are kept |
| Friend.DeleteError | uniCloud-alipay/cloudfunctions/alumni-friend-co/index.obj.js:727-753 | deletion passes exactly when an active friendship links the two users; otherwise NOT_FRIEND |
| Friend.NewStatus | uniCloud-alipay/cloudfunctions/alumni-friend-co/index.obj.js:758-768 | from active the lower id moves to deleted-by-A and the higher to deleted-by-B; deleted-by-both only from the other side's deletion |
| Friend.Deleted | uniCloud-alipay/cloudfunctions/alumni-friend-co/index.obj.js:737-795 | only the active friendship changes, to deleted-by-A or deleted-by-B, never deleted-by-both; only the caller's count drops by one |
| Friend.DeleteKeepsRelationInv | uniCloud-alipay/cloudfunctions/alumni-friend-co/index.obj.js:770-795 | a one-sided deletion keeps the relationship invariant |
| Friend.DeletedVisibility | uniCloud-alipay/cloudfunctions/alumni-friend-co/index.obj.js:758-768 | the caller stops seeing the deleted friendship; every other user sees it as before |
| Friend.DeletedCount | uniCloud-alipay/cloudfunctions/alumni-friend-co/index.obj.js:780-789 | the friendships the caller sees drop by one, and no one else's change |
| Friend.DeleteKeepsCountInv | uniCloud-alipay/cloudfunctions/alumni-friend-co/index.obj.js:770-795 | after a one-sided deletion every friend count still equals what its owner sees |
| Friend.DeleteFriend | uniCloud-alipay/cloudfunctions/alumni-friend-co/index.obj.js:727-804 | errors and a failed transaction change nothing; otherwise the state becomes the deleted one; both invariants are kept |
| Organization.AdminPermissionError | uniCloud-alipay/cloudfunctions/alumni-organization-co/index.obj.js:32-47 | permission holds exactly for an active creator or admin record of that organization; otherwise NO_PERMISSION |
| Organization.ActiveCountAfterPut | uniCloud-alipay/cloudfunctions/alumni-organization-co/index.obj.js:453-458 | a record entering or leaving the active set moves its organization's active count by one |
| Organization.AdjustMemberCount | uniCloud-alipay/cloudfunctions/alumni-organization-co/index.obj.js:453-458 | only the named organization changes: its count moves by the given amount and its update time is set |
| Organization.StatusChangeKeepsOrgInv | uniCloud-alipay/cloudfunctions/alumni-organization-co/index.obj.js:618-634 | changing a record's status and its organization's count by the same amount keeps the membership invariant |
| Organization.InactiveChangeKeepsOrgInv | uniCloud-alipay/cloudfunctions/alumni-organization-co/index.obj.js:635-643 | a change between inactive statuses keeps the invariant with counts untouched |
| Organization.AddRecordKeepsOrgInv | uniCloud-alipay/cloudfunctions/alumni-organization-co/index.obj.js:407-415 | adding an inactive record that is its user's only live one there keeps the invariant |
| Organization.AddOrganizationKeepsOrgInv | uniCloud-alipay/cloudfunctions/alumni-organization-co/index.obj.js:302-327 | a new organization with its one active record keeps the invariant |
| Organization.AddNameKeepsNamesUnique | uniCloud-alipay/cloudfunctions/alumni-organization-co/index.obj.js:261-270 | a name nobody holds keeps names unique |
| Organization.CreateError | uniCloud-alipay/cloudfunctions/alumni-organization-co/index.obj.js:250-270 | creation passes exactly with a caller, a non-blank name, a known type and no other organization of status 0 or 1 holding the trimmed name |
| Organization.TypeInfo | uniCloud-alipay/cloudfunctions/alumni-organization-co/index.obj.js:288-299 | only the field of the organization's own type is stored, and only when given |
| Organization.NewOrganization | uniCloud-alipay/cloudfunctions/alumni-organization-co/index.obj.js:272-310 | a new organization is active with the trimmed name, the creator and one member |
| Organization.CreatorRecord | uniCloud-alipay/cloudfunctions/alumni-organization-co/index.obj.js:311-319 | the creator's record is an active creator record, which manages the organization |
| Organization.CreateKeepsInvariants | uniCloud-alipay/cloudfunctions/alumni-organization-co/index.obj.js:302-327 | creation keeps the membership invariant and unique names, and its creator manages the organization |
| Organization.Create | uniCloud-alipay/cloudfunctions/alumni-organization-co/index.obj.js:250-328 | errors and a failed transaction change nothing; otherwise exactly the organization and the creator record are added; both invariants are kept |
| Organization.UpdateError | uniCloud-alipay/cloudfunctions/alumni-organization-co/index.obj.js:336-366 | an update passes exactly for a manager of the organization (which exists under `OrgInv`) whose new non-empty name no other live organization holds |
| Organization.Updated | uniCloud-alipay/cloudfunctions/alumni-organization-co/index.obj.js:343-367 | whitelisted fields are written, the name trimmed, the update time set; count, creator, status and type are kept |
| Organization.UpdateKeepsInvariants | uniCloud-alipay/cloudfunctions/alumni-organization-co/index.obj.js:343-367 | an update keeps the membership invariant and unique names |
| Organization.Update | uniCloud-alipay/cloudfunctions/alumni-organization-co/index.obj.js:336-370 | the organization becomes the updated one and nothing else changes; both invariants are kept |
| Organization.JoinError | uniCloud-alipay/cloudfunctions/alumni-organization-co/index.obj.js:377-390 | an application passes its first checks exactly for an existing active organization |
| Organization.JoinKeepsOrgInv | uniCloud-alipay/cloudfunctions/alumni-organization-co/index.obj.js:407-415 | a new application keeps the membership invariant |
| Organization.RejoinIsPending | uniCloud-alipay/cloudfunctions/alumni-organization-co/index.obj.js:397-401 | after an application, applying again finds a pending record |
| Organization.Join | uniCloud-alipay/cloudfunctions/alumni-organization-co/index.obj.js:377-418 | an existing pending or active record gives ALREADY_PENDING or ALREADY_MEMBER; otherwise one pending member record is added |
| Organization.LeaveError | uniCloud-alipay/cloudfunctions/alumni-organization-co/index.obj.js:425-441 | leaving passes its first checks exactly for a user with an active record there |
| Organization.Leave | uniCloud-alipay/cloudfunctions/alumni-organization-co/index.obj.js:425-465 | the creator is refused; otherwise the record becomes left and the count drops by one together, or nothing changes when the transaction fails |
| Organization.JoinRequestError | uniCloud-alipay/cloudfunctions/alumni-organization-co/index.obj.js:593-616 | handling passes exactly for a pending record, a known action and a manager of its organization |
| Organization.ApprovalCounts | uniCloud-alipay/cloudfunctions/alumni-organization-co/index.obj.js:618-634 | an approved applicant is an active member and is counted, and no one else's record changes |
| Organization.HandleJoinRequest | uniCloud-alipay/cloudfunctions/alumni-organization-co/index.obj.js:593-645 | approval sets the record active with a join time and raises the count, all or nothing; rejection sets it rejected with counts untouched; the invariant is kept |
| Activity.ActivityDataError | uniCloud-alipay/cloudfunctions/alumni-activity-co/index.obj.js:26-48 | accepted data has a non-blank title of at most 100 UTF-16 units, a start time not in the past, an end after the start when given, a known type, and a location name for offline and hybrid; every failure is INVALID_PARAM |
| Activity.PublishError | uniCloud-alipay/cloudfunctions/alumni-activity-co/index.obj.js:200-221 | publishing passes exactly with a caller, valid data and an account whose `verifyStatus` is 1 |
| Activity.VerifiedAlumnusMayBeRefused | uniCloud-alipay/cloudfunctions/alumni-activity-co/index.obj.js:217 | a verified alumnus without `verifyStatus` 1 is refused as NOT_VERIFIED |
| Activity.NewActivity | uniCloud-alipay/cloudfunctions/alumni-activity-co/index.obj.js:222-245 | a new activity has a trimmed title, no participants and no views; the deadline defaults to the start and the status to 1 |
| Activity.PublishKeepsActivityInv | uniCloud-alipay/cloudfunctions/alumni-activity-co/index.obj.js:222-247 | a new activity with no participants keeps the participant invariant |
| Activity.PublishActivity | uniCloud-alipay/cloudfunctions/alumni-activity-co/index.obj.js:200-263 | an error adds nothing; otherwise exactly the new activity is added under the returned id; the invariant is kept |
| Activity.SignupError | uniCloud-alipay/cloudfunctions/alumni-activity-co/index.obj.js:271-318 | a sign-up passes exactly for an existing open activity before its deadline that the user has no current sign-up for and that is not full |
| Activity.NewSignup | uniCloud-alipay/cloudfunctions/alumni-activity-co/index.obj.js:320-330 | the stored sign-up is a current, status-0 sign-up of the user for the activity |
| Activity.AddParticipants | uniCloud-alipay/cloudfunctions/alumni-activity-co/index.obj.js:332-336 | only the named activity's participant count moves, by the given amount |
| Activity.SignupKeepsCounts | uniCloud-alipay/cloudfunctions/alumni-activity-co/index.obj.js:320-336 | a new current sign-up with its count raised keeps every participant count exact |
| Activity.SignupKeepsOneCurrent | uniCloud-alipay/cloudfunctions/alumni-activity-co/index.obj.js:301-312 | a sign-up for a user without a current one keeps one current sign-up per user and activity |
| Activity.SignupKeepsActivityInv | uniCloud-alipay/cloudfunctions/alumni-activity-co/index.obj.js:271-338 | a complete sign-up keeps the invariant, including that a capacity is never exceeded |
| Activity.HalfSignupBreaksCount | uniCloud-alipay/cloudfunctions/alumni-activity-co/index.obj.js:320-350 | when the count update after a stored sign-up fails, the count is one short of the sign-ups |
| Activity.SignupActivity | uniCloud-alipay/cloudfunctions/alumni-activity-co/index.obj.js:271-351 | an error changes nothing; otherwise the sign-up is stored and then counted, or reported as SIGNUP_ACTIVITY_FAILED with the sign-up kept when the count write fails |
| Activity.CancelError | uniCloud-alipay/cloudfunctions/alumni-activity-co/index.obj.js:358-380 | cancelling passes its first checks exactly when the user has a current sign-up for the activity |
| Activity.Withdrawn | uniCloud-alipay/cloudfunctions/alumni-activity-co/index.obj.js:388-394 | a cancelled sign-up has status -1 and keeps its activity and user |
| Activity.CancelKeepsCounts | uniCloud-alipay/cloudfunctions/alumni-activity-co/index.obj.js:388-399 | cancelling a current sign-up with its count lowered keeps every participant count exact |
| Activity.CancelKeepsActivityInv | uniCloud-alipay/cloudfunctions/alumni-activity-co/index.obj.js:388-399 | a complete cancellation keeps the invariant |
| Activity.CancelAllowsSignupAgain | uniCloud-alipay/cloudfunctions/alumni-activity-co/index.obj.js:301-312 | after a cancellation the user has no current sign-up, so signing up again is not a duplicate |
| Activity.CancelSignup | uniCloud-alipay/cloudfunctions/alumni-activity-co/index.obj.js:358-412 | a checked-in sign-up is refused with ALREADY_CHECKED_IN; otherwise the found sign-up is cancelled and then uncounted, or CANCEL_SIGNUP_FAILED with the cancellation kept |
| Activity.FreshActivityAcceptsSignup | uniCloud-alipay/cloudfunctions/alumni-activity-co/index.obj.js:238-243 | a freshly published open activity accepts any user's first sign-up up to its deadline |
| Search.CardRequestStatus | uniCloud-alipay/cloudfunctions/alumni-search-co/index.obj.js:71-105 | 'sent' exactly when the caller has a pending request to the target; 'received' exactly when not but the target has one to the caller; the id is that of such a request |
| Search.CardRequestStatusIsThePendingRequest | uniCloud-alipay/cloudfunctions/alumni-search-co/index.obj.js:74-88 | while the friendship invariant holds the reported request is the one pending request |
| Search.CardRequestStatusMirrors | uniCloud-alipay/cloudfunctions/alumni-search-co/index.obj.js:71-105 | one pending request reads as sent to its sender and as received to its receiver |
| Search.PageLimit | uniCloud-alipay/cloudfunctions/alumni-search-co/index.obj.js:127 | the page size is clamped to 1..50, default 20 |
| Search.Window | uniCloud-alipay/cloudfunctions/alumni-search-co/index.obj.js:192-195 | `hasMore` holds exactly when more than the limit came back; the list is a prefix of the rows: all of them when there are no more, exactly the limit otherwise; the cursor is its last id, absent for an empty list |
| Search.SearchAlumni | uniCloud-alipay/cloudfunctions/alumni-search-co/index.obj.js:186-214 | a signed-in caller gets the page window of the query result, except that the call throws a TypeError exactly when a row on the page stores `educations` as a string, number or boolean |
| Search.SearchRowsMatch | uniCloud-alipay/cloudfunctions/alumni-search-co/index.obj.js:129-166 | every listed alumnus is verified, not hidden and meets the criteria; without a cursor it is not the caller, with one it comes after the cursor |
| Search.NextPageReachesRest | uniCloud-alipay/cloudfunctions/alumni-search-co/index.obj.js:164-195 | a match left off the page comes after the page's cursor, so the next page can reach it |
| Search.CursorAdmitsCaller | uniCloud-alipay/cloudfunctions/alumni-search-co/index.obj.js:129-166 | with a cursor, the caller is listed in their own search when after the cursor |
| Search.FirstPageExcludesCaller | uniCloud-alipay/cloudfunctions/alumni-search-co/index.obj.js:132 | without a cursor the caller never matches |
| Search.DetailError | uniCloud-alipay/cloudfunctions/alumni-search-co/index.obj.js:255-303 | the detail view passes exactly with a caller, a user id and an existing verified account |
| Search.DetailProfile | uniCloud-alipay/cloudfunctions/alumni-search-co/index.obj.js:266-312 | the view holds only the read fields, and mobile and email only when shown |
| Search.AlumniDetailOf | uniCloud-alipay/cloudfunctions/alumni-search-co/index.obj.js:255-325 | errors per the checks; the view carries the friend flag and the request status, and contact fields only for a friend who has not hidden them |
| Search.FriendSeesContact | uniCloud-alipay/cloudfunctions/alumni-search-co/index.obj.js:305-312 | a friend sees the stored mobile and email unless they are hidden |
| Search.ContactVisibilityNeedsFriendship | uniCloud-alipay/cloudfunctions/alumni-search-co/index.obj.js:52-63 | whether contacts show is the same from both sides of the friendship |
| Search.PrimaryYear | uniCloud-alipay/cloudfunctions/alumni-search-co/index.obj.js:419-430 | a year is found exactly when the caller's primary education (the first flagged one, else the first) has a non-zero enrollment year, and it is that year |
| Search.SameYearAlumni | uniCloud-alipay/cloudfunctions/alumni-search-co/index.obj.js:414-439 | a TypeError exactly when the caller's stored `educations` is a truthy non-list; otherwise an empty page exactly when the caller has no primary enrollment year; otherwise a search on that year with the cursor and page size passed on |
| Search.EmptyResult | uniCloud-alipay/cloudfunctions/alumni-search-co/index.obj.js:426-431 | the early answer is an empty page with no more rows and no cursor, as a window over no rows |
| Search.SameYearRowsShareYear | uniCloud-alipay/cloudfunctions/alumni-search-co/index.obj.js:414-439 | every listed alumnus has an education in the caller's primary enrollment year |
| Theme.HexToRgb | composables/useTheme.ts:42-48 | anything other than six hex digits after an optional '#' yields the default '43, 92, 230' |
| Theme.HexRoundTrip | composables/useTheme.ts:42-46 | every colour `#RRGGBB` of three bytes reads back as those bytes in decimal |
| Theme.LowerHexRoundTrip | composables/useTheme.ts:42-46 | the match ignores case: six lower-case digits, with or without '#', read back as the same bytes in decimal |
| Theme.HexToRgbComponents | composables/useTheme.ts:42-46 | each component of a converted colour is in 0..255 |
| Theme.HexToRgbIgnoresCase | composables/useTheme.ts:43 | the `/i` flag: any mix of upper- and lower-case hex letters matches and converts as the same colour in one case |
| Theme.HashIsOptional | composables/useTheme.ts:43 | a colour converts the same with or without its leading '#' |
| Theme.DefaultRgbMatchesPrimary | composables/useTheme.ts:21-28 | the default theme's RGB form is that of its primary colour |
| Theme.Merge | composables/useTheme.ts:91 | each key the custom object has overrides the default, and the default stays for the others |
| Theme.ThemeFor | composables/useTheme.ts:86-99 | without the custom name or a custom object the theme is the default; otherwise the merge, with the RGB form derived from a primary colour given without one |
| Theme.AsPartial | composables/useTheme.ts:161-162 | merging a complete configuration gives it back |
| Theme.PrimaryOnlyTheme | composables/useTheme.ts:89-95 | a custom theme of only a primary colour keeps the other default colours and derives its RGB form |
| Theme.SavedConfigRestores | composables/useTheme.ts:161-162 | a saved configuration applied again is unchanged, except that an empty RGB form beside a primary colour is recomputed |
| Theme.AppliedConfigHasRgb | composables/useTheme.ts:89-99 | an applied configuration has an RGB form whenever it has a primary colour, unless the custom object set the form to "" without a colour |
| Theme.ThemeState.SetTheme | composables/useTheme.ts:86-113 | the name and configuration in force become the given name and its theme; the name is saved, and the configuration of a custom theme |
| Theme.ThemeState.ResetTheme | composables/useTheme.ts:178-186 | the default theme is in force and both storage keys are removed |
| Theme.ThemeState.LoadSchoolTheme | composables/useTheme.ts:118-147 | a school theme is applied as a custom theme and reported as loaded; without one nothing changes |
| Theme.ThemeState.InitTheme | composables/useTheme.ts:153-173 | runs once: a saved custom configuration is restored, otherwise the school theme is loaded; storage then holds the custom name and the configuration in force, and is left alone when nothing is applied |
| Theme.ThemeState.ThemeStyles | composables/useTheme.ts:192-201 | exactly six CSS variables, each the matching colour of the configuration in force |
| Theme.RelaunchRestoresCustomTheme | composables/useTheme.ts:86-173 | a custom theme set once comes back unchanged after a relaunch, whatever the school theme, except a custom object with `primaryRgb: ""` and no primary colour, whose RGB form the relaunch recomputes |

## Left out

- Token checking, `_before` hooks and the uniCloud database API: the caller id is a parameter (`""` for a missing or invalid token), and the store is a set of in-memory maps.
- Concurrency: card-number allocation, the quorum count and the duplicate checks read and then write without locking. The model runs operations one at a time and claims no uniqueness under concurrent calls.
- Transactions are modelled as one atomic step that either happens completely or not at all (`txFails`). Failures of the store's other writes are modelled only where the code handles them visibly: the review and quorum audit logs, and the second write of a sign-up or a cancellation.
- Regular-expression keyword search (`new RegExp(keyword, 'i')`) is left out. It runs a foreign regex engine.
- List, aggregate and projection endpoints are left out: the request lists, friend list, member list, organization and activity lists, detail views other than the alumni detail, filter options, statistics, distributions, growth trends, dictionaries and the alumni card view. They are reads over the store with no rule beyond filtering, and some use floating point or the local time zone.
- `getSameCityAlumni` and `getSameIndustryAlumni` are left out. They have the same early-return shape as `getSameYearAlumni`, on the city and industry fields.
- Search.SearchAlumni: the rows are ids; the projected fields and the derived `primaryEducation` of each row are not modelled (only whether deriving it throws).
- Search.IsQueryResult states what the store's query returns and is taken as a premise: ids are sorted by code-point order and compared with `Less`.
- Activity.NewActivity: `targetAudience` and `organizerType`, constant or pass-through fields, are not modelled.
- Admin.SaveSchoolConfig: the saved configuration is not read back. `saveSchoolConfig` updates the first configuration document, or adds one with a generated id, while `alumni-co` reads the document with id `school_config`. Those are the same document only when it was created with that id. The model therefore takes the alumni object's switches as a parameter (`features`), and `Store.Database.schoolFeatures` is written but read by no operation.
- Admin.SaveSchoolConfig: only the `features` part of the configuration is modelled; the school's name, logo, theme and other descriptive fields are stored as given and left out.
- Friend.DeleteFriend: the second-side deletion branch (deleted-by-both) cannot be reached, because the lookup only finds active friendships. It is modelled in `Friend.NewStatus`, and `Friend.Deleted` proves it is never taken.
- Theme: the DOM writes of `applyTheme`, the `uni` storage API and its errors, and the cloud and file reads of `loadSchoolTheme` are left out. Storage is two fields of the theme state, and the school theme is a parameter.
- Theme.ThemeState.InitTheme: the storage and configuration reads are synchronous parameters, so the `await` ordering of the original is not modelled.
- Text.Less: string comparison is code-point lexicographic, the order JavaScript's default sort uses on these ids; UTF-16 surrogate pairs are not distinguished.
- Friend.PendingRequestCount: its contract states only the error case. What is counted is stated by `Friend.CountedRequestIsHandleable`, because an exact size would only restate the set the function counts.
