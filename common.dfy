/**
 * Shared vocabulary of the AlumNet model: document ids, optional values,
 * the error codes the cloud objects return, and the whitelist copy used by
 * the profile and organization updates.
 */
module Common {

  /** Document ids and user ids are strings. The empty id means "not logged in" or "not given". */
  type Id = string

  datatype Option<T> = None | Some(value: T)

  datatype Unit = Unit

  /** Error codes returned (or thrown) by the cloud objects. */
  datatype ErrCode =
    // shared
    | TokenInvalid | InvalidParam | SystemError | UserNotFound | NotVerified | NoPermission
    // alumni-co
    | AlreadyVerified | AlreadyRecommended
    // alumni-admin-co: the gate throws, the handlers return small numbers
    | NotLoggedIn | AdminUserMissing | NoAdminRole | AdminCode(n: nat)
    // an uncaught store failure propagated to the caller
    | StoreFailure
    // an uncaught JavaScript TypeError (a method called on a value that lacks it)
    | ScriptTypeError
    // alumni-friend-co
    | TargetNotVerified | AlreadyFriend | RequestPending | RequestNotFound | RequestProcessed
    | RequestExpired | NotFriend | AlreadyDeleted
    // alumni-organization-co
    | NameExists | NotFound | AlreadyPending | AlreadyMember | NotMember | CreatorCannotLeave
    | AlreadyProcessed
    // alumni-activity-co
    | ActivityNotFound | ActivityNotOpen | SignupExpired | AlreadySignedUp | ActivityFull
    | SignupNotFound | AlreadyCheckedIn
    // alumni-activity-co: a store failure caught and reported under the operation's own code
    | SignupActivityFailed | CancelSignupFailed

  datatype Result<T> = Ok(value: T) | Err(code: ErrCode)

  /** The keys of `m` that also occur in `allowed`, with their values. */
  function Restrict<V>(m: map<string, V>, allowed: seq<string>): map<string, V>
  {
    map k | k in m && k in allowed :: m[k]
  }

  /**
   * Copies, key by key in whitelist order, every whitelisted key that the
   * request defines; keys outside the whitelist are dropped.
   */
  method PickFields<V>(data: map<string, V>, allowed: seq<string>) returns (picked: map<string, V>)
    ensures picked.Keys == data.Keys * (set k | k in allowed)
    ensures forall k :: k in picked ==> picked[k] == data[k]
    ensures picked == Restrict(data, allowed)
  {
    picked := map[];
    var i := 0;
    while i < |allowed|
      invariant 0 <= i <= |allowed|
      invariant picked.Keys == data.Keys * (set k | k in allowed[..i])
      invariant forall k :: k in picked ==> picked[k] == data[k]
    {
      var key := allowed[i];
      assert allowed[..i + 1] == allowed[..i] + [key];
      if key in data {
        picked := picked[key := data[key]];
      }
      i := i + 1;
    }
    assert allowed[..i] == allowed;
  }
}
