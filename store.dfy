/**
 * The document store shared by the cloud objects: one map from document id
 * to document per collection. A transaction of the source is one method
 * call that either applies all of its writes or none.
 */
module Store {
  import opened Common
  import opened Records

  class Database {
    var users: map<Id, User>
    var cardRequests: map<Id, CardRequest>
    var friends: map<Id, Friendship>
    var recommendations: map<Id, Recommendation>
    var verifyLogs: seq<VerifyLog>
    var organizations: map<Id, Organization>
    var orgMembers: map<Id, Member>
    var activities: map<Id, Activity>
    var signups: map<Id, Signup>
    var schoolFeatures: Option<SchoolFeatures>

    constructor ()
      ensures users == map[] && cardRequests == map[] && friends == map[]
      ensures recommendations == map[] && verifyLogs == []
      ensures organizations == map[] && orgMembers == map[]
      ensures activities == map[] && signups == map[]
      ensures schoolFeatures == None
    {
      users := map[];
      cardRequests := map[];
      friends := map[];
      recommendations := map[];
      verifyLogs := [];
      organizations := map[];
      orgMembers := map[];
      activities := map[];
      signups := map[];
      schoolFeatures := None;
    }
  }
}
