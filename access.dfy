/**
 * Read-only access checks: the four checks of `HouseholdAccessValidator`, the allowed-roles
 * check of `EnsureHouseholdRoleUseCase` and `GetHouseholdOverviewUseCase`.  None of them writes
 * to the repository, so each is a function of the tables it reads.
 */
module HouseholdAccess {
  import opened Wrappers
  import opened DomainErrors
  import opened Household

  const AccessDenied: string := "Access denied to this household."
  const CaregiversOnly: string := "Only caregivers can perform this action."
  const HouseholdNotFound: string := "Household not found."
  const MemberNotFound: string := "Member not found in this household."
  const InsufficientRole: string := "Insufficient household role."

  /** `m` is an active membership of user `userId` in household `householdId`. */
  predicate IsMembership(m: Member, userId: string, householdId: string) {
    m.userId == userId && m.householdId == householdId
  }

  /** The table holds a membership of `userId` in `householdId`. */
  predicate HasMembership(members: seq<Member>, userId: string, householdId: string) {
    exists i :: 0 <= i < |members| && IsMembership(members[i], userId, householdId)
  }

  /** `ensureMember(userId, householdId)`. */
  function EnsureMember(members: seq<Member>, userId: string, householdId: string): (r: Result<Member>)
    ensures r.Ok? <==> HasMembership(members, userId, householdId)
    ensures r.Ok? ==> r.value in members && IsMembership(r.value, userId, householdId)
    ensures r.Err? ==> r.error == DomainErr(Forbidden, AccessDenied)
  {
    var found := FindActiveMember(members, userId, householdId);
    if found.None? then Err(DomainErr(Forbidden, AccessDenied)) else Ok(found.value)
  }

  /** `ensureCaregiver(userId, householdId)`: membership first, then the role. */
  function EnsureCaregiver(members: seq<Member>, userId: string, householdId: string): (r: Result<Member>)
    ensures !HasMembership(members, userId, householdId) ==> r == Err(DomainErr(Forbidden, AccessDenied))
    ensures HasMembership(members, userId, householdId) && r.Err? ==> r.error == DomainErr(Forbidden, CaregiversOnly)
    ensures r.Ok? ==> r.value in members && IsMembership(r.value, userId, householdId) && r.value.role == Caregiver
  {
    match EnsureMember(members, userId, householdId)
    case Err(e) => Err(e)
    case Ok(member) => if member.role != Caregiver then Err(DomainErr(Forbidden, CaregiversOnly)) else Ok(member)
  }

  /** With one membership per user and household, the role check is exactly "holds a caregiver membership". */
  lemma EnsureCaregiverExactly(members: seq<Member>, userId: string, householdId: string)
    requires OneMembershipPerUser(members)
    ensures EnsureCaregiver(members, userId, householdId).Ok? <==>
      exists i :: 0 <= i < |members| && IsMembership(members[i], userId, householdId) && members[i].role == Caregiver
  {
    if i :| 0 <= i < |members| && IsMembership(members[i], userId, householdId) && members[i].role == Caregiver {
      var m := EnsureMember(members, userId, householdId).value;
      var j :| 0 <= j < |members| && members[j] == m;
      MembershipUnique(members, i, j, userId, householdId);
    }
  }

  /** Under one membership per user and household, two rows of the same membership are one row. */
  lemma MembershipUnique(members: seq<Member>, i: int, j: int, userId: string, householdId: string)
    requires OneMembershipPerUser(members)
    requires 0 <= i < |members| && IsMembership(members[i], userId, householdId)
    requires 0 <= j < |members| && IsMembership(members[j], userId, householdId)
    ensures i == j
  {
  }

  /** `ensureHouseholdExists(householdId)`. */
  function EnsureHouseholdExists(overviews: map<string, string>, householdId: string): (r: Result<()>)
    ensures r.Ok? <==> householdId in overviews
    ensures r.Err? ==> r.error == DomainErr(NotFound, HouseholdNotFound)
  {
    if householdId !in overviews then Err(DomainErr(NotFound, HouseholdNotFound)) else Ok(())
  }

  /** `ensureMemberExists(memberId, householdId)`. */
  function EnsureMemberExists(members: seq<Member>, memberId: string, householdId: string): (r: Result<Member>)
    ensures r.Ok? <==> exists i :: 0 <= i < |members| && members[i].id == memberId && members[i].householdId == householdId
    ensures r.Ok? ==> r.value in members && r.value.id == memberId && r.value.householdId == householdId
    ensures r.Err? ==> r.error == DomainErr(NotFound, MemberNotFound)
  {
    var found := FindMemberInHousehold(members, memberId, householdId);
    if found.None? then Err(DomainErr(NotFound, MemberNotFound)) else Ok(found.value)
  }

  /**
   * `EnsureHouseholdRoleUseCase.execute` as written: the membership lookup is handed the
   * household id as the user id and the requester's user id as the household id.
   */
  function EnsureHouseholdRoleAsWritten(members: seq<Member>, householdId: string, requesterUserId: string,
                                        allowedRoles: seq<Role>): (r: Result<()>)
    ensures !HasMembership(members, householdId, requesterUserId) ==> r == Err(DomainErr(Forbidden, AccessDenied))
    ensures HasMembership(members, householdId, requesterUserId) && r.Err? ==> r.error == DomainErr(Forbidden, InsufficientRole)
    ensures r.Ok? ==> exists i :: 0 <= i < |members| && IsMembership(members[i], householdId, requesterUserId) && members[i].role in allowedRoles
    ensures allowedRoles == [] ==> r.Err?
  {
    match EnsureMember(members, householdId, requesterUserId)
    case Err(e) => Err(e)
    case Ok(member) => if member.role !in allowedRoles then Err(DomainErr(Forbidden, InsufficientRole)) else Ok(())
  }

  /** `EnsureHouseholdRoleUseCase.execute` with the lookup's arguments in the validator's order. */
  function EnsureHouseholdRole(members: seq<Member>, householdId: string, requesterUserId: string,
                               allowedRoles: seq<Role>): (r: Result<()>)
    ensures !HasMembership(members, requesterUserId, householdId) ==> r == Err(DomainErr(Forbidden, AccessDenied))
    ensures HasMembership(members, requesterUserId, householdId) && r.Err? ==> r.error == DomainErr(Forbidden, InsufficientRole)
    ensures r.Ok? ==> exists i :: 0 <= i < |members| && IsMembership(members[i], requesterUserId, householdId) && members[i].role in allowedRoles
    ensures allowedRoles == [] ==> r.Err?
  {
    match EnsureMember(members, requesterUserId, householdId)
    case Err(e) => Err(e)
    case Ok(member) => if member.role !in allowedRoles then Err(DomainErr(Forbidden, InsufficientRole)) else Ok(())
  }

  /** With one membership per user and household: success exactly for a member holding an allowed role. */
  lemma EnsureHouseholdRoleExactly(members: seq<Member>, householdId: string, requesterUserId: string, allowedRoles: seq<Role>)
    requires OneMembershipPerUser(members)
    ensures EnsureHouseholdRole(members, householdId, requesterUserId, allowedRoles).Ok? <==>
      exists i :: 0 <= i < |members| && IsMembership(members[i], requesterUserId, householdId) && members[i].role in allowedRoles
  {
    if i :| 0 <= i < |members| && IsMembership(members[i], requesterUserId, householdId) && members[i].role in allowedRoles {
      var m := EnsureMember(members, requesterUserId, householdId).value;
      var j :| 0 <= j < |members| && members[j] == m;
      MembershipUnique(members, i, j, requesterUserId, householdId);
    }
  }

  /**
   * The swapped lookup denies a caregiver of the household the role it holds, while the corrected
   * check lets it through.
   */
  lemma SwappedLookupDeniesMember()
    ensures var members := [Member("m1", "u1", "h1", Caregiver)];
      && EnsureHouseholdRoleAsWritten(members, "h1", "u1", [Caregiver]) == Err(DomainErr(Forbidden, AccessDenied))
      && EnsureHouseholdRole(members, "h1", "u1", [Caregiver]) == Ok(())
  {
    var members := [Member("m1", "u1", "h1", Caregiver)];
    assert !IsMembership(members[0], "h1", "u1");
    assert FindActiveMember(members, "u1", "h1") == Some(members[0]);
  }

  /** `GetHouseholdOverviewUseCase.execute`: membership first, then the overview, with plain errors. */
  function GetHouseholdOverview(members: seq<Member>, overviews: map<string, string>, householdId: string,
                                requesterUserId: string): (r: Result<string>)
    ensures !HasMembership(members, requesterUserId, householdId) ==> r == Err(PlainErr(AccessDenied))
    ensures HasMembership(members, requesterUserId, householdId) && householdId !in overviews ==> r == Err(PlainErr(HouseholdNotFound))
    ensures r.Ok? <==> HasMembership(members, requesterUserId, householdId) && householdId in overviews
    ensures r.Ok? ==> r.value == overviews[householdId]
  {
    var member := FindActiveMember(members, requesterUserId, householdId);
    if member.None? then Err(PlainErr(AccessDenied))
    else if householdId !in overviews then Err(PlainErr(HouseholdNotFound))
    else Ok(overviews[householdId])
  }
}
