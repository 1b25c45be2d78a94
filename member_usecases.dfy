/**
 * The use cases that change the member table: updating a member's role (the typed copy under
 * src/ and the plain-error copy under api/), removing a member (typed and plain copies) and
 * leaving a household.
 *
 * Each use case is specified by a function of the member table that gives both what the call
 * returns or throws and the table it leaves behind; the methods run the guards one after the
 * other against a `Repository` and are proved to follow that function.  The business rules the
 * use cases enforce are lemmas about the functions: a household keeps a caregiver
 * (src/domain/usecases/UpdateHouseholdMemberRoleUseCase.ts:43-50,
 * src/domain/usecases/LeaveHouseholdUseCase.ts:30-36), a household keeps a member
 * (src/domain/usecases/LeaveHouseholdUseCase.ts:25-28,
 * src/domain/usecases/households/RemoveHouseholdMemberUseCase.ts:46-50), and a refused call
 * writes nothing.
 */
module MemberUseCases {
  import opened Wrappers
  import opened DomainErrors
  import opened Household
  import opened HouseholdAccess
  import opened HouseholdRepository

  const LastCaregiverDemotion: string := "Cannot demote yourself. The household must have at least one caregiver."
  const CaregiversOnlyUpdateRoles: string := "Only caregivers can update household member roles."
  const CaregiversOnlyRemove: string := "Only caregivers can remove household members."
  const CannotRemoveSelf: string := "Cannot remove yourself using this endpoint. Use leave household instead."
  const CannotRemoveLast: string := "Cannot remove the last member of the household."
  const LastMemberLeaving: string := "Cannot leave household. You are the last member."
  const LastCaregiverLeaving: string := "Cannot leave household. You are the last caregiver."

  /** What a use case returns or throws, and the member table it leaves. */
  datatype Outcome<+T> = Outcome(result: Result<T>, members: seq<Member>)

  /** The household has a caregiver. */
  predicate HasCaregiver(members: seq<Member>, householdId: string) {
    CaregiverCount(InHousehold(members, householdId)) >= 1
  }

  /** `findMemberById` found a member of this household. */
  predicate InThisHousehold(target: Option<Member>, householdId: string) {
    target.Some? && target.value.householdId == householdId
  }

  // ---------------------------------------------------------------------------------------
  // Update a member's role, src/ copy: any demotion of the last caregiver is refused.

  function UpdateRole(members: seq<Member>, householdId: string, requesterUserId: string, memberId: string,
                      newRole: Role): (o: Outcome<Member>)
    ensures o.result.Err? ==> o.members == members
    ensures !HasMembership(members, requesterUserId, householdId) ==> o.result == Err(DomainErr(Forbidden, AccessDenied))
    ensures o.result.Ok? ==>
      && (exists i :: 0 <= i < |members| && IsMembership(members[i], requesterUserId, householdId) && members[i].role == Caregiver)
      && (exists i :: 0 <= i < |members| && members[i].id == memberId && members[i].householdId == householdId)
      && o.members == SetRole(members, memberId, newRole)
      && o.result.value.id == memberId && o.result.value.role == newRole
    ensures o.result == Err(DomainErr(BusinessRule, LastCaregiverDemotion)) ==>
      newRole != Caregiver && CaregiverCount(InHousehold(members, householdId)) <= 1
  {
    match EnsureCaregiver(members, requesterUserId, householdId)
    case Err(e) => Outcome(Err(e), members)
    case Ok(_) =>
      var target := FindMemberById(members, memberId);
      if !InThisHousehold(target, householdId) then Outcome(Err(DomainErr(NotFound, MemberNotFound)), members)
      else if target.value.role == Caregiver && newRole != Caregiver && CaregiverCount(InHousehold(members, householdId)) <= 1 then
        Outcome(Err(DomainErr(BusinessRule, LastCaregiverDemotion)), members)
      else Outcome(Ok(target.value.(role := newRole)), SetRole(members, memberId, newRole))
  }

  /** A caregiver row of the household makes the household's caregiver count positive. */
  lemma {:induction false} CaregiverCounted(members: seq<Member>, k: int, householdId: string)
    requires 0 <= k < |members| && members[k].householdId == householdId && members[k].role == Caregiver
    ensures HasCaregiver(members, householdId)
    decreases |members|
  {
    var tail := members[1..];
    assert members == [members[0]] + tail;
    CountSplit(InHousehold(members, householdId), members[0], householdId, tail);
    if k > 0 {
      assert tail[k - 1] == members[k];
      CaregiverCounted(tail, k - 1, householdId);
    }
  }

  /** A successful role update leaves the household with at least one caregiver. */
  lemma UpdateRoleKeepsCaregiver(members: seq<Member>, householdId: string, requesterUserId: string, memberId: string, newRole: Role)
    requires UniqueIds(members)
    requires UpdateRole(members, householdId, requesterUserId, memberId, newRole).result.Ok?
    ensures HasCaregiver(UpdateRole(members, householdId, requesterUserId, memberId, newRole).members, householdId)
  {
    var requester :| 0 <= requester < |members| && IsMembership(members[requester], requesterUserId, householdId) && members[requester].role == Caregiver;
    CaregiverCounted(members, requester, householdId);
    var target := FindMemberById(members, memberId).value;
    SetRoleCounts(members, memberId, newRole, target, householdId);
  }

  /** A successful role update changes the target's role and no other row. */
  lemma UpdateRoleOnlyTarget(members: seq<Member>, householdId: string, requesterUserId: string, memberId: string, newRole: Role)
    requires UpdateRole(members, householdId, requesterUserId, memberId, newRole).result.Ok?
    ensures var after := UpdateRole(members, householdId, requesterUserId, memberId, newRole).members;
      && |after| == |members|
      && (forall i :: 0 <= i < |members| && members[i].id != memberId ==> after[i] == members[i])
      && (forall i :: 0 <= i < |members| && members[i].id == memberId ==> after[i] == members[i].(role := newRole))
      && |InHousehold(after, householdId)| == |InHousehold(members, householdId)|
  {
    SetRoleSize(members, memberId, newRole, householdId);
  }

  /** `SetRole` never moves a row into or out of a household. */
  lemma {:induction false} SetRoleSize(members: seq<Member>, id: string, role: Role, householdId: string)
    ensures |InHousehold(SetRole(members, id, role), householdId)| == |InHousehold(members, householdId)|
    decreases |members|
  {
    if members != [] {
      var tail := members[1..];
      var head := if members[0].id == id then members[0].(role := role) else members[0];
      assert members == [members[0]] + tail;
      assert SetRole(members, id, role) == [head] + SetRole(tail, id, role);
      CountSplit(InHousehold(members, householdId), members[0], householdId, tail);
      CountSplit(InHousehold(SetRole(members, id, role), householdId), head, householdId, SetRole(tail, id, role));
      SetRoleSize(tail, id, role, householdId);
    }
  }

  // ---------------------------------------------------------------------------------------
  // Update a member's role, api/ copy: plain errors, and only a self-demotion is counted.

  function UpdateRolePlain(members: seq<Member>, householdId: string, requesterUserId: string, memberId: string,
                           newRole: Role): (o: Outcome<Member>)
    ensures o.result.Err? ==> o.members == members
    ensures !HasMembership(members, requesterUserId, householdId) ==> o.result == Err(PlainErr(AccessDenied))
    ensures o.result.Ok? ==>
      && (exists i :: 0 <= i < |members| && IsMembership(members[i], requesterUserId, householdId) && members[i].role == Caregiver)
      && (exists i :: 0 <= i < |members| && members[i].id == memberId && members[i].householdId == householdId)
      && o.members == SetRole(members, memberId, newRole)
      && o.result.value.id == memberId && o.result.value.role == newRole
    ensures o.result == Err(PlainErr(LastCaregiverDemotion)) ==>
      newRole != Caregiver && CaregiverCount(InHousehold(members, householdId)) <= 1
  {
    var requester := FindActiveMember(members, requesterUserId, householdId);
    if requester.None? then Outcome(Err(PlainErr(AccessDenied)), members)
    else if requester.value.role != Caregiver then Outcome(Err(PlainErr(CaregiversOnlyUpdateRoles)), members)
    else
      var target := FindMemberById(members, memberId);
      if !InThisHousehold(target, householdId) then Outcome(Err(PlainErr(MemberNotFound)), members)
      else if target.value.userId == requesterUserId && requester.value.role == Caregiver && newRole != Caregiver
              && CaregiverCount(InHousehold(members, householdId)) <= 1 then
        Outcome(Err(PlainErr(LastCaregiverDemotion)), members)
      else Outcome(Ok(target.value.(role := newRole)), SetRole(members, memberId, newRole))
  }

  /**
   * The api/ copy counts caregivers only when requesters demote themselves, yet a successful call
   * still leaves a caregiver: demoting someone else leaves the requesting caregiver in place.
   */
  lemma UpdateRolePlainKeepsCaregiver(members: seq<Member>, householdId: string, requesterUserId: string, memberId: string, newRole: Role)
    requires UniqueIds(members)
    requires UpdateRolePlain(members, householdId, requesterUserId, memberId, newRole).result.Ok?
    ensures HasCaregiver(UpdateRolePlain(members, householdId, requesterUserId, memberId, newRole).members, householdId)
  {
    var requester := FindActiveMember(members, requesterUserId, householdId).value;
    var target := FindMemberById(members, memberId).value;
    var k :| 0 <= k < |members| && members[k] == requester;
    var after := SetRole(members, memberId, newRole);
    if target.userId == requesterUserId || target.role != Caregiver || newRole == Caregiver {
      CaregiverCounted(members, k, householdId);
      SetRoleCounts(members, memberId, newRole, target, householdId);
    } else {
      assert requester.id != memberId;
      assert after[k] == requester;
      CaregiverCounted(after, k, householdId);
    }
  }

  /**
   * On a well-formed table the two copies take the same decision and leave the same table,
   * although the api/ copy counts caregivers only for a self-demotion: a caregiver demoting
   * another caregiver is itself a second caregiver of the household.
   */
  lemma UpdateRoleCopiesAgree(members: seq<Member>, householdId: string, requesterUserId: string, memberId: string, newRole: Role)
    requires WellFormed(members)
    ensures var typed := UpdateRole(members, householdId, requesterUserId, memberId, newRole);
      var plain := UpdateRolePlain(members, householdId, requesterUserId, memberId, newRole);
      && (typed.result.Ok? <==> plain.result.Ok?)
      && typed.members == plain.members
  {
    var requester := FindActiveMember(members, requesterUserId, householdId);
    var target := FindMemberById(members, memberId);
    if requester.Some? && requester.value.role == Caregiver && InThisHousehold(target, householdId) {
      var k :| 0 <= k < |members| && members[k] == requester.value;
      var j :| 0 <= j < |members| && members[j] == target.value;
      if target.value.userId == requesterUserId {
        MembershipUnique(members, k, j, requesterUserId, householdId);
      } else if target.value.role == Caregiver {
        if k < j {
          TwoCaregiversCounted(members, k, j, householdId);
        } else {
          TwoCaregiversCounted(members, j, k, householdId);
        }
      }
    }
  }

  /** Two distinct caregiver rows of one household make a caregiver count of at least two. */
  lemma {:induction false} TwoCaregiversCounted(members: seq<Member>, i: int, j: int, householdId: string)
    requires 0 <= i < j < |members|
    requires members[i].householdId == householdId && members[i].role == Caregiver
    requires members[j].householdId == householdId && members[j].role == Caregiver
    ensures CaregiverCount(InHousehold(members, householdId)) >= 2
    decreases |members|
  {
    var tail := members[1..];
    assert members == [members[0]] + tail;
    CountSplit(InHousehold(members, householdId), members[0], householdId, tail);
    assert tail[j - 1] == members[j];
    if i == 0 {
      CaregiverCounted(tail, j - 1, householdId);
    } else {
      assert tail[i - 1] == members[i];
      TwoCaregiversCounted(tail, i - 1, j - 1, householdId);
    }
  }

  // ---------------------------------------------------------------------------------------
  // Remove a member (typed copy under households/, plain copy beside it).

  function RemoveMember(members: seq<Member>, householdId: string, requesterUserId: string, memberId: string): (o: Outcome<()>)
    ensures o.result.Err? ==> o.members == members
    ensures !HasMembership(members, requesterUserId, householdId) ==> o.result == Err(DomainErr(Forbidden, AccessDenied))
    ensures o.result.Ok? ==>
      && (exists i :: 0 <= i < |members| && IsMembership(members[i], requesterUserId, householdId) && members[i].role == Caregiver)
      && (exists i :: 0 <= i < |members| && members[i].id == memberId && members[i].householdId == householdId && members[i].userId != requesterUserId)
      && o.members == Without(members, memberId)
  {
    match EnsureCaregiver(members, requesterUserId, householdId)
    case Err(e) => Outcome(Err(e), members)
    case Ok(_) =>
      var target := FindMemberById(members, memberId);
      if !InThisHousehold(target, householdId) then Outcome(Err(DomainErr(NotFound, MemberNotFound)), members)
      else if target.value.userId == requesterUserId then Outcome(Err(DomainErr(Conflict, CannotRemoveSelf)), members)
      else if |InHousehold(members, householdId)| <= 1 then Outcome(Err(DomainErr(BusinessRule, CannotRemoveLast)), members)
      else Outcome(Ok(()), Without(members, memberId))
  }

  function RemoveMemberPlain(members: seq<Member>, householdId: string, requesterUserId: string, memberId: string): (o: Outcome<()>)
    ensures o.result.Err? ==> o.members == members
    ensures !HasMembership(members, requesterUserId, householdId) ==> o.result == Err(PlainErr(AccessDenied))
  {
    var requester := FindActiveMember(members, requesterUserId, householdId);
    if requester.None? then Outcome(Err(PlainErr(AccessDenied)), members)
    else if requester.value.role != Caregiver then Outcome(Err(PlainErr(CaregiversOnlyRemove)), members)
    else
      var target := FindMemberById(members, memberId);
      if !InThisHousehold(target, householdId) then Outcome(Err(PlainErr(MemberNotFound)), members)
      else if target.value.userId == requesterUserId then Outcome(Err(PlainErr(CannotRemoveSelf)), members)
      else if |InHousehold(members, householdId)| <= 1 then Outcome(Err(PlainErr(CannotRemoveLast)), members)
      else Outcome(Ok(()), Without(members, memberId))
  }

  /**
   * The plain copy takes the same decisions as the typed one and leaves the same table; its
   * errors are plain errors with the same messages, except the caregiver check's message.
   */
  lemma RemoveCopiesAgree(members: seq<Member>, householdId: string, requesterUserId: string, memberId: string)
    ensures var typed := RemoveMember(members, householdId, requesterUserId, memberId);
      var plain := RemoveMemberPlain(members, householdId, requesterUserId, memberId);
      && (typed.result.Ok? <==> plain.result.Ok?)
      && typed.members == plain.members
      && (typed.result.Err? && typed.result.error.message != CaregiversOnly ==> plain.result == Err(PlainErr(typed.result.error.message)))
      && (typed.result.Err? && typed.result.error.message == CaregiversOnly ==> plain.result == Err(PlainErr(CaregiversOnlyRemove)))
  {
  }

  /** Two distinct rows of one household make it a household of at least two members. */
  lemma {:induction false} TwoRowsCounted(members: seq<Member>, i: int, j: int, householdId: string)
    requires 0 <= i < j < |members| && members[i].householdId == householdId && members[j].householdId == householdId
    ensures |InHousehold(members, householdId)| >= 2
    decreases |members|
  {
    var tail := members[1..];
    assert members == [members[0]] + tail;
    CountSplit(InHousehold(members, householdId), members[0], householdId, tail);
    assert tail[j - 1] == members[j];
    if i == 0 {
      OneRowCounted(tail, j - 1, householdId);
    } else {
      assert tail[i - 1] == members[i];
      TwoRowsCounted(tail, i - 1, j - 1, householdId);
    }
  }

  /** A row of the household makes it non-empty. */
  lemma {:induction false} OneRowCounted(members: seq<Member>, k: int, householdId: string)
    requires 0 <= k < |members| && members[k].householdId == householdId
    ensures |InHousehold(members, householdId)| >= 1
    decreases |members|
  {
    var tail := members[1..];
    assert members == [members[0]] + tail;
    CountSplit(InHousehold(members, householdId), members[0], householdId, tail);
    if k > 0 {
      assert tail[k - 1] == members[k];
      OneRowCounted(tail, k - 1, householdId);
    }
  }

  /**
   * The last-member guard of RemoveMember never fires: once the earlier checks pass, requester and
   * target are two different members of the household.
   */
  lemma RemoveLastMemberGuardUnreachable(members: seq<Member>, householdId: string, requesterUserId: string, memberId: string)
    ensures RemoveMember(members, householdId, requesterUserId, memberId).result != Err(DomainErr(BusinessRule, CannotRemoveLast))
  {
    if EnsureCaregiver(members, requesterUserId, householdId).Ok? && InThisHousehold(FindMemberById(members, memberId), householdId) {
      var requester := EnsureCaregiver(members, requesterUserId, householdId).value;
      var target := FindMemberById(members, memberId).value;
      if target.userId != requesterUserId {
        var i :| 0 <= i < |members| && members[i] == requester;
        var j :| 0 <= j < |members| && members[j] == target;
        if i < j {
          TwoRowsCounted(members, i, j, householdId);
        } else {
          TwoRowsCounted(members, j, i, householdId);
        }
      }
    }
  }

  /**
   * A successful removal drops exactly one member of the household and keeps a caregiver: the
   * requesting caregiver is never the one removed.
   */
  lemma RemoveKeepsCaregiver(members: seq<Member>, householdId: string, requesterUserId: string, memberId: string)
    requires UniqueIds(members)
    requires RemoveMember(members, householdId, requesterUserId, memberId).result.Ok?
    ensures var after := RemoveMember(members, householdId, requesterUserId, memberId).members;
      && |InHousehold(after, householdId)| == |InHousehold(members, householdId)| - 1
      && HasCaregiver(after, householdId)
  {
    var requester := EnsureCaregiver(members, requesterUserId, householdId).value;
    var target := FindMemberById(members, memberId).value;
    var k :| 0 <= k < |members| && members[k] == requester;
    WithoutCounts(members, target, householdId);
    assert requester.id != memberId;
    WithoutMembers(members, memberId);
    var after := Without(members, memberId);
    var k' :| 0 <= k' < |after| && after[k'] == requester;
    CaregiverCounted(after, k', householdId);
  }

  // ---------------------------------------------------------------------------------------
  // Leave a household.

  function Leave(members: seq<Member>, householdId: string, requesterUserId: string): (o: Outcome<()>)
    ensures o.result.Err? ==> o.members == members
    ensures !HasMembership(members, requesterUserId, householdId) ==> o.result == Err(PlainErr(AccessDenied))
    ensures HasMembership(members, requesterUserId, householdId) && |InHousehold(members, householdId)| <= 1 ==>
      o.result == Err(PlainErr(LastMemberLeaving))
    ensures o.result.Ok? ==>
      exists i :: 0 <= i < |members| && IsMembership(members[i], requesterUserId, householdId) && o.members == Without(members, members[i].id)
  {
    var requester := FindActiveMember(members, requesterUserId, householdId);
    if requester.None? then Outcome(Err(PlainErr(AccessDenied)), members)
    else
      var all := InHousehold(members, householdId);
      if |all| <= 1 then Outcome(Err(PlainErr(LastMemberLeaving)), members)
      else if requester.value.role == Caregiver && CaregiverCount(all) <= 1 then Outcome(Err(PlainErr(LastCaregiverLeaving)), members)
      else Outcome(Ok(()), Without(members, requester.value.id))
  }

  /** After leaving, the household keeps a member, and keeps a caregiver if it had one. */
  lemma LeaveKeepsInvariants(members: seq<Member>, householdId: string, requesterUserId: string)
    requires UniqueIds(members)
    requires Leave(members, householdId, requesterUserId).result.Ok?
    ensures var after := Leave(members, householdId, requesterUserId).members;
      && |InHousehold(after, householdId)| >= 1
      && (HasCaregiver(members, householdId) ==> HasCaregiver(after, householdId))
  {
    var requester := FindActiveMember(members, requesterUserId, householdId).value;
    WithoutCounts(members, requester, householdId);
  }

  // ---------------------------------------------------------------------------------------
  // The use cases against the repository.

  /** `UpdateHouseholdMemberRoleUseCase.execute` (src/). */
  method UpdateHouseholdMemberRole(repo: Repository, householdId: string, memberId: string, newRole: Role, requesterUserId: string)
    returns (r: Result<Member>)
    requires repo.Valid()
    modifies repo
    ensures repo.Valid()
    ensures var o := UpdateRole(old(repo.members), householdId, requesterUserId, memberId, newRole);
      r == o.result && repo.members == o.members
    ensures repo.overviews == old(repo.overviews) && repo.medications == old(repo.medications) && repo.reminders == old(repo.reminders)
  {
    var caregiver := EnsureCaregiver(repo.members, requesterUserId, householdId);
    if caregiver.Err? {
      return Err(caregiver.error);
    }
    var target := FindMemberById(repo.members, memberId);
    if target.None? || target.value.householdId != householdId {
      return Err(DomainErr(NotFound, MemberNotFound));
    }
    if target.value.role == Caregiver && newRole != Caregiver {
      var caregiverCount := CaregiverCount(InHousehold(repo.members, householdId));
      if caregiverCount <= 1 {
        return Err(DomainErr(BusinessRule, LastCaregiverDemotion));
      }
    }
    SetRoleWellFormed(repo.members, memberId, newRole);
    repo.members := SetRole(repo.members, memberId, newRole);
    r := Ok(target.value.(role := newRole));
  }

  /** `UpdateHouseholdMemberRoleUseCase.execute` (api/). */
  method UpdateHouseholdMemberRolePlain(repo: Repository, householdId: string, memberId: string, newRole: Role, requesterUserId: string)
    returns (r: Result<Member>)
    requires repo.Valid()
    modifies repo
    ensures repo.Valid()
    ensures var o := UpdateRolePlain(old(repo.members), householdId, requesterUserId, memberId, newRole);
      r == o.result && repo.members == o.members
    ensures repo.overviews == old(repo.overviews) && repo.medications == old(repo.medications) && repo.reminders == old(repo.reminders)
  {
    var requesterMembership := FindActiveMember(repo.members, requesterUserId, householdId);
    if requesterMembership.None? {
      return Err(PlainErr(AccessDenied));
    }
    if requesterMembership.value.role != Caregiver {
      return Err(PlainErr(CaregiversOnlyUpdateRoles));
    }
    var target := FindMemberById(repo.members, memberId);
    if target.None? || target.value.householdId != householdId {
      return Err(PlainErr(MemberNotFound));
    }
    if target.value.userId == requesterUserId && requesterMembership.value.role == Caregiver && newRole != Caregiver {
      var caregiverCount := CaregiverCount(InHousehold(repo.members, householdId));
      if caregiverCount <= 1 {
        return Err(PlainErr(LastCaregiverDemotion));
      }
    }
    SetRoleWellFormed(repo.members, memberId, newRole);
    repo.members := SetRole(repo.members, memberId, newRole);
    r := Ok(target.value.(role := newRole));
  }

  /** `RemoveHouseholdMemberUseCase.execute` (households/, typed errors). */
  method RemoveHouseholdMember(repo: Repository, householdId: string, memberId: string, requesterUserId: string)
    returns (r: Result<()>)
    requires repo.Valid()
    modifies repo
    ensures repo.Valid()
    ensures var o := RemoveMember(old(repo.members), householdId, requesterUserId, memberId);
      r == o.result && repo.members == o.members
    ensures repo.overviews == old(repo.overviews) && repo.medications == old(repo.medications) && repo.reminders == old(repo.reminders)
  {
    var caregiver := EnsureCaregiver(repo.members, requesterUserId, householdId);
    if caregiver.Err? {
      return Err(caregiver.error);
    }
    var target := FindMemberById(repo.members, memberId);
    if target.None? || target.value.householdId != householdId {
      return Err(DomainErr(NotFound, MemberNotFound));
    }
    if target.value.userId == requesterUserId {
      return Err(DomainErr(Conflict, CannotRemoveSelf));
    }
    var allMembers := InHousehold(repo.members, householdId);
    if |allMembers| <= 1 {
      return Err(DomainErr(BusinessRule, CannotRemoveLast));
    }
    WithoutWellFormed(repo.members, memberId);
    repo.members := Without(repo.members, memberId);
    r := Ok(());
  }

  /** `RemoveHouseholdMemberUseCase.execute` (plain errors). */
  method RemoveHouseholdMemberPlain(repo: Repository, householdId: string, memberId: string, requesterUserId: string)
    returns (r: Result<()>)
    requires repo.Valid()
    modifies repo
    ensures repo.Valid()
    ensures var o := RemoveMemberPlain(old(repo.members), householdId, requesterUserId, memberId);
      r == o.result && repo.members == o.members
    ensures repo.overviews == old(repo.overviews) && repo.medications == old(repo.medications) && repo.reminders == old(repo.reminders)
  {
    var requesterMembership := FindActiveMember(repo.members, requesterUserId, householdId);
    if requesterMembership.None? {
      return Err(PlainErr(AccessDenied));
    }
    if requesterMembership.value.role != Caregiver {
      return Err(PlainErr(CaregiversOnlyRemove));
    }
    var target := FindMemberById(repo.members, memberId);
    if target.None? || target.value.householdId != householdId {
      return Err(PlainErr(MemberNotFound));
    }
    if target.value.userId == requesterUserId {
      return Err(PlainErr(CannotRemoveSelf));
    }
    var allMembers := InHousehold(repo.members, householdId);
    if |allMembers| <= 1 {
      return Err(PlainErr(CannotRemoveLast));
    }
    WithoutWellFormed(repo.members, memberId);
    repo.members := Without(repo.members, memberId);
    r := Ok(());
  }

  /** `LeaveHouseholdUseCase.execute`. */
  method LeaveHousehold(repo: Repository, householdId: string, requesterUserId: string) returns (r: Result<()>)
    requires repo.Valid()
    modifies repo
    ensures repo.Valid()
    ensures var o := Leave(old(repo.members), householdId, requesterUserId);
      r == o.result && repo.members == o.members
    ensures repo.overviews == old(repo.overviews) && repo.medications == old(repo.medications) && repo.reminders == old(repo.reminders)
  {
    var requesterMembership := FindActiveMember(repo.members, requesterUserId, householdId);
    if requesterMembership.None? {
      return Err(PlainErr(AccessDenied));
    }
    var allMembers := InHousehold(repo.members, householdId);
    if |allMembers| <= 1 {
      return Err(PlainErr(LastMemberLeaving));
    }
    if requesterMembership.value.role == Caregiver {
      var caregiverCount := CaregiverCount(allMembers);
      if caregiverCount <= 1 {
        return Err(PlainErr(LastCaregiverLeaving));
      }
    }
    WithoutWellFormed(repo.members, requesterMembership.value.id);
    repo.members := Without(repo.members, requesterMembership.value.id);
    r := Ok(());
  }
}
