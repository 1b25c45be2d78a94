/**
 * Household members as the use cases see them: `Member(id, userId, householdId, role)` rows of
 * the member table, and the lookups and counts the use cases make on that table.  The table
 * itself lives behind the repository, whose code is not part of this model; it is modelled as a
 * sequence of active memberships.
 */
module Household {
  import opened Wrappers

  /** `HouseholdRole`. */
  datatype Role = Senior | Caregiver

  datatype Member = Member(id: string, userId: string, householdId: string, role: Role)

  /** Membership ids are unique across the table. */
  predicate UniqueIds(members: seq<Member>) {
    forall i, j :: 0 <= i < j < |members| ==> members[i].id != members[j].id
  }

  /** A user holds at most one membership per household. */
  predicate OneMembershipPerUser(members: seq<Member>) {
    forall i, j :: 0 <= i < j < |members| ==>
      members[i].userId != members[j].userId || members[i].householdId != members[j].householdId
  }

  /** The member table as the repository keeps it. */
  predicate WellFormed(members: seq<Member>) {
    UniqueIds(members) && OneMembershipPerUser(members)
  }

  /** `findActiveMemberByUserInHousehold(userId, householdId)`. */
  function FindActiveMember(members: seq<Member>, userId: string, householdId: string): (r: Option<Member>)
    ensures r.Some? ==> r.value in members && r.value.userId == userId && r.value.householdId == householdId
    ensures r.None? <==> forall i :: 0 <= i < |members| ==> !(members[i].userId == userId && members[i].householdId == householdId)
  {
    if members == [] then None
    else if members[0].userId == userId && members[0].householdId == householdId then Some(members[0])
    else FindActiveMember(members[1..], userId, householdId)
  }

  /** `findMemberById(memberId)`. */
  function FindMemberById(members: seq<Member>, id: string): (r: Option<Member>)
    ensures r.Some? ==> r.value in members && r.value.id == id
    ensures r.None? <==> forall i :: 0 <= i < |members| ==> members[i].id != id
  {
    if members == [] then None
    else if members[0].id == id then Some(members[0])
    else FindMemberById(members[1..], id)
  }

  /** `findMemberInHousehold(memberId, householdId)`: the member with that id, when it belongs to the household. */
  function FindMemberInHousehold(members: seq<Member>, id: string, householdId: string): (r: Option<Member>)
    ensures r.Some? ==> r.value in members && r.value.id == id && r.value.householdId == householdId
    ensures r.None? <==> forall i :: 0 <= i < |members| ==> !(members[i].id == id && members[i].householdId == householdId)
  {
    if members == [] then None
    else if members[0].id == id && members[0].householdId == householdId then Some(members[0])
    else FindMemberInHousehold(members[1..], id, householdId)
  }

  /** `listHouseholdMembers(householdId)`: the household's rows, in table order. */
  function InHousehold(members: seq<Member>, householdId: string): (r: seq<Member>)
    ensures |r| <= |members|
  {
    if members == [] then []
    else (if members[0].householdId == householdId then [members[0]] else []) + InHousehold(members[1..], householdId)
  }

  /** `members.filter((m) => m.role === 'caregiver').length`. */
  function CaregiverCount(members: seq<Member>): (n: nat)
    ensures n <= |members|
  {
    if members == [] then 0
    else (if members[0].role == Caregiver then 1 else 0) + CaregiverCount(members[1..])
  }

  /** `updateMemberRole(memberId, role)` on the table: the row with that id gets the new role. */
  function SetRole(members: seq<Member>, id: string, role: Role): (r: seq<Member>)
    ensures |r| == |members|
    ensures forall i :: 0 <= i < |members| ==> r[i] == if members[i].id == id then members[i].(role := role) else members[i]
  {
    if members == [] then []
    else [if members[0].id == id then members[0].(role := role) else members[0]] + SetRole(members[1..], id, role)
  }

  /** `removeMember(memberId)` on the table: the row with that id is dropped, the others keep their order. */
  function Without(members: seq<Member>, id: string): (r: seq<Member>)
    ensures |r| <= |members|
  {
    if members == [] then []
    else (if members[0].id == id then [] else [members[0]]) + Without(members[1..], id)
  }

  /** The tail of a well-formed table is well formed. */
  lemma WellFormedTail(members: seq<Member>)
    requires members != [] && WellFormed(members)
    ensures WellFormed(members[1..])
  {
    assert forall i :: 0 <= i < |members[1..]| ==> members[1..][i] == members[i + 1];
  }

  /** The tail of a table with unique ids has unique ids, none of them the first row's. */
  lemma UniqueTail(members: seq<Member>)
    requires members != [] && UniqueIds(members)
    ensures UniqueIds(members[1..])
    ensures forall m :: m in members[1..] ==> m.id != members[0].id
  {
    var tail := members[1..];
    assert forall i :: 0 <= i < |tail| ==> tail[i] == members[i + 1];
  }

  /** A row that clashes with none of a well-formed table may be put in front of it. */
  lemma ConsWellFormed(first: Member, rest: seq<Member>)
    requires WellFormed(rest)
    requires forall m :: m in rest ==> m.id != first.id && (m.userId != first.userId || m.householdId != first.householdId)
    ensures WellFormed([first] + rest)
  {
    var all := [first] + rest;
    assert forall i :: 0 < i < |all| ==> all[i] == rest[i - 1] && all[i] in rest;
  }

  /** `SetRole` on a table with a first row. */
  lemma SetRoleCons(first: Member, tail: seq<Member>, id: string, role: Role)
    ensures SetRole([first] + tail, id, role) == [if first.id == id then first.(role := role) else first] + SetRole(tail, id, role)
  {
    assert ([first] + tail)[1..] == tail;
  }

  /** `Without` on a table with a first row. */
  lemma WithoutCons(first: Member, tail: seq<Member>, id: string)
    ensures Without([first] + tail, id) == (if first.id == id then [] else [first]) + Without(tail, id)
  {
    assert ([first] + tail)[1..] == tail;
  }

  /**
   * Giving the member `id` of household `h` a new role changes the household's caregiver count
   * by what that one member loses and gains, and leaves its member count alone.
   */
  lemma {:induction false} SetRoleCounts(members: seq<Member>, id: string, role: Role, target: Member, h: string)
    requires UniqueIds(members) && target in members && target.id == id && target.householdId == h
    ensures |InHousehold(SetRole(members, id, role), h)| == |InHousehold(members, h)|
    ensures CaregiverCount(InHousehold(SetRole(members, id, role), h))
      == CaregiverCount(InHousehold(members, h)) - (if target.role == Caregiver then 1 else 0) + (if role == Caregiver then 1 else 0)
  {
    var first, tail := members[0], members[1..];
    assert members == [first] + tail;
    var head := if first.id == id then first.(role := role) else first;
    SetRoleCons(first, tail, id, role);
    CountSplit(InHousehold(members, h), first, h, tail);
    CountSplit(InHousehold(SetRole(members, id, role), h), head, h, SetRole(tail, id, role));
    UniqueTail(members);
    if first == target {
      SetRoleAbsent(tail, id, role);
    } else {
      SetRoleCounts(tail, id, role, target, h);
    }
  }

  /** Splitting the household's rows at the first row of the table. */
  lemma CountSplit(rows: seq<Member>, first: Member, h: string, tail: seq<Member>)
    requires rows == InHousehold([first] + tail, h)
    ensures rows == (if first.householdId == h then [first] else []) + InHousehold(tail, h)
    ensures CaregiverCount(rows) == (if first.householdId == h && first.role == Caregiver then 1 else 0) + CaregiverCount(InHousehold(tail, h))
  {
    InHouseholdCons(first, tail, h);
    CaregiverCountAfter(if first.householdId == h then [first] else [], InHousehold(tail, h));
  }

  /** `InHousehold` on a table with a first row. */
  lemma InHouseholdCons(first: Member, tail: seq<Member>, h: string)
    ensures InHousehold([first] + tail, h) == (if first.householdId == h then [first] else []) + InHousehold(tail, h)
  {
    assert ([first] + tail)[1..] == tail;
  }

  /** `listHouseholdMembers` keeps exactly the rows of that household. */
  lemma {:induction false} InHouseholdMembers(members: seq<Member>, h: string)
    ensures forall m :: m in InHousehold(members, h) <==> m in members && m.householdId == h
    decreases |members|
  {
    if members != [] {
      var first, tail := members[0], members[1..];
      assert members == [first] + tail;
      InHouseholdMembers(tail, h);
      InHouseholdCons(first, tail, h);
    }
  }

  /** The caregivers of at most one row followed by others. */
  lemma CaregiverCountAfter(p: seq<Member>, rest: seq<Member>)
    requires |p| <= 1
    ensures CaregiverCount(p + rest) == (if p != [] && p[0].role == Caregiver then 1 else 0) + CaregiverCount(rest)
  {
    if p != [] {
      assert (p + rest)[1..] == rest;
    } else {
      assert p + rest == rest;
    }
  }

  /** A table without the id is left alone by `SetRole`. */
  lemma {:induction false} SetRoleAbsent(members: seq<Member>, id: string, role: Role)
    requires forall m :: m in members ==> m.id != id
    ensures SetRole(members, id, role) == members
  {
    var r := SetRole(members, id, role);
    assert forall i :: 0 <= i < |members| ==> members[i] in members && r[i] == members[i];
  }

  /**
   * Removing the member `id` of household `h` lowers the household's member count by one and
   * its caregiver count by one exactly when that member is a caregiver.
   */
  lemma {:induction false} WithoutCounts(members: seq<Member>, target: Member, h: string)
    requires UniqueIds(members) && target in members && target.householdId == h
    ensures |InHousehold(Without(members, target.id), h)| == |InHousehold(members, h)| - 1
    ensures CaregiverCount(InHousehold(Without(members, target.id), h))
      == CaregiverCount(InHousehold(members, h)) - (if target.role == Caregiver then 1 else 0)
  {
    var first, tail := members[0], members[1..];
    assert members == [first] + tail;
    WithoutCons(first, tail, target.id);
    CountSplit(InHousehold(members, h), first, h, tail);
    UniqueTail(members);
    if first == target {
      WithoutAbsent(tail, target.id);
      assert Without(members, target.id) == tail;
    } else {
      assert target in tail;
      CountSplit(InHousehold(Without(members, target.id), h), first, h, Without(tail, target.id));
      WithoutCounts(tail, target, h);
    }
  }

  /** A table without the id is left alone by `Without`. */
  lemma {:induction false} WithoutAbsent(members: seq<Member>, id: string)
    requires forall m :: m in members ==> m.id != id
    ensures Without(members, id) == members
    decreases |members|
  {
    if members != [] {
      var first, tail := members[0], members[1..];
      assert members == [first] + tail;
      assert forall m :: m in tail ==> m in members;
      WithoutAbsent(tail, id);
      WithoutCons(first, tail, id);
    }
  }

  /** Removing a row keeps the table well formed. */
  lemma {:induction false} WithoutWellFormed(members: seq<Member>, id: string)
    requires WellFormed(members)
    ensures WellFormed(Without(members, id))
    decreases |members|
  {
    if members != [] {
      var first, tail := members[0], members[1..];
      assert members == [first] + tail;
      WellFormedTail(members);
      WithoutWellFormed(tail, id);
      WithoutCons(first, tail, id);
      if first.id != id {
        var rest := Without(tail, id);
        WithoutMembers(tail, id);
        forall m | m in rest
          ensures m.id != first.id && (m.userId != first.userId || m.householdId != first.householdId)
        {
          var k :| 0 <= k < |tail| && tail[k] == m;
          assert members[k + 1] == m;
        }
        ConsWellFormed(first, rest);
      }
    }
  }

  /** `removeMember` keeps exactly the rows with another id. */
  lemma {:induction false} WithoutMembers(members: seq<Member>, id: string)
    ensures forall m :: m in Without(members, id) <==> m in members && m.id != id
    decreases |members|
  {
    if members != [] {
      var first, tail := members[0], members[1..];
      assert members == [first] + tail;
      WithoutMembers(tail, id);
      WithoutCons(first, tail, id);
    }
  }

  /** Changing a role keeps the table well formed. */
  lemma SetRoleWellFormed(members: seq<Member>, id: string, role: Role)
    requires WellFormed(members)
    ensures WellFormed(SetRole(members, id, role))
  {
  }
}
