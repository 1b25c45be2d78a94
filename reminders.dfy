/**
 * The reminder store as the reminder use cases see it: which medications belong to which
 * household, the reminders of a medication, and the three writes (create, update, delete).
 * The repository behind them is not part of this model; each write is given the plain meaning
 * its signature suggests, stated here once.
 */
module Reminders {
  import opened Wrappers
  import opened HouseholdRepository

  /** `getMedicationById(medicationId, householdId)` finds a medication owned by that household. */
  predicate MedicationInHousehold(medications: map<string, string>, medicationId: string, householdId: string) {
    medicationId in medications && medications[medicationId] == householdId
  }

  /** The reminder `reminderId` of medication `medicationId`, if the store holds one (the first). */
  function FindReminder(reminders: seq<Reminder>, reminderId: string, medicationId: string): (r: Option<Reminder>)
    ensures r.Some? ==> r.value in reminders && r.value.id == reminderId && r.value.medicationId == medicationId
    ensures r.None? <==> forall i :: 0 <= i < |reminders| ==> !(reminders[i].id == reminderId && reminders[i].medicationId == medicationId)
  {
    if reminders == [] then None
    else if reminders[0].id == reminderId && reminders[0].medicationId == medicationId then Some(reminders[0])
    else FindReminder(reminders[1..], reminderId, medicationId)
  }

  /** `getReminderById(reminderId, medicationId, householdId)`: the reminder, when its medication is the household's. */
  function GetReminder(medications: map<string, string>, reminders: seq<Reminder>, reminderId: string, medicationId: string,
                       householdId: string): (r: Option<Reminder>)
    ensures r.Some? ==> MedicationInHousehold(medications, medicationId, householdId)
    ensures r.Some? ==> r.value in reminders && r.value.id == reminderId && r.value.medicationId == medicationId
  {
    if MedicationInHousehold(medications, medicationId, householdId) then FindReminder(reminders, reminderId, medicationId) else None
  }

  /** `listMedicationReminders(medicationId, householdId)`: the medication's reminders, in store order. */
  function RemindersOf(reminders: seq<Reminder>, medicationId: string): (r: seq<Reminder>)
    ensures |r| <= |reminders|
    ensures forall i :: 0 <= i < |r| ==> r[i].medicationId == medicationId && r[i] in reminders
  {
    if reminders == [] then []
    else (if reminders[0].medicationId == medicationId then [reminders[0]] else []) + RemindersOf(reminders[1..], medicationId)
  }

  /** Every reminder of the medication is listed. */
  lemma {:induction false} RemindersOfComplete(reminders: seq<Reminder>, medicationId: string, k: int)
    requires 0 <= k < |reminders| && reminders[k].medicationId == medicationId
    ensures reminders[k] in RemindersOf(reminders, medicationId)
    decreases |reminders|
  {
    if k > 0 {
      assert reminders[1..][k - 1] == reminders[k];
      RemindersOfComplete(reminders[1..], medicationId, k - 1);
    }
  }

  /** `UpdateReminderInput` applied to one reminder: each supplied key replaces that field. */
  function Apply(r: Reminder, changes: ReminderChanges): (u: Reminder)
    ensures u.id == r.id && u.medicationId == r.medicationId
    ensures u.time == changes.time.GetOr(r.time)
    ensures u.daysOfWeek == changes.daysOfWeek.GetOr(r.daysOfWeek)
    ensures u.enabled == changes.enabled.GetOr(r.enabled)
  {
    Reminder(r.id, r.medicationId, changes.time.GetOr(r.time), changes.daysOfWeek.GetOr(r.daysOfWeek),
             changes.enabled.GetOr(r.enabled))
  }

  /** An update with no keys leaves the reminder as it was. */
  lemma ApplyNothing(r: Reminder)
    ensures Apply(r, ReminderChanges(None, None, None)) == r
  {
  }

  /** Applying the same update twice is applying it once. */
  lemma ApplyIdempotent(r: Reminder, changes: ReminderChanges)
    ensures Apply(Apply(r, changes), changes) == Apply(r, changes)
  {
  }

  /** `updateReminder` on the store: the reminder with that id and medication gets the changes. */
  function UpdateIn(reminders: seq<Reminder>, reminderId: string, medicationId: string, changes: ReminderChanges): (r: seq<Reminder>)
    ensures |r| == |reminders|
    ensures forall i :: 0 <= i < |reminders| ==>
      r[i] == if reminders[i].id == reminderId && reminders[i].medicationId == medicationId then Apply(reminders[i], changes) else reminders[i]
  {
    if reminders == [] then []
    else
      var head := if reminders[0].id == reminderId && reminders[0].medicationId == medicationId then Apply(reminders[0], changes) else reminders[0];
      [head] + UpdateIn(reminders[1..], reminderId, medicationId, changes)
  }

  /** `deleteReminder` on the store: the reminders with that id and medication are dropped, the rest keep their order. */
  function DeleteIn(reminders: seq<Reminder>, reminderId: string, medicationId: string): (r: seq<Reminder>)
    ensures |r| <= |reminders|
    ensures forall i :: 0 <= i < |r| ==> r[i] in reminders && !(r[i].id == reminderId && r[i].medicationId == medicationId)
  {
    if reminders == [] then []
    else
      (if reminders[0].id == reminderId && reminders[0].medicationId == medicationId then [] else [reminders[0]])
      + DeleteIn(reminders[1..], reminderId, medicationId)
  }

  /** Deleting keeps every other reminder. */
  lemma {:induction false} DeleteKeepsOthers(reminders: seq<Reminder>, reminderId: string, medicationId: string, k: int)
    requires 0 <= k < |reminders| && !(reminders[k].id == reminderId && reminders[k].medicationId == medicationId)
    ensures reminders[k] in DeleteIn(reminders, reminderId, medicationId)
    decreases |reminders|
  {
    if k > 0 {
      assert reminders[1..][k - 1] == reminders[k];
      DeleteKeepsOthers(reminders[1..], reminderId, medicationId, k - 1);
    }
  }

  /** `createReminder(input)` on the store: a reminder carrying the input, with the store's default for a missing `enabled`. */
  function Created(id: string, input: ReminderInput, defaultEnabled: bool): (r: Reminder)
    ensures r.id == id && r.medicationId == input.medicationId && r.time == input.time && r.daysOfWeek == input.daysOfWeek
    ensures input.enabled.Some? ==> r.enabled == input.enabled.value
    ensures input.enabled.None? ==> r.enabled == defaultEnabled
  {
    Reminder(id, input.medicationId, input.time, input.daysOfWeek, input.enabled.GetOr(defaultEnabled))
  }
}

/**
 * The medication-reminder use cases: create, update (typed and plain copies), delete and list
 * (typed and plain copies).  Each is a chain of ordered guards (access, medication, reminder)
 * followed by one repository call; a failing guard throws and nothing is written.
 */
module ReminderUseCases {
  import opened Wrappers
  import opened DomainErrors
  import opened Household
  import opened HouseholdAccess
  import opened HouseholdRepository
  import opened Reminders

  const MedicationNotFound: string := "Medication not found."
  const ReminderNotFound: string := "Reminder not found."
  const CaregiversOnlyCreate: string := "Only caregivers can create medication reminders."
  const CaregiversOnlyUpdate: string := "Only caregivers can update medication reminders."
  const CaregiversOnlyDelete: string := "Only caregivers can delete medication reminders."
  const NotAMember: string := "Access denied: not a member of this household."

  /** What a reminder use case returns or throws, and the reminder store it leaves. */
  datatype Outcome<+T> = Outcome(result: Result<T>, reminders: seq<Reminder>)

  /** The plain copies' access check: an active membership with the caregiver role. */
  predicate IsCaregiver(members: seq<Member>, userId: string, householdId: string) {
    var member := FindActiveMember(members, userId, householdId);
    member.Some? && member.value.role == Caregiver
  }

  // ---------------------------------------------------------------------------------------
  // Update (reminders/ copy, validator and typed errors).

  function UpdateReminder(members: seq<Member>, medications: map<string, string>, reminders: seq<Reminder>,
                          reminderId: string, medicationId: string, householdId: string, requesterUserId: string,
                          changes: ReminderChanges): (o: Outcome<Reminder>)
    ensures o.result.Err? ==> o.reminders == reminders
    ensures !HasMembership(members, requesterUserId, householdId) ==> o.result == Err(DomainErr(Forbidden, AccessDenied))
    ensures EnsureCaregiver(members, requesterUserId, householdId).Ok? && !MedicationInHousehold(medications, medicationId, householdId) ==>
      o.result == Err(DomainErr(NotFound, MedicationNotFound))
    ensures o.result.Ok? ==>
      && EnsureCaregiver(members, requesterUserId, householdId).Ok?
      && MedicationInHousehold(medications, medicationId, householdId)
      && o.result.value.id == reminderId && o.result.value.medicationId == medicationId
      && o.reminders == UpdateIn(reminders, reminderId, medicationId, changes)
  {
    match EnsureCaregiver(members, requesterUserId, householdId)
    case Err(e) => Outcome(Err(e), reminders)
    case Ok(_) =>
      if !MedicationInHousehold(medications, medicationId, householdId) then Outcome(Err(DomainErr(NotFound, MedicationNotFound)), reminders)
      else
        var reminder := GetReminder(medications, reminders, reminderId, medicationId, householdId);
        if reminder.None? then Outcome(Err(DomainErr(NotFound, ReminderNotFound)), reminders)
        else Outcome(Ok(Apply(reminder.value, changes)), UpdateIn(reminders, reminderId, medicationId, changes))
  }

  /** The update reaches the store exactly when the reminder exists: "Reminder not found." is the last guard. */
  lemma UpdateReminderNotFound(members: seq<Member>, medications: map<string, string>, reminders: seq<Reminder>,
                               reminderId: string, medicationId: string, householdId: string, requesterUserId: string,
                               changes: ReminderChanges)
    requires EnsureCaregiver(members, requesterUserId, householdId).Ok? && MedicationInHousehold(medications, medicationId, householdId)
    ensures var o := UpdateReminder(members, medications, reminders, reminderId, medicationId, householdId, requesterUserId, changes);
      o.result.Ok? <==> exists i :: 0 <= i < |reminders| && reminders[i].id == reminderId && reminders[i].medicationId == medicationId
    ensures var o := UpdateReminder(members, medications, reminders, reminderId, medicationId, householdId, requesterUserId, changes);
      o.result.Err? ==> o.result == Err(DomainErr(NotFound, ReminderNotFound))
  {
  }

  // ---------------------------------------------------------------------------------------
  // Update (plain copy).

  function UpdateReminderPlain(members: seq<Member>, medications: map<string, string>, reminders: seq<Reminder>,
                               reminderId: string, medicationId: string, householdId: string, requesterUserId: string,
                               changes: ReminderChanges): (o: Outcome<Reminder>)
    ensures o.result.Err? ==> o.reminders == reminders
    ensures !IsCaregiver(members, requesterUserId, householdId) ==> o.result == Err(PlainErr(CaregiversOnlyUpdate))
  {
    if !IsCaregiver(members, requesterUserId, householdId) then Outcome(Err(PlainErr(CaregiversOnlyUpdate)), reminders)
    else if !MedicationInHousehold(medications, medicationId, householdId) then Outcome(Err(PlainErr(MedicationNotFound)), reminders)
    else
      var reminder := GetReminder(medications, reminders, reminderId, medicationId, householdId);
      if reminder.None? then Outcome(Err(PlainErr(ReminderNotFound)), reminders)
      else Outcome(Ok(Apply(reminder.value, changes)), UpdateIn(reminders, reminderId, medicationId, changes))
  }

  /**
   * The two update copies take the same decision, return the same reminder and leave the same
   * store; they differ in the errors: one message for both access failures in the plain copy.
   */
  lemma UpdateReminderCopiesAgree(members: seq<Member>, medications: map<string, string>, reminders: seq<Reminder>,
                                  reminderId: string, medicationId: string, householdId: string, requesterUserId: string,
                                  changes: ReminderChanges)
    ensures var typed := UpdateReminder(members, medications, reminders, reminderId, medicationId, householdId, requesterUserId, changes);
      var plain := UpdateReminderPlain(members, medications, reminders, reminderId, medicationId, householdId, requesterUserId, changes);
      && typed.reminders == plain.reminders
      && (typed.result.Ok? <==> plain.result.Ok?)
      && (typed.result.Ok? ==> typed.result == plain.result)
      && (typed.result.Err? && typed.result.error.kind == NotFound ==> plain.result == Err(PlainErr(typed.result.error.message)))
      && (typed.result.Err? && typed.result.error.kind == Forbidden ==> plain.result == Err(PlainErr(CaregiversOnlyUpdate)))
  {
  }

  // ---------------------------------------------------------------------------------------
  // Create.

  /**
   * `CreateReminderUseCase.execute`: after the guards the input is built from the caller's fields,
   * `enabled` only when supplied, and handed to the store, which files it under `newId`.
   */
  function CreateReminder(members: seq<Member>, medications: map<string, string>, reminders: seq<Reminder>,
                          medicationId: string, householdId: string, requesterUserId: string,
                          time: string, daysOfWeek: seq<int>, enabled: Option<bool>, newId: string, defaultEnabled: bool): (o: Outcome<Reminder>)
    ensures o.result.Err? ==> o.reminders == reminders
    ensures !IsCaregiver(members, requesterUserId, householdId) ==> o.result == Err(PlainErr(CaregiversOnlyCreate))
    ensures IsCaregiver(members, requesterUserId, householdId) && !MedicationInHousehold(medications, medicationId, householdId) ==>
      o.result == Err(PlainErr(MedicationNotFound))
    ensures o.result.Ok? ==>
      && o.reminders == reminders + [o.result.value]
      && o.result.value == Created(newId, ReminderInput(medicationId, time, daysOfWeek, enabled), defaultEnabled)
  {
    if !IsCaregiver(members, requesterUserId, householdId) then Outcome(Err(PlainErr(CaregiversOnlyCreate)), reminders)
    else if !MedicationInHousehold(medications, medicationId, householdId) then Outcome(Err(PlainErr(MedicationNotFound)), reminders)
    else
      var reminderInput := ReminderInput(medicationId, time, daysOfWeek, enabled);
      var created := Created(newId, reminderInput, defaultEnabled);
      Outcome(Ok(created), reminders + [created])
  }

  /** A created reminder under a fresh id can be found again with the fields it was created with. */
  lemma {:induction false} CreatedIsFound(reminders: seq<Reminder>, created: Reminder)
    requires forall i :: 0 <= i < |reminders| ==> reminders[i].id != created.id
    ensures FindReminder(reminders + [created], created.id, created.medicationId) == Some(created)
    decreases |reminders|
  {
    if reminders == [] {
      assert [created][0] == created;
    } else {
      assert (reminders + [created])[1..] == reminders[1..] + [created];
      CreatedIsFound(reminders[1..], created);
    }
  }

  // ---------------------------------------------------------------------------------------
  // Delete.

  function DeleteReminder(members: seq<Member>, medications: map<string, string>, reminders: seq<Reminder>,
                          reminderId: string, medicationId: string, householdId: string, requesterUserId: string): (o: Outcome<()>)
    ensures o.result.Err? ==> o.reminders == reminders
    ensures !IsCaregiver(members, requesterUserId, householdId) ==> o.result == Err(PlainErr(CaregiversOnlyDelete))
    ensures IsCaregiver(members, requesterUserId, householdId) && !MedicationInHousehold(medications, medicationId, householdId) ==>
      o.result == Err(PlainErr(MedicationNotFound))
    ensures o.result.Ok? ==>
      && (exists i :: 0 <= i < |reminders| && reminders[i].id == reminderId && reminders[i].medicationId == medicationId)
      && FindReminder(o.reminders, reminderId, medicationId).None?
      && o.reminders == DeleteIn(reminders, reminderId, medicationId)
  {
    if !IsCaregiver(members, requesterUserId, householdId) then Outcome(Err(PlainErr(CaregiversOnlyDelete)), reminders)
    else if !MedicationInHousehold(medications, medicationId, householdId) then Outcome(Err(PlainErr(MedicationNotFound)), reminders)
    else
      var reminder := GetReminder(medications, reminders, reminderId, medicationId, householdId);
      if reminder.None? then Outcome(Err(PlainErr(ReminderNotFound)), reminders)
      else Outcome(Ok(()), DeleteIn(reminders, reminderId, medicationId))
  }

  // ---------------------------------------------------------------------------------------
  // List (reminders/ copy with the validator, and the plain copy).

  function ListMedicationReminders(members: seq<Member>, medications: map<string, string>, reminders: seq<Reminder>,
                                   medicationId: string, householdId: string, requesterUserId: string): (r: Result<seq<Reminder>>)
    ensures !HasMembership(members, requesterUserId, householdId) ==> r == Err(DomainErr(Forbidden, AccessDenied))
    ensures HasMembership(members, requesterUserId, householdId) && !MedicationInHousehold(medications, medicationId, householdId) ==>
      r == Err(DomainErr(NotFound, MedicationNotFound))
    ensures r.Ok? <==> HasMembership(members, requesterUserId, householdId) && MedicationInHousehold(medications, medicationId, householdId)
    ensures r.Ok? ==> forall i :: 0 <= i < |r.value| ==> r.value[i].medicationId == medicationId && r.value[i] in reminders
  {
    match EnsureMember(members, requesterUserId, householdId)
    case Err(e) => Err(e)
    case Ok(_) =>
      if !MedicationInHousehold(medications, medicationId, householdId) then Err(DomainErr(NotFound, MedicationNotFound))
      else Ok(RemindersOf(reminders, medicationId))
  }

  function ListMedicationRemindersPlain(members: seq<Member>, medications: map<string, string>, reminders: seq<Reminder>,
                                        medicationId: string, householdId: string, requesterUserId: string): (r: Result<seq<Reminder>>)
    ensures !HasMembership(members, requesterUserId, householdId) ==> r == Err(PlainErr(NotAMember))
    ensures HasMembership(members, requesterUserId, householdId) && !MedicationInHousehold(medications, medicationId, householdId) ==>
      r == Err(PlainErr(MedicationNotFound))
  {
    var member := FindActiveMember(members, requesterUserId, householdId);
    if member.None? then Err(PlainErr(NotAMember))
    else if !MedicationInHousehold(medications, medicationId, householdId) then Err(PlainErr(MedicationNotFound))
    else Ok(RemindersOf(reminders, medicationId))
  }

  /**
   * Any member may list, whatever its role, and both copies list the same reminders: every
   * reminder of the medication, and nothing else.
   */
  lemma ListCopiesAgree(members: seq<Member>, medications: map<string, string>, reminders: seq<Reminder>,
                        medicationId: string, householdId: string, requesterUserId: string)
    requires HasMembership(members, requesterUserId, householdId) && MedicationInHousehold(medications, medicationId, householdId)
    ensures var typed := ListMedicationReminders(members, medications, reminders, medicationId, householdId, requesterUserId);
      var plain := ListMedicationRemindersPlain(members, medications, reminders, medicationId, householdId, requesterUserId);
      && typed.Ok? && typed == plain
      && forall i :: 0 <= i < |reminders| && reminders[i].medicationId == medicationId ==> reminders[i] in typed.value
  {
    forall i | 0 <= i < |reminders| && reminders[i].medicationId == medicationId
      ensures reminders[i] in RemindersOf(reminders, medicationId)
    {
      RemindersOfComplete(reminders, medicationId, i);
    }
  }

  // ---------------------------------------------------------------------------------------
  // The use cases against the repository.

  /** `UpdateReminderUseCase.execute` (reminders/). */
  method UpdateReminderUseCase(repo: Repository, reminderId: string, medicationId: string, householdId: string,
                               requesterUserId: string, changes: ReminderChanges) returns (r: Result<Reminder>)
    requires repo.Valid()
    modifies repo
    ensures repo.Valid()
    ensures var o := UpdateReminder(old(repo.members), old(repo.medications), old(repo.reminders), reminderId, medicationId,
                                    householdId, requesterUserId, changes);
      r == o.result && repo.reminders == o.reminders
    ensures repo.members == old(repo.members) && repo.overviews == old(repo.overviews) && repo.medications == old(repo.medications)
  {
    var caregiver := EnsureCaregiver(repo.members, requesterUserId, householdId);
    if caregiver.Err? {
      return Err(caregiver.error);
    }
    if !MedicationInHousehold(repo.medications, medicationId, householdId) {
      return Err(DomainErr(NotFound, MedicationNotFound));
    }
    var reminder := GetReminder(repo.medications, repo.reminders, reminderId, medicationId, householdId);
    if reminder.None? {
      return Err(DomainErr(NotFound, ReminderNotFound));
    }
    repo.reminders := UpdateIn(repo.reminders, reminderId, medicationId, changes);
    r := Ok(Apply(reminder.value, changes));
  }

  /** `UpdateReminderUseCase.execute` (plain errors). */
  method UpdateReminderPlainUseCase(repo: Repository, reminderId: string, medicationId: string, householdId: string,
                                    requesterUserId: string, changes: ReminderChanges) returns (r: Result<Reminder>)
    requires repo.Valid()
    modifies repo
    ensures repo.Valid()
    ensures var o := UpdateReminderPlain(old(repo.members), old(repo.medications), old(repo.reminders), reminderId, medicationId,
                                         householdId, requesterUserId, changes);
      r == o.result && repo.reminders == o.reminders
    ensures repo.members == old(repo.members) && repo.overviews == old(repo.overviews) && repo.medications == old(repo.medications)
  {
    var member := FindActiveMember(repo.members, requesterUserId, householdId);
    if member.None? || member.value.role != Caregiver {
      return Err(PlainErr(CaregiversOnlyUpdate));
    }
    if !MedicationInHousehold(repo.medications, medicationId, householdId) {
      return Err(PlainErr(MedicationNotFound));
    }
    var reminder := GetReminder(repo.medications, repo.reminders, reminderId, medicationId, householdId);
    if reminder.None? {
      return Err(PlainErr(ReminderNotFound));
    }
    repo.reminders := UpdateIn(repo.reminders, reminderId, medicationId, changes);
    r := Ok(Apply(reminder.value, changes));
  }

  /** `CreateReminderUseCase.execute`; `newId` is the id the store assigns. */
  method CreateReminderUseCase(repo: Repository, medicationId: string, householdId: string, requesterUserId: string,
                               time: string, daysOfWeek: seq<int>, enabled: Option<bool>, newId: string) returns (r: Result<Reminder>)
    requires repo.Valid()
    modifies repo
    ensures repo.Valid()
    ensures var o := CreateReminder(old(repo.members), old(repo.medications), old(repo.reminders), medicationId, householdId,
                                    requesterUserId, time, daysOfWeek, enabled, newId, repo.defaultEnabled);
      r == o.result && repo.reminders == o.reminders
    ensures repo.members == old(repo.members) && repo.overviews == old(repo.overviews) && repo.medications == old(repo.medications)
  {
    var member := FindActiveMember(repo.members, requesterUserId, householdId);
    if member.None? || member.value.role != Caregiver {
      return Err(PlainErr(CaregiversOnlyCreate));
    }
    if !MedicationInHousehold(repo.medications, medicationId, householdId) {
      return Err(PlainErr(MedicationNotFound));
    }
    var reminderInput := ReminderInput(medicationId, time, daysOfWeek, None);
    if enabled.Some? {
      reminderInput := reminderInput.(enabled := enabled);
    }
    var created := Created(newId, reminderInput, repo.defaultEnabled);
    repo.reminders := repo.reminders + [created];
    r := Ok(created);
  }

  /** `DeleteReminderUseCase.execute`. */
  method DeleteReminderUseCase(repo: Repository, reminderId: string, medicationId: string, householdId: string,
                               requesterUserId: string) returns (r: Result<()>)
    requires repo.Valid()
    modifies repo
    ensures repo.Valid()
    ensures var o := DeleteReminder(old(repo.members), old(repo.medications), old(repo.reminders), reminderId, medicationId,
                                    householdId, requesterUserId);
      r == o.result && repo.reminders == o.reminders
    ensures repo.members == old(repo.members) && repo.overviews == old(repo.overviews) && repo.medications == old(repo.medications)
  {
    var member := FindActiveMember(repo.members, requesterUserId, householdId);
    if member.None? || member.value.role != Caregiver {
      return Err(PlainErr(CaregiversOnlyDelete));
    }
    if !MedicationInHousehold(repo.medications, medicationId, householdId) {
      return Err(PlainErr(MedicationNotFound));
    }
    var reminder := GetReminder(repo.medications, repo.reminders, reminderId, medicationId, householdId);
    if reminder.None? {
      return Err(PlainErr(ReminderNotFound));
    }
    repo.reminders := DeleteIn(repo.reminders, reminderId, medicationId);
    r := Ok(());
  }
}
