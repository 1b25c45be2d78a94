/**
 * The household repository the use cases are written against.  Its implementation is not part
 * of this model; what the use cases rely on is modelled as plain tables:
 *   - the member table (active memberships),
 *   - the household overviews, by household id,
 *   - the medications, each owned by one household,
 *   - the medication reminders.
 * The lookups are functions over these tables (modules Household and Reminders); the writes are
 * the assignments the use-case methods make.
 */
module HouseholdRepository {
  import opened Wrappers
  import opened Household

  /** A household overview as the repository returns it; its fields are not looked into here. */
  type Overview = string

  /** `MedicationReminder` without its timestamps. */
  datatype Reminder = Reminder(id: string, medicationId: string, time: string, daysOfWeek: seq<int>, enabled: bool)

  /** `CreateReminderInput`: `enabled` is an optional key. */
  datatype ReminderInput = ReminderInput(medicationId: string, time: string, daysOfWeek: seq<int>, enabled: Option<bool>)

  /** `UpdateReminderInput`: every key is optional. */
  datatype ReminderChanges = ReminderChanges(time: Option<string>, daysOfWeek: Option<seq<int>>, enabled: Option<bool>)

  class Repository {
    var members: seq<Member>
    var overviews: map<string, Overview>
    /** Medication id to the id of the household that owns it. */
    var medications: map<string, string>
    var reminders: seq<Reminder>
    /** What the store records as `enabled` when a reminder is created without that key. */
    const defaultEnabled: bool

    /** The tables every use case may rely on: the member table is well formed. */
    predicate Valid()
      reads this
    {
      WellFormed(members)
    }

    constructor(members: seq<Member>, overviews: map<string, Overview>, medications: map<string, string>,
                reminders: seq<Reminder>, defaultEnabled: bool)
      requires WellFormed(members)
      ensures Valid()
      ensures this.members == members && this.overviews == overviews && this.medications == medications
      ensures this.reminders == reminders && this.defaultEnabled == defaultEnabled
    {
      this.members := members;
      this.overviews := overviews;
      this.medications := medications;
      this.reminders := reminders;
      this.defaultEnabled := defaultEnabled;
    }
  }
}
