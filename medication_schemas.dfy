/**
 * The request-body schemas of src/routes/households/medicationSchemas.ts: the `HH:MM` time
 * format, the medication form enumeration and the field constraints of the create and update
 * bodies.  A body is seen field by field: each key is absent, null or a value.  Zod's
 * `.datetime()` check is a parameter; lengths are counted in UTF-16 code units, as Zod does.
 */
module MedicationSchemas {
  import opened Wrappers
  import opened Text

  // ---------------------------------------------------------------- times

  /**
   * `TIME_REGEX`, anchored at both ends: two hour digits from 00 to 23, a colon, two minute
   * digits from 00 to 59, and nothing else.
   */
  predicate IsTime(s: string) {
    && |s| == 5
    && (('0' <= s[0] <= '1' && IsDigit(s[1])) || (s[0] == '2' && '0' <= s[1] <= '3'))
    && s[2] == ':'
    && '0' <= s[3] <= '5' && IsDigit(s[4])
  }

  function DigitChar(d: int): (c: char)
    requires 0 <= d < 10
    ensures IsDigit(c) && c as int - '0' as int == d
  {
    ('0' as int + d) as char
  }

  function DigitValue(c: char): int {
    c as int - '0' as int
  }

  /** The time `h:m`, both written with two digits. */
  function TimeOf(h: int, m: int): (s: string)
    requires 0 <= h < 24 && 0 <= m < 60
    ensures IsTime(s)
  {
    [DigitChar(h / 10), DigitChar(h % 10), ':', DigitChar(m / 10), DigitChar(m % 10)]
  }

  /** The hour of a well-formed time. */
  function Hour(s: string): (h: int)
    requires IsTime(s)
    ensures 0 <= h < 24
  {
    DigitValue(s[0]) * 10 + DigitValue(s[1])
  }

  /** The minute of a well-formed time. */
  function Minute(s: string): (m: int)
    requires IsTime(s)
    ensures 0 <= m < 60
  {
    DigitValue(s[3]) * 10 + DigitValue(s[4])
  }

  /** A well-formed time is the time of its own hour and minute. */
  lemma TimeRoundTrip(s: string)
    requires IsTime(s)
    ensures TimeOf(Hour(s), Minute(s)) == s
  {
    var t := TimeOf(Hour(s), Minute(s));
    assert t[0] == s[0] && t[1] == s[1] && t[3] == s[3] && t[4] == s[4];
  }

  /** Writing a time and reading it back gives the same hour and minute. */
  lemma TimeOfRoundTrip(h: int, m: int)
    requires 0 <= h < 24 && 0 <= m < 60
    ensures Hour(TimeOf(h, m)) == h && Minute(TimeOf(h, m)) == m
  {
  }

  /** The accepted times are exactly the times of a day, minute by minute. */
  lemma IsTimeExactly(s: string)
    ensures IsTime(s) <==> exists h, m :: 0 <= h < 24 && 0 <= m < 60 && s == TimeOf(h, m)
  {
    if IsTime(s) {
      TimeRoundTrip(s);
    }
  }

  /**
   * Worked example, for the reader: the boundary cases 00:00 and 23:59 pass; 24:00, 7:30 and
   * 12:60 do not.  `IsTimeExactly` is the general statement.
   */
  lemma TimeExamples()
    ensures IsTime("00:00") && IsTime("23:59")
    ensures !IsTime("24:00") && !IsTime("7:30") && !IsTime("12:60")
  {
  }

  // ---------------------------------------------------------------- forms

  /** `medicationFormSchema`: the ten forms a medication may take. */
  datatype MedicationForm = Tablet | Capsule | Syrup | Injection | Drops | Cream | Patch | Inhaler | Suppository | Other

  /** The string the schema accepts for each form. */
  function FormName(f: MedicationForm): string {
    match f
    case Tablet => "tablet"
    case Capsule => "capsule"
    case Syrup => "syrup"
    case Injection => "injection"
    case Drops => "drops"
    case Cream => "cream"
    case Patch => "patch"
    case Inhaler => "inhaler"
    case Suppository => "suppository"
    case Other => "other"
  }

  /** The form a string names, if it is one of the ten. */
  function ParseForm(s: string): (f: Option<MedicationForm>)
    ensures f.Some? ==> FormName(f.value) == s
  {
    if s == "tablet" then Some(Tablet)
    else if s == "capsule" then Some(Capsule)
    else if s == "syrup" then Some(Syrup)
    else if s == "injection" then Some(Injection)
    else if s == "drops" then Some(Drops)
    else if s == "cream" then Some(Cream)
    else if s == "patch" then Some(Patch)
    else if s == "inhaler" then Some(Inhaler)
    else if s == "suppository" then Some(Suppository)
    else if s == "other" then Some(Other)
    else None
  }

  /** Every form's name is accepted and read back as that form. */
  lemma ParseFormName(f: MedicationForm)
    ensures ParseForm(FormName(f)) == Some(f)
  {
  }

  /** A string is accepted as a form exactly when it is the name of one. */
  lemma ParseFormExactly(s: string)
    ensures ParseForm(s).Some? <==> exists f :: FormName(f) == s
  {
    if f :| FormName(f) == s {
      ParseFormName(f);
    }
  }

  // ---------------------------------------------------------------- bodies

  /** One key of a JSON body: left out, sent as null, or sent with a value. */
  datatype Field<+T> = Absent | Null | Present(value: T)

  /** A medication body as sent, key by key. */
  datatype MedicationBody = MedicationBody(
    name: Field<string>,
    dosage: Field<string>,
    form: Field<string>,
    frequency: Field<string>,
    schedule: Field<seq<string>>,
    prescribedBy: Field<string>,
    prescriptionDate: Field<string>,
    startDate: Field<string>,
    endDate: Field<string>,
    instructions: Field<string>)

  /** A string of `min` to `max` UTF-16 code units. */
  predicate LengthIn(s: string, min: nat, max: nat) {
    min <= Utf16Length(s) <= max
  }

  /** A schedule: at least one time, every one well-formed. */
  predicate ValidSchedule(schedule: seq<string>) {
    |schedule| >= 1 && forall i :: 0 <= i < |schedule| ==> IsTime(schedule[i])
  }

  /** The constraint each key's value must meet when the key is sent, shared by both schemas. */
  predicate ValuesValid(b: MedicationBody, isDatetime: string -> bool) {
    && (b.name.Present? ==> LengthIn(b.name.value, 1, 200))
    && (b.dosage.Present? ==> LengthIn(b.dosage.value, 1, 100))
    && (b.form.Present? ==> ParseForm(b.form.value).Some?)
    && (b.frequency.Present? ==> LengthIn(b.frequency.value, 1, 200))
    && (b.schedule.Present? ==> ValidSchedule(b.schedule.value))
    && (b.prescribedBy.Present? ==> LengthIn(b.prescribedBy.value, 0, 200))
    && (b.prescriptionDate.Present? ==> isDatetime(b.prescriptionDate.value))
    && (b.startDate.Present? ==> isDatetime(b.startDate.value))
    && (b.endDate.Present? ==> isDatetime(b.endDate.value))
    && (b.instructions.Present? ==> LengthIn(b.instructions.value, 0, 1000))
  }

  /**
   * `createMedicationBodySchema`: name, dosage, form, frequency, schedule and start date are
   * required; the other four may be left out; none may be null.
   */
  predicate ValidCreate(b: MedicationBody, isDatetime: string -> bool) {
    && ValuesValid(b, isDatetime)
    && b.name.Present? && b.dosage.Present? && b.form.Present? && b.frequency.Present?
    && b.schedule.Present? && b.startDate.Present?
    && !b.prescribedBy.Null? && !b.prescriptionDate.Null? && !b.endDate.Null? && !b.instructions.Null?
  }

  /**
   * `updateMedicationBodySchema`: every key may be left out; only prescribedBy,
   * prescriptionDate, endDate and instructions may be null.
   */
  predicate ValidUpdate(b: MedicationBody, isDatetime: string -> bool) {
    && ValuesValid(b, isDatetime)
    && !b.name.Null? && !b.dosage.Null? && !b.form.Null? && !b.frequency.Null?
    && !b.schedule.Null? && !b.startDate.Null?
  }

  /** Every body the create schema accepts, the update schema accepts too. */
  lemma CreateBodyIsUpdateBody(b: MedicationBody, isDatetime: string -> bool)
    requires ValidCreate(b, isDatetime)
    ensures ValidUpdate(b, isDatetime)
  {
  }

  /** An empty update is accepted; an empty create is not. */
  lemma EmptyBody(isDatetime: string -> bool)
    ensures var empty := MedicationBody(Absent, Absent, Absent, Absent, Absent, Absent, Absent, Absent, Absent, Absent);
      ValidUpdate(empty, isDatetime) && !ValidCreate(empty, isDatetime)
  {
  }

  /** Clearing any of the four nullable keys keeps an accepted update accepted. */
  lemma NullableFieldsMayBeCleared(b: MedicationBody, isDatetime: string -> bool)
    requires ValidUpdate(b, isDatetime)
    ensures ValidUpdate(b.(prescribedBy := Null), isDatetime)
    ensures ValidUpdate(b.(prescriptionDate := Null), isDatetime)
    ensures ValidUpdate(b.(endDate := Null), isDatetime)
    ensures ValidUpdate(b.(instructions := Null), isDatetime)
  {
  }

  /**
   * An update that sends a schedule must send a non-empty one of well-formed times, each the
   * two-digit writing of its own hour and minute.
   */
  lemma UpdateScheduleChecked(b: MedicationBody, isDatetime: string -> bool)
    requires ValidUpdate(b, isDatetime) && b.schedule.Present?
    ensures |b.schedule.value| >= 1
    ensures forall i :: 0 <= i < |b.schedule.value| ==>
      IsTime(b.schedule.value[i]) && TimeOf(Hour(b.schedule.value[i]), Minute(b.schedule.value[i])) == b.schedule.value[i]
  {
    forall i | 0 <= i < |b.schedule.value|
      ensures IsTime(b.schedule.value[i]) && TimeOf(Hour(b.schedule.value[i]), Minute(b.schedule.value[i])) == b.schedule.value[i]
    {
      TimeRoundTrip(b.schedule.value[i]);
    }
  }

  /** An update that sends `[]` as the schedule is refused, whatever else it sends. */
  lemma EmptyScheduleRefused(b: MedicationBody, isDatetime: string -> bool)
    requires b.schedule == Present([])
    ensures !ValidUpdate(b, isDatetime) && !ValidCreate(b, isDatetime)
  {
  }

  /**
   * Worked example, for the reader: every name of 1 to 100 characters inside the BMP fits both
   * the name and the dosage bounds.  `BmpLength` is the general statement.
   */
  lemma BmpLengthBound(s: string)
    requires 1 <= |s| <= 100
    requires forall i :: 0 <= i < |s| ==> s[i] as int <= 0xFFFF
    ensures LengthIn(s, 1, 200) && LengthIn(s, 1, 100)
  {
    BmpLength(s);
  }

  /** Inside the BMP, a string's UTF-16 length is its length in characters. */
  lemma {:induction false} BmpLength(s: string)
    requires forall i :: 0 <= i < |s| ==> s[i] as int <= 0xFFFF
    ensures Utf16Length(s) == |s|
  {
    if s != [] {
      BmpLength(s[1..]);
    }
  }
}
