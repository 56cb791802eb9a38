/** The records of src/types.ts. Timestamps, held as ISO-8601 strings there, are local
    Calendar timestamps here; `notes?: string` is an Option. */
module Types {
  import opened Seqs
  import opened Calendar

  /** `Medication`: a medication as the unused `medications` state and the form's payload type
      describe it (no activation flag). */
  datatype Medication = Medication(
    id: string,
    name: string,
    dosage: string,
    frequency: int,
    timeSlots: seq<string>,
    notes: Option<string>)

  /** `Omit<Medication, 'id'>`: what the medication form submits. */
  datatype MedicationDraft = MedicationDraft(
    name: string,
    dosage: string,
    frequency: int,
    timeSlots: seq<string>,
    notes: Option<string>)

  /** `StaticMedication`: a medication of the managed list, with its activation flag. */
  datatype StaticMedication = StaticMedication(
    id: string,
    name: string,
    dosage: string,
    frequency: int,
    timeSlots: seq<string>,
    isActive: bool,
    notes: Option<string>)

  /** `MedicationLog`: one adherence record, with the medication's name and dosage and the
      reporter's name copied in at write time. */
  datatype MedicationLog = MedicationLog(
    id: string,
    medicationId: string,
    timestamp: Timestamp,
    taken: bool,
    medicationName: string,
    medicationDosage: string,
    username: string)

  /** `User`: the signed-in identity and its role. */
  datatype User = User(username: string, isAuthenticated: bool, isAdmin: bool)

  /** JavaScript's `text || fallback` on a possibly missing string: the empty string and a
      missing value are both falsy. */
  function OrElse(text: Option<string>, fallback: string): (r: string)
    ensures text.Some? && text.value != "" ==> r == text.value
    ensures text.None? || text.value == "" ==> r == fallback
  {
    match text
    case Some(t) => if t != "" then t else fallback
    case None => fallback
  }
}
