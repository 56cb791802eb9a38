/** The application shell (src/App.tsx): the medication list and log collection it holds, the
    handlers that change them after a call to the hosted store, the record mappings from store
    rows, and the page gate. A store call is a parameter: its reply (success or failure) and,
    for an insert, the id the store assigns; the store is taken to echo the inserted row. */
module App {
  import opened Seqs
  import opened Calendar
  import opened Slots
  import opened Types
  import opened Schedule

  /** `Page`. */
  datatype Page = SchedulePage | MedicationsPage | HistoryPage

  /** What a store call returned: no error, or an error object. */
  datatype Reply = Ok | Failed

  /** The signed-in session as the handlers use it: the user id and the optional e-mail. */
  datatype Session = Session(userId: string, email: Option<string>)

  /** How a handler ended; everything but `Done` and `CascadeError` left the state alone.
      `InvalidSlot` is the exception `toISOString` throws on an invalid Date. */
  datatype Outcome = Done | NotFound | NoSession | InvalidSlot | StoreError | CascadeError

  /** A row of the `medications` table, in its own field names. */
  datatype MedicationRow = MedicationRow(
    id: string,
    name: string,
    dosage: string,
    frequency: int,
    time_slots: seq<string>,
    is_active: bool,
    notes: Option<string>)

  /** The `medications (name, dosage)` join of a log row; either column may be null. */
  datatype MedicationJoin = MedicationJoin(name: Option<string>, dosage: Option<string>)

  /** A row of the `medication_logs` table with its join. */
  datatype LogRow = LogRow(
    id: string,
    medication_id: string,
    timestamp: Timestamp,
    taken: bool,
    user_email: Option<string>,
    medications: Option<MedicationJoin>)

  /** The `medications.map` of `loadMedications` (and of an inserted row): the row's columns
      under the model's field names. */
  function ToStaticMedication(row: MedicationRow): (m: StaticMedication)
    ensures m.id == row.id && m.timeSlots == row.time_slots && m.isActive == row.is_active
    ensures m.name == row.name && m.dosage == row.dosage && m.frequency == row.frequency && m.notes == row.notes
  {
    StaticMedication(row.id, row.name, row.dosage, row.frequency, row.time_slots, row.is_active, row.notes)
  }

  /** The row the store returns for the insert of `handleAddMedication`: the submitted fields,
      active, under the id the store chose. */
  function InsertedRow(newId: string, draft: MedicationDraft): MedicationRow {
    MedicationRow(newId, draft.name, draft.dosage, draft.frequency, draft.timeSlots, true, draft.notes)
  }

  /** A medication added through the form enters the list with the store's id, the form's
      fields and `isActive` set. */
  lemma InsertedMedicationIsActive(newId: string, draft: MedicationDraft)
    ensures var m := ToStaticMedication(InsertedRow(newId, draft));
      && m.id == newId && m.isActive
      && m.name == draft.name && m.dosage == draft.dosage && m.frequency == draft.frequency
      && m.timeSlots == draft.timeSlots && m.notes == draft.notes
  {
  }

  /** The `logs.map` of `loadTodayLogs`: a missing or empty joined name reads "Unknown
      Medication", a missing or empty dosage reads "", a missing or empty e-mail reads
      "Unknown User". */
  function ToLog(row: LogRow): (l: MedicationLog)
    ensures l.id == row.id && l.medicationId == row.medication_id
    ensures l.timestamp == row.timestamp && l.taken == row.taken
    ensures (row.medications.Some? && row.medications.value.name.Some? && row.medications.value.name.value != "")
      ==> l.medicationName == row.medications.value.name.value
    ensures (row.medications.None? || row.medications.value.name.None? || row.medications.value.name.value == "")
      ==> l.medicationName == "Unknown Medication"
    ensures row.medications.None? ==> l.medicationDosage == ""
    ensures row.medications.Some? ==> l.medicationDosage == OrElse(row.medications.value.dosage, "")
    ensures (row.user_email.Some? && row.user_email.value != "") ==> l.username == row.user_email.value
    ensures (row.user_email.None? || row.user_email.value == "") ==> l.username == "Unknown User"
  {
    var name := if row.medications.Some? then row.medications.value.name else None;
    var dosage := if row.medications.Some? then row.medications.value.dosage else None;
    MedicationLog(row.id, row.medication_id, row.timestamp, row.taken,
      OrElse(name, "Unknown Medication"), OrElse(dosage, ""), OrElse(row.user_email, "Unknown User"))
  }

  /** `DEFAULT_MEDICATIONS`, the list shown before the store has answered. */
  const DefaultMedications: seq<StaticMedication> := [
    StaticMedication("1", "Aspirin", "100mg", 2, ["09:00", "21:00"], true, None),
    StaticMedication("2", "Vitamin D", "1000 IU", 1, ["08:00"], true, None),
    StaticMedication("3", "Omega-3", "1000mg", 1, ["12:00"], false, None)
  ]

  /** The defaults carry distinct ids, each as many slots as its frequency says; the schedule
      built from them has three dose instances. */
  lemma DefaultMedicationsConsistent()
    ensures forall i :: 0 <= i < |DefaultMedications| ==>
      DefaultMedications[i].frequency == |DefaultMedications[i].timeSlots|
    ensures FindMedication(DefaultMedications, "1") == Some(0)
    ensures FindMedication(DefaultMedications, "2") == Some(1)
    ensures FindMedication(DefaultMedications, "3") == Some(2)
    ensures TotalSlots(ActiveOnly(DefaultMedications)) == 3
  {
    DefaultScheduleLeavesOutOmega();
    var d := DefaultMedications[..2];
    assert d[1..][1..] == [];
  }

  /** `staticMedications.filter(m => m.isActive)`: what the schedule is given. */
  function ActiveOnly(meds: seq<StaticMedication>): (r: seq<StaticMedication>)
    ensures forall i :: 0 <= i < |r| ==> r[i].isActive && r[i] in meds
    ensures forall i :: 0 <= i < |meds| && meds[i].isActive ==> meds[i] in r
    ensures IsSubsequence(r, meds)
  {
    Filter(meds, (m: StaticMedication) => m.isActive)
  }

  /** Of the three default medications, Omega-3 is inactive and left off the schedule. */
  lemma DefaultScheduleLeavesOutOmega()
    ensures ActiveOnly(DefaultMedications) == DefaultMedications[..2]
  {
    var p := (m: StaticMedication) => m.isActive;
    var d := DefaultMedications;
    assert d[1..][1..][1..] == [];
    assert Filter(d[1..][1..], p) == [];
    assert d[1..][..1] == [d[1]];
    assert d[..2] == [d[0]] + [d[1]];
  }

  /** `staticMedications.find(m => m.id === id)` as an index. */
  function FindMedication(meds: seq<StaticMedication>, id: string): (r: Option<nat>)
    ensures r.Some? ==> r.value < |meds| && meds[r.value].id == id
    ensures r.Some? ==> forall j :: 0 <= j < r.value ==> meds[j].id != id
    ensures r.None? <==> forall j :: 0 <= j < |meds| ==> meds[j].id != id
  {
    if meds == [] then None
    else if meds[0].id == id then Some(0)
    else match FindMedication(meds[1..], id)
      case None => None
      case Some(i) => Some(i + 1)
  }

  /** The `prev.map` of `handleToggleMedication`: every medication with the id has its flag
      flipped, every other is left as it was. */
  function ToggleActive(meds: seq<StaticMedication>, id: string): (r: seq<StaticMedication>)
    ensures |r| == |meds|
    ensures forall i :: 0 <= i < |meds| && meds[i].id == id ==> r[i] == meds[i].(isActive := !meds[i].isActive)
    ensures forall i :: 0 <= i < |meds| && meds[i].id != id ==> r[i] == meds[i]
  {
    seq(|meds|, i requires 0 <= i < |meds| =>
      if meds[i].id == id then meds[i].(isActive := !meds[i].isActive) else meds[i])
  }

  /** Toggling twice restores the list; toggling a missing id changes nothing. */
  lemma ToggleActiveInvolution(meds: seq<StaticMedication>, id: string)
    ensures ToggleActive(ToggleActive(meds, id), id) == meds
    ensures FindMedication(meds, id).None? ==> ToggleActive(meds, id) == meds
  {
  }

  /** The `prev.map` of the edit branch of `handleAddMedication`: the medication being edited
      takes the submitted fields but keeps its id and activation flag. */
  function ApplyEdit(meds: seq<StaticMedication>, id: string, draft: MedicationDraft): (r: seq<StaticMedication>)
    ensures |r| == |meds|
    ensures forall i :: 0 <= i < |meds| ==> r[i].id == meds[i].id && r[i].isActive == meds[i].isActive
    ensures forall i :: 0 <= i < |meds| && meds[i].id == id ==>
      r[i].name == draft.name && r[i].dosage == draft.dosage && r[i].frequency == draft.frequency &&
      r[i].timeSlots == draft.timeSlots && r[i].notes == draft.notes
    ensures forall i :: 0 <= i < |meds| && meds[i].id != id ==> r[i] == meds[i]
  {
    seq(|meds|, i requires 0 <= i < |meds| =>
      if meds[i].id == id then
        StaticMedication(meds[i].id, draft.name, draft.dosage, draft.frequency, draft.timeSlots, meds[i].isActive, draft.notes)
      else meds[i])
  }

  /** The `prev.map` of the update branch of `handleLogMedication`: every log with the id gets
      the new `taken`, every other log is left as it was. */
  function SetTaken(logs: seq<MedicationLog>, logId: string, taken: bool): (r: seq<MedicationLog>)
    ensures |r| == |logs|
    ensures forall i :: 0 <= i < |logs| && logs[i].id == logId ==> r[i] == logs[i].(taken := taken)
    ensures forall i :: 0 <= i < |logs| && logs[i].id != logId ==> r[i] == logs[i]
  {
    seq(|logs|, i requires 0 <= i < |logs| => if logs[i].id == logId then logs[i].(taken := taken) else logs[i])
  }

  /** The log built after a successful insert: the store's id, the slot's timestamp, the
      medication's current name and dosage, and the session's e-mail or "Unknown User". */
  function NewLog(newId: string, med: StaticMedication, target: Timestamp, taken: bool, session: Session): (l: MedicationLog)
    ensures l.id == newId && l.medicationId == med.id && l.timestamp == target && l.taken == taken
    ensures l.medicationName == med.name && l.medicationDosage == med.dosage
    ensures session.email.Some? && session.email.value != "" ==> l.username == session.email.value
    ensures session.email.None? || session.email.value == "" ==> l.username == "Unknown User"
  {
    MedicationLog(newId, med.id, target, taken, med.name, med.dosage, OrElse(session.email, "Unknown User"))
  }

  /** No two logs share an id. */
  ghost predicate UniqueIds(logs: seq<MedicationLog>) {
    forall i, j :: 0 <= i < j < |logs| ==> logs[i].id != logs[j].id
  }

  /** `newId` is not the id of any log yet. */
  predicate FreshId(logs: seq<MedicationLog>, newId: string) {
    forall i :: 0 <= i < |logs| ==> logs[i].id != newId
  }

  datatype MarkResult = MarkResult(outcome: Outcome, logs: seq<MedicationLog>)

  /** `handleLogMedication(medicationId, slot, taken)` on today's date, on the log collection:
      a missing or inactive medication, a missing session, a slot that makes an invalid Date
      and a store error all leave it alone; otherwise the first log matching the slot has its
      `taken` updated, or a new log is appended. */
  function Mark(meds: seq<StaticMedication>, logs: seq<MedicationLog>, medicationId: string, slot: string,
                taken: bool, today: Date, session: Option<Session>, reply: Reply, newId: string): (r: MarkResult)
    ensures r.outcome != Done ==> r.logs == logs
    ensures r.outcome == NotFound <==>
      FindMedication(meds, medicationId).None? || !meds[FindMedication(meds, medicationId).value].isActive
    ensures r.outcome == Done <==>
      && FindMedication(meds, medicationId).Some? && meds[FindMedication(meds, medicationId).value].isActive
      && session.Some? && SlotTarget(today, slot).Some? && reply.Ok?
  {
    match FindMedication(meds, medicationId)
    case None => MarkResult(NotFound, logs)
    case Some(k) =>
      if !meds[k].isActive then MarkResult(NotFound, logs)
      else if session.None? then MarkResult(NoSession, logs)
      else match SlotTarget(today, slot)
        case None => MarkResult(InvalidSlot, logs)
        case Some(target) =>
          if reply.Failed? then MarkResult(StoreError, logs)
          else match FindMatch(logs, medicationId, target)
            case Some(i) => MarkResult(Done, SetTaken(logs, logs[i].id, taken))
            case None => MarkResult(Done, logs + [NewLog(newId, meds[k], target, taken, session.value)])
  }

  /** When a log matches, a successful mark sets `taken` on the logs sharing that log's id and
      on no other: the count, the ids, the timestamps and every other field stay as they were;
      with unique ids only the matched log changes. */
  lemma MarkUpdatesMatchedLog(meds: seq<StaticMedication>, logs: seq<MedicationLog>, medicationId: string,
                              slot: string, taken: bool, today: Date, session: Option<Session>, newId: string,
                              i: nat)
    requires Mark(meds, logs, medicationId, slot, taken, today, session, Ok, newId).outcome == Done
    requires FindMatch(logs, medicationId, SlotTarget(today, slot).value) == Some(i)
    ensures var r := Mark(meds, logs, medicationId, slot, taken, today, session, Ok, newId).logs;
      && |r| == |logs| && r[i] == logs[i].(taken := taken)
      && (forall k :: 0 <= k < |logs| ==> r[k].id == logs[k].id && r[k].timestamp == logs[k].timestamp)
      && (forall k :: 0 <= k < |logs| && logs[k].id != logs[i].id ==> r[k] == logs[k])
      && (UniqueIds(logs) ==> forall k :: 0 <= k < |logs| && k != i ==> r[k] == logs[k])
  {
  }

  /** When nothing matches, a successful mark appends exactly one log, at the end, carrying the
      store's id, today's slot time, `taken` and the medication's current name and dosage. */
  lemma MarkAppendsNewLog(meds: seq<StaticMedication>, logs: seq<MedicationLog>, medicationId: string,
                          slot: string, taken: bool, today: Date, session: Option<Session>, newId: string)
    requires Mark(meds, logs, medicationId, slot, taken, today, session, Ok, newId).outcome == Done
    requires FindMatch(logs, medicationId, SlotTarget(today, slot).value).None?
    ensures var r := Mark(meds, logs, medicationId, slot, taken, today, session, Ok, newId).logs;
      var med := meds[FindMedication(meds, medicationId).value];
      && |r| == |logs| + 1 && r[..|logs|] == logs
      && r[|logs|].id == newId && r[|logs|].medicationId == medicationId
      && r[|logs|].timestamp == SlotTarget(today, slot).value && r[|logs|].taken == taken
      && r[|logs|].medicationName == med.name && r[|logs|].medicationDosage == med.dosage
  {
    var r := Mark(meds, logs, medicationId, slot, taken, today, session, Ok, newId).logs;
    assert r[..|logs|] == logs;
  }

  /** Marking the same slot twice leaves one log for it: the second call finds the log the
      first appended and only updates its `taken`. */
  lemma {:induction false} MarkTwiceKeepsOneLog(meds: seq<StaticMedication>, logs: seq<MedicationLog>,
                                                medicationId: string, slot: string, first: bool, second: bool,
                                                today: Date, session: Option<Session>, id1: string, id2: string)
    requires FreshId(logs, id1)
    requires Mark(meds, logs, medicationId, slot, first, today, session, Ok, id1).outcome == Done
    requires FindMatch(logs, medicationId, SlotTarget(today, slot).value).None?
    ensures var once := Mark(meds, logs, medicationId, slot, first, today, session, Ok, id1).logs;
      var twice := Mark(meds, once, medicationId, slot, second, today, session, Ok, id2);
      && twice.outcome == Done
      && |twice.logs| == |logs| + 1
      && twice.logs == logs + [once[|logs|].(taken := second)]
  {
    var target := SlotTarget(today, slot).value;
    var med := meds[FindMedication(meds, medicationId).value];
    var n := NewLog(id1, med, target, first, session.value);
    var once := logs + [n];
    assert Mark(meds, logs, medicationId, slot, first, today, session, Ok, id1).logs == once;
    assert MatchesSlot(once[|logs|], medicationId, target);
    assert forall j :: 0 <= j < |logs| ==> once[j] == logs[j];
    assert FindMatch(once, medicationId, target) == Some(|logs|);
    var updated := SetTaken(once, id1, second);
    assert updated == logs + [n.(taken := second)];
  }

  /** After a successful mark the slot shows the value just marked. */
  lemma MarkedStatusShows(meds: seq<StaticMedication>, logs: seq<MedicationLog>, medicationId: string,
                          slot: string, taken: bool, today: Date, session: Option<Session>, newId: string)
    requires Mark(meds, logs, medicationId, slot, taken, today, session, Ok, newId).outcome == Done
    ensures Status(medicationId, slot, Mark(meds, logs, medicationId, slot, taken, today, session, Ok, newId).logs, today)
      == StatusOf(taken)
  {
    var target := SlotTarget(today, slot).value;
    var r := Mark(meds, logs, medicationId, slot, taken, today, session, Ok, newId).logs;
    match FindMatch(logs, medicationId, target)
    case Some(i) =>
      assert forall j :: 0 <= j < i ==> !MatchesSlot(r[j], medicationId, target);
      assert FirstMatch(r, medicationId, target, i);
    case None =>
      assert forall j :: 0 <= j < |logs| ==> r[j] == logs[j];
      assert FirstMatch(r, medicationId, target, |logs|);
  }

  /** With a fresh store id, marking keeps log ids unique. */
  lemma MarkKeepsIdsUnique(meds: seq<StaticMedication>, logs: seq<MedicationLog>, medicationId: string,
                           slot: string, taken: bool, today: Date, session: Option<Session>, reply: Reply,
                           newId: string)
    requires UniqueIds(logs) && FreshId(logs, newId)
    ensures UniqueIds(Mark(meds, logs, medicationId, slot, taken, today, session, reply, newId).logs)
  {
  }

  /** The handler's match compares only the day of the month: marking 09:00 on 14 February
      finds the log of 09:00 on 14 January, rewrites its `taken` and appends nothing, so
      February's dose is never recorded. */
  lemma MarkRewritesEarlierMonth()
    ensures var today := Date(2024, 2, 14);
      var log := MedicationLog("a", "1", Timestamp(Date(2024, 1, 14), 9, 0), false, "Aspirin", "100mg", "u");
      Mark(DefaultMedications, [log], "1", "09:00", true, today, Some(Session("u", None)), Ok, "b")
        == MarkResult(Done, [log.(taken := true)])
  {
    var today := Date(2024, 2, 14);
    var log := MedicationLog("a", "1", Timestamp(Date(2024, 1, 14), 9, 0), false, "Aspirin", "100mg", "u");
    NineOClock(today);
    assert FindMedication(DefaultMedications, "1") == Some(0);
    assert FindMatch([log], "1", Timestamp(today, 9, 0)) == Some(0);
    assert SetTaken([log], "a", true) == [log.(taken := true)];
  }

  /** The mark the handler evidently intends: the same gates and outcome as `Mark`, but the
      existing log it updates is the one at the slot's exact time on the slot's date. */
  function MarkOnDay(meds: seq<StaticMedication>, logs: seq<MedicationLog>, medicationId: string, slot: string,
                     taken: bool, today: Date, session: Option<Session>, reply: Reply, newId: string): (r: MarkResult)
    ensures r.outcome == Mark(meds, logs, medicationId, slot, taken, today, session, reply, newId).outcome
    ensures r.outcome != Done ==> r.logs == logs
  {
    var gate := Mark(meds, logs, medicationId, slot, taken, today, session, reply, newId);
    if gate.outcome != Done then gate
    else
      var med := meds[FindMedication(meds, medicationId).value];
      var target := SlotTarget(today, slot).value;
      match FindFirst(logs, OnDayRule(medicationId, target))
      case Some(i) => MarkResult(Done, SetTaken(logs, logs[i].id, taken))
      case None => MarkResult(Done, logs + [NewLog(newId, med, target, taken, session.value)])
  }

  /** With unique ids the corrected mark changes no log of another time: every log whose
      timestamp is not the slot's keeps its place and its contents, and at most one log is
      added. */
  lemma MarkOnDayKeepsOtherLogs(meds: seq<StaticMedication>, logs: seq<MedicationLog>, medicationId: string,
                                slot: string, taken: bool, today: Date, session: Option<Session>, reply: Reply,
                                newId: string)
    requires UniqueIds(logs)
    ensures var r := MarkOnDay(meds, logs, medicationId, slot, taken, today, session, reply, newId);
      && |logs| <= |r.logs| <= |logs| + 1
      && forall i :: 0 <= i < |logs| && (r.outcome == Done ==> !MatchesSlotOnDay(logs[i], medicationId,
                                                                     SlotTarget(today, slot).value))
           ==> r.logs[i] == logs[i]
  {
    var r := MarkOnDay(meds, logs, medicationId, slot, taken, today, session, reply, newId);
    if r.outcome == Done {
      var target := SlotTarget(today, slot).value;
      match FindFirst(logs, OnDayRule(medicationId, target))
      case Some(i) =>
        assert MatchesSlotOnDay(logs[i], medicationId, target);
      case None =>
    }
  }

  /** At most one log per medication and time. */
  predicate OneLogPerSlot(logs: seq<MedicationLog>) {
    forall i, j :: 0 <= i < j < |logs| ==>
      logs[i].medicationId != logs[j].medicationId || logs[i].timestamp != logs[j].timestamp
  }

  /** The corrected mark keeps one log per medication and time. */
  lemma MarkOnDayKeepsOneLogPerSlot(meds: seq<StaticMedication>, logs: seq<MedicationLog>, medicationId: string,
                                    slot: string, taken: bool, today: Date, session: Option<Session>,
                                    reply: Reply, newId: string)
    requires OneLogPerSlot(logs)
    ensures OneLogPerSlot(MarkOnDay(meds, logs, medicationId, slot, taken, today, session, reply, newId).logs)
  {
    var r := MarkOnDay(meds, logs, medicationId, slot, taken, today, session, reply, newId);
    if r.outcome == Done {
      var target := SlotTarget(today, slot).value;
      match FindFirst(logs, OnDayRule(medicationId, target))
      case Some(i) =>
        SetTakenKeepsSlots(logs, logs[i].id, taken);
      case None =>
        AppendFreshSlot(logs, r.logs[|logs|], OnDayRule(medicationId, target));
        assert r.logs == logs + [r.logs[|logs|]];
    }
  }

  lemma SetTakenKeepsSlots(logs: seq<MedicationLog>, logId: string, taken: bool)
    requires OneLogPerSlot(logs)
    ensures OneLogPerSlot(SetTaken(logs, logId, taken))
  {
    var r := SetTaken(logs, logId, taken);
    assert forall j :: 0 <= j < |logs| ==> r[j].medicationId == logs[j].medicationId && r[j].timestamp == logs[j].timestamp;
  }

  lemma AppendFreshSlot(logs: seq<MedicationLog>, x: MedicationLog, p: MedicationLog -> bool)
    requires OneLogPerSlot(logs) && FindFirst(logs, p).None?
    requires p == OnDayRule(x.medicationId, x.timestamp)
    ensures OneLogPerSlot(logs + [x])
  {
    assert forall j :: 0 <= j < |logs| ==> !MatchesSlotOnDay(logs[j], x.medicationId, x.timestamp);
    var r := logs + [x];
    assert forall j :: 0 <= j < |logs| ==> r[j] == logs[j];
  }

  /** After a successful corrected mark the slot shows the value just marked. */
  lemma MarkOnDayShowsStatus(meds: seq<StaticMedication>, logs: seq<MedicationLog>, medicationId: string,
                             slot: string, taken: bool, today: Date, session: Option<Session>,
                             reply: Reply, newId: string)
    requires MarkOnDay(meds, logs, medicationId, slot, taken, today, session, reply, newId).outcome == Done
    ensures StatusOnDay(medicationId, slot, MarkOnDay(meds, logs, medicationId, slot, taken, today, session,
      reply, newId).logs, today) == StatusOf(taken)
  {
    var r := MarkOnDay(meds, logs, medicationId, slot, taken, today, session, reply, newId);
    var target := SlotTarget(today, slot).value;
    var p := OnDayRule(medicationId, target);
    match FindFirst(logs, p)
    case Some(i) =>
      assert forall j :: 0 <= j < |logs| ==> p(r.logs[j]) == p(logs[j]);
      FindFirstSamePattern(logs, r.logs, p);
    case None =>
      assert r.logs == logs + [r.logs[|logs|]];
      FindFirstSnoc(logs, r.logs[|logs|], p);
  }

  /** `FindFirst` depends only on which positions satisfy the test. */
  lemma {:induction false} FindFirstSamePattern(s: seq<MedicationLog>, t: seq<MedicationLog>, p: MedicationLog -> bool)
    requires |s| == |t| && forall j :: 0 <= j < |s| ==> p(s[j]) == p(t[j])
    ensures FindFirst(s, p) == FindFirst(t, p)
    decreases |s|
  {
    if s != [] {
      FindFirstSamePattern(s[1..], t[1..], p);
    }
  }

  /** Appending an element to a sequence with no match makes it the first match. */
  lemma {:induction false} FindFirstSnoc(s: seq<MedicationLog>, x: MedicationLog, p: MedicationLog -> bool)
    requires FindFirst(s, p).None? && p(x)
    ensures FindFirst(s + [x], p) == Some(|s|)
    decreases |s|
  {
    if s != [] {
      assert (s + [x])[1..] == s[1..] + [x];
      FindFirstSnoc(s[1..], x, p);
    } else {
      assert s + [x] == [x];
    }
  }

  /** The `prev.filter` of `handleDeleteMedication` on the list. */
  function RemoveMedication(meds: seq<StaticMedication>, id: string): (r: seq<StaticMedication>)
    ensures forall i :: 0 <= i < |r| ==> r[i].id != id && r[i] in meds
    ensures forall i :: 0 <= i < |meds| && meds[i].id != id ==> meds[i] in r
    ensures IsSubsequence(r, meds)
  {
    Filter(meds, (m: StaticMedication) => m.id != id)
  }

  /** The cascade of `handleDeleteMedication` on the log collection. */
  function RemoveLogsOf(logs: seq<MedicationLog>, medicationId: string): (r: seq<MedicationLog>)
    ensures forall i :: 0 <= i < |r| ==> r[i].medicationId != medicationId && r[i] in logs
    ensures forall i :: 0 <= i < |logs| && logs[i].medicationId != medicationId ==> logs[i] in r
    ensures IsSubsequence(r, logs)
  {
    Filter(logs, (l: MedicationLog) => l.medicationId != medicationId)
  }

  /** Once a medication is deleted no slot of its id has a status. */
  lemma DeletedMedicationUnlogged(logs: seq<MedicationLog>, medicationId: string, slot: string, today: Date)
    ensures Status(medicationId, slot, RemoveLogsOf(logs, medicationId), today) == Unlogged
  {
  }

  /** The `prev.filter` of `handleDeleteLog`. */
  function RemoveLog(logs: seq<MedicationLog>, logId: string): (r: seq<MedicationLog>)
    ensures forall i :: 0 <= i < |r| ==> r[i].id != logId && r[i] in logs
    ensures forall i :: 0 <= i < |logs| && logs[i].id != logId ==> logs[i] in r
    ensures IsSubsequence(r, logs)
    ensures FreshId(logs, logId) ==> r == logs
  {
    Filter(logs, (l: MedicationLog) => l.id != logId)
  }

  /** Deleting the log a mark appended restores the collection, and the slot shows no status
      again. */
  lemma DeleteUndoesAppend(meds: seq<StaticMedication>, logs: seq<MedicationLog>, medicationId: string,
                           slot: string, taken: bool, today: Date, session: Option<Session>, newId: string)
    requires FreshId(logs, newId)
    requires Mark(meds, logs, medicationId, slot, taken, today, session, Ok, newId).outcome == Done
    requires FindMatch(logs, medicationId, SlotTarget(today, slot).value).None?
    ensures RemoveLog(Mark(meds, logs, medicationId, slot, taken, today, session, Ok, newId).logs, newId) == logs
    ensures Status(medicationId, slot, logs, today) == Unlogged
  {
    var r := Mark(meds, logs, medicationId, slot, taken, today, session, Ok, newId).logs;
    var p := (l: MedicationLog) => l.id != newId;
    assert r == logs + [r[|logs|]];
    FilterConcat(logs, [r[|logs|]], p);
    assert [r[|logs|]][1..] == [];
  }

  /** What the main area shows. */
  datatype Screen =
    | Loading
    | SignIn
    | PermissionDenied
    | ManageScreen(medications: seq<StaticMedication>, formShown: bool)
    | ScheduleScreen(medications: seq<StaticMedication>)
    | HistoryScreen(medications: seq<StaticMedication>)

  /** The render branches: the loading spinner, the sign-in form, then the page gate: a
      non-admin sees only the schedule, which is given the active medications. */
  function Render(authLoading: bool, user: User, page: Page, meds: seq<StaticMedication>, showForm: bool): (s: Screen)
    ensures authLoading ==> s == Loading
    ensures !authLoading && !user.isAuthenticated ==> s == SignIn
    ensures !authLoading && user.isAuthenticated && !user.isAdmin && page != SchedulePage ==> s == PermissionDenied
    ensures s.ManageScreen? || s.HistoryScreen? ==> user.isAuthenticated && user.isAdmin
    ensures !authLoading && user.isAuthenticated && page == SchedulePage ==> s == ScheduleScreen(ActiveOnly(meds))
    ensures s.ScheduleScreen? ==> forall i :: 0 <= i < |s.medications| ==> s.medications[i].isActive
    ensures !authLoading && user.isAuthenticated && user.isAdmin && page == MedicationsPage ==> s == ManageScreen(meds, showForm)
    ensures !authLoading && user.isAuthenticated && user.isAdmin && page == HistoryPage ==> s == HistoryScreen(meds)
  {
    if authLoading then Loading
    else if !user.isAuthenticated then SignIn
    else if !user.isAdmin && page != SchedulePage then PermissionDenied
    else match page
      case MedicationsPage => ManageScreen(meds, showForm)
      case SchedulePage => ScheduleScreen(ActiveOnly(meds))
      case HistoryPage => HistoryScreen(meds)
  }

  /** The signed-out user. */
  const NoUser := User("", false, false)

  /** The component state of `App` that the handlers change. */
  class Tracker {
    var meds: seq<StaticMedication>
    var logs: seq<MedicationLog>
    var user: User
    var currentPage: Page
    var editing: Option<StaticMedication>
    var showForm: bool
    var authLoading: bool

    /** The `useState` initial values. */
    constructor ()
      ensures meds == DefaultMedications && logs == [] && user == NoUser
      ensures currentPage == SchedulePage && editing.None? && !showForm && authLoading
    {
      meds, logs, user := DefaultMedications, [], NoUser;
      currentPage, editing, showForm, authLoading := SchedulePage, None, false, true;
    }

    /** The end of `checkSession` (and a successful sign-in): with a session the user is its
        e-mail (or ''), authenticated, admin exactly when the role row says so; loading ends
        either way. */
    method SessionChecked(session: Option<Session>, isAdminColumn: Option<bool>)
      modifies this
      ensures !authLoading
      ensures session.Some? ==> user == User(OrElse(session.value.email, ""), true, isAdminColumn == Some(true))
      ensures session.None? ==> user == old(user)
      ensures meds == old(meds) && logs == old(logs) && currentPage == old(currentPage)
      ensures editing == old(editing) && showForm == old(showForm)
    {
      if session.Some? {
        user := User(OrElse(session.value.email, ""), true, isAdminColumn == Some(true));
      }
      authLoading := false;
    }

    /** `loadMedications`: on success the list is the store's rows, in their order. */
    method LoadMedications(reply: Reply, rows: seq<MedicationRow>)
      modifies this
      ensures reply.Ok? ==> |meds| == |rows| && forall i :: 0 <= i < |rows| ==> meds[i] == ToStaticMedication(rows[i])
      ensures reply.Failed? ==> meds == old(meds)
      ensures logs == old(logs) && user == old(user) && currentPage == old(currentPage)
      ensures editing == old(editing) && showForm == old(showForm) && authLoading == old(authLoading)
    {
      if reply.Ok? {
        meds := seq(|rows|, i requires 0 <= i < |rows| => ToStaticMedication(rows[i]));
      }
    }

    /** `loadTodayLogs`: without a session, or when the role lookup or the query fails, the
        collection stays; otherwise it is the store's rows, mapped. */
    method LoadLogs(session: Option<Session>, roleReply: Reply, reply: Reply, rows: seq<LogRow>) returns (outcome: Outcome)
      modifies this
      ensures outcome == Done <==> session.Some? && roleReply.Ok? && reply.Ok?
      ensures outcome == Done ==> |logs| == |rows| && forall i :: 0 <= i < |rows| ==> logs[i] == ToLog(rows[i])
      ensures outcome != Done ==> logs == old(logs)
      ensures meds == old(meds) && user == old(user) && currentPage == old(currentPage)
      ensures editing == old(editing) && showForm == old(showForm) && authLoading == old(authLoading)
    {
      if session.None? {
        return NoSession;
      }
      if roleReply.Failed? || reply.Failed? {
        return StoreError;
      }
      logs := seq(|rows|, i requires 0 <= i < |rows| => ToLog(rows[i]));
      outcome := Done;
    }

    /** `handleToggleMedication`. */
    method ToggleMedication(id: string, reply: Reply) returns (outcome: Outcome)
      modifies this
      ensures FindMedication(old(meds), id).None? ==> outcome == NotFound
      ensures FindMedication(old(meds), id).Some? && reply.Failed? ==> outcome == StoreError
      ensures outcome == Done <==> FindMedication(old(meds), id).Some? && reply.Ok?
      ensures outcome == Done ==> meds == ToggleActive(old(meds), id)
      ensures outcome != Done ==> meds == old(meds)
      ensures logs == old(logs) && user == old(user) && currentPage == old(currentPage)
      ensures editing == old(editing) && showForm == old(showForm) && authLoading == old(authLoading)
    {
      if FindMedication(meds, id).None? {
        return NotFound;
      }
      if reply.Failed? {
        return StoreError;
      }
      meds := ToggleActive(meds, id);
      outcome := Done;
    }

    /** `handleEditMedication`: open the form on a medication. */
    method BeginEdit(m: StaticMedication)
      modifies this
      ensures editing == Some(m) && showForm
      ensures meds == old(meds) && logs == old(logs) && user == old(user) && currentPage == old(currentPage)
      ensures authLoading == old(authLoading)
    {
      editing, showForm := Some(m), true;
    }

    /** The "Add New Medication" button: open an empty form. */
    method BeginAdd()
      modifies this
      ensures editing.None? && showForm
      ensures meds == old(meds) && logs == old(logs) && user == old(user) && currentPage == old(currentPage)
      ensures authLoading == old(authLoading)
    {
      editing, showForm := None, true;
    }

    /** The form's `onCancel`. */
    method CancelForm()
      modifies this
      ensures editing.None? && !showForm
      ensures meds == old(meds) && logs == old(logs) && user == old(user) && currentPage == old(currentPage)
      ensures authLoading == old(authLoading)
    {
      editing, showForm := None, false;
    }

    /** `handleAddMedication`: when editing, the edited medication takes the submitted fields;
        otherwise, with a session, the stored row is appended as an active medication. Any
        failure leaves the list and the form as they were. */
    method AddMedication(draft: MedicationDraft, session: Option<Session>, reply: Reply, newId: string)
      returns (outcome: Outcome)
      modifies this
      ensures old(editing).Some? ==> (outcome == Done <==> reply.Ok?)
      ensures old(editing).None? ==> (outcome == Done <==> session.Some? && reply.Ok?)
      ensures old(editing).None? && session.None? ==> outcome == NoSession
      ensures outcome == Done && old(editing).Some? ==> meds == ApplyEdit(old(meds), old(editing).value.id, draft)
      ensures outcome == Done && old(editing).None? ==> meds == old(meds) + [ToStaticMedication(InsertedRow(newId, draft))]
      ensures outcome == Done ==> !showForm && editing.None?
      ensures outcome != Done ==> meds == old(meds) && showForm == old(showForm) && editing == old(editing)
      ensures logs == old(logs) && user == old(user) && currentPage == old(currentPage)
      ensures authLoading == old(authLoading)
    {
      if editing.Some? {
        if reply.Failed? {
          return StoreError;
        }
        meds := ApplyEdit(meds, editing.value.id, draft);
        editing := None;
      } else {
        if session.None? {
          return NoSession;
        }
        if reply.Failed? {
          return StoreError;
        }
        meds := meds + [ToStaticMedication(InsertedRow(newId, draft))];
      }
      showForm := false;
      outcome := Done;
    }

    /** `handleLogMedication` on `today`. */
    method LogMedication(medicationId: string, slot: string, taken: bool, today: Date,
                         session: Option<Session>, reply: Reply, newId: string) returns (outcome: Outcome)
      modifies this
      ensures var r := Mark(old(meds), old(logs), medicationId, slot, taken, today, session, reply, newId);
        outcome == r.outcome && logs == r.logs
      ensures outcome != Done ==> logs == old(logs)
      ensures meds == old(meds) && user == old(user) && currentPage == old(currentPage)
      ensures editing == old(editing) && showForm == old(showForm) && authLoading == old(authLoading)
    {
      var k := FindMedication(meds, medicationId);
      if k.None? || !meds[k.value].isActive {
        return NotFound;
      }
      if session.None? {
        return NoSession;
      }
      var target := SlotTarget(today, slot);
      if target.None? {
        return InvalidSlot;
      }
      if reply.Failed? {
        return StoreError;
      }
      var existing := FindMatch(logs, medicationId, target.value);
      if existing.Some? {
        logs := SetTaken(logs, logs[existing.value].id, taken);
      } else {
        logs := logs + [NewLog(newId, meds[k.value], target.value, taken, session.value)];
      }
      outcome := Done;
    }

    /** `handleDeleteMedication`: once the medication is deleted from the store, it and its logs
        leave the local state even when deleting the logs from the store fails; that failure is
        only reported. */
    method DeleteMedication(id: string, reply: Reply, cascadeReply: Reply) returns (outcome: Outcome)
      modifies this
      ensures reply.Failed? ==> outcome == StoreError && meds == old(meds) && logs == old(logs)
      ensures reply.Ok? ==> meds == RemoveMedication(old(meds), id) && logs == RemoveLogsOf(old(logs), id)
      ensures reply.Ok? ==> outcome == (if cascadeReply.Ok? then Done else CascadeError)
      ensures user == old(user) && currentPage == old(currentPage)
      ensures editing == old(editing) && showForm == old(showForm) && authLoading == old(authLoading)
    {
      if reply.Failed? {
        return StoreError;
      }
      outcome := if cascadeReply.Ok? then Done else CascadeError;
      meds := RemoveMedication(meds, id);
      logs := RemoveLogsOf(logs, id);
    }

    /** `handleDeleteLog`. */
    method DeleteLog(logId: string, reply: Reply) returns (outcome: Outcome)
      modifies this
      ensures outcome == (if reply.Ok? then Done else StoreError)
      ensures reply.Ok? ==> logs == RemoveLog(old(logs), logId)
      ensures reply.Failed? ==> logs == old(logs)
      ensures meds == old(meds) && user == old(user) && currentPage == old(currentPage)
      ensures editing == old(editing) && showForm == old(showForm) && authLoading == old(authLoading)
    {
      if reply.Failed? {
        return StoreError;
      }
      logs := RemoveLog(logs, logId);
      outcome := Done;
    }

    /** `handleClearAllLogs`: the store deletes only the acting user's logs, but the local
        collection is emptied. */
    method ClearAllLogs(session: Option<Session>, reply: Reply) returns (outcome: Outcome)
      modifies this
      ensures outcome == Done <==> session.Some? && reply.Ok?
      ensures outcome == Done ==> logs == []
      ensures outcome != Done ==> logs == old(logs)
      ensures meds == old(meds) && user == old(user) && currentPage == old(currentPage)
      ensures editing == old(editing) && showForm == old(showForm) && authLoading == old(authLoading)
    {
      if session.None? {
        return NoSession;
      }
      if reply.Failed? {
        return StoreError;
      }
      logs := [];
      outcome := Done;
    }

    /** `handleLogout`: the user is signed out and both collections are emptied. */
    method Logout()
      modifies this
      ensures user == NoUser && logs == [] && meds == []
      ensures !authLoading
      ensures currentPage == old(currentPage) && editing == old(editing) && showForm == old(showForm)
    {
      user, logs, meds := NoUser, [], [];
      authLoading := false;
    }

    /** A navigation button: `setCurrentPage`. */
    method Navigate(page: Page)
      modifies this
      ensures currentPage == page
      ensures meds == old(meds) && logs == old(logs) && user == old(user)
      ensures editing == old(editing) && showForm == old(showForm) && authLoading == old(authLoading)
    {
      currentPage := page;
    }
  }
}
