/** Today's schedule (src/components/MedicationList.tsx): slot periods, the expansion of the
    active medications into one dose instance per slot, the grouping by period, the status of an
    instance against the log collection, and which period groups are displayed. */
module Schedule {
  import opened Seqs
  import opened Calendar
  import opened Slots
  import opened Types

  /** `TimeCategory`: the three periods, plus `All`, which exists only as a display filter. */
  datatype TimeCategory = Morning | Afternoon | Evening | All

  /** `categorizeTimeSlot`: the period of a slot's hour. An hour that does not parse (NaN) fails
      both range tests and lands in the evening. */
  function Categorize(slot: string): (c: TimeCategory)
    ensures c != All
    ensures SlotHour(slot).None? ==> c == Evening
  {
    match SlotHour(slot)
    case None => Evening
    case Some(h) =>
      if 5 <= h < 12 then Morning
      else if 12 <= h < 17 then Afternoon
      else Evening
  }

  /** For an "HH:MM" slot: morning for hours 5..11, afternoon for 12..16, evening otherwise. */
  lemma CategorizeWellFormed(slot: string)
    requires WellFormedSlot(slot)
    ensures var h := DigitValue(slot[0]) * 10 + DigitValue(slot[1]);
      && (Categorize(slot) == Morning <==> 5 <= h < 12)
      && (Categorize(slot) == Afternoon <==> 12 <= h < 17)
      && (Categorize(slot) == Evening <==> h < 5 || 17 <= h)
  {
    WellFormedSlotParses(slot);
  }

  /** The boundary cases of the period rule. */
  lemma CategorizeBoundaries()
    ensures Categorize("04:59") == Evening
    ensures Categorize("05:00") == Morning
    ensures Categorize("11:59") == Morning
    ensures Categorize("12:00") == Afternoon
    ensures Categorize("16:59") == Afternoon
    ensures Categorize("17:00") == Evening
    ensures Categorize("00:00") == Evening
  {
    CategorizeWellFormed("04:59");
    CategorizeWellFormed("05:00");
    CategorizeWellFormed("11:59");
    CategorizeWellFormed("12:00");
    CategorizeWellFormed("16:59");
    CategorizeWellFormed("17:00");
    CategorizeWellFormed("00:00");
  }

  /** One entry of the `flatMap`: the medication's fields, one of its slots and that slot's period. */
  datatype DoseInstance = DoseInstance(medication: StaticMedication, timeSlot: string, category: TimeCategory)

  /** The number of slots over all medications. */
  function TotalSlots(meds: seq<StaticMedication>): nat {
    if meds == [] then 0 else |meds[0].timeSlots| + TotalSlots(meds[1..])
  }

  /** `medication.timeSlots.map(...)`: one instance per slot of `m`, in slot order. */
  function InstancesOf(m: StaticMedication): (r: seq<DoseInstance>)
    ensures |r| == |m.timeSlots|
  {
    seq(|m.timeSlots|, j requires 0 <= j < |m.timeSlots| =>
      DoseInstance(m, m.timeSlots[j], Categorize(m.timeSlots[j])))
  }

  /** `medications.flatMap(...)`: every slot of every medication, each tagged with its period. */
  function Expand(meds: seq<StaticMedication>): (r: seq<DoseInstance>)
    ensures |r| == TotalSlots(meds)
    ensures forall i :: 0 <= i < |r| ==> r[i].category != All
  {
    if meds == [] then [] else InstancesOf(meds[0]) + Expand(meds[1..])
  }

  /** Each instance carries a medication of the list, one of that medication's slots and that
      slot's period. */
  lemma {:induction false} ExpandMembers(meds: seq<StaticMedication>)
    ensures forall i :: 0 <= i < |Expand(meds)| ==>
      && Expand(meds)[i].medication in meds
      && Expand(meds)[i].timeSlot in Expand(meds)[i].medication.timeSlots
      && Expand(meds)[i].category == Categorize(Expand(meds)[i].timeSlot)
    decreases |meds|
  {
    if meds != [] {
      ExpandMembers(meds[1..]);
      var h := InstancesOf(meds[0]);
      var t := Expand(meds[1..]);
      assert Expand(meds) == h + t;
      forall i | 0 <= i < |Expand(meds)|
        ensures Expand(meds)[i].medication in meds
        ensures Expand(meds)[i].timeSlot in Expand(meds)[i].medication.timeSlots
        ensures Expand(meds)[i].category == Categorize(Expand(meds)[i].timeSlot)
      {
        if i < |h| {
          assert Expand(meds)[i] == h[i];
        } else {
          assert Expand(meds)[i] == t[i - |h|];
          assert t[i - |h|].medication in meds[1..];
        }
      }
    }
  }

  /** Medications appear in order and slots within a medication appear in order: slot `j` of
      medication `k` sits right after all slots of the medications before it. */
  lemma {:induction false} ExpandAt(meds: seq<StaticMedication>, k: nat, j: nat)
    requires k < |meds| && j < |meds[k].timeSlots|
    ensures TotalSlots(meds[..k]) + j < |Expand(meds)|
    ensures Expand(meds)[TotalSlots(meds[..k]) + j]
         == DoseInstance(meds[k], meds[k].timeSlots[j], Categorize(meds[k].timeSlots[j]))
    decreases k
  {
    if k > 0 {
      ExpandAt(meds[1..], k - 1, j);
      assert meds[..k][1..] == meds[1..][..k - 1];
      assert meds[..k][0] == meds[0];
    }
  }

  /** The order-preserving subsequence of the instances of one period. */
  function InCategory(xs: seq<DoseInstance>, c: TimeCategory): (r: seq<DoseInstance>)
    ensures forall i :: 0 <= i < |r| ==> r[i].category == c && r[i] in xs
    ensures forall i :: 0 <= i < |xs| && xs[i].category == c ==> xs[i] in r
    ensures IsSubsequence(r, xs)
  {
    Filter(xs, (x: DoseInstance) => x.category == c)
  }

  /** The three buckets of `categorizedMedications`. */
  datatype Groups = Groups(morning: seq<DoseInstance>, afternoon: seq<DoseInstance>, evening: seq<DoseInstance>)

  /** `categorizedMedications`: the expansion split by period. */
  function Categorized(meds: seq<StaticMedication>): Groups {
    var xs := Expand(meds);
    Groups(InCategory(xs, Morning), InCategory(xs, Afternoon), InCategory(xs, Evening))
  }

  /** Each bucket holds exactly the instances of its period, and every instance of the
      expansion is in the bucket of its own period. */
  lemma CategorizedBuckets(meds: seq<StaticMedication>)
    ensures forall c, x :: x in GroupOf(Categorized(meds), c) ==> x.category == c && x in Expand(meds)
    ensures forall x :: x in Expand(meds) ==> x in GroupOf(Categorized(meds), x.category)
  {
    BucketsOf(Expand(meds));
  }

  /** The same for the three period filters of any sequence of instances without `All`. */
  lemma BucketsOf(xs: seq<DoseInstance>)
    requires forall i :: 0 <= i < |xs| ==> xs[i].category != All
    ensures var g := Groups(InCategory(xs, Morning), InCategory(xs, Afternoon), InCategory(xs, Evening));
      && (forall c, x :: x in GroupOf(g, c) ==> x.category == c && x in xs)
      && (forall x :: x in xs ==> x in GroupOf(g, x.category))
  {
    InCategoryMembers(xs, Morning);
    InCategoryMembers(xs, Afternoon);
    InCategoryMembers(xs, Evening);
    forall x | x in xs ensures x.category != All {
      var i :| 0 <= i < |xs| && xs[i] == x;
    }
  }

  /** Membership in a bucket: an instance of the sequence tagged with that period. */
  lemma InCategoryMembers(xs: seq<DoseInstance>, c: TimeCategory)
    ensures forall x :: x in InCategory(xs, c) <==> x in xs && x.category == c
  {
    var r := InCategory(xs, c);
    forall x | x in r ensures x in xs && x.category == c {
      var i :| 0 <= i < |r| && r[i] == x;
    }
    forall x | x in xs && x.category == c ensures x in r {
      var i :| 0 <= i < |xs| && xs[i] == x;
    }
  }

  /** When no instance is tagged `All`, the three period filters split a sequence exactly:
      every instance lands in exactly one of them, as often as it occurs. */
  lemma {:induction false} CategoriesPartition(xs: seq<DoseInstance>)
    requires forall i :: 0 <= i < |xs| ==> xs[i].category != All
    ensures multiset(InCategory(xs, Morning)) + multiset(InCategory(xs, Afternoon))
          + multiset(InCategory(xs, Evening)) == multiset(xs)
  {
    if xs != [] {
      CategoriesPartition(xs[1..]);
      InCategoryCons(xs, Morning);
      InCategoryCons(xs, Afternoon);
      InCategoryCons(xs, Evening);
      assert xs == [xs[0]] + xs[1..];
    }
  }

  lemma InCategoryCons(xs: seq<DoseInstance>, c: TimeCategory)
    requires xs != []
    ensures InCategory(xs, c) == (if xs[0].category == c then [xs[0]] else []) + InCategory(xs[1..], c)
  {
  }

  /** The three groups partition the expansion. */
  lemma GroupsPartitionExpansion(meds: seq<StaticMedication>)
    ensures var g := Categorized(meds);
      && multiset(g.morning) + multiset(g.afternoon) + multiset(g.evening) == multiset(Expand(meds))
      && |g.morning| + |g.afternoon| + |g.evening| == TotalSlots(meds)
  {
    var xs := Expand(meds);
    CategoriesPartition(xs);
    var g := Categorized(meds);
    assert |multiset(g.morning) + multiset(g.afternoon) + multiset(g.evening)| == |multiset(xs)|;
  }

  /** The matching rule of `getMedicationStatus` and of `handleLogMedication`, as the code has
      it: the same medication id and the same day of the month, hour and minute. Month, year
      and reporter are not compared. */
  predicate MatchesSlot(log: MedicationLog, medicationId: string, target: Timestamp)
    ensures MatchesSlotOnDay(log, medicationId, target) ==> MatchesSlot(log, medicationId, target)
  {
    && log.medicationId == medicationId
    && log.timestamp.hour == target.hour
    && log.timestamp.minute == target.minute
    && log.timestamp.date.day == target.date.day
  }

  /** The match ignores month, year, reporter and every denormalised field. */
  lemma MatchIgnoresMonthYearAndReporter(log: MedicationLog, medicationId: string, target: Timestamp,
                                         year: int, month: int, username: string)
    ensures var other := log.(timestamp := log.timestamp.(date := Date(year, month, log.timestamp.date.day)),
                              username := username);
      MatchesSlot(other, medicationId, target) == MatchesSlot(log, medicationId, target)
  {
  }

  /** `new Date(today's year, month, day, parseInt(hours), parseInt(minutes))`, or None when an
      hour or minute does not parse and the result is an invalid Date. */
  function SlotTarget(today: Date, slot: string): (r: Option<Timestamp>)
    ensures r.Some? <==> SlotHour(slot).Some? && SlotMinute(slot).Some?
    ensures r.Some? && ValidDate(today) ==> ValidTimestamp(r.value)
  {
    match (SlotHour(slot), SlotMinute(slot))
    case (Some(h), Some(m)) => Some(MakeTime(today, h, m))
    case _ => None
  }

  /** A slot of up to 23:59 targets today at that time. */
  lemma SlotTargetWithinDay(today: Date, slot: string)
    requires WellFormedSlot(slot)
    requires DigitValue(slot[0]) * 10 + DigitValue(slot[1]) < 24
    requires DigitValue(slot[3]) * 10 + DigitValue(slot[4]) < 60
    ensures SlotTarget(today, slot) == Some(Timestamp(today,
      DigitValue(slot[0]) * 10 + DigitValue(slot[1]), DigitValue(slot[3]) * 10 + DigitValue(slot[4])))
  {
    WellFormedSlotParses(slot);
    MakeTimeWithinDay(today, DigitValue(slot[0]) * 10 + DigitValue(slot[1]),
      DigitValue(slot[3]) * 10 + DigitValue(slot[4]));
  }

  /** `logs.find(p)` as an index: the first position whose log satisfies `p`. */
  function FindFirst(logs: seq<MedicationLog>, p: MedicationLog -> bool): (r: Option<nat>)
    ensures r.Some? ==> r.value < |logs| && p(logs[r.value])
    ensures r.Some? ==> forall j :: 0 <= j < r.value ==> !p(logs[j])
    ensures r.None? ==> forall j :: 0 <= j < |logs| ==> !p(logs[j])
  {
    if logs == [] then None
    else if p(logs[0]) then Some(0)
    else match FindFirst(logs[1..], p)
      case None => None
      case Some(i) => Some(i + 1)
  }

  /** The first log that matches a slot, by the rule above. */
  function FindMatch(logs: seq<MedicationLog>, medicationId: string, target: Timestamp): (r: Option<nat>)
    ensures r.Some? ==> r.value < |logs| && MatchesSlot(logs[r.value], medicationId, target)
    ensures r.Some? ==> forall j :: 0 <= j < r.value ==> !MatchesSlot(logs[j], medicationId, target)
    ensures r.None? ==> forall j :: 0 <= j < |logs| ==> !MatchesSlot(logs[j], medicationId, target)
  {
    FindFirst(logs, (l: MedicationLog) => MatchesSlot(l, medicationId, target))
  }

  /** `log?.taken` as a tagged value: no log yet, logged as taken, or logged as not taken. */
  datatype DoseStatus = Unlogged | Taken | NotTaken

  function StatusOf(taken: bool): (s: DoseStatus)
    ensures s != Unlogged && (s == Taken <==> taken)
  {
    if taken then Taken else NotTaken
  }

  /** `i` is the first matching position in `logs`. */
  ghost predicate FirstMatch(logs: seq<MedicationLog>, medicationId: string, target: Timestamp, i: int) {
    && 0 <= i < |logs|
    && MatchesSlot(logs[i], medicationId, target)
    && forall j :: 0 <= j < i ==> !MatchesSlot(logs[j], medicationId, target)
  }

  /** `getMedicationStatus`: the status of one slot of one medication on `today`. */
  function Status(medicationId: string, slot: string, logs: seq<MedicationLog>, today: Date): (s: DoseStatus)
    ensures SlotTarget(today, slot).None? ==> s == Unlogged
    ensures SlotTarget(today, slot).Some? ==>
      var target := SlotTarget(today, slot).value;
      && (s == Unlogged <==> forall i :: 0 <= i < |logs| ==> !MatchesSlot(logs[i], medicationId, target))
      && forall i :: FirstMatch(logs, medicationId, target, i) ==> s == StatusOf(logs[i].taken)
  {
    match SlotTarget(today, slot)
    case None => Unlogged
    case Some(target) =>
      match FindMatch(logs, medicationId, target)
      case None => Unlogged
      case Some(i) => StatusOf(logs[i].taken)
  }

  /** The corrected matching rule: the same medication at the same local year, month, day,
      hour and minute. */
  predicate MatchesSlotOnDay(log: MedicationLog, medicationId: string, target: Timestamp) {
    log.medicationId == medicationId && log.timestamp == target
  }

  /** The corrected rule as a test on logs. */
  function OnDayRule(medicationId: string, target: Timestamp): MedicationLog -> bool {
    (l: MedicationLog) => MatchesSlotOnDay(l, medicationId, target)
  }

  /** The test "logged on calendar day `d`". */
  function OnDate(d: Date): MedicationLog -> bool {
    (l: MedicationLog) => l.timestamp.date == d
  }

  /** The status under the corrected matching rule. */
  function StatusOnDay(medicationId: string, slot: string, logs: seq<MedicationLog>, today: Date): (s: DoseStatus)
    ensures SlotTarget(today, slot).None? ==> s == Unlogged
    ensures SlotTarget(today, slot).Some? ==>
      var target := SlotTarget(today, slot).value;
      && (s == Unlogged <==> forall i :: 0 <= i < |logs| ==> !MatchesSlotOnDay(logs[i], medicationId, target))
      && forall i :: 0 <= i < |logs| && MatchesSlotOnDay(logs[i], medicationId, target)
           && (forall j :: 0 <= j < i ==> !MatchesSlotOnDay(logs[j], medicationId, target))
           ==> s == StatusOf(logs[i].taken)
  {
    match SlotTarget(today, slot)
    case None => Unlogged
    case Some(target) =>
      match FindFirst(logs, OnDayRule(medicationId, target))
      case None => Unlogged
      case Some(i) => StatusOf(logs[i].taken)
  }

  /** Under the corrected rule a slot's status depends only on the logs of the slot's own day,
      wherever the logs of other days sit in the collection. */
  lemma StatusOnDayIgnoresOtherDays(medicationId: string, slot: string, logs: seq<MedicationLog>, today: Date)
    ensures SlotTarget(today, slot).Some? ==>
      StatusOnDay(medicationId, slot, logs, today)
        == StatusOnDay(medicationId, slot, Filter(logs, OnDate(SlotTarget(today, slot).value.date)), today)
  {
    if SlotTarget(today, slot).Some? {
      var target := SlotTarget(today, slot).value;
      FindFirstFilter(logs, OnDayRule(medicationId, target), OnDate(target.date));
    }
  }

  /** Two collections holding the same logs of the slot's day, in the same order, give the slot
      the same status, however the logs of other days are interleaved with them. */
  lemma StatusOnDaySameDayLogs(medicationId: string, slot: string, logs: seq<MedicationLog>,
                               other: seq<MedicationLog>, today: Date)
    requires SlotTarget(today, slot).Some?
    requires var d := SlotTarget(today, slot).value.date; Filter(logs, OnDate(d)) == Filter(other, OnDate(d))
    ensures StatusOnDay(medicationId, slot, logs, today) == StatusOnDay(medicationId, slot, other, today)
  {
    StatusOnDayIgnoresOtherDays(medicationId, slot, logs, today);
    StatusOnDayIgnoresOtherDays(medicationId, slot, other, today);
  }

  /** Dropping logs that fail `q`, where every log satisfying `p` satisfies `q`, does not change
      which log is the first to satisfy `p`. */
  lemma {:induction false} FindFirstFilter(s: seq<MedicationLog>, p: MedicationLog -> bool, q: MedicationLog -> bool)
    requires forall l :: p(l) ==> q(l)
    ensures var a, b := FindFirst(s, p), FindFirst(Filter(s, q), p);
      a.None? == b.None? && (a.Some? ==> s[a.value] == Filter(s, q)[b.value])
    decreases |s|
  {
    if s != [] {
      FindFirstFilter(s[1..], p, q);
      var f := Filter(s, q);
      if q(s[0]) {
        assert f == [s[0]] + Filter(s[1..], q);
        assert f[0] == s[0] && f[1..] == Filter(s[1..], q);
      } else {
        assert !p(s[0]);
        assert f == Filter(s[1..], q);
      }
    }
  }

  /** Under the code's rule, by contrast, a log of an earlier month marks today's slot:
      a dose taken at 09:00 on 14 January shows as taken at 09:00 on 14 February. */
  lemma StatusMatchesEarlierMonth()
    ensures var log := MedicationLog("log-1", "1", Timestamp(Date(2024, 1, 14), 9, 0), true, "Aspirin", "100mg", "alice@x.com");
      && Status("1", "09:00", [log], Date(2024, 2, 14)) == Taken
      && Status("1", "09:00", [], Date(2024, 2, 14)) == Unlogged
      && StatusOnDay("1", "09:00", [log], Date(2024, 2, 14)) == Unlogged
  {
    var today := Date(2024, 2, 14);
    var log := MedicationLog("log-1", "1", Timestamp(Date(2024, 1, 14), 9, 0), true, "Aspirin", "100mg", "alice@x.com");
    NineOClock(today);
    assert MatchesSlot(log, "1", Timestamp(today, 9, 0));
    assert FindMatch([log], "1", Timestamp(today, 9, 0)) == Some(0);
    assert !MatchesSlotOnDay(log, "1", Timestamp(today, 9, 0));
    assert FindFirst([log], OnDayRule("1", Timestamp(today, 9, 0))) == None;
  }

  lemma NineOClock(today: Date)
    ensures SlotTarget(today, "09:00") == Some(Timestamp(today, 9, 0))
  {
    var s := "09:00";
    assert WellFormedSlot(s);
    assert DigitValue(s[0]) == 0 && DigitValue(s[1]) == 9 && DigitValue(s[3]) == 0 && DigitValue(s[4]) == 0;
    SlotTargetWithinDay(today, s);
  }

  /** The bucket of one period. */
  function GroupOf(g: Groups, c: TimeCategory): seq<DoseInstance> {
    match c
    case Morning => g.morning
    case Afternoon => g.afternoon
    case Evening => g.evening
    case All => []
  }

  /** The period sections rendered, in the fixed order morning, afternoon, evening: a section is
      shown when the category filter admits it and it has at least one instance. */
  function RenderedCategories(selected: TimeCategory, g: Groups): (r: seq<TimeCategory>)
    ensures forall c :: c in r <==> c != All && (selected == All || c == selected) && |GroupOf(g, c)| > 0
    ensures IsSubsequence(r, [Morning, Afternoon, Evening])
  {
    Filter([Morning, Afternoon, Evening], (c: TimeCategory) => (selected == All || c == selected) && |GroupOf(g, c)| > 0)
  }
}
