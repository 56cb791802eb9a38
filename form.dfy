/** The medication form (src/components/MedicationForm.tsx): its five state fields, the
    default slots generated when the number of doses per day changes, the per-slot editor, and
    what a submission emits and resets. */
module Form {
  import opened Seqs
  import opened Slots
  import opened Types

  /** The hour of default slot `i` out of `n`: `Math.floor(8 + (i * 24) / n)`. The hour is not
      wrapped at 24. */
  function DefaultHour(n: nat, i: nat): (h: nat)
    requires i < n
    ensures 8 <= h < 32
  {
    ScaledIndexBelow(n, i);
    8 + (i * 24) / n
  }

  /** Slot `i` of `n` is scaled into the 24 hours after the first dose. */
  lemma ScaledIndexBelow(n: nat, i: nat)
    requires i < n
    ensures (i * 24) / n < 24
  {
    assert i * 24 < n * 24;
  }

  /** The slots `handleFrequencyChange(n)` generates. */
  function DefaultSlots(n: nat): (r: seq<string>)
    ensures |r| == n
    ensures forall i :: 0 <= i < n ==> r[i] == HourSlot(DefaultHour(n, i))
  {
    seq(n, i requires 0 <= i < n => HourSlot(DefaultHour(n, i)))
  }

  /** Each generated slot is an "HH:00" string that reads back as its hour and minute zero; the
      first slot is "08:00". */
  lemma DefaultSlotsParse(n: nat, i: nat)
    requires i < n
    ensures WellFormedSlot(DefaultSlots(n)[i])
    ensures SlotHour(DefaultSlots(n)[i]) == Some(DefaultHour(n, i))
    ensures SlotMinute(DefaultSlots(n)[i]) == Some(0)
    ensures DefaultHour(n, 0) == 8
  {
    assert DefaultSlots(n)[i] == HourSlot(DefaultHour(n, i));
    SmallHourSlot(DefaultHour(n, i));
    FirstHour(n);
  }

  /** The first dose is at 8 whatever the frequency. */
  lemma FirstHour(n: nat)
    requires n > 0
    ensures DefaultHour(n, 0) == 8
  {
    var q := (0 * 24) / n;
    assert 0 * 24 == q * n + (0 * 24) % n;
    assert q == 0;
  }

  /** Integer division is strictly monotone across steps of at least the divisor. */
  lemma DivGrows(a: nat, b: nat, n: nat)
    requires n > 0 && a + n <= b
    ensures a / n < b / n
  {
    var q, r := a / n, b / n;
    assert a == q * n + a % n && b == r * n + b % n;
  }

  /** For up to 24 doses a day (the form offers 1 to 4), later slots have later hours. */
  lemma DefaultHoursIncrease(n: nat, i: nat, j: nat)
    requires 1 <= n <= 24 && i < j < n
    ensures DefaultHour(n, i) < DefaultHour(n, j)
  {
    DivGrows(i * 24, j * 24, n);
  }

  /** The slot text of the hour written with digits `tens` and `units`. */
  lemma HourSlotDigits(tens: nat, units: nat)
    requires tens < 10 && units < 10
    ensures HourSlot(tens * 10 + units) == [DigitChar(tens), DigitChar(units), ':', '0', '0']
  {
    var h := tens * 10 + units;
    assert h / 10 == tens && h % 10 == units;
  }

  lemma DigitChars()
    ensures DigitChar(0) == '0' && DigitChar(2) == '2' && DigitChar(4) == '4'
    ensures DigitChar(6) == '6' && DigitChar(8) == '8'
  {
  }

  /** The hours the offered frequencies generate: 08 for one dose; 08, 20 for two; 08, 16, 24
      for three; 08, 14, 20, 26 for four. */
  lemma OfferedHours()
    ensures DefaultHour(1, 0) == 8
    ensures DefaultHour(2, 0) == 8 && DefaultHour(2, 1) == 20
    ensures DefaultHour(3, 0) == 8 && DefaultHour(3, 1) == 16 && DefaultHour(3, 2) == 24
    ensures DefaultHour(4, 0) == 8 && DefaultHour(4, 1) == 14 && DefaultHour(4, 2) == 20 && DefaultHour(4, 3) == 26
  {
  }

  /** Every frequency starts at "08:00". */
  lemma FirstSlotAtEight(n: nat)
    requires n >= 1
    ensures DefaultSlots(n)[0] == "08:00"
  {
    assert DefaultHour(n, 0) == 0 * 10 + 8;
    HourSlotDigits(0, 8);
    DigitChars();
  }

  /** Three doses a day end on the text "24:00", which is not a time of day. */
  lemma ThreeDosesEndAtTwentyFour()
    ensures DefaultSlots(3)[2] == "24:00"
  {
    HourSlotDigits(2, 4);
    DigitChars();
  }

  /** Four doses a day end on the text "26:00". */
  lemma FourDosesEndAtTwentySix()
    ensures DefaultSlots(4)[3] == "26:00"
  {
    HourSlotDigits(2, 6);
    DigitChars();
  }

  /** `initialData?.frequency || 1`: zero is falsy. */
  function FrequencyOrOne(f: int): (r: int)
    ensures r != 0
    ensures f != 0 ==> r == f
  {
    if f != 0 then f else 1
  }

  /** The form's React state. */
  class MedicationForm {
    var name: string
    var dosage: string
    var frequency: int
    var timeSlots: seq<string>
    var notes: string
    var initialData: Option<StaticMedication>

    /** The fields of a blank form. */
    predicate Blank()
      reads this
    {
      name == "" && dosage == "" && frequency == 1 && timeSlots == ["08:00"] && notes == ""
    }

    /** The `useState` initial values: a copy of `initialData` when given (with the `||`
        defaults), else a blank form. */
    constructor (initialData: Option<StaticMedication>)
      ensures this.initialData == initialData
      ensures initialData.None? ==> Blank()
      ensures initialData.Some? ==> var d := initialData.value;
        name == OrElse(Some(d.name), "") && dosage == OrElse(Some(d.dosage), "")
        && frequency == FrequencyOrOne(d.frequency) && timeSlots == d.timeSlots
        && notes == OrElse(d.notes, "")
    {
      this.initialData := initialData;
      match initialData {
        case None =>
          name, dosage, frequency, timeSlots, notes := "", "", 1, ["08:00"], "";
        case Some(d) =>
          name, dosage := OrElse(Some(d.name), ""), OrElse(Some(d.dosage), "");
          frequency, timeSlots, notes := FrequencyOrOne(d.frequency), d.timeSlots, OrElse(d.notes, "");
      }
    }

    /** A new `initialData` prop and the effect it triggers: a given medication is copied in
        (frequency as is, missing notes as ''); a missing one leaves the fields alone. */
    method ReceiveInitialData(d: Option<StaticMedication>)
      modifies this
      ensures initialData == d
      ensures d.Some? ==>
        name == d.value.name && dosage == d.value.dosage && frequency == d.value.frequency &&
        timeSlots == d.value.timeSlots && notes == OrElse(d.value.notes, "")
      ensures d.None? ==>
        name == old(name) && dosage == old(dosage) && frequency == old(frequency) &&
        timeSlots == old(timeSlots) && notes == old(notes)
    {
      initialData := d;
      if d.Some? {
        name, dosage, frequency, timeSlots := d.value.name, d.value.dosage, d.value.frequency, d.value.timeSlots;
        notes := OrElse(d.value.notes, "");
      }
    }

    /** `handleFrequencyChange`: the frequency and exactly that many default slots. */
    method ChangeFrequency(n: nat)
      modifies this
      ensures frequency == n && timeSlots == DefaultSlots(n) && |timeSlots| == frequency
      ensures name == old(name) && dosage == old(dosage) && notes == old(notes)
      ensures initialData == old(initialData)
    {
      frequency := n;
      timeSlots := DefaultSlots(n);
    }

    /** The time input at `index`: only that slot changes. */
    method EditSlot(index: nat, value: string)
      requires index < |timeSlots|
      modifies this
      ensures timeSlots == old(timeSlots)[index := value]
      ensures |timeSlots| == |old(timeSlots)| && frequency == old(frequency)
      ensures forall k :: 0 <= k < |timeSlots| && k != index ==> timeSlots[k] == old(timeSlots)[k]
      ensures name == old(name) && dosage == old(dosage) && notes == old(notes)
      ensures initialData == old(initialData)
    {
      var copy := timeSlots;
      copy := copy[index := value];
      timeSlots := copy;
    }

    /** `handleSubmit`: emits the current fields; a form that is not editing then goes blank,
        an editing form keeps its fields. */
    method Submit() returns (draft: MedicationDraft)
      modifies this
      ensures draft == MedicationDraft(old(name), old(dosage), old(frequency), old(timeSlots), Some(old(notes)))
      ensures old(initialData).None? ==> Blank()
      ensures old(initialData).Some? ==>
        name == old(name) && dosage == old(dosage) && frequency == old(frequency) &&
        timeSlots == old(timeSlots) && notes == old(notes)
      ensures initialData == old(initialData)
    {
      draft := MedicationDraft(name, dosage, frequency, timeSlots, Some(notes));
      if initialData.None? {
        name, dosage, frequency, timeSlots, notes := "", "", 1, ["08:00"], "";
      }
    }
  }
}
