/** The text handling around a dose slot string "HH:MM": `split(':')`, `parseInt`, and the
    `String(hour).padStart(2, '0')` formatting used when slots are generated. */
module Slots {
  import opened Seqs

  predicate IsDigit(c: char) {
    '0' <= c <= '9'
  }

  predicate AllDigits(s: string) {
    forall i :: 0 <= i < |s| ==> IsDigit(s[i])
  }

  function DigitValue(c: char): (v: nat)
    requires IsDigit(c)
    ensures v < 10
  {
    (c as int) - ('0' as int)
  }

  function DigitChar(v: nat): (c: char)
    requires v < 10
    ensures IsDigit(c) && DigitValue(c) == v
  {
    ('0' as int + v) as char
  }

  /** The longest prefix of `s` made of decimal digits. */
  function TakeDigits(s: string): (d: string)
    ensures |d| <= |s| && d == s[..|d|]
    ensures AllDigits(d)
    ensures |d| < |s| ==> !IsDigit(s[|d|])
  {
    if s != [] && IsDigit(s[0]) then [s[0]] + TakeDigits(s[1..]) else []
  }

  /** The number a string of decimal digits denotes. */
  function DecimalValue(d: string): nat
    requires AllDigits(d)
  {
    if d == [] then 0 else DecimalValue(d[..|d| - 1]) * 10 + DigitValue(d[|d| - 1])
  }

  /** `parseInt(s)` on the strings a time slot can hold: the leading decimal digits, or NaN
      (None) when there are none. Leading white space and a sign are not modelled. */
  function ParseInt(s: string): (r: Option<nat>)
    ensures r.Some? <==> |s| > 0 && IsDigit(s[0])
  {
    var d := TakeDigits(s);
    if d == [] then None else Some(DecimalValue(d))
  }

  /** `s.split(':')[0]`: everything before the first colon. */
  function BeforeColon(s: string): (r: string)
    ensures |r| <= |s| && r == s[..|r|]
    ensures ':' !in r
    ensures |r| < |s| ==> s[|r|] == ':'
  {
    if s == [] || s[0] == ':' then [] else [s[0]] + BeforeColon(s[1..])
  }

  /** `s.split(':')[1]`: the text between the first and second colon, or `undefined` (None)
      when `s` has no colon. */
  function AfterColon(s: string): (r: Option<string>)
    ensures r.Some? <==> ':' in s
  {
    if s == [] then None
    else if s[0] == ':' then Some(BeforeColon(s[1..]))
    else AfterColon(s[1..])
  }

  /** `parseInt(slot.split(':')[0])`. */
  function SlotHour(slot: string): Option<nat> {
    ParseInt(BeforeColon(slot))
  }

  /** `parseInt(slot.split(':')[1])`; `parseInt(undefined)` is NaN. */
  function SlotMinute(slot: string): Option<nat> {
    match AfterColon(slot)
    case None => None
    case Some(m) => ParseInt(m)
  }

  /** When the fields of a slot are numbers: the hour when the slot starts with a digit, the
      minute when a digit follows the first colon. */
  lemma SlotFieldsParse(slot: string)
    ensures SlotHour(slot).Some? <==> |slot| > 0 && IsDigit(slot[0])
    ensures var c := |BeforeColon(slot)|;
      SlotMinute(slot).Some? <==> c + 1 < |slot| && IsDigit(slot[c + 1])
  {
    AfterColonSplit(slot);
  }

  /** The field after the first colon is the text that follows it, up to the next colon. */
  lemma {:induction false} AfterColonSplit(s: string)
    ensures var c := |BeforeColon(s)|;
      AfterColon(s) == if c < |s| then Some(BeforeColon(s[c + 1..])) else None
  {
    if s != [] && s[0] != ':' {
      AfterColonSplit(s[1..]);
      assert BeforeColon(s) == [s[0]] + BeforeColon(s[1..]);
      if |BeforeColon(s)| < |s| {
        assert s[1..][|BeforeColon(s[1..])| + 1..] == s[|BeforeColon(s)| + 1..];
      }
    }
  }

  /** A slot in the "HH:MM" shape an `<input type="time">` produces. */
  predicate WellFormedSlot(s: string) {
    |s| == 5 && IsDigit(s[0]) && IsDigit(s[1]) && s[2] == ':' && IsDigit(s[3]) && IsDigit(s[4])
  }

  /** A well-formed slot parses to its two two-digit numbers. */
  lemma WellFormedSlotParses(s: string)
    requires WellFormedSlot(s)
    ensures SlotHour(s) == Some(DigitValue(s[0]) * 10 + DigitValue(s[1]))
    ensures SlotMinute(s) == Some(DigitValue(s[3]) * 10 + DigitValue(s[4]))
  {
    assert BeforeColon(s) == s[..2] by {
      assert BeforeColon(s) == [s[0]] + BeforeColon(s[1..]);
      assert BeforeColon(s[1..]) == [s[1]] + BeforeColon(s[2..]);
    }
    DigitPrefixParses(s[..2], []);
    assert s[..2] + [] == s[..2];
    assert s[..2] == [s[0], s[1]];
    TwoDigitValue(s[0], s[1]);
    assert AfterColon(s) == Some(s[3..]) by {
      assert AfterColon(s) == AfterColon(s[1..]);
      assert AfterColon(s[1..]) == AfterColon(s[2..]);
      assert s[2..][1..] == s[3..];
      ColonFree(s[3..]);
    }
    DigitPrefixParses(s[3..], []);
    assert s[3..] + [] == s[3..];
    assert s[3..] == [s[3], s[4]];
    TwoDigitValue(s[3], s[4]);
  }

  lemma TwoDigitValue(a: char, b: char)
    requires IsDigit(a) && IsDigit(b)
    ensures AllDigits([a, b]) && DecimalValue([a, b]) == DigitValue(a) * 10 + DigitValue(b)
  {
    assert [a, b][..1] == [a] && [a][..0] == [];
    assert DecimalValue([a]) == DigitValue(a);
    assert DecimalValue([a, b]) == DecimalValue([a]) * 10 + DigitValue(b);
  }

  /** A run of digits followed by a non-digit parses to the value of the run. */
  lemma {:induction false} DigitPrefixParses(d: string, rest: string)
    requires |d| > 0 && AllDigits(d)
    requires rest == [] || !IsDigit(rest[0])
    ensures TakeDigits(d + rest) == d
    ensures ParseInt(d + rest) == Some(DecimalValue(d))
  {
    if |d| > 1 {
      DigitPrefixParses(d[1..], rest);
      assert (d + rest)[1..] == d[1..] + rest;
      assert d == [d[0]] + d[1..];
    } else {
      assert (d + rest)[1..] == rest;
    }
  }

  /** `String(n)`: the decimal digits of `n`, without leading zeros. */
  function DecimalString(n: nat): (s: string)
    ensures |s| > 0 && AllDigits(s)
    ensures n < 10 ==> |s| == 1
    ensures n >= 10 ==> |s| >= 2
  {
    if n < 10 then [DigitChar(n)] else DecimalString(n / 10) + [DigitChar(n % 10)]
  }

  /** `s.padStart(2, '0')`. */
  function PadStart2(s: string): (r: string)
    ensures |r| == if |s| < 2 then 2 else |s|
    ensures r[|r| - |s|..] == s
    ensures forall i :: 0 <= i < |r| - |s| ==> r[i] == '0'
  {
    if |s| >= 2 then s else if |s| == 1 then ['0'] + s else ['0', '0']
  }

  /** Reading back what String(n) wrote gives n. */
  lemma {:induction false} DecimalStringValue(n: nat)
    ensures DecimalValue(DecimalString(n)) == n
    decreases n
  {
    if n >= 10 {
      DecimalStringValue(n / 10);
      var s := DecimalString(n);
      assert s[..|s| - 1] == DecimalString(n / 10);
    }
  }

  /** A leading zero does not change a decimal value. */
  lemma {:induction false} LeadingZero(d: string)
    requires AllDigits(d)
    ensures AllDigits(['0'] + d) && DecimalValue(['0'] + d) == DecimalValue(d)
    decreases |d|
  {
    if d != [] {
      LeadingZero(d[..|d| - 1]);
      assert (['0'] + d)[..|d|] == ['0'] + d[..|d| - 1];
    }
  }

  /** The slot text `${String(hour).padStart(2, '0')}:00` generated for a default slot. */
  function HourSlot(hour: nat): (s: string)
    ensures hour < 100 ==> s == [DigitChar(hour / 10), DigitChar(hour % 10), ':', '0', '0']
  {
    PaddedTwoDigits(hour);
    PadStart2(DecimalString(hour)) + ":00"
  }

  /** Below 100, the zero-padded decimal text is the tens digit and the units digit. */
  lemma PaddedTwoDigits(hour: nat)
    ensures hour < 100 ==> PadStart2(DecimalString(hour)) == [DigitChar(hour / 10), DigitChar(hour % 10)]
  {
    if hour < 10 {
      assert DecimalString(hour) == [DigitChar(hour)];
      assert DigitChar(0) == '0';
    } else if hour < 100 {
      assert DecimalString(hour / 10) == [DigitChar(hour / 10)];
    }
  }

  /** A generated slot parses back to its hour and to minute zero. */
  lemma HourSlotParses(hour: nat)
    ensures SlotHour(HourSlot(hour)) == Some(hour)
    ensures SlotMinute(HourSlot(hour)) == Some(0)
  {
    var p := PadStart2(DecimalString(hour));
    assert HourSlot(hour) == p + ":" + "00";
    PaddedDecimalValue(hour);
    ColonSplit(p, "00");
    HourFieldParses(p);
    ZeroMinuteParses();
  }

  /** A generated slot below hour 100 is an "HH:MM" slot that reads back as its hour. */
  lemma SmallHourSlot(hour: nat)
    requires hour < 100
    ensures WellFormedSlot(HourSlot(hour))
    ensures SlotHour(HourSlot(hour)) == Some(hour)
    ensures SlotMinute(HourSlot(hour)) == Some(0)
  {
    assert WellFormedSlot(HourSlot(hour)) by {
      var tens, units := hour / 10, hour % 10;
      assert tens < 10 && units < 10;
      assert HourSlot(hour) == [DigitChar(tens), DigitChar(units), ':', '0', '0'];
      OnTheHourWellFormed(DigitChar(tens), DigitChar(units));
    }
    HourSlotParses(hour);
  }

  /** Two digits followed by ":00" make an "HH:MM" slot. */
  lemma OnTheHourWellFormed(c: char, d: char)
    requires IsDigit(c) && IsDigit(d)
    ensures WellFormedSlot([c, d, ':', '0', '0'])
  {
  }

  /** A run of at least two digits parses to its value. */
  lemma HourFieldParses(p: string)
    requires |p| >= 2 && AllDigits(p)
    ensures ParseInt(p) == Some(DecimalValue(p))
  {
    DigitPrefixParses(p, []);
    assert p + [] == p;
  }

  lemma ZeroMinuteParses()
    ensures ParseInt("00") == Some(0)
  {
    TwoDigitValue('0', '0');
    DigitPrefixParses("00", []);
    assert "00" + [] == "00";
  }

  /** The zero-padded decimal text of `hour` is a digit run worth `hour`. */
  lemma PaddedDecimalValue(hour: nat)
    ensures var p := PadStart2(DecimalString(hour));
      |p| >= 2 && AllDigits(p) && ':' !in p && DecimalValue(p) == hour
  {
    var d := DecimalString(hour);
    DecimalStringValue(hour);
    if |d| == 1 {
      LeadingZero(d);
    }
    var p := PadStart2(d);
    assert AllDigits(p);
  }

  /** Splitting `head + ":" + tail` at its first colon. */
  lemma {:induction false} ColonSplit(head: string, tail: string)
    requires ':' !in head && ':' !in tail
    ensures BeforeColon(head + ":" + tail) == head
    ensures AfterColon(head + ":" + tail) == Some(tail)
    decreases |head|
  {
    var s := head + ":" + tail;
    if head == [] {
      assert s[0] == ':' && s[1..] == tail;
      ColonFree(tail);
    } else {
      assert s[0] == head[0] && head[0] != ':' by {
        assert head[0] in head;
      }
      assert s[1..] == head[1..] + ":" + tail;
      ColonSplit(head[1..], tail);
    }
  }

  /** A string without a colon is its own first field. */
  lemma {:induction false} ColonFree(s: string)
    requires ':' !in s
    ensures BeforeColon(s) == s
    decreases |s|
  {
    if s != [] {
      ColonFree(s[1..]);
      assert s == [s[0]] + s[1..];
    }
  }
}
