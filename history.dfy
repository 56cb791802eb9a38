/** The history view (src/components/MedicationHistory.tsx): the logs of one calendar day,
    optionally narrowed to one reporter, listed in ascending time order by a stable in-place
    sort; the distinct reporters for the person filter; and day-by-day navigation that stops
    at today. */
module History {
  import opened Seqs
  import opened Calendar
  import opened Types

  /** The person filter's sentinel value for "every reporter". */
  const AllUsers: string := "all"

  /** `isToday`: the same day, month and year. */
  predicate IsToday(date: Date, today: Date)
    ensures IsToday(date, today) <==> date == today
  {
    date.day == today.day && date.month == today.month && date.year == today.year
  }

  /** The test `getLogsForDate` applies to each log. */
  predicate Selected(log: MedicationLog, date: Date, selectedUser: string) {
    && log.timestamp.date.day == date.day
    && log.timestamp.date.month == date.month
    && log.timestamp.date.year == date.year
    && (selectedUser != AllUsers ==> log.username == selectedUser)
  }

  /** `getLogsForDate`: exactly the logs on `date` (and, unless the filter is "all", by the
      selected reporter), in collection order; empty when there are none. */
  function LogsForDate(logs: seq<MedicationLog>, date: Date, selectedUser: string): (r: seq<MedicationLog>)
    ensures forall i :: 0 <= i < |r| ==>
      r[i] in logs && r[i].timestamp.date == date && (selectedUser != AllUsers ==> r[i].username == selectedUser)
    ensures forall i :: 0 <= i < |logs| && Selected(logs[i], date, selectedUser) ==> logs[i] in r
    ensures IsSubsequence(r, logs)
    ensures r == [] <==> forall i :: 0 <= i < |logs| ==> !Selected(logs[i], date, selectedUser)
  {
    Filter(logs, (l: MedicationLog) => Selected(l, date, selectedUser))
  }

  /** Ascending by time: no log is earlier than one before it. */
  ghost predicate SortedByTime(s: seq<MedicationLog>) {
    forall i, j :: 0 <= i < j < |s| ==> !TimeBefore(s[j].timestamp, s[i].timestamp)
  }

  /** No log of `s` is later than `t`. */
  ghost predicate NoneLaterThan(s: seq<MedicationLog>, t: Timestamp) {
    forall i :: 0 <= i < |s| ==> !TimeBefore(t, s[i].timestamp)
  }

  /** Insert `x` into `s` from the right, passing only logs strictly later than `x`: the step a
      stable insertion sort makes. */
  function InsertByTime(s: seq<MedicationLog>, x: MedicationLog): (r: seq<MedicationLog>)
    ensures |r| == |s| + 1
  {
    if s == [] then [x]
    else if TimeBefore(x.timestamp, s[|s| - 1].timestamp) then InsertByTime(s[..|s| - 1], x) + [s[|s| - 1]]
    else s + [x]
  }

  /** Inserting adds `x` and nothing else. */
  lemma {:induction false} InsertByTimePermutes(s: seq<MedicationLog>, x: MedicationLog)
    ensures multiset(InsertByTime(s, x)) == multiset(s) + multiset{x}
    decreases |s|
  {
    if s != [] && TimeBefore(x.timestamp, s[|s| - 1].timestamp) {
      InsertByTimePermutes(s[..|s| - 1], x);
      assert s == s[..|s| - 1] + [s[|s| - 1]];
    }
  }

  /** Appending a log no earlier than any other keeps the order. */
  lemma SortedAppend(s: seq<MedicationLog>, y: MedicationLog)
    requires SortedByTime(s) && NoneLaterThan(s, y.timestamp)
    ensures SortedByTime(s + [y])
  {
  }

  /** Inserting keeps every log no later than a bound that `s` and `x` both respect. */
  lemma {:induction false} InsertByTimeBounded(s: seq<MedicationLog>, x: MedicationLog, t: Timestamp)
    requires NoneLaterThan(s, t) && !TimeBefore(t, x.timestamp)
    ensures NoneLaterThan(InsertByTime(s, x), t)
    decreases |s|
  {
    if s != [] && TimeBefore(x.timestamp, s[|s| - 1].timestamp) {
      InsertByTimeBounded(s[..|s| - 1], x, t);
    }
  }

  /** Inserting into an ordered sequence gives an ordered sequence. */
  lemma {:induction false} InsertByTimeSorted(s: seq<MedicationLog>, x: MedicationLog)
    requires SortedByTime(s)
    ensures SortedByTime(InsertByTime(s, x))
    decreases |s|
  {
    if s != [] {
      var init, last := s[..|s| - 1], s[|s| - 1];
      assert NoneLaterThan(init, last.timestamp);
      if TimeBefore(x.timestamp, last.timestamp) {
        InsertByTimeSorted(init, x);
        InsertByTimeBounded(init, x, last.timestamp);
        SortedAppend(InsertByTime(init, x), last);
      } else {
        assert NoneLaterThan(s, x.timestamp) by {
          forall i | 0 <= i < |s| ensures !TimeBefore(x.timestamp, s[i].timestamp) {
            TimeBeforeIsStrictTotalOrder(x.timestamp, last.timestamp, s[i].timestamp);
          }
        }
        SortedAppend(s, x);
      }
    }
  }

  /** The order `selectedLogs.sort((a, b) => time(a) - time(b))` leaves the logs in. */
  function SortByTime(s: seq<MedicationLog>): (r: seq<MedicationLog>)
    ensures multiset(r) == multiset(s)
    ensures SortedByTime(r)
  {
    if s == [] then []
    else
      assert s == s[..|s| - 1] + [s[|s| - 1]];
      var sorted := SortByTime(s[..|s| - 1]);
      InsertByTimeSorted(sorted, s[|s| - 1]);
      InsertByTimePermutes(sorted, s[|s| - 1]);
      InsertByTime(sorted, s[|s| - 1])
  }

  /** The test "stamped exactly `t`". */
  function AtTime(t: Timestamp): MedicationLog -> bool {
    (l: MedicationLog) => l.timestamp == t
  }

  /** The logs of `s` stamped exactly `t`, in order. */
  function LoggedAt(s: seq<MedicationLog>, t: Timestamp): seq<MedicationLog> {
    Filter(s, AtTime(t))
  }

  lemma LoggedAtSingle(y: MedicationLog, t: Timestamp)
    ensures LoggedAt([y], t) == if y.timestamp == t then [y] else []
  {
    assert [y][1..] == [];
  }

  /** Two logs with different timestamps cannot both be stamped `t`, so their order does not
      show among the logs stamped `t`. */
  lemma LoggedAtSwap(x: MedicationLog, y: MedicationLog, t: Timestamp)
    requires x.timestamp != y.timestamp
    ensures LoggedAt([x], t) + LoggedAt([y], t) == LoggedAt([y], t) + LoggedAt([x], t)
  {
    LoggedAtSingle(x, t);
    LoggedAtSingle(y, t);
  }

  /** One insertion step keeps the order among the logs stamped `t` and puts `x` after them. */
  lemma {:induction false} InsertByTimeStable(s: seq<MedicationLog>, x: MedicationLog, t: Timestamp)
    ensures LoggedAt(InsertByTime(s, x), t) == LoggedAt(s, t) + LoggedAt([x], t)
    decreases |s|
  {
    if s == [] {
      assert LoggedAt(s, t) == [];
    } else {
      var init, last := s[..|s| - 1], s[|s| - 1];
      assert s == init + [last];
      if TimeBefore(x.timestamp, last.timestamp) {
        var ins := InsertByTime(init, x);
        assert InsertByTime(s, x) == ins + [last];
        assert x.timestamp != last.timestamp by {
          TimeBeforeIsStrictTotalOrder(x.timestamp, last.timestamp, x.timestamp);
        }
        calc {
          LoggedAt(ins + [last], t);
          == { FilterConcat(ins, [last], AtTime(t)); }
          LoggedAt(ins, t) + LoggedAt([last], t);
          == { InsertByTimeStable(init, x, t); }
          LoggedAt(init, t) + (LoggedAt([x], t) + LoggedAt([last], t));
          == { LoggedAtSwap(x, last, t); }
          (LoggedAt(init, t) + LoggedAt([last], t)) + LoggedAt([x], t);
          == { FilterConcat(init, [last], AtTime(t)); }
          LoggedAt(init + [last], t) + LoggedAt([x], t);
        }
      } else {
        assert InsertByTime(s, x) == s + [x];
        FilterConcat(s, [x], AtTime(t));
      }
    }
  }

  /** The sort is stable: logs with equal timestamps keep their relative order. */
  lemma {:induction false} SortByTimeStable(s: seq<MedicationLog>, t: Timestamp)
    ensures LoggedAt(SortByTime(s), t) == LoggedAt(s, t)
    decreases |s|
  {
    if s == [] {
    } else {
      var init, last := s[..|s| - 1], s[|s| - 1];
      SortByTimeStable(init, t);
      InsertByTimeStable(SortByTime(init), last, t);
      assert s == init + [last];
      FilterConcat(init, [last], AtTime(t));
    }
  }

  /** Inserting `x` between the logs not later than it and the run of logs later than it. */
  lemma {:induction false} InsertByTimeAt(p: seq<MedicationLog>, x: MedicationLog, j: nat)
    requires j <= |p|
    requires forall k :: j <= k < |p| ==> TimeBefore(x.timestamp, p[k].timestamp)
    requires j > 0 ==> !TimeBefore(x.timestamp, p[j - 1].timestamp)
    ensures InsertByTime(p, x) == p[..j] + [x] + p[j..]
    decreases |p|
  {
    if j < |p| {
      var init, last := p[..|p| - 1], p[|p| - 1];
      assert InsertByTime(p, x) == InsertByTime(init, x) + [last] by {
        assert TimeBefore(x.timestamp, last.timestamp);
      }
      assert InsertByTime(init, x) == init[..j] + [x] + init[j..] by {
        assert forall k :: j <= k < |init| ==> init[k] == p[k];
        assert j > 0 ==> init[j - 1] == p[j - 1];
        InsertByTimeAt(init, x, j);
      }
      assert p[..j] + [x] + p[j..] == (init[..j] + [x] + init[j..]) + [last] by {
        assert init[..j] == p[..j];
        assert init[j..] + [last] == p[j..];
      }
    } else if p != [] {
      assert p[..j] == p && p[j..] == [];
    }
  }

  /** One pass of the insertion sort: the strictly later logs of the already ordered `a[..i]`
      shift right by one and `a[i]` drops into the gap; nothing beyond `i` changes. */
  method InsertInPlace(a: array<MedicationLog>, i: nat)
    requires i < a.Length
    modifies a
    ensures a[..i + 1] == InsertByTime(old(a[..i]), old(a[i]))
    ensures a[i + 1..] == old(a[i + 1..])
  {
    ghost var prefix := a[..i];
    ghost var suffix := a[i + 1..];
    var x := a[i];
    var j := i;
    while j > 0 && TimeBefore(x.timestamp, a[j - 1].timestamp)
      invariant 0 <= j <= i
      invariant forall k :: 0 <= k < j ==> a[k] == prefix[k]
      invariant forall k :: j < k <= i ==> a[k] == prefix[k - 1]
      invariant forall k :: i < k < a.Length ==> a[k] == old(a[k])
      invariant forall k :: j <= k < i ==> TimeBefore(x.timestamp, prefix[k].timestamp)
    {
      a[j] := a[j - 1];
      j := j - 1;
    }
    a[j] := x;
    InsertByTimeAt(prefix, x, j);
    PlacedAt(a[..i + 1], prefix, x, j);
    assert a[i + 1..] == suffix by {
      assert forall k :: 0 <= k < |suffix| ==> a[i + 1..][k] == a[i + 1 + k] == suffix[k];
    }
  }

  /** A sequence that agrees with `p` before `j`, holds `x` at `j` and then the rest of `p`
      shifted by one is `p` with `x` inserted at `j`. */
  lemma PlacedAt(c: seq<MedicationLog>, p: seq<MedicationLog>, x: MedicationLog, j: nat)
    requires |c| == |p| + 1 && j <= |p|
    requires forall k :: 0 <= k < j ==> c[k] == p[k]
    requires c[j] == x
    requires forall k :: j < k < |c| ==> c[k] == p[k - 1]
    ensures c == p[..j] + [x] + p[j..]
  {
  }

  /** Sorting one more element is one more insertion step. */
  lemma SortByTimeSnoc(s: seq<MedicationLog>, i: nat)
    requires i < |s|
    ensures SortByTime(s[..i + 1]) == InsertByTime(SortByTime(s[..i]), s[i])
  {
    assert s[..i + 1][..i] == s[..i];
  }

  /** `Array.prototype.sort` with the time comparator, run in place: a stable insertion sort. */
  method SortInPlace(a: array<MedicationLog>)
    modifies a
    ensures a[..] == SortByTime(old(a[..]))
  {
    ghost var orig := a[..];
    var i := 0;
    while i < a.Length
      invariant 0 <= i <= a.Length
      invariant a[..i] == SortByTime(orig[..i])
      invariant a[i..] == orig[i..]
    {
      assert a[i] == orig[i] && a[i + 1..] == orig[i + 1..] by {
        assert a[i..][0] == a[i] && a[i..][1..] == a[i + 1..];
        assert orig[i..][0] == orig[i] && orig[i..][1..] == orig[i + 1..];
      }
      InsertInPlace(a, i);
      SortByTimeSnoc(orig, i);
      i := i + 1;
    }
    assert orig[..a.Length] == orig;
  }

  /** `sortedLogs`: the selected day's logs, sorted in place on a fresh array. */
  method DisplayedLogs(logs: seq<MedicationLog>, date: Date, selectedUser: string) returns (r: seq<MedicationLog>)
    ensures r == SortByTime(LogsForDate(logs, date, selectedUser))
  {
    var selected := LogsForDate(logs, date, selectedUser);
    var a := new MedicationLog[|selected|](i requires 0 <= i < |selected| => selected[i]);
    assert a[..] == selected;
    SortInPlace(a);
    r := a[..];
  }

  /** Two logs by alice and one by bob on 2024-01-01: filtering on alice gives her two logs in
      time order, whatever order they were stored in. */
  lemma FilterByReporter()
    ensures var day := Date(2024, 1, 1);
      var late := MedicationLog("a2", "1", Timestamp(day, 21, 0), true, "Aspirin", "100mg", "alice@x.com");
      var early := MedicationLog("a1", "1", Timestamp(day, 9, 0), false, "Aspirin", "100mg", "alice@x.com");
      var bob := MedicationLog("b1", "2", Timestamp(day, 8, 0), true, "Vitamin D", "1000 IU", "bob@y.com");
      SortByTime(LogsForDate([late, bob, early], day, "alice@x.com")) == [early, late]
  {
    var day := Date(2024, 1, 1);
    var late := MedicationLog("a2", "1", Timestamp(day, 21, 0), true, "Aspirin", "100mg", "alice@x.com");
    var early := MedicationLog("a1", "1", Timestamp(day, 9, 0), false, "Aspirin", "100mg", "alice@x.com");
    var bob := MedicationLog("b1", "2", Timestamp(day, 8, 0), true, "Vitamin D", "1000 IU", "bob@y.com");
    var p := (l: MedicationLog) => Selected(l, day, "alice@x.com");
    assert !p(bob) by { assert bob.username[0] != 'a'; }
    assert [late, bob, early][1..] == [bob, early] && [bob, early][1..] == [early] && [early][1..] == [];
    assert Filter([early], p) == [early];
    assert Filter([late, bob, early], p) == [late, early];
    assert [late, early][..1] == [late];
    assert SortByTime([late]) == [late];
    assert InsertByTime([late], early) == [early, late];
  }

  /** Lexicographic order of strings by character (Unicode scalar value). The default `sort()`
      compares UTF-16 code units; the two agree unless a character above U+FFFF meets one in
      U+E000..U+FFFF at the first difference. */
  predicate StrBefore(a: string, b: string)
    decreases |a|
  {
    if a == [] then b != []
    else if b == [] then false
    else if a[0] != b[0] then a[0] < b[0]
    else StrBefore(a[1..], b[1..])
  }

  lemma {:induction false} StrBeforeIrreflexive(a: string)
    ensures !StrBefore(a, a)
    decreases |a|
  {
    if a != [] {
      StrBeforeIrreflexive(a[1..]);
    }
  }

  lemma {:induction false} StrBeforeTransitive(a: string, b: string, c: string)
    requires StrBefore(a, b) && StrBefore(b, c)
    ensures StrBefore(a, c)
    decreases |a|
  {
    if a != [] && b != [] && c != [] && a[0] == b[0] && b[0] == c[0] {
      StrBeforeTransitive(a[1..], b[1..], c[1..]);
    }
  }

  lemma {:induction false} StrBeforeTotal(a: string, b: string)
    ensures a == b || StrBefore(a, b) || StrBefore(b, a)
    decreases |a|
  {
    if a != [] && b != [] && a[0] == b[0] {
      StrBeforeTotal(a[1..], b[1..]);
      if a[1..] == b[1..] {
        assert a == [a[0]] + a[1..] && b == [b[0]] + b[1..];
      }
    }
  }

  /** Strictly ascending: sorted and free of duplicates. */
  ghost predicate StrictlySorted(s: seq<string>) {
    forall i, j :: 0 <= i < j < |s| ==> StrBefore(s[i], s[j])
  }

  /** Add `u` to a strictly ascending list of names, keeping it strictly ascending. */
  function InsertName(xs: seq<string>, u: string): (r: seq<string>)
    requires StrictlySorted(xs)
    ensures StrictlySorted(r)
    ensures forall x :: x in r <==> x in xs || x == u
  {
    if xs == [] then [u]
    else if u == xs[0] then xs
    else if StrBefore(u, xs[0]) then
      assert forall j :: 0 <= j < |xs| ==> StrBefore(u, xs[j]) by {
        forall j | 0 <= j < |xs| ensures StrBefore(u, xs[j]) {
          if j > 0 {
            StrBeforeTransitive(u, xs[0], xs[j]);
          }
        }
      }
      [u] + xs
    else
      StrBeforeTotal(u, xs[0]);
      var rest := InsertName(xs[1..], u);
      assert forall x :: x in rest ==> StrBefore(xs[0], x) by {
        forall x | x in rest ensures StrBefore(xs[0], x) {
          if x != u {
            var j :| 0 <= j < |xs[1..]| && xs[1..][j] == x;
            assert xs[j + 1] == x;
          }
        }
      }
      [xs[0]] + rest
  }

  /** Some log of `logs` was reported by `name`. */
  ghost predicate HasReporter(logs: seq<MedicationLog>, name: string) {
    exists i :: 0 <= i < |logs| && logs[i].username == name
  }

  /** `uniqueUsers`: the distinct reporter names of `logs`, in ascending order. */
  function UniqueUsers(logs: seq<MedicationLog>): (r: seq<string>)
    ensures StrictlySorted(r)
    ensures forall x :: x in r <==> HasReporter(logs, x)
    ensures forall i, j :: 0 <= i < j < |r| ==> r[i] != r[j]
  {
    if logs == [] then []
    else
      var init, last := logs[..|logs| - 1], logs[|logs| - 1];
      var r := InsertName(UniqueUsers(init), last.username);
      assert forall x :: HasReporter(logs, x) <==> HasReporter(init, x) || x == last.username by {
        forall x ensures HasReporter(logs, x) <==> HasReporter(init, x) || x == last.username {
          if HasReporter(init, x) {
            var i :| 0 <= i < |init| && init[i].username == x;
            assert logs[i].username == x;
          }
          if HasReporter(logs, x) && x != last.username {
            var i :| 0 <= i < |logs| && logs[i].username == x;
            assert init[i].username == x;
          }
        }
      }
      assert forall i, j :: 0 <= i < j < |r| ==> r[i] != r[j] by {
        forall i, j | 0 <= i < j < |r| ensures r[i] != r[j] {
          StrBeforeIrreflexive(r[i]);
        }
      }
      r
  }

  /** The first name of a strictly ascending list is the least of its elements. */
  lemma FirstIsLeast(a: seq<string>, b: seq<string>)
    requires StrictlySorted(a) && a != [] && b != []
    requires forall x :: x in a <==> x in b
    ensures !StrBefore(b[0], a[0])
  {
    assert b[0] in b;
    var j :| 0 <= j < |a| && a[j] == b[0];
    StrBeforeIrreflexive(a[0]);
    if j > 0 && StrBefore(b[0], a[0]) {
      StrBeforeTransitive(a[0], b[0], a[0]);
    }
  }

  lemma SameElementsBothEmpty(a: seq<string>, b: seq<string>)
    requires forall x :: x in a <==> x in b
    ensures a == [] <==> b == []
  {
    if a != [] {
      assert a[0] in b;
    }
    if b != [] {
      assert b[0] in a;
    }
  }

  /** A strictly ascending list is determined by its elements, so `uniqueUsers` is the one
      ascending, duplicate-free listing of the reporter names. */
  lemma {:induction false} StrictlySortedIsUnique(a: seq<string>, b: seq<string>)
    requires StrictlySorted(a) && StrictlySorted(b)
    requires forall x :: x in a <==> x in b
    ensures a == b
    decreases |a|
  {
    if a != [] && b != [] {
      FirstIsLeast(a, b);
      FirstIsLeast(b, a);
      StrBeforeTotal(a[0], b[0]);
      assert forall x :: x in a[1..] <==> x in b[1..] by {
        forall x ensures x in a[1..] <==> x in b[1..] {
          if x in a[1..] {
            var j :| 0 <= j < |a[1..]| && a[1..][j] == x;
            assert StrBefore(a[0], a[j + 1]);
            StrBeforeIrreflexive(x);
            assert x in b && x != b[0];
          }
          if x in b[1..] {
            var j :| 0 <= j < |b[1..]| && b[1..][j] == x;
            assert StrBefore(b[0], b[j + 1]);
            StrBeforeIrreflexive(x);
            assert x in a && x != a[0];
          }
        }
      }
      StrictlySortedIsUnique(a[1..], b[1..]);
      assert a == [a[0]] + a[1..] && b == [b[0]] + b[1..];
    } else {
      SameElementsBothEmpty(a, b);
    }
  }

  /** The component state of the history view: the selected day (at local midnight) and the
      person filter. */
  class HistoryView {
    var selectedDate: Date
    var selectedUser: string

    /** Today at 00:00, with every reporter shown. */
    constructor (today: Date)
      ensures selectedDate == today && selectedUser == AllUsers
    {
      selectedDate := today;
      selectedUser := AllUsers;
    }

    /** `goToPreviousDay`. */
    method GoToPreviousDay()
      modifies this
      ensures selectedDate == PrevDay(old(selectedDate)) && selectedUser == old(selectedUser)
    {
      selectedDate := PrevDay(selectedDate);
    }

    /** `goToNextDay`: the handler itself does not check for today. */
    method GoToNextDay()
      modifies this
      ensures selectedDate == NextDay(old(selectedDate)) && selectedUser == old(selectedUser)
    {
      selectedDate := NextDay(selectedDate);
    }

    /** The forward button is `disabled={isToday(selectedDate)}`. */
    predicate NextDisabled(today: Date)
      reads this
      ensures NextDisabled(today) <==> selectedDate == today
    {
      IsToday(selectedDate, today)
    }

    /** A press of the forward button: nothing happens while it is disabled. Starting from a
        day no later than today, the selection never passes today. */
    method PressNext(today: Date)
      modifies this
      ensures selectedDate == if IsToday(old(selectedDate), today) then old(selectedDate) else NextDay(old(selectedDate))
      ensures selectedUser == old(selectedUser)
      ensures ValidDate(old(selectedDate)) && ValidDate(today) && DateNotAfter(old(selectedDate), today)
        ==> ValidDate(selectedDate) && DateNotAfter(selectedDate, today)
    {
      if !NextDisabled(today) {
        if ValidDate(selectedDate) && ValidDate(today) && DateNotAfter(selectedDate, today) {
          NextDayIsSuccessor(selectedDate, today);
        }
        GoToNextDay();
      }
    }

    /** The person filter's `onChange`. */
    method SelectUser(user: string)
      modifies this
      ensures selectedUser == user && selectedDate == old(selectedDate)
    {
      selectedUser := user;
    }
  }

  /** Going back one day from today and then pressing forward returns to today, and pressing
      forward on today stays on today. */
  lemma NavigationStopsAtToday(today: Date)
    requires ValidDate(today)
    ensures NextDay(PrevDay(today)) == today
    ensures !IsToday(PrevDay(today), today)
  {
    NextPrevInverse(today);
  }
}
