/** The lessons of one day: the flags the server adds to each fetched lesson,
    the fallback lessons used when the fetch fails, the sort by start time and
    the fields added for the dashboard page. */
module Timetable {
  import opened Outcomes
  import opened Presentation

  /** One element of a lesson's subject, teacher or room list; only its name is used. */
  datatype Entry = Entry(name: string)

  /** A lesson record as the school-information API delivers it. Start and end
      are HHMM clock values; an absent substitution or info text is "". */
  datatype Lesson = Lesson(
    id: int,
    startTime: nat,
    endTime: nat,
    subjects: seq<Entry>,
    teachers: seq<Entry>,
    rooms: seq<Entry>,
    code: string,
    substText: string,
    info: string)

  /** A lesson with the two flags the timetable fetch adds; every other field
      is the lesson's own. A flag the record lacks reads as false. */
  datatype FlaggedLesson = FlaggedLesson(lesson: Lesson, isCancelled: bool, isChanged: bool)

  /** A lesson as the dashboard page shows it. */
  datatype DisplayLesson = DisplayLesson(
    entry: FlaggedLesson,
    isCurrentLesson: bool,
    formattedStartTime: string,
    formattedEndTime: string,
    teacherName: string)

  function Flag(l: Lesson): FlaggedLesson
  {
    FlaggedLesson(l, l.code == "cancelled", l.substText != "" || l.info != "")
  }

  function FlagAll(lessons: seq<Lesson>): seq<FlaggedLesson>
  {
    seq(|lessons|, i requires 0 <= i < |lessons| => Flag(lessons[i]))
  }

  /** The four lessons shown when the timetable fetch fails. */
  function MockTimetable(): seq<Lesson>
  {
    [ Lesson(1, 800, 845, [Entry("Mathematik")], [Entry("Herr Müller")], [Entry("R101")], "", "", ""),
      Lesson(2, 855, 940, [Entry("Deutsch")], [Entry("Frau Schmidt")], [Entry("R102")], "", "", ""),
      Lesson(3, 955, 1040, [Entry("Englisch")], [Entry("Herr Weber")], [Entry("R103")], "cancelled", "", "Lehrkraft krank"),
      Lesson(4, 1050, 1135, [Entry("Physik")], [Entry("Frau Becker")], [Entry("R104")], "",
             "Vertretung durch Herrn Schulz", "Raumänderung") ]
  }

  /** Fetching the timetable: when no API client object exists and creating one
      and logging in fails, the fetch throws (`None`). Otherwise every lesson, fetched or
      from the fallback list, is flagged cancelled exactly when its code is
      "cancelled" and changed exactly when it has a substitution or info text,
      and keeps all its other fields. */
  function FetchTimetable(clientReady: bool, response: Fetch<seq<Lesson>>): (r: Option<seq<FlaggedLesson>>)
    ensures r.None? <==> !clientReady
    ensures r.Some? ==>
      var source := if response.Fetched? then response.data else MockTimetable();
      |r.value| == |source| &&
      forall i :: 0 <= i < |source| ==>
        r.value[i].lesson == source[i] &&
        (r.value[i].isCancelled <==> source[i].code == "cancelled") &&
        (r.value[i].isChanged <==> source[i].substText != "" || source[i].info != "")
  {
    if !clientReady then None
    else if response.Fetched? then Some(FlagAll(response.data))
    else Some(FlagAll(MockTimetable()))
  }

  /** The fetch as the server writes it: the fallback lessons are returned
      without the two flags. */
  function FetchTimetableAsWritten(clientReady: bool, response: Fetch<seq<Lesson>>): (r: Option<seq<FlaggedLesson>>)
    ensures r.None? <==> !clientReady
    ensures clientReady && response.Fetched? ==> r == FetchTimetable(clientReady, response)
    ensures clientReady && response.FetchFailed? ==>
      r.Some? && |r.value| == |MockTimetable()| &&
      forall i :: 0 <= i < |r.value| ==>
        r.value[i].lesson == MockTimetable()[i] && !r.value[i].isCancelled && !r.value[i].isChanged
  {
    if !clientReady then None
    else if response.Fetched? then Some(FlagAll(response.data))
    else
      var mock := MockTimetable();
      Some(seq(|mock|, i requires 0 <= i < |mock| => FlaggedLesson(mock[i], false, false)))
  }

  /** The discrepancy: after a failed fetch the third fallback lesson has code
      "cancelled" and the fourth a substitution text, yet as written neither is
      flagged; the corrected fetch flags both. */
  lemma FallbackFlagsMissing()
    ensures var written := FetchTimetableAsWritten(true, FetchFailed).value;
      written[2].lesson.code == "cancelled" && !written[2].isCancelled &&
      written[3].lesson.substText != "" && !written[3].isChanged
    ensures var corrected := FetchTimetable(true, FetchFailed).value;
      corrected[2].isCancelled && corrected[3].isChanged &&
      !corrected[0].isCancelled && !corrected[0].isChanged
  {
  }

  // ---------------------------------------------------------------------------
  // Sorting by start time.

  predicate SortedByStart(s: seq<FlaggedLesson>)
  {
    forall i, j :: 0 <= i < j < |s| ==> s[i].lesson.startTime <= s[j].lesson.startTime
  }

  /** Sorts the lessons in place by ascending start time. */
  method SortByStartTime(a: array<FlaggedLesson>)
    modifies a
    ensures SortedByStart(a[..])
    ensures multiset(a[..]) == multiset(old(a[..]))
  {
    if a.Length == 0 {
      return;
    }
    var i := 1;
    while i < a.Length
      invariant 1 <= i <= a.Length
      invariant SortedByStart(a[..i])
      invariant multiset(a[..]) == multiset(old(a[..]))
    {
      InsertIntoSorted(a, i);
      i := i + 1;
    }
    assert a[..] == a[..a.Length];
  }

  /** Moves `a[i]` left past every lesson starting later, so that the first
      `i + 1` lessons are sorted. */
  method InsertIntoSorted(a: array<FlaggedLesson>, i: nat)
    requires i < a.Length && SortedByStart(a[..i])
    modifies a
    ensures SortedByStart(a[..i + 1])
    ensures a[i + 1..] == old(a[i + 1..])
    ensures multiset(a[..]) == multiset(old(a[..]))
  {
    var j := i;
    while j > 0 && a[j - 1].lesson.startTime > a[j].lesson.startTime
      invariant 0 <= j <= i
      invariant forall p, q :: 0 <= p < q <= i && p != j && q != j ==> a[p].lesson.startTime <= a[q].lesson.startTime
      invariant forall q :: j < q <= i ==> a[j].lesson.startTime < a[q].lesson.startTime
      invariant a[i + 1..] == old(a[i + 1..])
      invariant multiset(a[..]) == multiset(old(a[..]))
    {
      SwapWithPrevious(a, j);
      j := j - 1;
    }
  }

  method SwapWithPrevious(a: array<FlaggedLesson>, j: nat)
    requires 0 < j < a.Length
    modifies a
    ensures a[j - 1] == old(a[j]) && a[j] == old(a[j - 1])
    ensures forall k :: 0 <= k < a.Length && k != j - 1 && k != j ==> a[k] == old(a[k])
    ensures multiset(a[..]) == multiset(old(a[..]))
  {
    a[j - 1], a[j] := a[j], a[j - 1];
  }

  /** `[...timetable].sort(...)`: the lessons sorted in a fresh copy, so that the
      fetched list itself is left as it was. */
  method SortedCopy(timetable: seq<FlaggedLesson>) returns (sorted: seq<FlaggedLesson>)
    ensures SortedByStart(sorted)
    ensures multiset(sorted) == multiset(timetable)
  {
    var a := new FlaggedLesson[|timetable|](i requires 0 <= i < |timetable| => timetable[i]);
    assert a[..] == timetable;
    SortByStartTime(a);
    sorted := a[..];
  }

  function StartTimes(s: seq<FlaggedLesson>): (times: seq<nat>)
    ensures |times| == |s|
  {
    seq(|s|, i requires 0 <= i < |s| => s[i].lesson.startTime)
  }

  predicate Ascending(s: seq<nat>)
  {
    forall i, j :: 0 <= i < j < |s| ==> s[i] <= s[j]
  }

  /** Taking one lesson out takes its start time out. */
  lemma StartTimesRemoveAt(t: seq<FlaggedLesson>, k: nat)
    requires k < |t|
    ensures multiset(StartTimes(t[..k] + t[k + 1..])) == multiset(StartTimes(t)) - multiset{t[k].lesson.startTime}
  {
    var rest := t[..k] + t[k + 1..];
    var times := StartTimes(t);
    assert forall i :: 0 <= i < |rest| ==> rest[i] == if i < k then t[i] else t[i + 1];
    assert StartTimes(rest) == times[..k] + times[k + 1..];
    RemoveAt(times, k);
  }

  lemma RemoveAt<T>(t: seq<T>, k: nat)
    requires k < |t|
    ensures multiset(t[..k] + t[k + 1..]) == multiset(t) - multiset{t[k]}
  {
    assert t == t[..k] + [t[k]] + t[k + 1..];
  }

  lemma RestoreRemoved(m: multiset<nat>, n: multiset<nat>, x: nat)
    requires x in m && x in n && m - multiset{x} == n - multiset{x}
    ensures m == n
  {
    forall y
      ensures m[y] == n[y]
    {
      assert (m - multiset{x})[y] == (n - multiset{x})[y];
    }
  }

  lemma IndexOf<T>(t: seq<T>, x: T) returns (k: nat)
    requires x in multiset(t)
    ensures k < |t| && t[k] == x
  {
    assert x in t;
    k :| 0 <= k < |t| && t[k] == x;
  }

  /** Reordering the lessons reorders their start times. */
  lemma {:induction false} StartTimesPermutation(s: seq<FlaggedLesson>, t: seq<FlaggedLesson>)
    requires multiset(s) == multiset(t)
    ensures multiset(StartTimes(s)) == multiset(StartTimes(t))
    decreases |s|
  {
    if s == [] {
      assert |t| == |multiset(t)| == 0;
      assert StartTimes(s) == StartTimes(t) == [];
    } else {
      var k := IndexOf(t, s[0]);
      RemoveAt(t, k);
      RemoveAt(s, 0);
      assert s[..0] + s[1..] == s[1..];
      StartTimesPermutation(s[1..], t[..k] + t[k + 1..]);
      StartTimesMatchedHead(s, t, k);
    }
  }

  /** If the rest of `s` and `t` without its `k`-th lesson have the same start
      times, and that lesson is the head of `s`, then so do `s` and `t`. */
  lemma StartTimesMatchedHead(s: seq<FlaggedLesson>, t: seq<FlaggedLesson>, k: nat)
    requires 0 < |s| && k < |t| && t[k] == s[0]
    requires multiset(StartTimes(s[1..])) == multiset(StartTimes(t[..k] + t[k + 1..]))
    ensures multiset(StartTimes(s)) == multiset(StartTimes(t))
  {
    StartTimesRemoveAt(t, k);
    StartTimesRemoveAt(s, 0);
    assert s[..0] + s[1..] == s[1..];
    RestoreRemoved(multiset(StartTimes(s)), multiset(StartTimes(t)), s[0].lesson.startTime);
  }

  /** Two ascending sequences holding the same numbers are equal. */
  lemma {:induction false} AscendingPermutationsEqual(a: seq<nat>, b: seq<nat>)
    requires Ascending(a) && Ascending(b)
    requires multiset(a) == multiset(b)
    ensures a == b
    decreases |a|
  {
    if a == [] {
      assert |multiset(b)| == 0;
    } else {
      assert |b| == |multiset(b)| == |a|;
      assert a[0] in multiset(b);
      assert b[0] in multiset(a);
      assert a[0] in b && b[0] in a;
      assert b[0] <= a[0] && a[0] <= b[0];
      assert a[0] == b[0];
      assert a == [a[0]] + a[1..] && b == [b[0]] + b[1..];
      assert multiset(a[1..]) == multiset(a) - multiset{a[0]};
      assert multiset(b[1..]) == multiset(b) - multiset{b[0]};
      AscendingPermutationsEqual(a[1..], b[1..]);
    }
  }

  /** Sorting fixes the order of start times: any two sorted arrangements of the
      same lessons have the same sequence of start times. */
  lemma SortedStartTimesDetermined(s: seq<FlaggedLesson>, t: seq<FlaggedLesson>)
    requires SortedByStart(s) && SortedByStart(t)
    requires multiset(s) == multiset(t)
    ensures StartTimes(s) == StartTimes(t)
  {
    StartTimesPermutation(s, t);
    AscendingPermutationsEqual(StartTimes(s), StartTimes(t));
  }

  /** The fallback lessons, in whatever order they come and whether or not they
      carry their flags, are shown at 08:00, 08:55, 09:55 and 10:50, in that order. */
  lemma MockSortsAscending(shown: seq<FlaggedLesson>)
    requires SortedByStart(shown)
    requires multiset(shown) == multiset(FetchTimetableAsWritten(true, FetchFailed).value) ||
             multiset(shown) == multiset(FetchTimetable(true, FetchFailed).value)
    ensures StartTimes(shown) == [800, 855, 955, 1050]
  {
    var written := FetchTimetableAsWritten(true, FetchFailed).value;
    var corrected := FetchTimetable(true, FetchFailed).value;
    if multiset(shown) == multiset(written) {
      assert StartTimes(written) == [800, 855, 955, 1050];
      SortedStartTimesDetermined(shown, written);
    } else {
      assert StartTimes(corrected) == [800, 855, 955, 1050];
      SortedStartTimesDetermined(shown, corrected);
    }
  }

  // ---------------------------------------------------------------------------
  // The fields the dashboard page adds.

  /** A lesson is running at `now` (minutes since midnight) from its start
      minute up to, but not including, its end minute. */
  predicate IsCurrentLesson(l: Lesson, now: int)
  {
    ClockMinutes(l.startTime) <= now < ClockMinutes(l.endTime)
  }

  /** The running test in plain arithmetic on the HHMM values. */
  lemma CurrentLessonHalfOpen(l: Lesson, now: int)
    requires l.startTime <= 9999 && l.endTime <= 9999
    ensures IsCurrentLesson(l, now) <==>
      (l.startTime / 100) * 60 + l.startTime % 100 <= now < (l.endTime / 100) * 60 + l.endTime % 100
  {
    ClockMinutesArithmetic(l.startTime);
    ClockMinutesArithmetic(l.endTime);
  }

  /** A lesson with valid clock values that starts before it ends is running
      at its first minute and no longer at its end minute. */
  lemma CurrentAtStartNotAtEnd(l: Lesson)
    requires IsClock(l.startTime) && IsClock(l.endTime) && l.startTime < l.endTime
    ensures IsCurrentLesson(l, ClockMinutes(l.startTime))
    ensures !IsCurrentLesson(l, ClockMinutes(l.endTime))
  {
    ClockMinutesOrdered(l.startTime, l.endTime);
  }

  /** The teacher shown for a lesson: its first teacher's name resolved through
      the table, or "Unbekannt" when the lesson has no teacher. */
  function TeacherName(teacherNames: map<string, string>, l: Lesson): (name: string)
    ensures l.teachers == [] ==> name == "Unbekannt"
    ensures l.teachers != [] ==> name == ResolveTeacher(teacherNames, l.teachers[0].name)
  {
    if |l.teachers| > 0 then ResolveTeacher(teacherNames, l.teachers[0].name) else "Unbekannt"
  }

  function Display(e: FlaggedLesson, teacherNames: map<string, string>, now: int): DisplayLesson
  {
    DisplayLesson(
      e,
      IsCurrentLesson(e.lesson, now),
      FormatTime(e.lesson.startTime),
      FormatTime(e.lesson.endTime),
      TeacherName(teacherNames, e.lesson))
  }

  function Entries(shown: seq<DisplayLesson>): (entries: seq<FlaggedLesson>)
    ensures |entries| == |shown|
  {
    seq(|shown|, i requires 0 <= i < |shown| => shown[i].entry)
  }

  /** The dashboard's lesson list: the fetched lessons sorted by start time,
      each with its running flag for the wall-clock time `hour`:`minute`, its
      formatted start and end and its teacher's display name. */
  method DashboardTimetable(timetable: seq<FlaggedLesson>, teacherNames: map<string, string>, hour: nat, minute: nat)
    returns (shown: seq<DisplayLesson>)
    ensures multiset(Entries(shown)) == multiset(timetable)
    ensures SortedByStart(Entries(shown))
    ensures forall i :: 0 <= i < |shown| ==>
      var l := shown[i].entry.lesson;
      (shown[i].isCurrentLesson <==> ClockMinutes(l.startTime) <= hour * 60 + minute < ClockMinutes(l.endTime)) &&
      shown[i].formattedStartTime == FormatTime(l.startTime) &&
      shown[i].formattedEndTime == FormatTime(l.endTime) &&
      shown[i].teacherName == TeacherName(teacherNames, l)
  {
    var sorted := SortedCopy(timetable);
    var now := hour * 60 + minute;
    shown := seq(|sorted|, i requires 0 <= i < |sorted| => Display(sorted[i], teacherNames, now));
    assert Entries(shown) == sorted;
  }
}
