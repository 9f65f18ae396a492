/**
  The weekly overview: one column per weekday, Monday to Friday, each listing the
  subjects scheduled that day in order of their start time. Subjects with the
  same start time keep their list order (the sort is stable).
*/
module Weekly {
  import opened Text
  import opened Schedule
  import StableSort
  import TimeRange

  /** A subject shows in a day's column when the day is selected and has a time. */
  predicate ShownOn(s: Subject, day: Day) {
    day in s.frequency.selectedDays && s.times.Get(day) != ""
  }

  /** `subjects.filter(subject => selectedDays.includes(day) && subject.times[day])`. */
  function Scheduled(subjects: seq<Subject>, day: Day): (r: seq<Subject>)
    ensures |r| <= |subjects|
    ensures forall s :: s in r ==> ShownOn(s, day)
  {
    if |subjects| == 0 then []
    else (if ShownOn(subjects[0], day) then [subjects[0]] else []) + Scheduled(subjects[1..], day)
  }

  /** The filter keeps exactly the subjects shown on the day. */
  lemma {:induction false} ScheduledExactly(subjects: seq<Subject>, day: Day, s: Subject)
    ensures s in Scheduled(subjects, day) <==> s in subjects && ShownOn(s, day)
  {
    if |subjects| > 0 {
      ScheduledExactly(subjects[1..], day, s);
      assert subjects == [subjects[0]] + subjects[1..];
    }
  }

  // ---------------------------------------------------------------------------
  // The order `localeCompare` gives clock times
  // ---------------------------------------------------------------------------

  /** One character of a collation key. Under the root collation `localeCompare`
      uses, punctuation sorts before digits, so ':' comes before every digit
      while the digits keep their own order. Swapping ':' with '/', the character
      just below '0', makes code-point order on keys follow that rule. */
  function CollationChar(c: char): (k: char)
    ensures IsDigit(c) ==> k == c
    ensures c == ':' ==> k < '0'
  {
    if c == ':' then '/' else if c == '/' then ':' else c
  }

  /** The key a time is sorted by: on text made of digits and ':' (every time
      the importer, the quick adder and the time input produce) the code-point
      order of keys is `localeCompare`'s order of the times. */
  function CollationKey(s: string): (k: string)
    ensures |k| == |s|
    ensures forall i :: 0 <= i < |s| ==> k[i] == CollationChar(s[i])
  {
    seq(|s|, i requires 0 <= i < |s| => CollationChar(s[i]))
  }

  /** Different times have different keys, so ties in the sort are exactly
      equal times. */
  lemma CollationKeyInjective(a: string, b: string)
    ensures CollationKey(a) == CollationKey(b) ==> a == b
  {
    if CollationKey(a) == CollationKey(b) {
      forall i | 0 <= i < |a| ensures a[i] == b[i] {
        assert CollationChar(a[i]) == CollationKey(a)[i] == CollationKey(b)[i] == CollationChar(b[i]);
      }
    }
  }

  /** The sort key of a day's column: the collation key of the subject's time on
      that day. */
  function TimeKey(day: Day): Subject -> string {
    (s: Subject) => CollationKey(s.times.Get(day))
  }

  /** `getSubjectsForDay(day)`: the day's subjects sorted by their time that day. */
  function SubjectsForDay(subjects: seq<Subject>, day: Day): (r: seq<Subject>)
    ensures multiset(r) == multiset(Scheduled(subjects, day))
  {
    StableSort.Sort(Scheduled(subjects, day), TimeKey(day))
  }

  /** A day's column holds exactly the subjects shown on that day, each as often as
      in the list, ordered by start time as `localeCompare` orders it, with equal
      times in list order. */
  lemma SubjectsForDaySpec(subjects: seq<Subject>, day: Day, s: Subject, k: string)
    ensures s in SubjectsForDay(subjects, day) <==> s in subjects && ShownOn(s, day)
    ensures StableSort.Sorted(SubjectsForDay(subjects, day), TimeKey(day))
    ensures StableSort.WithKey(SubjectsForDay(subjects, day), TimeKey(day), k)
         == StableSort.WithKey(Scheduled(subjects, day), TimeKey(day), k)
  {
    var f := Scheduled(subjects, day);
    ScheduledExactly(subjects, day, s);
    assert s in SubjectsForDay(subjects, day) <==> s in multiset(f);
    StableSort.SortIsSorted(f, TimeKey(day));
    StableSort.SortIsStable(f, TimeKey(day), k);
  }

  /** The five columns, Monday first. */
  function Columns(subjects: seq<Subject>): (cols: seq<seq<Subject>>)
    ensures |cols| == |Week|
  {
    seq(|Week|, i requires 0 <= i < |Week| => SubjectsForDay(subjects, Week[i]))
  }

  /** A consistent subject on the list shows in exactly the columns of its
      selected days. */
  lemma ConsistentSubjectColumns(subjects: seq<Subject>, s: Subject, i: nat)
    requires s in subjects && Consistent(s) && i < |Week|
    ensures s in Columns(subjects)[i] <==> Week[i] in s.frequency.selectedDays
  {
    SubjectsForDaySpec(subjects, Week[i], s, "");
  }

  // ---------------------------------------------------------------------------
  // What the order means for clock times
  // ---------------------------------------------------------------------------

  lemma TwoDigitValue(s: string)
    requires |s| == 2 && AllDigits(s)
    ensures ParseDigits(s) == DigitValue(s[0]) * 10 + DigitValue(s[1])
  {
    assert s[..1][..0] == [];
    assert ParseDigits(s[..1]) == DigitValue(s[0]);
  }

  /** The five key characters of a two-digit-hour time. */
  lemma PaddedKey(c: TimeRange.Clock)
    requires c.Valid() && |c.hour| == 2
    ensures var k := CollationKey(c.Text());
      && |k| == 5 && k[0] == c.hour[0] && k[1] == c.hour[1] && k[2] == '/'
      && k[3] == c.minute[0] && k[4] == c.minute[1]
  {
    var t := c.Text();
    assert t[0] == c.hour[0] && t[1] == c.hour[1] && t[2] == ':' && t[3] == c.minute[0] && t[4] == c.minute[1];
  }

  /** Times with a two-digit hour ("HH:MM", as the time input writes them) are
      listed in clock order: the earlier hour first, then the earlier minute. */
  lemma PaddedTimesInClockOrder(a: TimeRange.Clock, b: TimeRange.Clock)
    requires a.Valid() && b.Valid() && |a.hour| == 2 && |b.hour| == 2
    ensures LexLess(CollationKey(a.Text()), CollationKey(b.Text())) <==>
      || ParseDigits(a.hour) < ParseDigits(b.hour)
      || (ParseDigits(a.hour) == ParseDigits(b.hour) && ParseDigits(a.minute) < ParseDigits(b.minute))
  {
    var ka, kb := CollationKey(a.Text()), CollationKey(b.Text());
    PaddedKey(a);
    PaddedKey(b);
    TwoDigitValue(a.hour);
    TwoDigitValue(b.hour);
    TwoDigitValue(a.minute);
    TwoDigitValue(b.minute);
    if ka[0] != kb[0] {
      LexLessAtFirstDifference(ka, kb, 0);
    } else if ka[1] != kb[1] {
      assert ka[..1] == kb[..1];
      LexLessAtFirstDifference(ka, kb, 1);
    } else if ka[3] != kb[3] {
      assert ka[..3] == kb[..3];
      LexLessAtFirstDifference(ka, kb, 3);
    } else if ka[4] != kb[4] {
      assert ka[..4] == kb[..4];
      LexLessAtFirstDifference(ka, kb, 4);
    } else {
      assert ka == kb;
      LexLessIrreflexive(ka);
    }
  }

  /** An unpadded hour does not sort by the clock. An imported "1:30" is listed
      before "10:00", because ':' sorts before '0', while plain code-point order
      would put "10:00" first. An imported 9 AM lesson ("9:00") is listed after a
      1:30 PM one ("13:30"). */
  lemma UnpaddedHoursOrder()
    ensures LexLess(CollationKey("1:30"), CollationKey("10:00"))
    ensures LexLess("10:00", "1:30")
    ensures LexLess(CollationKey("13:30"), CollationKey("9:00"))
  {
    var k1, k2 := CollationKey("1:30"), CollationKey("10:00");
    assert k1[..1] == k2[..1];
    LexLessAtFirstDifference(k1, k2[..4], 1);
    assert LexLess(k1, k2);
  }
}
