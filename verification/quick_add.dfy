/**
  The quick subject adder: pick subject names, one time and some weekdays, then
  build one subject per picked name. Also its `formatTime`, which shows a 24-hour
  "HH:MM" time on the 12-hour clock.
*/
module QuickAdd {
  import opened Wrappers
  import opened Text
  import opened Schedule
  import TimeRange

  /** The adder's local state. */
  datatype QuickState = QuickState(
    subjects: seq<string>,   // `selectedSubjects`
    time: string,            // `selectedTime`
    days: seq<Day>,          // `selectedDays`
    custom: string)          // `customSubject`, the text box

  const Start: QuickState := QuickState([], "", [], "")

  /** `prev.filter(y => y !== x)`. */
  function Without<T(==,!new)>(s: seq<T>, x: T): (r: seq<T>)
    ensures x !in r
    ensures forall y :: y != x ==> (y in r <==> y in s)
    ensures |r| <= |s|
  {
    if |s| == 0 then []
    else (if s[0] == x then [] else [s[0]]) + Without(s[1..], x)
  }

  /** Removing from a list without duplicates keeps it without duplicates. */
  lemma {:induction false} WithoutKeepsDistinct<T(!new)>(s: seq<T>, x: T)
    requires NoDuplicates(s)
    ensures NoDuplicates(Without(s, x))
  {
    if |s| > 0 {
      WithoutKeepsDistinct(s[1..], x);
      var rest := Without(s[1..], x);
      assert s[0] !in s[1..];
    }
  }

  /** Removing an absent item changes nothing. */
  lemma {:induction false} WithoutAbsent<T(!new)>(s: seq<T>, x: T)
    requires x !in s
    ensures Without(s, x) == s
  {
    if |s| > 0 {
      WithoutAbsent(s[1..], x);
      assert s == [s[0]] + s[1..];
    }
  }

  /** `toggleSubject` / `toggleDay`: drop a present item, append an absent one. */
  function Toggle<T(==,!new)>(s: seq<T>, x: T): (r: seq<T>)
    ensures x in r <==> x !in s
    ensures forall y :: y != x ==> (y in r <==> y in s)
    ensures x !in s ==> r == s + [x]
  {
    if x in s then Without(s, x) else s + [x]
  }

  /** Toggling keeps a list free of duplicates. */
  lemma ToggleKeepsDistinct<T(!new)>(s: seq<T>, x: T)
    requires NoDuplicates(s)
    ensures NoDuplicates(Toggle(s, x))
  {
    if x in s {
      WithoutKeepsDistinct(s, x);
    }
  }

  /** Selecting and then deselecting an item gives back the list it started
      from; deselecting and reselecting restores which items are selected. */
  lemma ToggleTwice<T(!new)>(s: seq<T>, x: T)
    ensures x !in s ==> Toggle(Toggle(s, x), x) == s
    ensures forall y :: y in Toggle(Toggle(s, x), x) <==> y in s
  {
    if x !in s {
      var t := s + [x];
      assert x in t;
      WithoutAbsent(s, x);
      WithoutAppend(s, x);
    }
  }

  lemma {:induction false} WithoutAppend<T(!new)>(s: seq<T>, x: T)
    ensures Without(s + [x], x) == Without(s, x)
  {
    if |s| == 0 {
      assert Without([x], x) == [] + Without([], x);
    } else {
      assert (s + [x])[1..] == s[1..] + [x];
      WithoutAppend(s[1..], x);
    }
  }

  lemma WithoutCons<T(!new)>(y: T, t: seq<T>, x: T)
    ensures Without([y] + t, x) == (if y == x then [] else [y]) + Without(t, x)
  {
    assert ([y] + t)[0] == y;
    assert ([y] + t)[1..] == t;
  }

  /** Removing keeps the order of what remains: the filter distributes over
      concatenation. */
  lemma {:induction false} WithoutConcat<T(!new)>(a: seq<T>, b: seq<T>, x: T)
    ensures Without(a + b, x) == Without(a, x) + Without(b, x)
  {
    if |a| == 0 {
      assert a + b == b;
    } else {
      var p := if a[0] == x then [] else [a[0]];
      var a' := a[1..];
      var u, v := Without(a', x), Without(b, x);
      calc {
        Without(a + b, x);
        { assert a + b == [a[0]] + (a' + b); }
        Without([a[0]] + (a' + b), x);
        { WithoutCons(a[0], a' + b, x); }
        p + Without(a' + b, x);
        { WithoutConcat(a', b, x); }
        p + (u + v);
        (p + u) + v;
        { assert a == [a[0]] + a'; WithoutCons(a[0], a', x); }
        Without(a, x) + v;
      }
    }
  }

  /** Deselecting an item closes the gap it leaves: the others keep their order. */
  lemma ToggleOffKeepsOrder<T(!new)>(a: seq<T>, b: seq<T>, x: T)
    requires x !in a && x !in b
    ensures Toggle(a + [x] + b, x) == a + b
  {
    var s := a + [x] + b;
    assert s[|a|] == x;
    calc {
      Toggle(s, x);
      Without(s, x);
      { WithoutConcat(a + [x], b, x); }
      Without(a + [x], x) + Without(b, x);
      { WithoutAppend(a, x); }
      Without(a, x) + Without(b, x);
      { WithoutAbsent(a, x); WithoutAbsent(b, x); }
      a + b;
    }
  }

  function ToggleSubject(st: QuickState, name: string): QuickState {
    st.(subjects := Toggle(st.subjects, name))
  }

  function ToggleDay(st: QuickState, d: Day): QuickState {
    st.(days := Toggle(st.days, d))
  }

  /** `addCustomSubject`: the trimmed text joins the selection, and the box is
      cleared, only when it is non-blank and not selected yet; otherwise nothing
      changes. */
  function AddCustomSubject(st: QuickState): (r: QuickState)
    ensures var t := Trim(st.custom);
      t != "" && t !in st.subjects ==>
        && |r.subjects| == |st.subjects| + 1
        && r.subjects[..|st.subjects|] == st.subjects
        && r.subjects[|st.subjects|] == t
        && Trim(r.subjects[|st.subjects|]) == r.subjects[|st.subjects|]
        && r.custom == "" && r.time == st.time && r.days == st.days
    ensures var t := Trim(st.custom);
      t == "" || t in st.subjects ==> r == st
  {
    var t := Trim(st.custom);
    if t != "" && t !in st.subjects then
      var subjects := st.subjects + [t];
      assert subjects[..|st.subjects|] == st.subjects;
      TrimIdempotent(st.custom);
      st.(subjects := subjects, custom := "")
    else st
  }

  /** The adder's selections never repeat an item. */
  predicate Distinct(st: QuickState) {
    NoDuplicates(st.subjects) && NoDuplicates(st.days)
  }

  /** Every handler keeps the selections duplicate-free. */
  lemma HandlersKeepDistinct(st: QuickState, name: string, d: Day)
    requires Distinct(st)
    ensures Distinct(ToggleSubject(st, name))
    ensures Distinct(ToggleDay(st, d))
    ensures Distinct(AddCustomSubject(st))
  {
    ToggleKeepsDistinct(st.subjects, name);
    ToggleKeepsDistinct(st.days, d);
    AppendFreshKeepsDistinct(st.subjects, Trim(st.custom));
  }

  lemma AppendFreshKeepsDistinct<T>(s: seq<T>, x: T)
    requires NoDuplicates(s)
    ensures x !in s ==> NoDuplicates(s + [x])
  {
    if x !in s {
      var r := s + [x];
      forall i, j | 0 <= i < j < |r| ensures r[i] != r[j] {
        if j == |s| {
          assert r[i] == s[i];
        } else {
          assert r[i] == s[i] && r[j] == s[j];
        }
      }
    }
  }

  /** The subject built for one picked name. */
  function Built(st: QuickState, id: string, name: string): Subject {
    Subject(id, name, TimesOn(st.days, st.time), NoResources, Frequency(|st.days|, st.days), "", "")
  }

  /** `createSubjects`: nothing (after an alert) unless a time, at least one day
      and at least one subject are selected; then one subject per selected name,
      in selection order, the i-th getting `uuid(i)`. When `crypto.randomUUID()`
      throws (`uuidAvailable` false) the first call inside the `map` ends the
      handler before `onAdd`, so nothing is created either. */
  function CreateSubjects(st: QuickState, uuidAvailable: bool, uuid: nat -> string): (r: Option<seq<Subject>>)
    ensures r.None? <==> st.time == "" || st.days == [] || st.subjects == [] || !uuidAvailable
    ensures r.Some? ==> |r.value| == |st.subjects|
    ensures r.Some? ==> forall i :: 0 <= i < |r.value| ==>
      && r.value[i].id == uuid(i)
      && r.value[i].name == st.subjects[i]
      && (forall d :: r.value[i].times.Get(d) == (if d in st.days then st.time else ""))
      && r.value[i].frequency == Frequency(|st.days|, st.days)
      && r.value[i].resources == NoResources
  {
    if st.time == "" || |st.days| == 0 || |st.subjects| == 0 then None
    else if !uuidAvailable then None
    else Some(seq(|st.subjects|, i requires 0 <= i < |st.subjects| => Built(st, uuid(i), st.subjects[i])))
  }

  /** With duplicate-free days, every created subject is consistent: its days are
      distinct, counted by `daysPerWeek`, and timed on exactly those days. */
  lemma CreatedSubjectsAreConsistent(st: QuickState, uuidAvailable: bool, uuid: nat -> string)
    requires Distinct(st)
    requires CreateSubjects(st, uuidAvailable, uuid).Some?
    ensures forall s :: s in CreateSubjects(st, uuidAvailable, uuid).value ==> Consistent(s)
  {
  }

  // ---------------------------------------------------------------------------
  // formatTime
  // ---------------------------------------------------------------------------

  /** The hour shown on the 12-hour clock: `hour > 12 ? hour - 12 : hour === 0 ? 12 : hour`. */
  function DisplayHour(hour: Option<int>): Option<int> {
    match hour
    case None => None
    case Some(h) => Some(if h > 12 then h - 12 else if h == 0 then 12 else h)
  }

  /** `formatTime(time)`. A missing minutes part prints as "undefined" and an
      unreadable hour as "NaN", which then counts as AM. */
  function FormatTime(time: string): string {
    var parts := Split(time, ':');
    Render(ParseInt(parts[0]), if |parts| >= 2 then parts[1] else "undefined")
  }

  /** `${displayHour}:${minutes} ${ampm}` for the parsed hour. */
  function Render(hour: Option<int>, minutes: string): string {
    var pm := hour.Some? && hour.value >= 12;
    NumberToString(DisplayHour(hour)) + ":" + minutes + " " + (if pm then "PM" else "AM")
  }

  /** The two halves of "HH:MM". */
  lemma SplitClock(time: string, hh: string, mm: string)
    requires time == hh + ":" + mm && ':' !in hh && ':' !in mm
    ensures Split(time, ':') == [hh, mm]
  {
    assert Join([hh, mm], ':') == time;
    SplitJoin([hh, mm], ':');
  }

  lemma DigitsHaveNoColon(hh: string)
    requires |hh| == 2 && AllDigits(hh)
    ensures ':' !in hh
  {
    assert IsDigit(hh[0]) && IsDigit(hh[1]);
  }

  /** The meridiem `formatTime` shows for a 24-hour hour. */
  function MeridiemOf(h: nat): TimeRange.Meridiem {
    if h >= 12 then TimeRange.PM else TimeRange.AM
  }

  /** On a well-formed "HH:MM" with an hour up to 23, `formatTime` shows an hour
      from 1 to 12 and a meridiem that the importer's 12-to-24-hour rewriting
      maps back to the hour it started from; the minutes pass through. */
  lemma FormatTimeInvertsImport(time: string, hh: string, mm: string)
    requires time == hh + ":" + mm
    requires |hh| == 2 && AllDigits(hh) && ParseDigits(hh) <= 23 && ':' !in mm
    ensures var h := ParseDigits(hh);
      exists d: nat :: 1 <= d <= 12
        && TimeRange.TwentyFourHour(d, MeridiemOf(h)) == h
        && FormatTime(time) == NatToString(d) + ":" + mm + TimeRange.MeridiemSuffix(Some(MeridiemOf(h)))
  {
    var h := ParseDigits(hh);
    var d: nat := if h > 12 then h - 12 else if h == 0 then 12 else h;
    FormatTimeOf(time, hh, mm, h, d);
    assert TimeRange.TwentyFourHour(d, MeridiemOf(h)) == h;
  }

  /** Midnight shows as twelve in the morning: "00:MM" gives "12:MM AM". */
  lemma MidnightIsTwelveAm(time: string, hh: string, mm: string)
    requires |hh| == 2 && hh[0] == '0' && hh[1] == '0' && |mm| == 2 && AllDigits(mm) && time == hh + ":" + mm
    ensures FormatTime(time) == "12" + ":" + mm + " AM"
  {
    DigitPair(hh);
    DigitPair(mm);
    TwelveText();
    FormatTimeOf(time, hh, mm, 0, 12);
  }

  /** Noon shows as twelve in the afternoon: "12:MM" gives "12:MM PM". */
  lemma NoonIsTwelvePm(time: string, hh: string, mm: string)
    requires |hh| == 2 && hh[0] == '1' && hh[1] == '2' && |mm| == 2 && AllDigits(mm) && time == hh + ":" + mm
    ensures FormatTime(time) == "12" + ":" + mm + " PM"
  {
    DigitPair(hh);
    DigitPair(mm);
    TwelveText();
    FormatTimeOf(time, hh, mm, 12, 12);
  }

  /** An afternoon hour drops twelve: "13:MM" gives "1:MM PM". */
  lemma AfternoonDropsTwelve(time: string, hh: string, mm: string)
    requires |hh| == 2 && hh[0] == '1' && hh[1] == '3' && |mm| == 2 && AllDigits(mm) && time == hh + ":" + mm
    ensures FormatTime(time) == "1" + ":" + mm + " PM"
  {
    DigitPair(hh);
    DigitPair(mm);
    FormatTimeOf(time, hh, mm, 13, 1);
  }

  lemma TwelveText()
    ensures NatToString(12) == "12"
  {
  }

  /** Two decimal digits and their value. */
  lemma DigitPair(s: string)
    requires |s| == 2 && IsDigit(s[0]) && IsDigit(s[1])
    ensures AllDigits(s) && ':' !in s
    ensures ParseDigits(s) == DigitValue(s[0]) * 10 + DigitValue(s[1])
  {
    assert s[..1][..0] == [] && s[..1] == [s[0]];
    assert ParseDigits(s[..1]) == DigitValue(s[0]);
  }

  lemma FormatTimeOf(time: string, hh: string, mm: string, h: nat, d: nat)
    requires time == hh + ":" + mm
    requires |hh| == 2 && AllDigits(hh) && ParseDigits(hh) == h && ':' !in mm
    requires d == (if h > 12 then h - 12 else if h == 0 then 12 else h)
    ensures FormatTime(time) == NatToString(d) + ":" + mm + (if h >= 12 then " PM" else " AM")
  {
    DigitsHaveNoColon(hh);
    SplitClock(time, hh, mm);
    FormatTimeOfParts(time, hh, mm);
    ParseIntOfTwoDigits(hh);
    RenderHour(h, d, mm);
  }

  lemma FormatTimeOfParts(time: string, hh: string, mm: string)
    requires Split(time, ':') == [hh, mm]
    ensures FormatTime(time) == Render(ParseInt(hh), mm)
  {
  }

  lemma RenderHour(h: nat, d: nat, mm: string)
    requires d == (if h > 12 then h - 12 else if h == 0 then 12 else h)
    ensures Render(Some(h), mm) == NatToString(d) + ":" + mm + (if h >= 12 then " PM" else " AM")
  {
  }
}
