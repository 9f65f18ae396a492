/**
  The lesson planner's data model: a weekday, the per-day start times, the two
  resource links, the weekly frequency and the `Subject` record itself.
*/
module Schedule {

  /** The five school days (the `DayOfWeek` union). */
  datatype Day = Monday | Tuesday | Wednesday | Thursday | Friday

  /** The Monday-to-Friday order every component iterates in. */
  const Week: seq<Day> := [Monday, Tuesday, Wednesday, Thursday, Friday]

  lemma WeekListsEveryDayOnce(d: Day)
    ensures d in Week
    ensures forall i, j :: 0 <= i < j < |Week| ==> Week[i] != Week[j]
  {
  }

  /** The lower-case name a day has as an object key and as a CSV header. */
  function DayName(d: Day): string {
    match d
    case Monday => "monday"
    case Tuesday => "tuesday"
    case Wednesday => "wednesday"
    case Thursday => "thursday"
    case Friday => "friday"
  }

  lemma DayNameInjective(d: Day, e: Day)
    ensures DayName(d) == DayName(e) ==> d == e
  {
  }

  /** A start-time string per weekday; "" means "not scheduled that day". */
  datatype Times = Times(monday: string, tuesday: string, wednesday: string, thursday: string, friday: string)
  {
    function Get(d: Day): string {
      match d
      case Monday => monday
      case Tuesday => tuesday
      case Wednesday => wednesday
      case Thursday => thursday
      case Friday => friday
    }

    /** `times[d] = v`, leaving the other four days as they were. */
    function Set(d: Day, v: string): (t: Times)
      ensures t.Get(d) == v
      ensures forall e :: e != d ==> t.Get(e) == Get(e)
    {
      match d
      case Monday => this.(monday := v)
      case Tuesday => this.(tuesday := v)
      case Wednesday => this.(wednesday := v)
      case Thursday => this.(thursday := v)
      case Friday => this.(friday := v)
    }
  }

  const NoTimes: Times := Times("", "", "", "", "")

  /** The times a builder writes when one time applies to a chosen list of days:
      `days.includes(d) ? time : ''` for each weekday. */
  function TimesOn(days: seq<Day>, time: string): (t: Times)
    ensures forall d :: t.Get(d) == (if d in days then time else "")
  {
    Times(if Monday in days then time else "",
          if Tuesday in days then time else "",
          if Wednesday in days then time else "",
          if Thursday in days then time else "",
          if Friday in days then time else "")
  }

  datatype Resources = Resources(bookLink: string, googleDocLink: string)

  const NoResources: Resources := Resources("", "")

  datatype Frequency = Frequency(daysPerWeek: nat, selectedDays: seq<Day>)

  /** A recurring lesson. `startTime` and `endTime` are the optional shared times
      the subject form keeps alongside `times`; "" stands for absent. */
  datatype Subject = Subject(
    id: string,
    name: string,
    times: Times,
    resources: Resources,
    frequency: Frequency,
    startTime: string,
    endTime: string)

  predicate NoDuplicates<T(==)>(s: seq<T>) {
    forall i, j :: 0 <= i < j < |s| ==> s[i] != s[j]
  }

  /** The consistency a saved subject is meant to have: distinct days, as many as
      `daysPerWeek`, a time on exactly the selected days. */
  predicate Consistent(s: Subject) {
    && NoDuplicates(s.frequency.selectedDays)
    && |s.frequency.selectedDays| == s.frequency.daysPerWeek
    && forall d :: (s.times.Get(d) != "") <==> d in s.frequency.selectedDays
  }
}
