/**
  The add/edit subject form: its initial data, the field handlers, the
  day-selection quota, the validator that collects every error at once, and the
  submit step that writes the start time into the selected days.
*/
module SubjectForm {
  import opened Wrappers
  import opened Text
  import opened Schedule
  import QuickAdd

  /** The keys of the form's error record. */
  datatype ErrorKey = NameError | StartError | EndError | DaysError

  /** The text inputs wired to `handleInputChange`. */
  datatype InputField = NameInput | StartInput | EndInput

  /** The resource inputs wired to `handleResourceChange`. */
  datatype ResourceField = BookLink | GoogleDocLink

  datatype FormState = FormState(data: Subject, errors: map<ErrorKey, string>)

  /** The error key an input clears: the field's own name. */
  function KeyOf(f: InputField): ErrorKey {
    match f
    case NameInput => NameError
    case StartInput => StartError
    case EndInput => EndError
  }

  /** The first non-empty time among `days`, in their order
      (`Object.values(subject.times).find(time => time)` over `Week`). */
  function FirstTime(t: Times, days: seq<Day>): (r: string)
    ensures r != "" ==> exists i ::
      && 0 <= i < |days| && t.Get(days[i]) == r
      && forall j :: 0 <= j < i ==> t.Get(days[j]) == ""
    ensures r == "" <==> forall i :: 0 <= i < |days| ==> t.Get(days[i]) == ""
  {
    if |days| == 0 then ""
    else if t.Get(days[0]) != "" then t.Get(days[0])
    else
      var rest := FirstTime(t, days[1..]);
      assert forall i :: 1 <= i < |days| ==> days[i] == days[1..][i - 1];
      rest
  }

  /** The form's data when it opens: an edited subject with its start time filled
      in from its own `startTime`, else its first weekday time; or a blank subject
      with the fresh id, one day a week and nothing selected. A new form needs
      `crypto.randomUUID()`; when that throws (`uuidAvailable` false) the form
      fails to open, which is `None`. */
  function Initial(subject: Option<Subject>, uuidAvailable: bool, freshId: string): (d: Option<Subject>)
    ensures d.None? <==> subject.None? && !uuidAvailable
    ensures subject.Some? ==>
      && d.value == subject.value.(startTime := d.value.startTime)
      && d.value.startTime == (if subject.value.startTime != "" then subject.value.startTime
                                else FirstTime(subject.value.times, Week))
    ensures subject.None? && uuidAvailable ==>
      && d.value.id == freshId && d.value.name == "" && d.value.startTime == "" && d.value.endTime == ""
      && d.value.times == NoTimes && d.value.resources == NoResources
      && d.value.frequency == Frequency(1, [])
  {
    match subject
    case Some(s) =>
      Some(s.(startTime := if s.startTime != "" then s.startTime else FirstTime(s.times, Week),
              endTime := s.endTime))
    case None =>
      if uuidAvailable then Some(Subject(freshId, "", NoTimes, NoResources, Frequency(1, []), "", ""))
      else None
  }

  /** The form as opened, with no errors shown. */
  function Open(subject: Option<Subject>, uuidAvailable: bool, freshId: string): (st: Option<FormState>)
    ensures st.None? <==> subject.None? && !uuidAvailable
    ensures st.Some? ==> st.value.errors == map[]
  {
    match Initial(subject, uuidAvailable, freshId)
    case None => None
    case Some(d) => Some(FormState(d, map[]))
  }

  /** `handleInputChange(field, value)`: set the field and drop its error. */
  function InputChange(st: FormState, f: InputField, value: string): (r: FormState)
    ensures KeyOf(f) !in r.errors
    ensures forall k :: k != KeyOf(f) ==> (k in r.errors <==> k in st.errors)
    ensures forall k :: k != KeyOf(f) && k in r.errors ==> r.errors[k] == st.errors[k]
    ensures r.data.name == (if f == NameInput then value else st.data.name)
    ensures r.data.startTime == (if f == StartInput then value else st.data.startTime)
    ensures r.data.endTime == (if f == EndInput then value else st.data.endTime)
    ensures r.data.id == st.data.id && r.data.resources == st.data.resources
    ensures r.data.frequency == st.data.frequency && r.data.times == st.data.times
  {
    var data := match f
      case NameInput => st.data.(name := value)
      case StartInput => st.data.(startTime := value)
      case EndInput => st.data.(endTime := value);
    FormState(data, st.errors - {KeyOf(f)})
  }

  /** `handleResourceChange(type, value)`: set one link and keep the rest. */
  function ResourceChange(st: FormState, f: ResourceField, value: string): (r: FormState)
    ensures r.data.resources.bookLink == (if f == BookLink then value else st.data.resources.bookLink)
    ensures r.data.resources.googleDocLink ==
      (if f == GoogleDocLink then value else st.data.resources.googleDocLink)
    ensures r.data == st.data.(resources := r.data.resources)
    ensures r.errors == st.errors && r.data.frequency == st.data.frequency
  {
    var res := match f
      case BookLink => st.data.resources.(bookLink := value)
      case GoogleDocLink => st.data.resources.(googleDocLink := value);
    st.(data := st.data.(resources := res))
  }

  function Min(a: nat, b: nat): nat {
    if a < b then a else b
  }

  /** `handleFrequencyChange(n)`: the new quota, keeping the first `n` selected days. */
  function FrequencyChange(st: FormState, n: nat): (r: FormState)
    ensures r.data.frequency.daysPerWeek == n
    ensures |r.data.frequency.selectedDays| == Min(n, |st.data.frequency.selectedDays|)
    ensures r.data.frequency.selectedDays <= st.data.frequency.selectedDays
    ensures r.data == st.data.(frequency := r.data.frequency)
    ensures r.errors == st.errors
  {
    var sel := st.data.frequency.selectedDays;
    st.(data := st.data.(frequency := Frequency(n, sel[..Min(n, |sel|)])))
  }

  /** `handleDaySelection(day)`: a selected day is removed; an unselected one is
      appended only while fewer days than the quota are selected. Any days error
      is dropped either way. */
  function DaySelection(st: FormState, day: Day): (r: FormState)
    ensures var sel := st.data.frequency.selectedDays;
      && (day in sel ==> r.data.frequency.selectedDays == QuickAdd.Without(sel, day))
      && (day !in sel && |sel| < st.data.frequency.daysPerWeek ==> r.data.frequency.selectedDays == sel + [day])
      && (day !in sel && |sel| >= st.data.frequency.daysPerWeek ==> r.data == st.data)
    ensures r.data.frequency.daysPerWeek == st.data.frequency.daysPerWeek
    ensures r.data == st.data.(frequency := r.data.frequency)
    ensures r.errors == st.errors - {DaysError}
  {
    var sel := st.data.frequency.selectedDays;
    var sel' :=
      if day in sel then QuickAdd.Without(sel, day)
      else if |sel| < st.data.frequency.daysPerWeek then sel + [day]
      else sel;
    FormState(st.data.(frequency := st.data.frequency.(selectedDays := sel')), st.errors - {DaysError})
  }

  /** The selection quota the handlers maintain: distinct days, no more than
      `daysPerWeek` of them. */
  predicate WithinQuota(d: Subject) {
    NoDuplicates(d.frequency.selectedDays) && |d.frequency.selectedDays| <= d.frequency.daysPerWeek
  }

  lemma PrefixKeepsDistinct<T>(s: seq<T>, n: nat)
    requires NoDuplicates(s) && n <= |s|
    ensures NoDuplicates(s[..n])
  {
    assert forall i :: 0 <= i < n ==> s[..n][i] == s[i];
  }

  /** A new form starts within its quota, an edited consistent subject does too,
      and every handler keeps the quota. */
  lemma HandlersKeepQuota(st: FormState, f: InputField, r: ResourceField, v: string, n: nat, day: Day)
    requires WithinQuota(st.data)
    ensures WithinQuota(InputChange(st, f, v).data)
    ensures WithinQuota(ResourceChange(st, r, v).data)
    ensures WithinQuota(FrequencyChange(st, n).data)
    ensures WithinQuota(DaySelection(st, day).data)
  {
    var sel := st.data.frequency.selectedDays;
    PrefixKeepsDistinct(sel, Min(n, |sel|));
    if day in sel {
      QuickAdd.WithoutKeepsDistinct(sel, day);
    }
  }

  lemma OpenWithinQuota(subject: Option<Subject>, uuidAvailable: bool, freshId: string)
    requires subject.Some? ==> Consistent(subject.value)
    ensures Open(subject, uuidAvailable, freshId).Some? ==>
      WithinQuota(Open(subject, uuidAvailable, freshId).value.data)
  {
  }

  // ---------------------------------------------------------------------------
  // validateForm / handleSubmit
  // ---------------------------------------------------------------------------

  const NameRequired := "Subject name is required"
  const StartRequired := "Start time is required"
  const EndRequired := "End time is required"
  const EndBeforeStart := "End time must be after start time"

  /** `Please select ${n} day${n > 1 ? 's' : ''}`. */
  function DaysMessage(n: nat): string {
    "Please select " + NatToString(n) + " day" + (if n > 1 then "s" else "")
  }

  /** JavaScript's `a >= b` on strings. */
  predicate AtLeast(a: string, b: string) {
    !LexLess(a, b)
  }

  /** `validateForm()`'s error record: every check runs, and the range check
      overwrites the missing-end message it can never coincide with. */
  function Validate(d: Subject): (errors: map<ErrorKey, string>)
    ensures NameError in errors <==> Trim(d.name) == ""
    ensures StartError in errors <==> d.startTime == ""
    ensures EndError in errors <==> d.endTime == "" || (d.startTime != "" && AtLeast(d.startTime, d.endTime))
    ensures DaysError in errors <==> |d.frequency.selectedDays| != d.frequency.daysPerWeek
    ensures NameError in errors ==> errors[NameError] == NameRequired
    ensures StartError in errors ==> errors[StartError] == StartRequired
    ensures EndError in errors ==>
      errors[EndError] == (if d.endTime == "" then EndRequired else EndBeforeStart)
    ensures DaysError in errors ==> errors[DaysError] == DaysMessage(d.frequency.daysPerWeek)
  {
    var e0: map<ErrorKey, string> := map[];
    var e1 := if Trim(d.name) == "" then e0[NameError := NameRequired] else e0;
    var e2 := if d.startTime == "" then e1[StartError := StartRequired] else e1;
    var e3 := if d.endTime == "" then e2[EndError := EndRequired] else e2;
    var e4 := if d.startTime != "" && d.endTime != "" && AtLeast(d.startTime, d.endTime)
              then e3[EndError := EndBeforeStart] else e3;
    if |d.frequency.selectedDays| != d.frequency.daysPerWeek
    then e4[DaysError := DaysMessage(d.frequency.daysPerWeek)] else e4
  }

  /** The form is valid (no error) exactly when the name is not blank, both times
      are given, the start sorts before the end and the quota is filled. */
  lemma ValidIff(d: Subject)
    ensures Validate(d) == map[] <==>
      && Trim(d.name) != ""
      && d.startTime != "" && d.endTime != ""
      && LexLess(d.startTime, d.endTime)
      && |d.frequency.selectedDays| == d.frequency.daysPerWeek
  {
    var e := Validate(d);
    if e != map[] {
      var k :| k in e;
    }
  }

  /** The record `onSave` receives: the form data with the start time on the
      selected days and "" on the others. */
  function Finished(d: Subject): (s: Subject)
    ensures s == d.(times := s.times)
    ensures forall day ::
      s.times.Get(day) == (if day in d.frequency.selectedDays then d.startTime else "")
  {
    d.(times := TimesOn(d.frequency.selectedDays, d.startTime))
  }

  /** `handleSubmit`: validate (replacing the error record); save only when valid. */
  function Submit(st: FormState): (r: (FormState, Option<Subject>))
    ensures r.0 == st.(errors := Validate(st.data))
    ensures r.1.Some? <==> Validate(st.data) == map[]
    ensures r.1.Some? ==> r.1.value == Finished(st.data)
  {
    var errors := Validate(st.data);
    (st.(errors := errors), if errors == map[] then Some(Finished(st.data)) else None)
  }

  /** A form kept within its quota submits only consistent subjects: distinct
      days, as many as `daysPerWeek`, and a time on exactly those days. */
  lemma SubmittedIsConsistent(st: FormState)
    requires WithinQuota(st.data)
    requires Submit(st).1.Some?
    ensures Consistent(Submit(st).1.value)
  {
    ValidIff(st.data);
  }
}
