/**
  The merge in `processCSVData`: every non-blank weekday cell of every kept row
  names a subject; cells whose names agree after lower-casing and trimming feed
  one record, created the first time its key is seen. Each cell writes the row's
  parsed start time into that day and appends the day to `selectedDays`; at the
  end `daysPerWeek` is set to the length of `selectedDays`.

  `crypto.randomUUID()` is the parameter `uuid`: the n-th record created gets
  `uuid(n)`. Whether the browser provides it at all is `uuidAvailable`; it is
  the only call in the try block that can throw.
*/
module Importer {
  import opened Wrappers
  import opened Text
  import opened Schedule
  import opened TimeRange
  import opened Csv

  /** One weekday cell that names a subject, with its map key
      `subjectName.toLowerCase().trim()` worked out when the cell is read. */
  datatype Cell = Cell(day: Day, name: string, key: string, start: string)

  /** The map key of a subject name: `subjectName.toLowerCase().trim()`. */
  function Key(name: string): string {
    Trim(ToLower(name))
  }

  /** The cell a row gives for day `d`, where `name(d)` is the row's entry under
      that day's column. */
  function CellOn(name: Day -> string, d: Day, start: string): Cell {
    Cell(d, name(d), Key(name(d)), start)
  }

  /** `subjectName && subjectName.trim()`: the row names a subject on day `d`. */
  predicate Names(name: Day -> string, d: Day) {
    Trim(name(d)) != ""
  }

  /** The cells of one row for the days in `days`, in that order, keeping those
      that name a subject. */
  function DayCells(name: Day -> string, days: seq<Day>, start: string): (cells: seq<Cell>)
    ensures |cells| <= |days|
  {
    if |days| == 0 then []
    else (if Names(name, days[0]) then [CellOn(name, days[0], start)] else []) + DayCells(name, days[1..], start)
  }

  /** A row's cells are exactly those of the listed days that name a subject,
      each carrying its day's name, that name's key and the row's start. */
  lemma {:induction false} DayCellsExactly(name: Day -> string, days: seq<Day>, start: string, c: Cell)
    ensures c in DayCells(name, days, start) <==> c.day in days && Names(name, c.day) && c == CellOn(name, c.day, start)
  {
    if |days| > 0 {
      DayCellsExactly(name, days[1..], start, c);
      assert days == [days[0]] + days[1..];
    }
  }

  /** The row's entry under each weekday's column. */
  function DayFields(row: Row): Day -> string {
    (d: Day) => Field(row, DayName(d))
  }

  /** The cells of one row, Monday to Friday, all carrying the row's start time. */
  function RowCells(row: Row): seq<Cell> {
    DayCells(DayFields(row), Week, ParseTimeRange(Field(row, "time")).start)
  }

  /** The cells of all rows, top to bottom. */
  function Cells(rows: seq<Row>): seq<Cell> {
    if |rows| == 0 then [] else RowCells(rows[0]) + Cells(rows[1..])
  }

  /** One `subjectMap` entry. */
  datatype Entry = Entry(key: string, subject: Subject)

  /** A record as first created: no times, no links, no days. */
  function Fresh(id: string, name: string): Subject {
    Subject(id, name, NoTimes, NoResources, Frequency(0, []), "", "")
  }

  /** `subject.times[day] = start; subject.frequency.selectedDays.push(day)`. */
  function Place(s: Subject, c: Cell): (r: Subject)
    ensures r.times.Get(c.day) == c.start
    ensures forall d :: d != c.day ==> r.times.Get(d) == s.times.Get(d)
    ensures r.frequency.selectedDays == s.frequency.selectedDays + [c.day]
    ensures r.id == s.id && r.name == s.name && r.resources == s.resources
    ensures r.frequency.daysPerWeek == s.frequency.daysPerWeek
    ensures r.startTime == s.startTime && r.endTime == s.endTime
  {
    s.(times := s.times.Set(c.day, c.start),
       frequency := s.frequency.(selectedDays := s.frequency.selectedDays + [c.day]))
  }

  /** `subjectMap.has(key)`, as the position of the entry. */
  function FindKey(es: seq<Entry>, k: string): (r: Option<nat>)
    ensures r.Some? ==> r.value < |es| && es[r.value].key == k
    ensures r.None? ==> forall i :: 0 <= i < |es| ==> es[i].key != k
  {
    if |es| == 0 then None
    else if es[|es| - 1].key == k then Some(|es| - 1)
    else FindKey(es[..|es| - 1], k)
  }

  /** One cell folded into the map. */
  function Step(es: seq<Entry>, c: Cell, uuid: nat -> string): seq<Entry> {
    var k := c.key;
    match FindKey(es, k)
    case Some(i) => es[i := Entry(k, Place(es[i].subject, c))]
    case None => es + [Entry(k, Place(Fresh(uuid(|es|), Trim(c.name)), c))]
  }

  /** The map after folding in `cells`, in insertion order. */
  function Merge(cells: seq<Cell>, uuid: nat -> string): seq<Entry> {
    if |cells| == 0 then []
    else Step(Merge(cells[..|cells| - 1], uuid), cells[|cells| - 1], uuid)
  }

  // ---------------------------------------------------------------------------
  // Reference definitions
  // ---------------------------------------------------------------------------

  /** Some cell's name has key `k`. */
  predicate Mentions(cells: seq<Cell>, k: string) {
    exists i :: 0 <= i < |cells| && cells[i].key == k
  }

  /** The distinct keys of `cells` in order of first occurrence. */
  function KeysOf(cells: seq<Cell>): (ks: seq<string>)
    ensures NoDuplicates(ks)
  {
    if |cells| == 0 then []
    else
      var ks := KeysOf(cells[..|cells| - 1]);
      var k := cells[|cells| - 1].key;
      if k in ks then ks else ks + [k]
  }

  /** The days of the cells with key `k`, in cell order, repeats included. */
  function DaysFor(cells: seq<Cell>, k: string): seq<Day> {
    if |cells| == 0 then []
    else
      var c := cells[|cells| - 1];
      DaysFor(cells[..|cells| - 1], k) + (if c.key == k then [c.day] else [])
  }

  /** The start of the last cell with key `k` on day `d`, or "" when there is none. */
  function LastStart(cells: seq<Cell>, k: string, d: Day): string {
    if |cells| == 0 then ""
    else
      var c := cells[|cells| - 1];
      if c.key == k && c.day == d then c.start else LastStart(cells[..|cells| - 1], k, d)
  }

  /** The trimmed spelling of the first cell with key `k`. */
  function FirstName(cells: seq<Cell>, k: string): string {
    if |cells| == 0 then ""
    else if cells[0].key == k then Trim(cells[0].name)
    else FirstName(cells[1..], k)
  }

  function TimesFrom(cells: seq<Cell>, k: string): Times {
    Times(LastStart(cells, k, Monday), LastStart(cells, k, Tuesday), LastStart(cells, k, Wednesday),
          LastStart(cells, k, Thursday), LastStart(cells, k, Friday))
  }

  /** The entry the i-th distinct key `k` should end up as. */
  function Expected(cells: seq<Cell>, uuid: nat -> string, i: nat, k: string): Entry {
    Entry(k, Subject(uuid(i), FirstName(cells, k), TimesFrom(cells, k), NoResources,
                     Frequency(0, DaysFor(cells, k)), "", ""))
  }

  // ---------------------------------------------------------------------------
  // The merge is the reference
  // ---------------------------------------------------------------------------

  /** A key is mentioned by `cells` iff it is mentioned before the last cell or by it. */
  lemma MentionsSplit(cells: seq<Cell>, k: string)
    requires |cells| > 0
    ensures Mentions(cells, k) <==>
      Mentions(cells[..|cells| - 1], k) || cells[|cells| - 1].key == k
  {
    var init := cells[..|cells| - 1];
    if Mentions(init, k) {
      var i :| 0 <= i < |init| && init[i].key == k;
      assert cells[i] == init[i];
    }
    if Mentions(cells, k) {
      var i :| 0 <= i < |cells| && cells[i].key == k;
      if i < |init| {
        assert init[i] == cells[i];
      }
    }
  }

  lemma {:induction false} KeysOfMentions(cells: seq<Cell>, k: string)
    ensures k in KeysOf(cells) <==> Mentions(cells, k)
  {
    if |cells| > 0 {
      KeysOfMentions(cells[..|cells| - 1], k);
      MentionsSplit(cells, k);
    }
  }

  lemma {:induction false} UnmentionedHasNoDays(cells: seq<Cell>, k: string)
    requires !Mentions(cells, k)
    ensures DaysFor(cells, k) == []
  {
    if |cells| > 0 {
      MentionsSplit(cells, k);
      UnmentionedHasNoDays(cells[..|cells| - 1], k);
    }
  }

  lemma {:induction false} UnmentionedHasNoStart(cells: seq<Cell>, k: string, d: Day)
    requires !Mentions(cells, k)
    ensures LastStart(cells, k, d) == ""
  {
    if |cells| > 0 {
      MentionsSplit(cells, k);
      UnmentionedHasNoStart(cells[..|cells| - 1], k, d);
    }
  }

  /** Appending a cell changes the first spelling of a key only when the key is new. */
  lemma {:induction false} FirstNameSnoc(p: seq<Cell>, c: Cell, k: string)
    ensures Mentions(p, k) ==> FirstName(p + [c], k) == FirstName(p, k)
    ensures !Mentions(p, k) && c.key == k ==> FirstName(p + [c], k) == Trim(c.name)
  {
    if |p| > 0 {
      var q := p + [c];
      assert q[0] == p[0] && q[1..] == p[1..] + [c];
      if p[0].key != k {
        FirstNameSnoc(p[1..], c, k);
        if Mentions(p, k) {
          var i :| 0 <= i < |p| && p[i].key == k;
          assert p[1..][i - 1] == p[i];
        }
        if Mentions(p[1..], k) {
          var i :| 0 <= i < |p[1..]| && p[1..][i].key == k;
          assert p[i + 1] == p[1..][i];
        }
      }
    } else {
      assert (p + [c])[0] == c;
    }
  }

  lemma TimesEqual(t: Times, u: Times)
    requires forall d :: t.Get(d) == u.Get(d)
    ensures t == u
  {
    assert t.Get(Monday) == u.Get(Monday) && t.Get(Tuesday) == u.Get(Tuesday);
    assert t.Get(Wednesday) == u.Get(Wednesday) && t.Get(Thursday) == u.Get(Thursday);
    assert t.Get(Friday) == u.Get(Friday);
  }

  /** The reference times on day `d` read back as `LastStart`. */
  lemma TimesFromGet(cells: seq<Cell>, k: string, d: Day)
    ensures TimesFrom(cells, k).Get(d) == LastStart(cells, k, d)
  {
  }

  /** A key other than the new cell's keeps its expected entry. */
  lemma ExpectedUnchanged(init: seq<Cell>, c: Cell, uuid: nat -> string, i: nat, k: string)
    requires Mentions(init, k) && c.key != k
    ensures Expected(init + [c], uuid, i, k) == Expected(init, uuid, i, k)
  {
    var cells := init + [c];
    assert cells[..|cells| - 1] == init;
    FirstNameSnoc(init, c, k);
    forall d ensures TimesFrom(cells, k).Get(d) == TimesFrom(init, k).Get(d) {
      TimesFromGet(cells, k, d);
      TimesFromGet(init, k, d);
    }
    TimesEqual(TimesFrom(cells, k), TimesFrom(init, k));
  }

  /** A seen key's entry absorbs the new cell. */
  lemma ExpectedExtended(init: seq<Cell>, c: Cell, uuid: nat -> string, i: nat)
    requires Mentions(init, c.key)
    ensures Expected(init + [c], uuid, i, c.key).subject ==
            Place(Expected(init, uuid, i, c.key).subject, c)
  {
    var k := c.key;
    var cells := init + [c];
    assert cells[..|cells| - 1] == init;
    FirstNameSnoc(init, c, k);
    var placed := Place(Expected(init, uuid, i, k).subject, c);
    forall d ensures TimesFrom(cells, k).Get(d) == placed.times.Get(d) {
      TimesFromGet(cells, k, d);
      TimesFromGet(init, k, d);
    }
    TimesEqual(TimesFrom(cells, k), placed.times);
  }

  /** A new key's entry is created from the cell alone. */
  lemma ExpectedNew(init: seq<Cell>, c: Cell, uuid: nat -> string, n: nat)
    requires !Mentions(init, c.key)
    ensures Expected(init + [c], uuid, n, c.key) ==
            Entry(c.key, Place(Fresh(uuid(n), Trim(c.name)), c))
  {
    var k := c.key;
    var cells := init + [c];
    assert cells[..|cells| - 1] == init;
    FirstNameSnoc(init, c, k);
    UnmentionedHasNoDays(init, k);
    var placed := Place(Fresh(uuid(n), Trim(c.name)), c);
    forall d ensures TimesFrom(cells, k).Get(d) == placed.times.Get(d) {
      TimesFromGet(cells, k, d);
      UnmentionedHasNoStart(init, k, d);
    }
    TimesEqual(TimesFrom(cells, k), placed.times);
  }

  /** `es` holds the reference record of every distinct key of `cells`, in order. */
  ghost predicate IsReference(es: seq<Entry>, cells: seq<Cell>, uuid: nat -> string) {
    && |es| == |KeysOf(cells)|
    && forall i :: 0 <= i < |es| ==> es[i] == Expected(cells, uuid, i, KeysOf(cells)[i])
  }

  /** The entries of keys other than the new cell's stay the reference ones. */
  lemma OthersUnchanged(init: seq<Cell>, c: Cell, uuid: nat -> string, es0: seq<Entry>)
    requires IsReference(es0, init, uuid)
    ensures forall i :: 0 <= i < |es0| && KeysOf(init)[i] != c.key ==>
      es0[i] == Expected(init + [c], uuid, i, KeysOf(init)[i])
  {
    var ks0 := KeysOf(init);
    forall i | 0 <= i < |es0| && ks0[i] != c.key
      ensures es0[i] == Expected(init + [c], uuid, i, ks0[i])
    {
      KeysOfMentions(init, ks0[i]);
      ExpectedUnchanged(init, c, uuid, i, ks0[i]);
    }
  }

  /** A cell whose key has an entry extends that entry. */
  lemma StepFound(init: seq<Cell>, c: Cell, uuid: nat -> string, es0: seq<Entry>, j: nat)
    requires IsReference(es0, init, uuid) && FindKey(es0, c.key) == Some(j)
    ensures IsReference(Step(es0, c, uuid), init + [c], uuid)
  {
    var cells := init + [c];
    assert cells[..|cells| - 1] == init;
    var ks0 := KeysOf(init);
    KeysOfMentions(init, c.key);
    assert ks0[j] == c.key;
    assert KeysOf(cells) == ks0;
    OthersUnchanged(init, c, uuid, es0);
    ExpectedExtended(init, c, uuid, j);
  }

  /** A cell with a new key appends its entry. */
  lemma StepNew(init: seq<Cell>, c: Cell, uuid: nat -> string, es0: seq<Entry>)
    requires IsReference(es0, init, uuid) && FindKey(es0, c.key).None?
    ensures IsReference(Step(es0, c, uuid), init + [c], uuid)
  {
    var cells := init + [c];
    assert cells[..|cells| - 1] == init;
    var ks0 := KeysOf(init);
    KeysOfMentions(init, c.key);
    assert c.key !in ks0;
    assert KeysOf(cells) == ks0 + [c.key];
    OthersUnchanged(init, c, uuid, es0);
    ExpectedNew(init, c, uuid, |es0|);
  }

  /** The fold builds exactly the reference records: one per distinct key, in
      first-occurrence order, the n-th carrying `uuid(n)`, the first spelling
      trimmed, the last start per day and every day in cell order. */
  lemma {:induction false} MergeIsReference(cells: seq<Cell>, uuid: nat -> string)
    ensures |Merge(cells, uuid)| == |KeysOf(cells)|
    ensures forall i :: 0 <= i < |Merge(cells, uuid)| ==>
      Merge(cells, uuid)[i] == Expected(cells, uuid, i, KeysOf(cells)[i])
  {
    if |cells| > 0 {
      var init := cells[..|cells| - 1];
      var c := cells[|cells| - 1];
      assert cells == init + [c];
      MergeIsReference(init, uuid);
      var es0 := Merge(init, uuid);
      match FindKey(es0, c.key)
      case Some(j) => StepFound(init, c, uuid, es0, j);
      case None => StepNew(init, c, uuid, es0);
    }
  }

  // ---------------------------------------------------------------------------
  // processCSVData
  // ---------------------------------------------------------------------------

  /** The loop over the cells, as the component runs it. */
  method MergeLoop(cells: seq<Cell>, uuid: nat -> string) returns (es: seq<Entry>)
    ensures |es| == |KeysOf(cells)|
    ensures forall i :: 0 <= i < |es| ==> es[i] == Expected(cells, uuid, i, KeysOf(cells)[i])
  {
    es := [];
    var n := 0;
    while n < |cells|
      invariant n <= |cells|
      invariant es == Merge(cells[..n], uuid)
    {
      assert cells[..n + 1][..n] == cells[..n];
      es := Step(es, cells[n], uuid);
      n := n + 1;
    }
    assert cells[..n] == cells;
    MergeIsReference(cells, uuid);
  }

  /** `subjectMap.forEach(s => s.frequency.daysPerWeek = s.frequency.selectedDays.length)`
      followed by `Array.from(subjectMap.values())`. */
  function Finalize(es: seq<Entry>): (subjects: seq<Subject>)
    ensures |subjects| == |es|
    ensures forall i :: 0 <= i < |es| ==>
      subjects[i].frequency.daysPerWeek == |es[i].subject.frequency.selectedDays|
    ensures forall i :: 0 <= i < |es| ==>
      subjects[i] == es[i].subject.(frequency := subjects[i].frequency) &&
      subjects[i].frequency.selectedDays == es[i].subject.frequency.selectedDays
  {
    seq(|es|, i requires 0 <= i < |es| =>
      var s := es[i].subject;
      s.(frequency := s.frequency.(daysPerWeek := |s.frequency.selectedDays|)))
  }

  /** What pressing "Process Data" does. */
  datatype Outcome =
    | Ignored                            // blank input: returns at once
    | Failed                             // an exception: alert, preview untouched
    | Previewed(subjects: seq<Subject>)  // `setPreviewSubjects(processedSubjects)`

  /** `processCSVData()` on the text area's contents. */
  function ProcessCsv(text: string, uuidAvailable: bool, uuid: nat -> string): (r: Outcome)
    ensures r == Ignored <==> AllWhitespace(text)
    ensures r == Failed <==> !AllWhitespace(text) && !uuidAvailable && Cells(ParseCsv(text)) != []
    ensures r.Previewed? ==> r.subjects == Finalize(Merge(Cells(ParseCsv(text)), uuid))
  {
    TrimEmptyIffBlank(text);
    if Trim(text) == "" then Ignored
    else
      var cells := Cells(ParseCsv(text));
      if cells != [] && !uuidAvailable then Failed
      else Previewed(Finalize(Merge(cells, uuid)))
  }

  /** The preview list after an outcome: only a completed run replaces it. */
  function PreviewAfter(previous: seq<Subject>, r: Outcome): (preview: seq<Subject>)
    ensures !r.Previewed? ==> preview == previous
  {
    match r
    case Previewed(subjects) => subjects
    case _ => previous
  }

  /** The records as shown: one per distinct key of the cells, in
      first-occurrence order, with the n-th id drawn, the first spelling trimmed,
      the last start time per day, every day in cell order and `daysPerWeek`
      counting those days. */
  lemma FinalizedIsReference(cells: seq<Cell>, uuid: nat -> string)
    ensures var subjects := Finalize(Merge(cells, uuid));
      && |subjects| == |KeysOf(cells)|
      && forall i :: 0 <= i < |subjects| ==>
        var k := KeysOf(cells)[i];
        && subjects[i].id == uuid(i)
        && subjects[i].name == FirstName(cells, k)
        && subjects[i].times == TimesFrom(cells, k)
        && subjects[i].frequency == Frequency(|DaysFor(cells, k)|, DaysFor(cells, k))
        && subjects[i].resources == NoResources
  {
    MergeIsReference(cells, uuid);
  }

  /** A run that completes previews exactly the reference records of the cells
      of the kept rows. */
  lemma PreviewIsReference(text: string, uuidAvailable: bool, uuid: nat -> string)
    requires ProcessCsv(text, uuidAvailable, uuid).Previewed?
    ensures var cells := Cells(ParseCsv(text));
      var subjects := ProcessCsv(text, uuidAvailable, uuid).subjects;
      && |subjects| == |KeysOf(cells)|
      && forall i :: 0 <= i < |subjects| ==>
        && subjects[i].name == FirstName(cells, KeysOf(cells)[i])
        && subjects[i].times == TimesFrom(cells, KeysOf(cells)[i])
        && subjects[i].frequency.selectedDays == DaysFor(cells, KeysOf(cells)[i])
  {
    FinalizedIsReference(Cells(ParseCsv(text)), uuid);
  }

  /** The same subject twice on one day (two rows) lists that day twice and
      counts it twice, with the later row's start time; such a record is not
      `Consistent`. */
  lemma RepeatedDayIsCountedTwice(a: Cell, b: Cell, uuid: nat -> string)
    requires a.key == b.key && a.day == b.day
    ensures var es := Merge([a, b], uuid);
      && |es| == 1
      && es[0].subject.frequency.selectedDays == [a.day, a.day]
      && es[0].subject.times.Get(a.day) == b.start
      && !Consistent(Finalize(es)[0])
  {
    var cells := [a, b];
    assert cells[..1] == [a];
    assert cells[..1][..0] == [];
    var es := Merge(cells, uuid);
    assert Merge(cells[..1], uuid) == Step([], a, uuid);
    assert es == Step(Step([], a, uuid), b, uuid);
    assert es[0].subject.frequency.selectedDays == [a.day, a.day];
    var days := Finalize(es)[0].frequency.selectedDays;
    assert days == [a.day, a.day];
    assert days[0] == days[1];
  }
}
