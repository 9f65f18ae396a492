/**
  `parseCSV` of the timetable importer. The input is trimmed and cut at line
  feeds; the first line names the columns (trimmed, lower-cased) and every later
  line becomes a record that maps the i-th column name to the i-th
  comma-separated cell, trimmed. Only records with a time and at least one
  weekday entry are kept.
*/
module Csv {
  import opened Text
  import opened Schedule

  /** One parsed line: column name to cell text (the `row` object). */
  type Row = map<string, string>

  /** A column name as `h.trim().toLowerCase()` leaves it. */
  predicate Normalised(h: string) {
    Trim(h) == h && ToLower(h) == h
  }

  /** `parts.map(h => h.trim().toLowerCase())`. */
  function NormaliseEach(parts: seq<string>): (hs: seq<string>)
    ensures |hs| == |parts|
  {
    seq(|parts|, i requires 0 <= i < |parts| => ToLower(Trim(parts[i])))
  }

  /** The column names of the header line. */
  function Headers(line: string): (hs: seq<string>)
    ensures |hs| == |Split(line, ',')|
  {
    NormaliseEach(Split(line, ','))
  }

  /** Column `i` is the i-th comma-separated piece of the header line, trimmed and
      lower-cased; so it has no surrounding blanks, no upper-case letter and no
      comma. */
  lemma HeaderIsNormalised(line: string, i: nat)
    requires i < |Headers(line)|
    ensures Headers(line)[i] == ToLower(Trim(Split(line, ',')[i]))
    ensures Normalised(Headers(line)[i]) && ',' !in Headers(line)[i]
  {
    var p := Split(line, ',')[i];
    var t := Trim(p);
    LowerOfTrimmed(t);
    NoCommaAfterTrim(p);
    LowerKeepsComma(t);
  }

  lemma NoCommaAfterTrim(p: string)
    requires ',' !in p
    ensures ',' !in Trim(p)
  {
    TrimKeepsInfix(p);
    assert Trim(p) == p[TrimOffset(p)..TrimOffset(p) + |Trim(p)|];
  }

  lemma LowerKeepsComma(t: string)
    requires ',' !in t
    ensures ',' !in ToLower(t)
  {
    var l := ToLower(t);
    forall i | 0 <= i < |l| ensures l[i] != ',' {
      assert l[i] == LowerChar(t[i]);
    }
  }

  /** `line.split(',').map(v => v.trim())`. */
  function TrimEach(parts: seq<string>): (vs: seq<string>)
    ensures |vs| == |parts|
  {
    seq(|parts|, i requires 0 <= i < |parts| => Trim(parts[i]))
  }

  /** The trimmed cells of a data line. */
  function Values(line: string): (vs: seq<string>)
    ensures |vs| == |Split(line, ',')|
  {
    TrimEach(Split(line, ','))
  }

  /** Cell `i` is the i-th comma-separated piece of the line without its
      surrounding blanks. */
  lemma ValueIsTrimmed(line: string, i: nat)
    requires i < |Values(line)|
    ensures Values(line)[i] == Trim(Split(line, ',')[i])
    ensures Trim(Values(line)[i]) == Values(line)[i]
  {
    TrimIdempotent(Split(line, ',')[i]);
  }

  /** `values[index] || ''`: the cell, or "" past the end of a short line. */
  function ValueAt(vs: seq<string>, i: nat): string {
    if i < |vs| then vs[i] else ""
  }

  /** Column `i` is the last one carrying its name. */
  predicate LastWithName(hs: seq<string>, i: nat)
    requires i < |hs|
  {
    forall j :: i < j < |hs| ==> hs[j] != hs[i]
  }

  /** `row` is what the header loop leaves: every column name is a key, and a
      name used twice holds the cell of its last column. */
  ghost predicate RowFor(hs: seq<string>, vs: seq<string>, row: Row) {
    && (forall h :: h in row <==> h in hs)
    && (forall i :: 0 <= i < |hs| && LastWithName(hs, i) ==> row[hs[i]] == ValueAt(vs, i))
  }

  /** One more column on top of a row built from the columns before it. */
  lemma RowForStep(hs: seq<string>, vs: seq<string>, before: Row)
    requires |hs| > 0 && RowFor(hs[..|hs| - 1], vs, before)
    ensures RowFor(hs, vs, before[hs[|hs| - 1] := ValueAt(vs, |hs| - 1)])
  {
    var n := |hs| - 1;
    var row := before[hs[n] := ValueAt(vs, n)];
    assert hs == hs[..n] + [hs[n]];
    forall i | 0 <= i < |hs| && LastWithName(hs, i)
      ensures row[hs[i]] == ValueAt(vs, i)
    {
      if i < n {
        assert hs[n] != hs[i];
        assert hs[..n][i] == hs[i];
        assert LastWithName(hs[..n], i);
      }
    }
  }

  /** `headers.forEach((header, index) => row[header] = values[index] || '')`:
      every column name is a key, and a name used twice holds the cell of its
      last column. */
  function BuildRow(hs: seq<string>, vs: seq<string>): (row: Row)
    ensures RowFor(hs, vs, row)
  {
    if |hs| == 0 then map[]
    else
      var before := BuildRow(hs[..|hs| - 1], vs);
      RowForStep(hs, vs, before);
      before[hs[|hs| - 1] := ValueAt(vs, |hs| - 1)]
  }

  /** Reading a property of `row`: an absent key reads as `undefined`, which every
      use here treats like "". */
  function Field(row: Row, key: string): string {
    if key in row then row[key] else ""
  }

  /** The row filter: `row.time && (row.monday || ... || row.friday)`. */
  predicate Keep(row: Row) {
    && Field(row, "time") != ""
    && (|| Field(row, DayName(Monday)) != ""
        || Field(row, DayName(Tuesday)) != ""
        || Field(row, DayName(Wednesday)) != ""
        || Field(row, DayName(Thursday)) != ""
        || Field(row, DayName(Friday)) != "")
  }

  /** A row survives exactly when its time cell is non-empty and some weekday cell is. */
  lemma KeepMeans(row: Row)
    ensures Keep(row) <==> Field(row, "time") != "" && exists d :: Field(row, DayName(d)) != ""
  {
    if Keep(row) {
      if Field(row, DayName(Monday)) != "" {
      } else if Field(row, DayName(Tuesday)) != "" {
      } else if Field(row, DayName(Wednesday)) != "" {
      } else if Field(row, DayName(Thursday)) != "" {
      } else {
        assert Field(row, DayName(Friday)) != "";
      }
    }
  }

  /** The record one data line turns into. */
  function RowOf(hs: seq<string>, line: string): Row {
    BuildRow(hs, Values(line))
  }

  /** `rows.filter(Keep)`, in order. */
  function KeepOnly(rows: seq<Row>): (kept: seq<Row>)
    ensures |kept| <= |rows|
    ensures forall r :: r in kept ==> Keep(r)
  {
    if |rows| == 0 then []
    else (if Keep(rows[0]) then [rows[0]] else []) + KeepOnly(rows[1..])
  }

  /** The filter drops exactly the records that fail `Keep`. */
  lemma {:induction false} KeepOnlyExactly(rows: seq<Row>, r: Row)
    ensures r in KeepOnly(rows) <==> r in rows && Keep(r)
  {
    if |rows| > 0 {
      KeepOnlyExactly(rows[1..], r);
      assert rows == [rows[0]] + rows[1..];
    }
  }

  lemma KeepOnlyCons(y: Row, t: seq<Row>)
    ensures KeepOnly([y] + t) == (if Keep(y) then [y] else []) + KeepOnly(t)
  {
    assert ([y] + t)[0] == y;
    assert ([y] + t)[1..] == t;
  }

  /** The filter keeps the surviving records in their input order: it
      distributes over concatenation. */
  lemma {:induction false} KeepOnlyAppend(a: seq<Row>, b: seq<Row>)
    ensures KeepOnly(a + b) == KeepOnly(a) + KeepOnly(b)
  {
    if |a| > 0 {
      var p := if Keep(a[0]) then [a[0]] else [];
      var a' := a[1..];
      var x, y := KeepOnly(a'), KeepOnly(b);
      calc {
        KeepOnly(a + b);
        { assert a + b == [a[0]] + (a' + b); }
        KeepOnly([a[0]] + (a' + b));
        { KeepOnlyCons(a[0], a' + b); }
        p + KeepOnly(a' + b);
        { KeepOnlyAppend(a', b); }
        p + (x + y);
        (p + x) + y;
        { assert a == [a[0]] + a'; KeepOnlyCons(a[0], a'); }
        KeepOnly(a) + y;
      }
    } else {
      assert a + b == b;
    }
  }

  /** The lines of the input: `csvText.trim().split('\n')`. */
  function Lines(text: string): (lines: seq<string>)
    ensures |lines| >= 1
  {
    Split(Trim(text), '\n')
  }

  /** Each line as a record keyed by `hs`. */
  function RowsOf(hs: seq<string>, lines: seq<string>): (rows: seq<Row>)
    ensures |rows| == |lines|
    ensures forall i :: 0 <= i < |lines| ==> rows[i] == RowOf(hs, lines[i])
  {
    if |lines| == 0 then [] else [RowOf(hs, lines[0])] + RowsOf(hs, lines[1..])
  }

  /** Every line after the first, as a record keyed by the header line's names. */
  function DataRows(text: string): seq<Row> {
    var lines := Lines(text);
    RowsOf(Headers(lines[0]), lines[1..])
  }

  /** `parseCSV(csvText)`. */
  function ParseCsv(text: string): (rows: seq<Row>)
    ensures |rows| < |Lines(text)|
    ensures forall r :: r in rows ==> Keep(r)
    ensures rows == KeepOnly(DataRows(text))
  {
    var lines := Lines(text);
    KeepOnly(RowsOf(Headers(lines[0]), lines[1..]))
  }

  /** A record survives `ParseCsv` iff it comes from a data line and passes the
      filter. */
  lemma ParseCsvKeepsExactly(text: string, r: Row)
    ensures r in ParseCsv(text) <==> r in DataRows(text) && Keep(r)
  {
    KeepOnlyExactly(DataRows(text), r);
  }
}
