/**
  `parseTimeRange` of the timetable importer: find the first
  `(\d{1,2}:\d{2})\s*-\s*(\d{1,2}:\d{2})\s*(AM|PM)?` (case-insensitive) in a
  cell, and rewrite both clock readings to the 24-hour clock when a meridiem
  follows them.

  The regular expression is modelled by a scanner. For this pattern the
  backtracking search is deterministic: at a start position the hour is two
  digits exactly when the second character is a digit (a one-digit hour would
  then need a ':' there), each `\s*` is followed by a character `\s` cannot
  match ('-', a digit), and the trailing optional group never makes the match
  fail. So a match at a position exists iff `MatchAt` finds it, and
  `String.prototype.match` returns the one at the leftmost such position.
*/
module TimeRange {
  import opened Wrappers
  import opened Text

  datatype Meridiem = AM | PM

  /** A clock reading as written: one or two hour digits and two minute digits. */
  datatype Clock = Clock(hour: string, minute: string)
  {
    predicate Valid() {
      1 <= |hour| <= 2 && |minute| == 2 && AllDigits(hour) && AllDigits(minute)
    }

    function Text(): string {
      hour + ":" + minute
    }
  }

  /** What one match of the pattern captures. */
  datatype Match = Match(start: Clock, end: Clock, meridiem: Option<Meridiem>)

  /** The `{ start, end }` pair `parseTimeRange` returns. */
  datatype Range = Range(start: string, end: string)

  // ---------------------------------------------------------------------------
  // The scanner
  // ---------------------------------------------------------------------------

  datatype Scan = Scan(clock: Clock, next: nat)

  /** The length of the run of `\s` characters starting at `i`. */
  function SpaceRun(s: string, i: nat): (k: nat)
    requires i <= |s|
    ensures i + k <= |s|
    ensures forall j :: i <= j < i + k ==> IsWhitespace(s[j])
    ensures i + k == |s| || !IsWhitespace(s[i + k])
    decreases |s| - i
  {
    if i < |s| && IsWhitespace(s[i]) then 1 + SpaceRun(s, i + 1) else 0
  }

  /** `\d{1,2}:\d{2}` at position `i`. */
  function ClockAt(s: string, i: nat): (r: Option<Scan>)
    requires i <= |s|
    ensures r.Some? ==>
      && r.value.clock.Valid() && i <= r.value.next <= |s|
      && s[i..r.value.next] == r.value.clock.Text()
  {
    if i + 5 <= |s| && IsDigit(s[i]) && IsDigit(s[i + 1]) && s[i + 2] == ':'
      && IsDigit(s[i + 3]) && IsDigit(s[i + 4])
    then
      var c := Clock(s[i..i + 2], s[i + 3..i + 5]);
      assert s[i..i + 5] == c.Text();
      Some(Scan(c, i + 5))
    else if i + 4 <= |s| && IsDigit(s[i]) && s[i + 1] == ':' && IsDigit(s[i + 2]) && IsDigit(s[i + 3])
    then
      var c := Clock(s[i..i + 1], s[i + 2..i + 4]);
      assert s[i..i + 4] == c.Text();
      Some(Scan(c, i + 4))
    else None
  }

  /** `(AM|PM)?` under the `i` flag, at position `i`. */
  function MeridiemAt(s: string, i: nat): Option<Meridiem>
    requires i <= |s|
  {
    if i + 2 <= |s| && (s[i + 1] == 'm' || s[i + 1] == 'M') then
      if s[i] == 'a' || s[i] == 'A' then Some(AM)
      else if s[i] == 'p' || s[i] == 'P' then Some(PM)
      else None
    else None
  }

  /** The whole pattern anchored at position `p`. */
  function MatchAt(s: string, p: nat): Option<Match>
    requires p <= |s|
  {
    match ClockAt(s, p)
    case None => None
    case Some(first) =>
      var dash := first.next + SpaceRun(s, first.next);
      if dash < |s| && s[dash] == '-' then
        var q := dash + 1 + SpaceRun(s, dash + 1);
        match ClockAt(s, q)
        case None => None
        case Some(second) =>
          var m := second.next + SpaceRun(s, second.next);
          Some(Match(first.clock, second.clock, MeridiemAt(s, m)))
      else None
  }

  /** The leftmost position at or after `p` where the pattern matches. */
  function FirstMatchFrom(s: string, p: nat): (r: Option<nat>)
    requires p <= |s| + 1
    ensures r.Some? ==> p <= r.value <= |s|
    decreases |s| + 1 - p
  {
    if p > |s| then None
    else if MatchAt(s, p).Some? then Some(p)
    else FirstMatchFrom(s, p + 1)
  }

  /** What `FirstMatchFrom` reports is a match. */
  lemma {:induction false} FirstMatchFromMatches(s: string, p: nat)
    requires p <= |s| + 1 && FirstMatchFrom(s, p).Some?
    ensures MatchAt(s, FirstMatchFrom(s, p).value).Some?
    decreases |s| + 1 - p
  {
    if MatchAt(s, p).None? {
      FirstMatchFromMatches(s, p + 1);
    }
  }

  /** No position between `p` and what `FirstMatchFrom` reports matches. */
  lemma {:induction false} FirstMatchFromIsLeftmost(s: string, p: nat, i: nat)
    requires p <= i && p <= |s| + 1 && FirstMatchFrom(s, p).Some? && i < FirstMatchFrom(s, p).value
    ensures MatchAt(s, i).None?
    decreases |s| + 1 - p
  {
    if i > p {
      FirstMatchFromIsLeftmost(s, p + 1, i);
    }
  }

  /** `FirstMatchFrom` reports `None` only when no position from `p` on matches. */
  lemma {:induction false} FirstMatchFromMissesNothing(s: string, p: nat, i: nat)
    requires p <= i <= |s| && FirstMatchFrom(s, p).None?
    ensures MatchAt(s, i).None?
    decreases |s| + 1 - p
  {
    if i > p {
      FirstMatchFromMissesNothing(s, p + 1, i);
    }
  }

  /** `text.match(pattern)`: the match at the leftmost position where one exists. */
  function Search(text: string): (r: Option<Match>)
    ensures r.Some? ==> r.value.start.Valid() && r.value.end.Valid()
    ensures r.None? <==> forall p :: 0 <= p <= |text| ==> MatchAt(text, p).None?
  {
    match FirstMatchFrom(text, 0)
    case None =>
      assert forall p :: 0 <= p <= |text| ==> MatchAt(text, p).None? by {
        forall p | 0 <= p <= |text| { FirstMatchFromMissesNothing(text, 0, p); }
      }
      None
    case Some(p) =>
      FirstMatchFromMatches(text, 0);
      MatchAt(text, p)
  }

  /** A match found at `p` is the one `Search` returns when no earlier position matches. */
  lemma SearchFindsLeftmost(text: string, p: nat)
    requires p <= |text| && MatchAt(text, p).Some?
    requires forall i :: 0 <= i < p ==> MatchAt(text, i).None?
    ensures Search(text) == MatchAt(text, p)
  {
    var r := FirstMatchFrom(text, 0);
    if r.None? {
      FirstMatchFromMissesNothing(text, 0, p);
    } else if r.value < p {
      FirstMatchFromMatches(text, 0);
    } else if r.value > p {
      FirstMatchFromIsLeftmost(text, 0, p);
    }
  }

  // ---------------------------------------------------------------------------
  // 12-hour to 24-hour rewriting
  // ---------------------------------------------------------------------------

  /** The 24-hour value a 12-hour reading stands for: 12 AM is midnight, 12 PM is
      noon, any other PM hour is twelve later. */
  function TwentyFourHour(h: nat, m: Meridiem): nat {
    match m
    case AM => if h == 12 then 0 else h
    case PM => if h == 12 then 12 else h + 12
  }

  /** The hour digits of one capture as `parseTimeRange` rewrites them when a
      meridiem is present: `${hour + 12}` for a PM hour other than 12, "00" for
      12 AM, and the digits as written otherwise. */
  function ConvertHour(hour: string, m: Meridiem): (r: string)
    requires 1 <= |hour| <= 2 && AllDigits(hour)
    ensures 1 <= |r| && AllDigits(r)
    ensures ParseDigits(r) == TwentyFourHour(ParseDigits(hour), m)
    ensures (m == PM && ParseDigits(hour) == 12) || (m == AM && ParseDigits(hour) != 12) ==> r == hour
  {
    var h := ParseDigits(hour);
    if m == PM && h != 12 then
      ParseNatToString(h + 12);
      NatToString(h + 12)
    else if m == AM && h == 12 then
      ParseZeroZero();
      "00"
    else
      hour
  }

  lemma ParseZeroZero()
    ensures AllDigits("00") && ParseDigits("00") == 0
  {
    assert "00"[..1] == "0";
    assert "0"[..0] == "";
  }

  /** One capture rewritten: new hour digits, the same minutes. */
  function Convert(c: Clock, m: Meridiem): string
    requires c.Valid()
  {
    ConvertHour(c.hour, m) + ":" + c.minute
  }

  /** `parseTimeRange(text)`. */
  function ParseTimeRange(text: string): (r: Range)
    ensures Search(text).None? ==> r == Range("", "")
    ensures Search(text).Some? && Search(text).value.meridiem.None? ==>
      r == Range(Search(text).value.start.Text(), Search(text).value.end.Text())
    ensures Search(text).Some? && Search(text).value.meridiem.Some? ==>
      r == Range(Convert(Search(text).value.start, Search(text).value.meridiem.value),
                 Convert(Search(text).value.end, Search(text).value.meridiem.value))
  {
    match Search(text)
    case None => Range("", "")
    case Some(Match(a, b, None)) => Range(a.Text(), b.Text())
    case Some(Match(a, b, Some(m))) => Range(Convert(a, m), Convert(b, m))
  }

  // ---------------------------------------------------------------------------
  // Properties
  // ---------------------------------------------------------------------------

  /** A trailing PM moves every hour but 12 twelve hours later and leaves 12 as
      written; a trailing AM turns 12 into "00" and leaves any other hour exactly
      as written (no zero padding). Minutes are never touched. */
  lemma MeridiemRewriting(c: Clock, m: Meridiem)
    requires c.Valid()
    ensures m == PM && ParseDigits(c.hour) != 12 ==> Convert(c, m) == NatToString(ParseDigits(c.hour) + 12) + ":" + c.minute
    ensures m == PM && ParseDigits(c.hour) == 12 ==> Convert(c, m) == c.Text()
    ensures m == AM && ParseDigits(c.hour) == 12 ==> Convert(c, m) == "00:" + c.minute
    ensures m == AM && ParseDigits(c.hour) != 12 ==> Convert(c, m) == c.Text()
  {
  }

  /** `s` holds `t` starting at position `i`. */
  predicate TextAt(s: string, i: nat, t: string) {
    i + |t| <= |s| && forall k :: 0 <= k < |t| ==> s[i + k] == t[k]
  }

  lemma ClockAtText(s: string, i: nat, c: Clock)
    requires c.Valid() && TextAt(s, i, c.Text())
    ensures ClockAt(s, i) == Some(Scan(c, i + |c.Text()|))
  {
    var t := c.Text();
    assert t[0] == c.hour[0];
    if |c.hour| == 2 {
      assert t[1] == c.hour[1] && t[2] == ':' && t[3] == c.minute[0] && t[4] == c.minute[1];
      assert s[i..i + 2] == c.hour;
      assert s[i + 3..i + 5] == c.minute;
    } else {
      assert t[1] == ':' && t[2] == c.minute[0] && t[3] == c.minute[1];
      assert s[i..i + 1] == c.hour;
      assert s[i + 2..i + 4] == c.minute;
    }
  }

  lemma DigitIsNotWhitespace(c: char)
    requires IsDigit(c)
    ensures !IsWhitespace(c)
  {
  }

  lemma SpaceThen(s: string, i: nat)
    requires i + 1 < |s| && s[i] == ' ' && !IsWhitespace(s[i + 1])
    ensures SpaceRun(s, i) == 1
  {
    assert SpaceRun(s, i + 1) == 0;
  }

  /** The canonical spelling `H:MM - H:MM` with an optional ` AM`/` PM` is matched
      at its first character and yields exactly its parts. */
  lemma CanonicalRangeIsFound(a: Clock, b: Clock, m: Option<Meridiem>)
    requires a.Valid() && b.Valid()
    ensures Search(a.Text() + " - " + b.Text() + MeridiemSuffix(m)) == Some(Match(a, b, m))
  {
    var s := a.Text() + " - " + b.Text() + MeridiemSuffix(m);
    CanonicalLayout(a.Text(), b.Text(), MeridiemSuffix(m), s);
    MatchAtLayout(s, a, b, m);
    SearchFindsLeftmost(s, 0);
  }

  lemma CanonicalLayout(ta: string, tb: string, tm: string, s: string)
    requires s == ta + " - " + tb + tm
    ensures TextAt(s, 0, ta) && TextAt(s, |ta| + 3, tb)
    ensures s[|ta|] == ' ' && s[|ta| + 1] == '-' && s[|ta| + 2] == ' '
    ensures TextAt(s, |ta| + 3 + |tb|, tm) && |s| == |ta| + 3 + |tb| + |tm|
  {
    var q := |ta| + 3;
    assert TextAt(s, q, tb) by {
      forall k | 0 <= k < |tb| ensures s[q + k] == tb[k] { }
    }
    var e := q + |tb|;
    assert TextAt(s, e, tm) by {
      forall k | 0 <= k < |tm| ensures s[e + k] == tm[k] { }
    }
  }

  lemma MatchAtLayout(s: string, a: Clock, b: Clock, m: Option<Meridiem>)
    requires a.Valid() && b.Valid()
    requires TextAt(s, 0, a.Text()) && TextAt(s, |a.Text()| + 3, b.Text())
    requires s[|a.Text()|] == ' ' && s[|a.Text()| + 1] == '-' && s[|a.Text()| + 2] == ' '
    requires TextAt(s, |a.Text()| + 3 + |b.Text()|, MeridiemSuffix(m))
    requires |s| == |a.Text()| + 3 + |b.Text()| + |MeridiemSuffix(m)|
    ensures MatchAt(s, 0) == Some(Match(a, b, m))
  {
    var la := |a.Text()|;
    var q := la + 3;
    var e := q + |b.Text()|;
    ClockAtText(s, 0, a);
    ClockAtText(s, q, b);
    GapAround(s, la, b);
    MeridiemAfter(s, e, m);
    MatchAtFromParts(s, a, b, m, la, e);
  }

  /** `MatchAt` assembled from the scans of its parts. */
  lemma MatchAtFromParts(s: string, a: Clock, b: Clock, m: Option<Meridiem>, la: nat, e: nat)
    requires la + 3 <= e <= |s|
    requires ClockAt(s, 0) == Some(Scan(a, la))
    requires la + SpaceRun(s, la) == la + 1 && s[la + 1] == '-'
    requires (la + 2) + SpaceRun(s, la + 2) == la + 3
    requires ClockAt(s, la + 3) == Some(Scan(b, e))
    requires MeridiemAt(s, e + SpaceRun(s, e)) == m
    ensures MatchAt(s, 0) == Some(Match(a, b, m))
  {
  }

  /** The " - " between the two readings is skipped exactly. */
  lemma GapAround(s: string, la: nat, b: Clock)
    requires b.Valid() && TextAt(s, la + 3, b.Text())
    requires s[la] == ' ' && s[la + 1] == '-' && s[la + 2] == ' '
    ensures la + SpaceRun(s, la) == la + 1
    ensures (la + 2) + SpaceRun(s, la + 2) == la + 3
  {
    SpaceThen(s, la);
    assert s[la + 3 + 0] == b.Text()[0] == b.hour[0];
    DigitIsNotWhitespace(s[la + 3]);
    SpaceThen(s, la + 2);
  }

  lemma MeridiemAfter(s: string, e: nat, m: Option<Meridiem>)
    requires TextAt(s, e, MeridiemSuffix(m)) && |s| == e + |MeridiemSuffix(m)|
    ensures MeridiemAt(s, e + SpaceRun(s, e)) == m
  {
    var tm := MeridiemSuffix(m);
    if m.Some? {
      assert tm[0] == ' ' && tm[2] == 'M' && (tm[1] == 'A' || tm[1] == 'P');
      assert s[e + 0] == tm[0] && s[e + 1] == tm[1] && s[e + 2] == tm[2];
      SpaceThen(s, e);
    }
  }

  function MeridiemSuffix(m: Option<Meridiem>): string {
    match m
    case None => ""
    case Some(AM) => " AM"
    case Some(PM) => " PM"
  }

  /** Parsing the canonical spelling gives its two readings, rewritten to the
      24-hour clock exactly when a meridiem is present. */
  lemma ParseCanonicalRange(text: string, a: Clock, b: Clock, m: Option<Meridiem>)
    requires a.Valid() && b.Valid()
    requires text == a.Text() + " - " + b.Text() + MeridiemSuffix(m)
    ensures m.None? ==> ParseTimeRange(text) == Range(a.Text(), b.Text())
    ensures m.Some? ==> ParseTimeRange(text) == Range(Convert(a, m.value), Convert(b, m.value))
  {
    CanonicalRangeIsFound(a, b, m);
  }

  /** "8:30 - 8:50 AM" keeps its unpadded hours: the start comes back as "8:30". */
  lemma MorningRangeIsNotPadded(text: string)
    requires text == "8:30 - 8:50 AM"
    ensures ParseTimeRange(text) == Range("8:30", "8:50")
  {
    var a, b := Clock("8", "30"), Clock("8", "50");
    MorningReadings(a, b);
    ParseCanonicalRange(text, a, b, Some(AM));
  }

  lemma MorningReadings(a: Clock, b: Clock)
    requires a == Clock("8", "30") && b == Clock("8", "50")
    ensures Convert(a, AM) == "8:30" && Convert(b, AM) == "8:50"
  {
    assert ParseDigits(a.hour) == 8 by { assert a.hour[..0] == ""; }
    MeridiemRewriting(a, AM);
    MeridiemRewriting(b, AM);
  }

  /** "1:30 - 2:00 PM" becomes "13:30" to "14:00". */
  lemma AfternoonRangeIsShifted(text: string)
    requires text == "1:30 - 2:00 PM"
    ensures ParseTimeRange(text) == Range("13:30", "14:00")
  {
    var a, b := Clock("1", "30"), Clock("2", "00");
    AfternoonReadings(a, b);
    ParseCanonicalRange(text, a, b, Some(PM));
  }

  lemma AfternoonReadings(a: Clock, b: Clock)
    requires a == Clock("1", "30") && b == Clock("2", "00")
    ensures Convert(a, PM) == "13:30" && Convert(b, PM) == "14:00"
  {
    assert ParseDigits(a.hour) == 1 by { assert a.hour[..0] == ""; }
    assert ParseDigits(b.hour) == 2 by { assert b.hour[..0] == ""; }
    MeridiemRewriting(a, PM);
    MeridiemRewriting(b, PM);
    assert NatToString(13) == "13";
    assert NatToString(14) == "14";
  }

  /** Without a meridiem "1:00 - 1:10" passes through unconverted. */
  lemma RangeWithoutMeridiemIsVerbatim(text: string)
    requires text == "1:00 - 1:10"
    ensures ParseTimeRange(text) == Range("1:00", "1:10")
  {
    var a, b := Clock("1", "00"), Clock("1", "10");
    PlainReadings(a, b);
    ParseCanonicalRange(text, a, b, None);
  }

  lemma PlainReadings(a: Clock, b: Clock)
    requires a == Clock("1", "00") && b == Clock("1", "10")
    ensures a.Valid() && b.Valid()
    ensures a.Text() == "1:00" && b.Text() == "1:10"
    ensures a.Text() + " - " + b.Text() + MeridiemSuffix(None) == "1:00 - 1:10"
  {
  }

  /** Text with no digit at all has no match, so both fields are empty. */
  lemma NoDigitsNoRange(text: string)
    requires forall i :: 0 <= i < |text| ==> !IsDigit(text[i])
    ensures ParseTimeRange(text) == Range("", "")
  {
    forall p | 0 <= p <= |text|
      ensures MatchAt(text, p).None?
    {
      assert ClockAt(text, p).None?;
    }
  }
}
