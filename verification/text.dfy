/**
  The JavaScript string operations the lesson planner relies on, over `string`
  (a sequence of characters): `trim`, `toLowerCase`, `split`/`join`,
  `includes`, `replace` of a first occurrence, `parseInt` of decimal and
  hexadecimal digit runs, number-to-decimal-text, and the lexicographic order
  that `<` and `>=` use on strings.
*/
module Text {
  import opened Wrappers

  // ---------------------------------------------------------------------------
  // Characters
  // ---------------------------------------------------------------------------

  /** The characters `trim` strips and the regular-expression class `\s` matches:
      ECMAScript WhiteSpace and LineTerminator code points. */
  predicate IsWhitespace(c: char) {
    if c <= ' ' then c == ' ' || ('\t' <= c <= '\r')
    else if c < '\U{00A0}' then false
    else IsWideWhitespace(c)
  }

  /** The white space above U+009F: no-break space, the Unicode space separators,
      the line and paragraph separators and the byte-order mark. */
  predicate IsWideWhitespace(c: char) {
    || c == '\U{00A0}' || c == '\U{1680}' || ('\U{2000}' <= c <= '\U{200A}')
    || c == '\U{2028}' || c == '\U{2029}' || c == '\U{202F}' || c == '\U{205F}'
    || c == '\U{3000}' || c == '\U{FEFF}'
  }

  predicate IsDigit(c: char) {
    '0' <= c <= '9'
  }

  predicate AllDigits(s: string) {
    forall i :: 0 <= i < |s| ==> IsDigit(s[i])
  }

  function DigitValue(c: char): (v: nat)
    requires IsDigit(c)
    ensures v < 10
  {
    c as int - '0' as int
  }

  function DigitChar(v: nat): (c: char)
    requires v < 10
    ensures IsDigit(c) && DigitValue(c) == v
  {
    ('0' as int + v) as char
  }

  predicate IsHexDigit(c: char) {
    IsDigit(c) || ('a' <= c <= 'f') || ('A' <= c <= 'F')
  }

  function HexValue(c: char): (v: nat)
    requires IsHexDigit(c)
    ensures v < 16
  {
    if IsDigit(c) then DigitValue(c)
    else if 'a' <= c <= 'f' then c as int - 'a' as int + 10
    else c as int - 'A' as int + 10
  }

  // ---------------------------------------------------------------------------
  // trim
  // ---------------------------------------------------------------------------

  predicate AllWhitespace(s: string) {
    forall i :: 0 <= i < |s| ==> IsWhitespace(s[i])
  }

  function TrimStart(s: string): (r: string)
    ensures |r| <= |s| && r == s[|s| - |r|..]
    ensures AllWhitespace(s[..|s| - |r|])
    ensures r == [] || !IsWhitespace(r[0])
  {
    if |s| > 0 && IsWhitespace(s[0]) then
      var r := TrimStart(s[1..]);
      var k := |s| - |r|;
      assert s[..k] == [s[0]] + s[1..][..k - 1];
      r
    else
      assert s[..0] == [];
      s
  }

  function TrimEnd(s: string): (r: string)
    ensures |r| <= |s| && r == s[..|r|]
    ensures AllWhitespace(s[|r|..])
    ensures r == [] || !IsWhitespace(r[|r| - 1])
  {
    if |s| > 0 && IsWhitespace(s[|s| - 1]) then
      var r := TrimEnd(s[..|s| - 1]);
      assert s[|r|..] == s[..|s| - 1][|r|..] + [s[|s| - 1]];
      r
    else
      assert s[|s|..] == [];
      s
  }

  /** `String.prototype.trim`: drop leading, then trailing, white space. */
  function Trim(s: string): (r: string)
    ensures |r| <= |s|
    ensures r == [] || (!IsWhitespace(r[0]) && !IsWhitespace(r[|r| - 1]))
  {
    var t := TrimStart(s);
    var r := TrimEnd(t);
    assert r != [] ==> r[0] == t[0];
    r
  }

  /** How many characters `trim` drops at the front. */
  function TrimOffset(s: string): (a: nat)
    ensures a <= |s|
  {
    |s| - |TrimStart(s)|
  }

  /** What `Trim` keeps is an infix of the input, and everything it drops on
      either side is white space. */
  lemma TrimDropsOnlyWhitespace(s: string)
    ensures TrimOffset(s) + |Trim(s)| <= |s|
    ensures Trim(s) == s[TrimOffset(s)..TrimOffset(s) + |Trim(s)|]
    ensures AllWhitespace(s[..TrimOffset(s)])
    ensures AllWhitespace(s[TrimOffset(s) + |Trim(s)|..])
  {
    TrimKeepsInfix(s);
    TrimDropsTrailing(s);
  }

  lemma TrimKeepsInfix(s: string)
    ensures TrimOffset(s) + |Trim(s)| <= |s|
    ensures Trim(s) == s[TrimOffset(s)..TrimOffset(s) + |Trim(s)|]
  {
    var t := TrimStart(s);
    var r := TrimEnd(t);
    var a := |s| - |t|;
    assert t == s[a..];
    assert r == t[..|r|];
    assert Trim(s) == r;
  }

  lemma TrimDropsTrailing(s: string)
    ensures TrimOffset(s) + |Trim(s)| <= |s|
    ensures AllWhitespace(s[TrimOffset(s) + |Trim(s)|..])
  {
    var t := TrimStart(s);
    var r := TrimEnd(t);
    var a := |s| - |t|;
    assert t == s[a..];
    assert s[a + |r|..] == t[|r|..];
    assert Trim(s) == r;
  }

  /** A string is blank (trims to "") exactly when every character is white space. */
  lemma TrimEmptyIffBlank(s: string)
    ensures Trim(s) == [] <==> AllWhitespace(s)
  {
    var r := Trim(s);
    var a := TrimOffset(s);
    TrimDropsOnlyWhitespace(s);
    if r != [] {
      assert s[a] == r[0];
    } else {
      assert s == s[..a] + s[a..];
    }
  }

  /** A string that starts and ends with non-blank characters trims to itself. */
  lemma TrimOfTrimmed(s: string)
    requires s == [] || (!IsWhitespace(s[0]) && !IsWhitespace(s[|s| - 1]))
    ensures Trim(s) == s
  {
    TrimIsBothEnds(s);
    if s == [] {
      assert TrimStart(s) == [];
    } else {
      TrimStartStops(s);
      TrimEndStops(s);
    }
  }

  lemma TrimIsBothEnds(s: string)
    ensures Trim(s) == TrimEnd(TrimStart(s))
  {
  }

  lemma TrimStartStops(s: string)
    requires s != [] && !IsWhitespace(s[0])
    ensures TrimStart(s) == s
  {
  }

  lemma TrimEndStops(s: string)
    requires s != [] && !IsWhitespace(s[|s| - 1])
    ensures TrimEnd(s) == s
  {
  }

  /** Trimming twice is trimming once. */
  lemma TrimIdempotent(s: string)
    ensures Trim(Trim(s)) == Trim(s)
  {
    TrimOfTrimmed(Trim(s));
  }

  // ---------------------------------------------------------------------------
  // toLowerCase
  // ---------------------------------------------------------------------------

  function LowerChar(c: char): char {
    if 'A' <= c <= 'Z' then (c as int - 'A' as int + 'a' as int) as char else c
  }

  /** `String.prototype.toLowerCase`, restricted to the ASCII letters. */
  function ToLower(s: string): (r: string)
    ensures |r| == |s|
    ensures forall i :: 0 <= i < |s| ==> r[i] == LowerChar(s[i])
  {
    seq(|s|, i requires 0 <= i < |s| => LowerChar(s[i]))
  }

  /** A trimmed string stays trimmed when lower-cased, and lower-casing it again
      changes nothing: `toLowerCase(trim(h))` is a fixed point of both. */
  lemma LowerOfTrimmed(t: string)
    requires t == [] || (!IsWhitespace(t[0]) && !IsWhitespace(t[|t| - 1]))
    ensures Trim(ToLower(t)) == ToLower(t)
    ensures ToLower(ToLower(t)) == ToLower(t)
  {
    var l := ToLower(t);
    if t != [] {
      LowerCharKeepsNonBlank(t[0]);
      LowerCharKeepsNonBlank(t[|t| - 1]);
    }
    TrimOfTrimmed(l);
    ToLowerIdempotent(t);
  }

  lemma LowerCharKeepsNonBlank(c: char)
    requires !IsWhitespace(c)
    ensures !IsWhitespace(LowerChar(c))
  {
    if 'A' <= c <= 'Z' {
      assert 'a' <= LowerChar(c) <= 'z';
    }
  }

  /** Lower-casing twice is lower-casing once. */
  lemma ToLowerIdempotent(s: string)
    ensures ToLower(ToLower(s)) == ToLower(s)
  {
    var l := ToLower(s);
    assert forall i :: 0 <= i < |l| ==> LowerChar(l[i]) == l[i];
  }

  // ---------------------------------------------------------------------------
  // split / join on a single separator character
  // ---------------------------------------------------------------------------

  function FirstIndex(s: string, c: char): (i: nat)
    requires c in s
    ensures i < |s| && s[i] == c && c !in s[..i]
  {
    if s[0] == c then 0
    else
      assert c in s[1..] by { var k :| 0 <= k < |s| && s[k] == c; assert s[1..][k - 1] == c; }
      var j := FirstIndex(s[1..], c);
      assert s[..j + 1] == [s[0]] + s[1..][..j];
      j + 1
  }

  /** `String.prototype.split(sep)`: the pieces between separators, always at least one. */
  function Split(s: string, sep: char): (parts: seq<string>)
    ensures |parts| >= 1
    ensures forall i :: 0 <= i < |parts| ==> sep !in parts[i]
    decreases |s|
  {
    if sep in s then
      var i := FirstIndex(s, sep);
      [s[..i]] + Split(s[i + 1..], sep)
    else
      [s]
  }

  /** `Array.prototype.join(sep)` of a non-empty list. */
  function Join(parts: seq<string>, sep: char): string
    requires |parts| >= 1
  {
    if |parts| == 1 then parts[0] else parts[0] + [sep] + Join(parts[1..], sep)
  }

  /** Joining the pieces of a split gives back the original text. */
  lemma {:induction false} JoinSplit(s: string, sep: char)
    ensures Join(Split(s, sep), sep) == s
    decreases |s|
  {
    if sep in s {
      var i := FirstIndex(s, sep);
      JoinSplit(s[i + 1..], sep);
      var parts := Split(s, sep);
      assert parts[1..] == Split(s[i + 1..], sep);
      assert s == s[..i] + [sep] + s[i + 1..];
    }
  }

  lemma {:induction false} FirstIndexAfterPrefix(p: string, rest: string, sep: char)
    requires sep !in p
    ensures FirstIndex(p + [sep] + rest, sep) == |p|
    decreases |p|
  {
    var s := p + [sep] + rest;
    if |p| > 0 {
      assert s[1..] == p[1..] + [sep] + rest;
      FirstIndexAfterPrefix(p[1..], rest, sep);
    }
  }

  /** Splitting a join of separator-free pieces gives back the pieces. */
  lemma {:induction false} SplitJoin(parts: seq<string>, sep: char)
    requires |parts| >= 1
    requires forall i :: 0 <= i < |parts| ==> sep !in parts[i]
    ensures Split(Join(parts, sep), sep) == parts
    decreases |parts|
  {
    if |parts| > 1 {
      var s := Join(parts, sep);
      var p := parts[0];
      assert s == p + [sep] + Join(parts[1..], sep);
      assert s[|p|] == sep;
      assert sep in s;
      assert s[..|p|] == p;
      FirstIndexAfterPrefix(p, Join(parts[1..], sep), sep);
      assert s[|p| + 1..] == Join(parts[1..], sep);
      SplitJoin(parts[1..], sep);
    } else {
      assert sep !in parts[0];
    }
  }

  // ---------------------------------------------------------------------------
  // includes / indexOf / replace (first occurrence)
  // ---------------------------------------------------------------------------

  predicate OccursAt(s: string, pat: string, i: nat) {
    i + |pat| <= |s| && s[i..i + |pat|] == pat
  }

  function FindFrom(s: string, pat: string, from: nat): (r: Option<nat>)
    ensures r.Some? ==> from <= r.value && OccursAt(s, pat, r.value)
    ensures r.Some? ==> forall j :: from <= j < r.value ==> !OccursAt(s, pat, j)
    ensures r.None? ==> forall j :: from <= j ==> !OccursAt(s, pat, j)
    decreases |s| - from
  {
    if from + |pat| > |s| then None
    else if s[from..from + |pat|] == pat then Some(from)
    else FindFrom(s, pat, from + 1)
  }

  /** `String.prototype.indexOf(pat)`: the leftmost occurrence, if any. */
  function IndexOf(s: string, pat: string): (r: Option<nat>)
    ensures r.Some? ==> OccursAt(s, pat, r.value) && forall j: nat :: j < r.value ==> !OccursAt(s, pat, j)
    ensures r.None? ==> forall j: nat :: !OccursAt(s, pat, j)
  {
    FindFrom(s, pat, 0)
  }

  /** `String.prototype.includes(pat)`. */
  predicate Contains(s: string, pat: string) {
    IndexOf(s, pat).Some?
  }

  lemma ContainsIffOccurs(s: string, pat: string)
    ensures Contains(s, pat) <==> exists j: nat :: OccursAt(s, pat, j)
  {
  }

  /** `String.prototype.replace(pat, rep)` with a string pattern: only the leftmost
      occurrence is replaced; without one the text is unchanged. */
  function ReplaceFirst(s: string, pat: string, rep: string): (r: string)
    ensures !Contains(s, pat) ==> r == s
    ensures Contains(s, pat) ==>
      var i := IndexOf(s, pat).value;
      |r| == |s| - |pat| + |rep|
      && r[..i] == s[..i] && r[i..i + |rep|] == rep && r[i + |rep|..] == s[i + |pat|..]
  {
    match IndexOf(s, pat)
    case None => s
    case Some(i) => s[..i] + rep + s[i + |pat|..]
  }

  // ---------------------------------------------------------------------------
  // Decimal numbers
  // ---------------------------------------------------------------------------

  /** `parseInt` of a run of decimal digits. */
  function ParseDigits(s: string): (n: nat)
    requires AllDigits(s)
  {
    if |s| == 0 then 0 else ParseDigits(s[..|s| - 1]) * 10 + DigitValue(s[|s| - 1])
  }

  /** The decimal text of a natural number, without leading zeros (JavaScript's
      `${n}` on a non-negative integer). */
  function NatToString(n: nat): (s: string)
    ensures |s| >= 1 && AllDigits(s)
    ensures (n < 10) == (|s| == 1)
    ensures n < 100 ==> |s| <= 2
  {
    if n < 10 then [DigitChar(n)] else NatToString(n / 10) + [DigitChar(n % 10)]
  }

  /** Reading back the decimal text of `n` gives `n`. */
  lemma {:induction false} ParseNatToString(n: nat)
    ensures ParseDigits(NatToString(n)) == n
  {
    var s := NatToString(n);
    if n >= 10 {
      ParseNatToString(n / 10);
      assert s[..|s| - 1] == NatToString(n / 10);
    } else {
      assert s[..0] == [];
    }
  }

  /** The length of the run of decimal digits starting at `i`. */
  function DigitRunLength(s: string, i: nat): (k: nat)
    requires i <= |s|
    ensures i + k <= |s|
    ensures AllDigits(s[i..i + k])
    ensures i + k == |s| || !IsDigit(s[i + k])
    decreases |s| - i
  {
    if i < |s| && IsDigit(s[i]) then
      var k := 1 + DigitRunLength(s, i + 1);
      assert s[i..i + k] == [s[i]] + s[i + 1..i + k];
      k
    else 0
  }

  /** `parseInt(s)` without a radix: leading white space and one sign are
      skipped, "0x"/"0X" switches to hexadecimal, and the longest run of digits
      that follows is read. `None` stands for `NaN` (no digit there). */
  function ParseInt(s: string): (r: Option<int>)
  {
    var t := TrimStart(s);
    var negative := |t| > 0 && t[0] == '-';
    var u := if |t| > 0 && (t[0] == '-' || t[0] == '+') then t[1..] else t;
    var magnitude: Option<nat> :=
      if |u| >= 2 && u[0] == '0' && (u[1] == 'x' || u[1] == 'X') then ParseHexPrefix(u[2..])
      else
        var k := DigitRunLength(u, 0);
        if k == 0 then None else Some(ParseDigits(u[..k]));
    match magnitude
    case None => None
    case Some(m) => Some(if negative then -(m as int) else m as int)
  }

  /** On two decimal digits `parseInt` is the plain decimal value. */
  lemma ParseIntOfTwoDigits(s: string)
    requires |s| == 2 && AllDigits(s)
    ensures ParseInt(s) == Some(ParseDigits(s))
  {
    TrimStartStops(s);
    assert DigitRunLength(s, 1) == 1 by {
      assert DigitRunLength(s, 2) == 0;
    }
    assert s[..2] == s;
  }

  /** JavaScript's `${n}` on an integer-valued number; `None` (`NaN`) prints as "NaN". */
  function NumberToString(n: Option<int>): (s: string)
    ensures n.Some? && n.value >= 0 ==> s == NatToString(n.value)
  {
    match n
    case None => "NaN"
    case Some(v) => if v >= 0 then NatToString(v) else "-" + NatToString(-v)
  }

  /** `parseInt(s, 16)` of the leading hexadecimal digits of `s`; `None` stands
      for `NaN` (no leading hex digit). */
  function ParseHexPrefix(s: string): (r: Option<nat>)
    ensures r.Some? <==> (|s| > 0 && IsHexDigit(s[0]))
  {
    if |s| > 0 && IsHexDigit(s[0]) then Some(HexRun(s, HexRunLength(s, 0))) else None
  }

  function HexRunLength(s: string, i: nat): (k: nat)
    requires i <= |s|
    ensures i + k <= |s|
    ensures forall j :: i <= j < i + k ==> IsHexDigit(s[j])
    ensures i + k == |s| || !IsHexDigit(s[i + k])
    decreases |s| - i
  {
    if i < |s| && IsHexDigit(s[i]) then 1 + HexRunLength(s, i + 1) else 0
  }

  function HexRun(s: string, k: nat): (v: nat)
    requires k <= |s| && forall j :: 0 <= j < k ==> IsHexDigit(s[j])
    ensures v < Pow16(k)
  {
    if k == 0 then 0 else HexRun(s, k - 1) * 16 + HexValue(s[k - 1])
  }

  function Pow16(k: nat): (p: nat)
    ensures p >= 1
  {
    if k == 0 then 1 else 16 * Pow16(k - 1)
  }

  // ---------------------------------------------------------------------------
  // Lexicographic order (`<`, `>=`). A Dafny `char` is a Unicode scalar value,
  // so this is code-point order; JavaScript compares UTF-16 code units, and the
  // two agree on every character below U+10000.
  // ---------------------------------------------------------------------------

  predicate LexLess(a: string, b: string) {
    if |a| == 0 then |b| > 0
    else if |b| == 0 then false
    else if a[0] != b[0] then a[0] < b[0]
    else LexLess(a[1..], b[1..])
  }

  predicate LexLessEq(a: string, b: string) {
    a == b || LexLess(a, b)
  }

  /** Strings of one length compare at their first differing character. */
  lemma {:induction false} LexLessAtFirstDifference(x: string, y: string, i: nat)
    requires |x| == |y| && i < |x| && x[..i] == y[..i] && x[i] != y[i]
    ensures LexLess(x, y) <==> x[i] < y[i]
  {
    if i > 0 {
      assert x[0] == x[..i][0] == y[..i][0] == y[0];
      assert x[1..][..i - 1] == x[..i][1..] == y[..i][1..] == y[1..][..i - 1];
      LexLessAtFirstDifference(x[1..], y[1..], i - 1);
    }
  }

  lemma {:induction false} LexLessIrreflexive(a: string)
    ensures !LexLess(a, a)
  {
    if |a| > 0 {
      LexLessIrreflexive(a[1..]);
    }
  }

  lemma {:induction false} LexLessAsymmetric(a: string, b: string)
    ensures LexLess(a, b) ==> !LexLess(b, a)
  {
    if |a| > 0 && |b| > 0 && a[0] == b[0] {
      LexLessAsymmetric(a[1..], b[1..]);
    }
  }

  lemma {:induction false} LexLessTransitive(a: string, b: string, c: string)
    requires LexLess(a, b) && LexLess(b, c)
    ensures LexLess(a, c)
  {
    if |a| > 0 && |b| > 0 && |c| > 0 && a[0] == b[0] && b[0] == c[0] {
      LexLessTransitive(a[1..], b[1..], c[1..]);
    }
  }

  /** Two different strings are always ordered one way or the other. */
  lemma {:induction false} LexLessTotal(a: string, b: string)
    ensures a == b || LexLess(a, b) || LexLess(b, a)
  {
    if |a| > 0 && |b| > 0 && a[0] == b[0] {
      LexLessTotal(a[1..], b[1..]);
      if a[1..] == b[1..] {
        assert a == [a[0]] + a[1..] && b == [b[0]] + b[1..];
      }
    }
  }
}
