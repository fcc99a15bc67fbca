/**
 * Date normalisation (`parse_date`): a cascade of five patterns, tried in
 * order on the stripped input, each rewriting a date into `MM/DD/YYYY`; a
 * general-purpose parser is the last resort, and the stripped input is
 * returned when nothing applies.
 *
 * Each regular expression is written out as an ASCII matcher over maximal
 * character runs. The fallback parser is a parameter: `fallback(t)` is the
 * formatted date it produces for `t`, or `None` when it raises.
 */
module Dates {
  import opened Wrappers
  import opened Strings
  import FieldValue

  /** The character classes the patterns use: `\d`, `\w`, `\s`. */
  datatype CharClass = Digit | Word | Space

  predicate InClass(c: char, k: CharClass) {
    match k
    case Digit => IsDigit(c)
    case Word => IsWordChar(c)
    case Space => IsSpace(c)
  }

  predicate AllIn(s: string, k: CharClass) { forall i | 0 <= i < |s| :: InClass(s[i], k) }

  /**
   * Split `s` into its longest prefix of class-`k` characters and the rest:
   * how a greedy `\d+`, `\w+` or `\s+` consumes input.
   */
  function TakeRun(s: string, k: CharClass): (r: (string, string))
    ensures r.0 + r.1 == s
  {
    if s != [] && InClass(s[0], k) then
      var (run, rest) := TakeRun(s[1..], k);
      assert [s[0]] + run + rest == s;
      ([s[0]] + run, rest)
    else ([], s)
  }

  /** `TakeRun` splits off a run of class `k` and stops at a non-member or the end. */
  lemma {:induction false} TakeRunSplits(s: string, k: CharClass)
    ensures AllIn(TakeRun(s, k).0, k)
    ensures TakeRun(s, k).1 == [] || !InClass(TakeRun(s, k).1[0], k)
  {
    if s != [] && InClass(s[0], k) {
      TakeRunSplits(s[1..], k);
    }
  }

  /** A run of class `k` followed by a non-member (or nothing) is what `TakeRun` splits off. */
  lemma {:induction false} TakeRunOf(a: string, rest: string, k: CharClass)
    requires AllIn(a, k) && (rest == [] || !InClass(rest[0], k))
    ensures TakeRun(a + rest, k) == (a, rest)
  {
    if a == [] {
      assert a + rest == rest;
    } else {
      var s := a + rest;
      assert s[0] == a[0] && InClass(a[0], k);
      assert s[1..] == a[1..] + rest;
      TakeRunOf(a[1..], rest, k);
      assert TakeRun(s, k) == ([s[0]] + a[1..], rest);
      assert [a[0]] + a[1..] == a;
    }
  }

  /** The separator class `[/-]`. */
  predicate IsDateSep(c: char) { c == '/' || c == '-' }

  /** Accepted month names and abbreviations (main.py:19-32). */
  const MONTH_NUMBERS: map<string, nat> := map[
    "january" := 1, "jan" := 1,
    "february" := 2, "feb" := 2,
    "march" := 3, "mar" := 3,
    "april" := 4, "apr" := 4,
    "may" := 5,
    "june" := 6, "jun" := 6,
    "july" := 7, "jul" := 7,
    "august" := 8, "aug" := 8,
    "september" := 9, "sep" := 9, "sept" := 9,
    "october" := 10, "oct" := 10,
    "november" := 11, "nov" := 11,
    "december" := 12, "dec" := 12
  ]

  /** Every month key is a lower-case word of three letters or more, numbered 1-12. */
  lemma MonthNumbersShape()
    ensures forall name | name in MONTH_NUMBERS ::
      |name| >= 3 && (forall i | 0 <= i < |name| :: 'a' <= name[i] <= 'z') && 1 <= MONTH_NUMBERS[name] <= 12
  {
  }

  /** The month number for a lower-cased name (`month_names[month_str]`), if it is a key. */
  function MonthNumber(name: string): (r: Option<nat>)
    ensures r.Some? <==> name in MONTH_NUMBERS
    ensures r.Some? ==> 1 <= r.value <= 12 && r.value == MONTH_NUMBERS[name]
  {
    MonthNumbersShape();
    if name in MONTH_NUMBERS then Some(MONTH_NUMBERS[name]) else None
  }

  /** A word that starts with a digit is never a month name, whatever its case. */
  lemma DigitWordIsNoMonth(w: string)
    requires w != [] && IsDigit(w[0])
    ensures Lower(w) !in MONTH_NUMBERS
  {
    MonthNumbersShape();
    assert Lower(w)[0] == LowerChar(w[0]) == w[0];
  }

  /** `f"{month:02d}/{day:02d}/{year}"`. */
  function FormatDate(month: nat, day: nat, year: nat): string
    requires month < 100 && day < 100
  {
    Pad2(month) + "/" + Pad2(day) + "/" + NatToString(year)
  }

  /** `r` is a formatted date with month 1-12, day 1-31 and a year of at most four digits. */
  ghost predicate IsFormatted(r: string) {
    exists m: nat, d: nat, y: nat | 1 <= m <= 12 && 1 <= d <= 31 && y <= 9999 :: r == FormatDate(m, d, y)
  }

  /** The groups and separators of `^(\d{1,2})[/-](\d{1,2})[/-](\d{4})$`. */
  predicate NumericShape(a: string, c1: char, b: string, c2: char, y: string) {
    && 1 <= |a| <= 2 && AllDigits(a) && 1 <= |b| <= 2 && AllDigits(b) && |y| == 4 && AllDigits(y)
    && IsDateSep(c1) && IsDateSep(c2)
  }

  /** The groups of `^(\d{1,2})[-](\w+)[-](\d{4})$`. */
  predicate DayMonthNameShape(d: string, w: string, y: string) {
    1 <= |d| <= 2 && AllDigits(d) && |w| >= 1 && AllIn(w, Word) && |y| == 4 && AllDigits(y)
  }

  /** The pieces of `^(\w+)\s+(\d{1,2}),?\s+(\d{4})$`. */
  predicate MonthNameDayShape(w: string, sp1: string, d: string, comma: string, sp2: string, y: string) {
    && |w| >= 1 && AllIn(w, Word) && |sp1| >= 1 && AllSpace(sp1)
    && 1 <= |d| <= 2 && AllDigits(d) && (comma == "" || comma == ",")
    && |sp2| >= 1 && AllSpace(sp2) && |y| == 4 && AllDigits(y)
  }

  /** The groups of `^(\d{4})[-](\d{1,2})[-](\d{1,2})$`. */
  predicate IsoShape(y: string, m: string, d: string) {
    |y| == 4 && AllDigits(y) && 1 <= |m| <= 2 && AllDigits(m) && 1 <= |d| <= 2 && AllDigits(d)
  }

  /** `^(\d{1,2})[/-](\d{1,2})[/-](\d{4})$` (main.py:36 and 43): the three digit groups. */
  function MatchNumericTriple(s: string): (r: Option<(string, string, string)>)
  {
    var (a, r1) := TakeRun(s, Digit);
    if !(1 <= |a| <= 2 && r1 != [] && IsDateSep(r1[0])) then None
    else
      var (b, r2) := TakeRun(r1[1..], Digit);
      if !(1 <= |b| <= 2 && r2 != [] && IsDateSep(r2[0])) then None
      else
        var (y, r3) := TakeRun(r2[1..], Digit);
        if |y| == 4 && r3 == [] then
          Some((a, b, y))
        else None
  }

  /** What `MatchNumericTriple` accepts has the shape of its regular expression. */
  lemma MatchNumericTripleSound(s: string)
    ensures MatchNumericTriple(s).Some? ==>
      var (a, b, y) := MatchNumericTriple(s).value;
      && |s| == |a| + |b| + 6 && NumericShape(a, s[|a|], b, s[|a| + 1 + |b|], y)
      && s == a + [s[|a|]] + b + [s[|a| + 1 + |b|]] + y
  {
    var (a, r1) := TakeRun(s, Digit);
    if 1 <= |a| <= 2 && r1 != [] && IsDateSep(r1[0]) {
      var (b, r2) := TakeRun(r1[1..], Digit);
      if 1 <= |b| <= 2 && r2 != [] && IsDateSep(r2[0]) {
        var (y, r3) := TakeRun(r2[1..], Digit);
        if |y| == 4 && r3 == [] {
          TakeRunSplits(s, Digit);
          TakeRunSplits(r1[1..], Digit);
          TakeRunSplits(r2[1..], Digit);
          Rejoin(s, a, r1, b, r2, y);
        }
      }
    }
  }

  /** Reassembling the pieces a three-group matcher took apart. */
  lemma Rejoin(s: string, a: string, r1: string, b: string, r2: string, y: string)
    requires s == a + r1 && r1 != [] && r1[1..] == b + r2 && r2 != [] && r2[1..] == y + []
    ensures |s| == |a| + |b| + |y| + 2 && s[|a|] == r1[0] && s[|a| + 1 + |b|] == r2[0]
    ensures s == a + [r1[0]] + b + [r2[0]] + y
  {
    assert r2 == [r2[0]] + y;
    assert r1 == [r1[0]] + (b + r2);
  }
  /** `^(\d{1,2})[-](\w+)[-](\d{4})$` (main.py:50): day, month word, year. */
  function MatchDayMonthName(s: string): (r: Option<(string, string, string)>)
  {
    var (d, r1) := TakeRun(s, Digit);
    if !(1 <= |d| <= 2 && r1 != [] && r1[0] == '-') then None
    else
      var (w, r2) := TakeRun(r1[1..], Word);
      if !(1 <= |w| && r2 != [] && r2[0] == '-') then None
      else
        var (y, r3) := TakeRun(r2[1..], Digit);
        if |y| == 4 && r3 == [] then
          Some((d, w, y))
        else None
  }

  /** What `MatchDayMonthName` accepts has the shape of its regular expression. */
  lemma MatchDayMonthNameSound(s: string)
    ensures MatchDayMonthName(s).Some? ==>
      var (d, w, y) := MatchDayMonthName(s).value;
      DayMonthNameShape(d, w, y) && s == d + "-" + w + "-" + y
  {
    var (d, r1) := TakeRun(s, Digit);
    if 1 <= |d| <= 2 && r1 != [] && r1[0] == '-' {
      var (w, r2) := TakeRun(r1[1..], Word);
      if 1 <= |w| && r2 != [] && r2[0] == '-' {
        var (y, r3) := TakeRun(r2[1..], Digit);
        if |y| == 4 && r3 == [] {
          TakeRunSplits(s, Digit);
          TakeRunSplits(r1[1..], Word);
          TakeRunSplits(r2[1..], Digit);
          Rejoin(s, d, r1, w, r2, y);
        }
      }
    }
  }

  /** `^(\w+)\s+(\d{1,2}),?\s+(\d{4})$` (main.py:60): month word, day, year. */
  function MatchMonthNameDay(s: string): (r: Option<(string, string, string)>)
  {
    var (w, r1) := TakeRun(s, Word);
    var (sp1, r2) := TakeRun(r1, Space);
    var (d, r3) := TakeRun(r2, Digit);
    var r4 := if r3 != [] && r3[0] == ',' then r3[1..] else r3;
    var (sp2, r5) := TakeRun(r4, Space);
    var (y, r6) := TakeRun(r5, Digit);
    if 1 <= |w| && 1 <= |sp1| && 1 <= |d| <= 2 && 1 <= |sp2| && |y| == 4 && r6 == [] then
      Some((w, d, y))
    else None
  }

  /** What `MatchMonthNameDay` accepts has the shape of its regular expression. */
  lemma MatchMonthNameDaySound(s: string)
    ensures MatchMonthNameDay(s).Some? ==>
      var (w, d, y) := MatchMonthNameDay(s).value;
      && |w| >= 1 && AllIn(w, Word) && 1 <= |d| <= 2 && AllDigits(d) && |y| == 4 && AllDigits(y)
      && |s| > |w| && s[..|w|] == w && IsSpace(s[|w|])
      && exists sp1, comma, sp2 :: MonthNameDayShape(w, sp1, d, comma, sp2, y) && s == w + sp1 + d + comma + sp2 + y
  {
    var (w, r1) := TakeRun(s, Word);
    var (sp1, r2) := TakeRun(r1, Space);
    var (d, r3) := TakeRun(r2, Digit);
    var r4 := if r3 != [] && r3[0] == ',' then r3[1..] else r3;
    var (sp2, r5) := TakeRun(r4, Space);
    var (y, r6) := TakeRun(r5, Digit);
    if 1 <= |w| && 1 <= |sp1| && 1 <= |d| <= 2 && 1 <= |sp2| && |y| == 4 && r6 == [] {
      TakeRunSplits(s, Word);
      TakeRunSplits(r1, Space);
      TakeRunSplits(r2, Digit);
      TakeRunSplits(r4, Space);
      TakeRunSplits(r5, Digit);
      MonthNameDayPieces(s, w, r1, sp1, r2, d, r3, r4, sp2, r5, y);
    }
  }

  /** The pieces `MatchMonthNameDay` splits off, put back together, form its pattern. */
  lemma MonthNameDayPieces(s: string, w: string, r1: string, sp1: string, r2: string, d: string, r3: string,
                           r4: string, sp2: string, r5: string, y: string)
    requires s == w + r1 && r1 == sp1 + r2 && r2 == d + r3 && r4 == sp2 + r5 && r5 == y + []
    requires r4 == if r3 != [] && r3[0] == ',' then r3[1..] else r3
    requires AllIn(w, Word) && AllIn(sp1, Space) && AllIn(d, Digit) && AllIn(sp2, Space) && AllIn(y, Digit)
    requires 1 <= |w| && 1 <= |sp1| && 1 <= |d| <= 2 && 1 <= |sp2| && |y| == 4
    ensures |s| > |w| && s[..|w|] == w && IsSpace(s[|w|])
    ensures exists sp1, comma, sp2 :: MonthNameDayShape(w, sp1, d, comma, sp2, y) && s == w + sp1 + d + comma + sp2 + y
  {
    assert s[|w|] == sp1[0];
    assert s[..|w|] == w;
    var comma := if r3 != [] && r3[0] == ',' then "," else "";
    assert r3 == comma + r4;
    assert MonthNameDayShape(w, sp1, d, comma, sp2, y);
    JoinSix(s, w, r1, sp1, r2, d, r3, comma, r4, sp2, r5, y);
  }

  /** Reassembling the six pieces `MatchMonthNameDay` took apart. */
  lemma JoinSix(s: string, w: string, r1: string, sp1: string, r2: string, d: string, r3: string,
                comma: string, r4: string, sp2: string, r5: string, y: string)
    requires s == w + r1 && r1 == sp1 + r2 && r2 == d + r3 && r3 == comma + r4 && r4 == sp2 + r5 && r5 == y + []
    ensures s == w + sp1 + d + comma + sp2 + y
  {
    assert r5 == y;
    assert s == w + (sp1 + (d + (comma + (sp2 + y))));
  }

  /** `^(\d{4})[-](\d{1,2})[-](\d{1,2})$` (main.py:69): year, month, day. */
  function MatchIso(s: string): (r: Option<(string, string, string)>)
  {
    var (y, r1) := TakeRun(s, Digit);
    if !(|y| == 4 && r1 != [] && r1[0] == '-') then None
    else
      var (m, r2) := TakeRun(r1[1..], Digit);
      if !(1 <= |m| <= 2 && r2 != [] && r2[0] == '-') then None
      else
        var (d, r3) := TakeRun(r2[1..], Digit);
        if 1 <= |d| <= 2 && r3 == [] then
          Some((y, m, d))
        else None
  }

  /** What `MatchIso` accepts has the shape of its regular expression. */
  lemma MatchIsoSound(s: string)
    ensures MatchIso(s).Some? ==>
      var (y, m, d) := MatchIso(s).value;
      IsoShape(y, m, d) && s == y + "-" + m + "-" + d
  {
    var (y, r1) := TakeRun(s, Digit);
    if |y| == 4 && r1 != [] && r1[0] == '-' {
      var (m, r2) := TakeRun(r1[1..], Digit);
      if 1 <= |m| <= 2 && r2 != [] && r2[0] == '-' {
        var (d, r3) := TakeRun(r2[1..], Digit);
        if 1 <= |d| <= 2 && r3 == [] {
          TakeRunSplits(s, Digit);
          TakeRunSplits(r1[1..], Digit);
          TakeRunSplits(r2[1..], Digit);
          Rejoin(s, y, r1, m, r2, d);
        }
      }
    }
  }


  /** Pattern 1 (main.py:36-40): month first, all three fields range-checked. */
  function MonthFirst(t: string): (r: Option<string>)
    ensures r.Some? ==> IsFormatted(r.value)
  {
    MatchNumericTripleSound(t);
    match MatchNumericTriple(t)
    case None => None
    case Some((a, b, y)) =>
      var month, day, year := ParseNat(a), ParseNat(b), ParseNat(y);
      if 1 <= month <= 12 && 1 <= day <= 31 && 1000 <= year <= 9999 then
        assert IsFormatted(FormatDate(month, day, year));
        Some(FormatDate(month, day, year))
      else None
  }

  /** Pattern 2 (main.py:43-47): the same shape read day first. */
  function DayFirst(t: string): (r: Option<string>)
    ensures r.Some? ==> IsFormatted(r.value)
  {
    MatchNumericTripleSound(t);
    match MatchNumericTriple(t)
    case None => None
    case Some((a, b, y)) =>
      var day, month, year := ParseNat(a), ParseNat(b), ParseNat(y);
      if 1 <= month <= 12 && 1 <= day <= 31 && 1000 <= year <= 9999 then
        assert IsFormatted(FormatDate(month, day, year));
        Some(FormatDate(month, day, year))
      else None
  }

  /** Pattern 3 (main.py:50-57): `DD-monthname-YYYY`; the year is not range-checked. */
  function DayMonthName(t: string): (r: Option<string>)
    ensures r.Some? ==> IsFormatted(r.value)
  {
    MatchDayMonthNameSound(t);
    match MatchDayMonthName(t)
    case None => None
    case Some((d, w, y)) =>
      var month, day := MonthNumber(Lower(w)), ParseNat(d);
      if month.Some? && 1 <= day <= 31 then
        ParseNatFour(y);
        assert IsFormatted(FormatDate(month.value, day, ParseNat(y)));
        Some(FormatDate(month.value, day, ParseNat(y)))
      else None
  }

  /** Pattern 4 (main.py:60-66): `Monthname DD[,] YYYY`; the year is not range-checked. */
  function MonthNameDay(t: string): (r: Option<string>)
    ensures r.Some? ==> IsFormatted(r.value)
  {
    MatchMonthNameDaySound(t);
    match MatchMonthNameDay(t)
    case None => None
    case Some((w, d, y)) =>
      var month, day := MonthNumber(Lower(w)), ParseNat(d);
      if month.Some? && 1 <= day <= 31 then
        ParseNatFour(y);
        assert IsFormatted(FormatDate(month.value, day, ParseNat(y)));
        Some(FormatDate(month.value, day, ParseNat(y)))
      else None
  }

  /** Pattern 5 (main.py:69-73): ISO `YYYY-MM-DD`; the year is not range-checked. */
  function Iso(t: string): (r: Option<string>)
    ensures r.Some? ==> IsFormatted(r.value)
  {
    MatchIsoSound(t);
    match MatchIso(t)
    case None => None
    case Some((y, m, d)) =>
      var month, day := ParseNat(m), ParseNat(d);
      if 1 <= month <= 12 && 1 <= day <= 31 then
        ParseNatFour(y);
        assert IsFormatted(FormatDate(month, day, ParseNat(y)));
        Some(FormatDate(month, day, ParseNat(y)))
      else None
  }

  /** The pattern cascade: the first pattern that matches and passes its range check. */
  function MatchDate(t: string): (r: Option<string>)
    ensures r.Some? ==> IsFormatted(r.value)
  {
    if MonthFirst(t).Some? then MonthFirst(t)
    else if DayFirst(t).Some? then DayFirst(t)
    else if DayMonthName(t).Some? then DayMonthName(t)
    else if MonthNameDay(t).Some? then MonthNameDay(t)
    else Iso(t)
  }

  /** The last resort (main.py:75-81): the parser's result, or the input when it raises. */
  function Fallback(t: string, fallback: string -> Option<string>): string {
    fallback(t).GetOr(t)
  }

  /** `parse_date` (main.py:9-85). */
  function ParseDate(s: string, fallback: string -> Option<string>): (r: string)
    ensures s == "" || s == FieldValue.NA ==> r == FieldValue.NA
  {
    if s == "" || s == FieldValue.NA then FieldValue.NA
    else
      var t := Trim(s);
      match MatchDate(t)
      case Some(d) => d
      case None => Fallback(t, fallback)
  }

  // ---------------------------------------------------------------------
  // The matchers accept exactly the strings their regular expressions do

  /** Every string of the shape `^(\d{1,2})[/-](\d{1,2})[/-](\d{4})$` is matched, with its groups. */
  lemma MatchNumericTripleComplete(a: string, c1: char, b: string, c2: char, y: string)
    requires NumericShape(a, c1, b, c2, y)
    ensures MatchNumericTriple(a + [c1] + b + [c2] + y) == Some((a, b, y))
  {
    var s := a + [c1] + b + [c2] + y;
    var r2 := [c2] + y;
    var r1 := [c1] + (b + r2);
    assert TakeRun(s, Digit) == (a, r1) by {
      Split(a, c1, b, c2, y);
      TakeRunOf(a, r1, Digit);
    }
    assert TakeRun(r1[1..], Digit) == (b, r2) by {
      assert r1[1..] == b + r2;
      TakeRunOf(b, r2, Digit);
    }
    assert TakeRun(r2[1..], Digit) == (y, []) by {
      assert r2[1..] == y + [];
      TakeRunOf(y, [], Digit);
    }
  }

  /** The right-nested reading of `a + [c1] + b + [c2] + y`. */
  lemma Split(a: string, c1: char, b: string, c2: char, y: string)
    ensures a + [c1] + b + [c2] + y == a + ([c1] + (b + ([c2] + y)))
  {
  }
  /** Every string of the shape `^(\d{1,2})[-](\w+)[-](\d{4})$` is matched, with its groups. */
  lemma MatchDayMonthNameComplete(d: string, w: string, y: string)
    requires DayMonthNameShape(d, w, y)
    ensures MatchDayMonthName(d + "-" + w + "-" + y) == Some((d, w, y))
  {
    var s := d + "-" + w + "-" + y;
    var r2 := "-" + y;
    var r1 := "-" + (w + r2);
    assert TakeRun(s, Digit) == (d, r1) by {
      Split(d, '-', w, '-', y);
      TakeRunOf(d, r1, Digit);
    }
    assert TakeRun(r1[1..], Word) == (w, r2) by {
      assert r1[1..] == w + r2;
      TakeRunOf(w, r2, Word);
    }
    assert TakeRun(r2[1..], Digit) == (y, []) by {
      assert r2[1..] == y + [];
      TakeRunOf(y, [], Digit);
    }
  }
  /** Every string of the shape `^(\w+)\s+(\d{1,2}),?\s+(\d{4})$` is matched, with its groups. */
  lemma MatchMonthNameDayComplete(w: string, sp1: string, d: string, comma: string, sp2: string, y: string)
    requires MonthNameDayShape(w, sp1, d, comma, sp2, y)
    ensures MatchMonthNameDay(w + sp1 + d + comma + sp2 + y) == Some((w, d, y))
  {
    var r4 := sp2 + y;
    var r3 := comma + r4;
    var r2 := d + r3;
    var r1 := sp1 + r2;
    assert w + sp1 + d + comma + sp2 + y == w + r1;
    TakeRunOf(w, r1, Word);
    TakeRunOf(sp1, r2, Space);
    TakeRunOf(d, r3, Digit);
    assert (if r3 != [] && r3[0] == ',' then r3[1..] else r3) == r4;
    TakeRunOf(sp2, y, Space);
    assert y == y + [];
    TakeRunOf(y, [], Digit);
  }

  /** Every string of the shape `^(\d{4})[-](\d{1,2})[-](\d{1,2})$` is matched, with its groups. */
  lemma MatchIsoComplete(y: string, m: string, d: string)
    requires IsoShape(y, m, d)
    ensures MatchIso(y + "-" + m + "-" + d) == Some((y, m, d))
  {
    var s := y + "-" + m + "-" + d;
    var r2 := "-" + d;
    var r1 := "-" + (m + r2);
    assert TakeRun(s, Digit) == (y, r1) by {
      Split(y, '-', m, '-', d);
      TakeRunOf(y, r1, Digit);
    }
    assert TakeRun(r1[1..], Digit) == (m, r2) by {
      assert r1[1..] == m + r2;
      TakeRunOf(m, r2, Digit);
    }
    assert TakeRun(r2[1..], Digit) == (d, []) by {
      assert r2[1..] == d + [];
      TakeRunOf(d, [], Digit);
    }
  }

  // ---------------------------------------------------------------------
  // What each form of input normalises to

  /** Digits are word characters. */
  lemma DigitsAreWord(s: string)
    requires AllDigits(s)
    ensures AllIn(s, Word) && AllIn(s, Digit)
  {
  }

  /** The first and last characters of a concatenation. */
  lemma EndsOf(p: string, q: string)
    requires p != [] && q != []
    ensures (p + q)[0] == p[0] && (p + q)[|p + q| - 1] == q[|q| - 1]
  {
  }

  /** A stripped input other than `N/A` goes straight to the cascade. */
  lemma ParseDateOfTrimmed(s: string, fallback: string -> Option<string>)
    requires IsTrimmed(s) && s != "" && s != FieldValue.NA
    ensures ParseDate(s, fallback) == MatchDate(s).GetOr(Fallback(s, fallback))
  {
  }

  /** Nothing but the numeric patterns accepts `a[/-]b[/-]yyyy`. */
  lemma NumericTripleOnlyNumeric(s: string, a: string, c1: char, b: string, c2: char, y: string)
    requires s == a + [c1] + b + [c2] + y
    requires NumericShape(a, c1, b, c2, y)
    ensures DayMonthName(s) == None && MonthNameDay(s) == None && Iso(s) == None
  {
    var r2 := [c2] + y;
    var r1 := [c1] + (b + r2);
    assert s == a + r1;
    DigitsAreWord(a);
    NumericNotDayMonthName(s, a, r1, c1, b, r2, c2, y);
    assert MonthNameDay(s) == None by {
      TakeRunOf(a, r1, Word);
      TakeRunOf([], r1, Space);
      assert [] + r1 == r1;
    }
    assert Iso(s) == None by {
      TakeRunOf(a, r1, Digit);
    }
  }

  /** Pattern 3 rejects `a[/-]b[/-]yyyy`: a separator is '/' or the middle group is no month name. */
  lemma NumericNotDayMonthName(s: string, a: string, r1: string, c1: char, b: string, r2: string, c2: char, y: string)
    requires s == a + r1 && r1 == [c1] + (b + r2) && r2 == [c2] + y
    requires NumericShape(a, c1, b, c2, y)
    ensures DayMonthName(s) == None
  {
    if c1 == '-' && c2 == '-' {
      DigitsAreWord(b);
      assert s == a + "-" + b + "-" + y;
      MatchDayMonthNameComplete(a, b, y);
      DigitWordIsNoMonth(b);
    } else if c1 == '-' {
      TakeRunOf(a, r1, Digit);
      assert r1[1..] == b + r2;
      DigitsAreWord(b);
      TakeRunOf(b, r2, Word);
    } else {
      TakeRunOf(a, r1, Digit);
    }
  }

  /**
   * A numeric date `a[/-]b[/-]yyyy` is read month first when that reading is
   * in range and day first otherwise; with neither, the fallback decides.
   */
  lemma NumericDateOrder(s: string, a: string, c1: char, b: string, c2: char, y: string,
                         fallback: string -> Option<string>)
    requires s == a + [c1] + b + [c2] + y
    requires NumericShape(a, c1, b, c2, y)
    ensures var first, second, year := ParseNat(a), ParseNat(b), ParseNat(y);
      ParseDate(s, fallback) ==
        if 1000 <= year && 1 <= first <= 12 && 1 <= second <= 31 then FormatDate(first, second, year)
        else if 1000 <= year && 1 <= second <= 12 && 1 <= first <= 31 then FormatDate(second, first, year)
        else Fallback(s, fallback)
  {
    EndsOf(a + [c1] + b + [c2], y);
    ParseDateOfTrimmed(s, fallback);
    MatchNumericTripleComplete(a, c1, b, c2, y);
    ParseNatFour(y);
    NumericTripleOnlyNumeric(s, a, c1, b, c2, y);
  }

  /** Nothing before pattern 3 accepts `d-word-yyyy` when the word does not start with a digit. */
  lemma DayMonthNameOnly(s: string, d: string, w: string, y: string)
    requires s == d + "-" + w + "-" + y
    requires DayMonthNameShape(d, w, y) && !IsDigit(w[0])
    ensures MonthFirst(s) == None && DayFirst(s) == None && MonthNameDay(s) == None && Iso(s) == None
  {
    var r1 := "-" + (w + ("-" + y));
    assert TakeRun(s, Digit) == (d, r1) && TakeRun(s, Word) == (d, r1) by {
      Split(d, '-', w, '-', y);
      DigitsAreWord(d);
      TakeRunOf(d, r1, Digit);
      TakeRunOf(d, r1, Word);
    }
    assert TakeRun(r1[1..], Digit) == ([], r1[1..]) by {
      assert r1[1..] == w + ("-" + y);
      assert r1[1..][0] == w[0];
      TakeRunOf([], r1[1..], Digit);
      assert [] + r1[1..] == r1[1..];
    }
    assert TakeRun(r1, Space) == ([], r1) by {
      TakeRunOf([], r1, Space);
      assert [] + r1 == r1;
    }
  }
  /**
   * `d-word-yyyy` (any case): the named month when the lower-cased word is a
   * month name and the day is 1-31, whatever the year; the fallback otherwise.
   */
  lemma DayMonthNameForm(s: string, d: string, w: string, y: string, fallback: string -> Option<string>)
    requires s == d + "-" + w + "-" + y
    requires DayMonthNameShape(d, w, y) && !IsDigit(w[0])
    ensures var month, day := MonthNumber(Lower(w)), ParseNat(d);
      ParseDate(s, fallback) ==
        if month.Some? && 1 <= day <= 31 then FormatDate(month.value, day, ParseNat(y))
        else Fallback(s, fallback)
  {
    EndsOf(d + "-" + w + "-", y);
    ParseDateOfTrimmed(s, fallback);
    DayMonthNameOnly(s, d, w, y);
    MatchDayMonthNameComplete(d, w, y);
  }

  /**
   * Nothing but pattern 4 accepts `Word  dd[,]  yyyy`: the other patterns need
   * '/' or '-' right after the leading digits, and here a word character or
   * the first space follows them.
   */
  lemma MonthNameDayOnly(s: string, w: string, sp1: string, d: string, comma: string, sp2: string, y: string)
    requires s == w + sp1 + d + comma + sp2 + y
    requires MonthNameDayShape(w, sp1, d, comma, sp2, y)
    ensures MonthFirst(s) == None && DayFirst(s) == None && DayMonthName(s) == None && Iso(s) == None
  {
    assert s == w + (sp1 + d + comma + sp2 + y);
    NoSeparatorAfterDigits(s, w, sp1 + d + comma + sp2 + y);
  }

  /** In a word followed by a space, the leading digits are followed by no date separator. */
  lemma NoSeparatorAfterDigits(s: string, w: string, rest: string)
    requires s == w + rest && AllIn(w, Word) && rest != [] && IsSpace(rest[0])
    ensures TakeRun(s, Digit).1 != [] && !IsDateSep(TakeRun(s, Digit).1[0])
  {
    var (a, r1) := TakeRun(s, Digit);
    TakeRunSplits(s, Digit);
    assert !IsDigit(s[|w|]) by { assert s[|w|] == rest[0]; }
    assert |a| <= |w|;
    assert r1 == s[|a|..];
    if |a| == |w| {
      assert r1[0] == rest[0];
    } else {
      assert r1[0] == w[|a|];
    }
  }

  /**
   * `Word dd[,] yyyy` (any case): the named month when the lower-cased word
   * is a month name and the day is 1-31, whatever the year; the fallback otherwise.
   */
  lemma MonthNameDayForm(s: string, w: string, sp1: string, d: string, comma: string, sp2: string, y: string,
                         fallback: string -> Option<string>)
    requires s == w + sp1 + d + comma + sp2 + y
    requires MonthNameDayShape(w, sp1, d, comma, sp2, y)
    ensures var month, day := MonthNumber(Lower(w)), ParseNat(d);
      ParseDate(s, fallback) ==
        if month.Some? && 1 <= day <= 31 then FormatDate(month.value, day, ParseNat(y))
        else Fallback(s, fallback)
  {
    EndsOf(w + sp1 + d + comma + sp2, y);
    assert !IsSpace(s[0]) by { assert InClass(w[0], Word); }
    ParseDateOfTrimmed(s, fallback);
    MonthNameDayOnly(s, w, sp1, d, comma, sp2, y);
    MatchMonthNameDayComplete(w, sp1, d, comma, sp2, y);
  }

  /** Nothing before pattern 5 accepts `yyyy-m-d`. */
  lemma IsoOnly(s: string, y: string, m: string, d: string)
    requires s == y + "-" + m + "-" + d
    requires IsoShape(y, m, d)
    ensures MonthFirst(s) == None && DayFirst(s) == None && DayMonthName(s) == None && MonthNameDay(s) == None
  {
    var r1 := "-" + (m + "-" + d);
    assert s == y + r1;
    DigitsAreWord(y);
    assert MonthFirst(s) == None && DayFirst(s) == None && DayMonthName(s) == None by {
      TakeRunOf(y, r1, Digit);
    }
    assert MonthNameDay(s) == None by {
      TakeRunOf(y, r1, Word);
      TakeRunOf([], r1, Space);
      assert [] + r1 == r1;
    }
  }

  /** ISO `yyyy-m-d`: month and day range-checked, the year not; the fallback otherwise. */
  lemma IsoForm(s: string, y: string, m: string, d: string, fallback: string -> Option<string>)
    requires s == y + "-" + m + "-" + d
    requires IsoShape(y, m, d)
    ensures var month, day := ParseNat(m), ParseNat(d);
      ParseDate(s, fallback) ==
        if 1 <= month <= 12 && 1 <= day <= 31 then FormatDate(month, day, ParseNat(y))
        else Fallback(s, fallback)
  {
    assert ParseDate(s, fallback) == MatchDate(s).GetOr(Fallback(s, fallback)) by {
      EndsOf(y + "-" + m + "-", d);
      ParseDateOfTrimmed(s, fallback);
    }
    assert MatchDate(s) == Iso(s) by { IsoOnly(s, y, m, d); }
    assert MatchIso(s) == Some((y, m, d)) by { MatchIsoComplete(y, m, d); }
  }

  // ---------------------------------------------------------------------
  // Worked examples

  /** `DD-monthname-YYYY`, month name in lower case. */
  lemma EightAugustDayFirst(fallback: string -> Option<string>)
    ensures ParseDate("08-august-2025", fallback) == "08/08/2025"
  {
    AugustIsMonthEight();
    EighthOf2025();
    DayMonthNameForm("08-august-2025", "08", "august", "2025", fallback);
  }

  /** `Monthname DD, YYYY`, month name capitalised. */
  lemma EightAugustMonthFirst(fallback: string -> Option<string>)
    ensures ParseDate("August 08, 2025", fallback) == "08/08/2025"
  {
    AugustIsMonthEight();
    EighthOf2025();
    assert Lower("August") == "august";
    MonthNameDayForm("August 08, 2025", "August", " ", "08", ",", " ", "2025", fallback);
  }

  /** "august" is already lower case and is month 8. */
  lemma AugustIsMonthEight()
    ensures Lower("august") == "august" && MonthNumber("august") == Some(8)
  {
    LowerKeepsLowercase("august");
  }

  /** Day "08" of year "2025" in month 8 prints as "08/08/2025". */
  lemma EighthOf2025()
    ensures ParseNat("08") == 8 && ParseNat("2025") == 2025
    ensures FormatDate(8, 8, 2025) == "08/08/2025"
  {
    ParseNatFour("2025");
    assert ParseNat("08") == 8 by { Pad2Parse("08"); }
    assert NatToString(2025) == "2025" by {
      assert NatToString(2) == "2";
      assert NatToString(20) == "20";
      assert NatToString(202) == "202";
    }
  }

  /** A fallback parser that always raises: what is left when no pattern applies. */
  function NoParser(t: string): Option<string> {
    None
  }

  /** A word that is no month name fails pattern 3; when the fallback parser raises, the input comes back as it was. */
  lemma UnknownMonthPassesThrough(d: string, w: string, y: string)
    requires DayMonthNameShape(d, w, y) && !IsDigit(w[0]) && MonthNumber(Lower(w)) == None
    ensures ParseDate(d + "-" + w + "-" + y, NoParser) == d + "-" + w + "-" + y
  {
    DayMonthNameForm(d + "-" + w + "-" + y, d, w, y, NoParser);
  }

  /** "08-smarch-2025" is such an input. */
  lemma SmarchIsNoMonth()
    ensures DayMonthNameShape("08", "smarch", "2025") && !IsDigit('s') && MonthNumber(Lower("smarch")) == None
  {
    LowerKeepsLowercase("smarch");
  }

  /** Without a fallback parser, input that no pattern matches comes back stripped. */
  lemma UnmatchedInputIsStripped(s: string)
    requires s != "" && s != FieldValue.NA && MatchDate(Trim(s)) == None
    ensures ParseDate(s, NoParser) == Trim(s)
    ensures IsTrimmed(ParseDate(s, NoParser))
  {
  }

  /**
   * Patterns 3-5 do not range-check the year: a `dd-monthname-yyyy` input whose
   * year is below 1000 is printed with fewer than four year digits, which is
   * not a canonical date.
   */
  lemma YearNotRangeChecked(d: string, w: string, y: string, fallback: string -> Option<string>)
    requires DayMonthNameShape(d, w, y) && !IsDigit(w[0])
    requires MonthNumber(Lower(w)).Some? && 1 <= ParseNat(d) <= 31 && ParseNat(y) < 1000
    ensures ParseDate(d + "-" + w + "-" + y, fallback) == FormatDate(MonthNumber(Lower(w)).value, ParseNat(d), ParseNat(y))
    ensures !IsCanonical(ParseDate(d + "-" + w + "-" + y, fallback))
  {
    DayMonthNameForm(d + "-" + w + "-" + y, d, w, y, fallback);
    FormatDateCanonical(MonthNumber(Lower(w)).value, ParseNat(d), ParseNat(y));
  }

  /** "08-august-0999" is such an input, and gives "08/08/999". */
  lemma AugustYear999()
    ensures DayMonthNameShape("08", "august", "0999") && !IsDigit('a')
    ensures MonthNumber(Lower("august")) == Some(8) && ParseNat("08") == 8 && ParseNat("0999") == 999
    ensures FormatDate(8, 8, 999) == "08/08/999"
  {
    AugustIsMonthEight();
    assert ParseNat("08") == 8 by { Pad2Parse("08"); }
    ParseNatFour("0999");
    assert NatToString(9) == "9";
    assert NatToString(99) == "99";
    assert NatToString(999) == "999";
  }

  // ---------------------------------------------------------------------
  // Canonical dates are fixed points

  /** `MM/DD/YYYY` with month 1-12, day 1-31 and year 1000-9999. */
  predicate IsCanonical(s: string) {
    && |s| == 10 && s[2] == '/' && s[5] == '/'
    && AllDigits(s[..2]) && AllDigits(s[3..5]) && AllDigits(s[6..])
    && 1 <= ParseNat(s[..2]) <= 12 && 1 <= ParseNat(s[3..5]) <= 31 && 1000 <= ParseNat(s[6..])
  }

  /** What the patterns print is canonical exactly when the year has four significant digits. */
  lemma FormatDateCanonical(m: nat, d: nat, y: nat)
    requires 1 <= m <= 12 && 1 <= d <= 31 && y <= 9999
    ensures IsCanonical(FormatDate(m, d, y)) <==> 1000 <= y
  {
    var s := FormatDate(m, d, y);
    if 1000 <= y {
      NatToStringFourDigits(y);
      assert s[..2] == Pad2(m) && s[3..5] == Pad2(d) && s[6..] == NatToString(y);
      ParsePad2(m);
      ParsePad2(d);
      ParseNatToString(y);
    } else {
      NatToStringBelowThousand(y);
    }
  }

  /** A canonical date comes back unchanged: normalising it again is the identity. */
  lemma CanonicalFixedPoint(s: string, fallback: string -> Option<string>)
    requires IsCanonical(s)
    ensures ParseDate(s, fallback) == s
  {
    var a, b, y := s[..2], s[3..5], s[6..];
    assert s == a + ['/'] + b + ['/'] + y;
    assert IsTrimmed(s);
    assert s != FieldValue.NA;
    MatchNumericTripleComplete(a, '/', b, '/', y);
    Pad2Parse(a);
    Pad2Parse(b);
    ParseNatFour(y);
    NatToStringParse(y);
    ParseNatFour(y);
    assert MonthFirst(s) == Some(FormatDate(ParseNat(a), ParseNat(b), ParseNat(y)));
  }

  /** Normalising twice is normalising once whenever the first result is canonical. */
  lemma ParseDateIdempotentOnCanonical(s: string, fallback: string -> Option<string>)
    requires IsCanonical(ParseDate(s, fallback))
    ensures ParseDate(ParseDate(s, fallback), fallback) == ParseDate(s, fallback)
  {
    CanonicalFixedPoint(ParseDate(s, fallback), fallback);
  }
}
