/** The release-date clean-up: keep the text before the first "(", trim it,
    translate the first Portuguese month name found (in table order) into
    English, read the result as "%B %d, %Y" and print it as YYYY-MM-DD, the
    full-date form of section 5.6 of RFC 3339. */
module Dates {
  import opened PyBuiltins

  /** The translation table, in the order the script lists it. */
  const PtMonths: seq<string> := [
    "Janeiro", "Fevereiro", "Março", "Abril", "Maio", "Junho",
    "Julho", "Agosto", "Setembro", "Outubro", "Novembro", "Dezembro"]
  const EnMonths: seq<string> := [
    "January", "February", "March", "April", "May", "June",
    "July", "August", "September", "October", "November", "December"]
  /** The English names as `%B` compares them (case does not matter). */
  const EnMonthsLower: seq<string> := [
    "january", "february", "march", "april", "may", "june",
    "july", "august", "september", "october", "november", "december"]

  datatype Date = Date(year: int, month: int, day: int)

  predicate IsLeapYear(y: int) {
    y % 4 == 0 && (y % 100 != 0 || y % 400 == 0)
  }

  function DaysInMonth(month: int, year: int): int
    requires 1 <= month <= 12
  {
    if month == 2 then (if IsLeapYear(year) then 29 else 28)
    else if month == 4 || month == 6 || month == 9 || month == 11 then 30
    else 31
  }

  /** A date Python's `datetime.date` accepts (years 1 to 9999). */
  predicate ValidDate(d: Date) {
    1 <= d.year <= 9999 && 1 <= d.month <= 12 && 1 <= d.day <= DaysInMonth(d.month, d.year)
  }

  // ------------------------------------------- step 1: drop the annotation

  /** `raw.split('(')[0]`: the text up to the first "(". */
  function BeforeParen(raw: string): (r: string)
    ensures StartsWith(raw, r) && '(' !in r
    ensures |r| < |raw| ==> raw[|r|] == '('
  {
    SplitHead(raw, '(');
    Split(raw, '(')[0]
  }

  // ----------------------------------------- step 2: translate one month

  /** The first index at or after `from` whose Portuguese name occurs in
      `s`, or 12 when none does. */
  function FirstPtMonth(s: string, from: nat): (k: nat)
    requires from <= 12
    ensures from <= k <= 12
    ensures forall j :: from <= j < k ==> !Contains(s, PtMonths[j])
    ensures k < 12 ==> Contains(s, PtMonths[k])
    decreases 12 - from
  {
    if from == 12 then 12
    else if Contains(s, PtMonths[from]) then from
    else FirstPtMonth(s, from + 1)
  }

  /** The index FirstPtMonth finds is the first name that occurs. */
  lemma FirstPtMonthIsFirst(s: string)
    ensures forall k :: 0 <= k < 12 && Contains(s, PtMonths[k])
              && (forall j :: 0 <= j < k ==> !Contains(s, PtMonths[j]))
              ==> FirstPtMonth(s, 0) == k
    ensures (forall j :: 0 <= j < 12 ==> !Contains(s, PtMonths[j])) ==> FirstPtMonth(s, 0) == 12
  {
  }

  /** What the translation loop leaves in `date_str`. */
  function TranslateMonthText(s: string): (r: string)
    // no table name occurs: the text is untouched
    ensures (forall j :: 0 <= j < 12 ==> !Contains(s, PtMonths[j])) ==> r == s
    // otherwise exactly the first name in table order is replaced
    ensures forall k :: 0 <= k < 12 && Contains(s, PtMonths[k])
              && (forall j :: 0 <= j < k ==> !Contains(s, PtMonths[j]))
              ==> r == ReplaceAll(s, PtMonths[k], EnMonths[k])
  {
    FirstPtMonthIsFirst(s);
    var k := FirstPtMonth(s, 0);
    if k == 12 then s else ReplaceAll(s, PtMonths[k], EnMonths[k])
  }

  /** The translation loop: walk the table in order, and at the first name
      that occurs replace every occurrence of it and stop. */
  method TranslateMonth(s: string) returns (t: string)
    // no table name occurs: the text is untouched
    ensures (forall j :: 0 <= j < 12 ==> !Contains(s, PtMonths[j])) ==> t == s
    // otherwise exactly the first name in table order is replaced
    ensures forall k :: 0 <= k < 12 && Contains(s, PtMonths[k])
              && (forall j :: 0 <= j < k ==> !Contains(s, PtMonths[j]))
              ==> t == ReplaceAll(s, PtMonths[k], EnMonths[k])
    ensures t == TranslateMonthText(s)
  {
    t := s;
    var i := 0;
    while i < |PtMonths|
      invariant 0 <= i <= 12 && t == s
      invariant forall j :: 0 <= j < i ==> !Contains(s, PtMonths[j])
    {
      if Contains(t, PtMonths[i]) {
        t := ReplaceAll(t, PtMonths[i], EnMonths[i]);
        break;
      }
      i := i + 1;
    }
  }

  // --------------------------------------- step 3: strptime '%B %d, %Y'

  predicate IsUpper(c: char) { 'A' <= c <= 'Z' }

  predicate IsAsciiLetter(c: char) { 'a' <= c <= 'z' || 'A' <= c <= 'Z' }

  function LowerChar(c: char): char {
    if IsUpper(c) then ((c as int) + 32) as char else c
  }

  /** ASCII lower-casing, for the case-insensitive month match. */
  function LowerAscii(s: string): (r: string)
    ensures |r| == |s| && forall k :: 0 <= k < |s| ==> r[k] == LowerChar(s[k])
  {
    seq(|s|, k requires 0 <= k < |s| => LowerChar(s[k]))
  }

  /** Length of the run of ASCII letters at the front of `s`. */
  function LetterRun(s: string): (n: nat)
    ensures n <= |s|
    ensures forall k :: 0 <= k < n ==> IsAsciiLetter(s[k])
    ensures n < |s| ==> !IsAsciiLetter(s[n])
  {
    if |s| > 0 && IsAsciiLetter(s[0]) then 1 + LetterRun(s[1..]) else 0
  }

  /** Length of the run of decimal digits at the front of `s`. */
  function DigitRun(s: string): (n: nat)
    ensures n <= |s| && AllDigits(s[..n])
    ensures n < |s| ==> !IsDigit(s[n])
  {
    if |s| > 0 && IsDigit(s[0]) then
      var n := 1 + DigitRun(s[1..]);
      assert s[..n] == [s[0]] + s[1..][..n - 1];
      n
    else 0
  }

  /** The word at the front of the text, where `%B` must match. */
  function LeadingWord(t: string): string {
    t[..LetterRun(t)]
  }

  /** 1 to 12 for an English month name in lower case, 0 for anything else. */
  function MonthNumber(word: string): (m: nat)
    ensures m <= 12
    ensures m > 0 ==> EnMonthsLower[m - 1] == word
    ensures m == 0 ==> word !in EnMonthsLower
  {
    MonthFrom(word, 0)
  }

  function MonthFrom(word: string, i: nat): (m: nat)
    requires i <= 12
    ensures m == 0 || i < m <= 12
    ensures m > 0 ==> EnMonthsLower[m - 1] == word
    ensures m == 0 ==> forall j :: i <= j < 12 ==> EnMonthsLower[j] != word
    decreases 12 - i
  {
    if i == 12 then 0
    else if EnMonthsLower[i] == word then i + 1
    else MonthFrom(word, i + 1)
  }

  /** What `%d` accepts before the comma: `3[01]|[12]\d|0[1-9]|[1-9]`. */
  predicate DayToken(d: string) {
    || (|d| == 1 && '1' <= d[0] <= '9')
    || (|d| == 2 && (
         || (d[0] == '3' && (d[1] == '0' || d[1] == '1'))
         || ((d[0] == '1' || d[0] == '2') && IsDigit(d[1]))
         || (d[0] == '0' && '1' <= d[1] <= '9')))
  }

  /** `datetime.strptime(t, '%B %d, %Y').date()`: a full English month name
      in any case, one or more whitespace characters, a day of one or two
      digits, a comma, whitespace, exactly four year digits and nothing
      after them; then the date must exist in the calendar. */
  function ParseUsDate(t: string): (r: Result<Date>)
    ensures r.Ok? ==> ValidDate(r.value)
    ensures r.Ok? ==> LowerAscii(LeadingWord(t)) == EnMonthsLower[r.value.month - 1]
    ensures LowerAscii(LeadingWord(t)) !in EnMonthsLower ==> r.Err?
    ensures r.Err? ==> r.error == ValueError
  {
    var n := LetterRun(t);
    var month := MonthNumber(LowerAscii(t[..n]));
    if month == 0 then Err(ValueError) else ParseDayYear(month, t[n..])
  }

  /** The part after the month name: `\s+` `%d` `,` `\s+` `%Y`, then the
      calendar check. */
  function ParseDayYear(month: int, a: string): (r: Result<Date>)
    requires 1 <= month <= 12
    ensures r.Ok? ==> ValidDate(r.value) && r.value.month == month
    ensures r.Err? ==> r.error == ValueError
  {
    var w := LeadingSpaces(a);
    if w == 0 then Err(ValueError) else ParseDayComma(month, a[w..])
  }

  /** `%d` `,` `\s+` `%Y` once the whitespace after the month is gone. */
  function ParseDayComma(month: int, b: string): (r: Result<Date>)
    requires 1 <= month <= 12
    ensures r.Ok? ==> ValidDate(r.value) && r.value.month == month
    ensures r.Err? ==> r.error == ValueError
  {
    var n := DigitRun(b);
    if !DayToken(b[..n]) || n == |b| || b[n] != ',' then Err(ValueError)
    else
      var year :- ParseYear(b[n + 1..]);
      var date := Date(year, month, DigitsValue(b[..n]));
      if ValidDate(date) then Ok(date) else Err(ValueError)
  }

  /** `\s+` then exactly four digits, ending the text. */
  function ParseYear(c: string): (r: Result<int>)
    ensures r.Ok? ==> 0 <= r.value <= 9999
    ensures r.Err? ==> r.error == ValueError
  {
    var w := LeadingSpaces(c);
    var y := c[w..];
    if w == 0 || |y| != 4 || !AllDigits(y) then Err(ValueError)
    else
      assert DigitsValue(y) < 10000 by {
        DigitsBound(y);
        assert Pow10(4) == 10000;
      }
      Ok(DigitsValue(y))
  }

  lemma {:induction false} DigitsBound(s: string)
    requires AllDigits(s)
    ensures DigitsValue(s) < Pow10(|s|)
  {
    if s != [] {
      DigitsBound(s[..|s| - 1]);
    }
  }

  // ----------------------------------------------- step 4: isoformat()

  /** The shape of an RFC 3339 full-date: four digits, "-", two digits,
      "-", two digits, naming a date that exists. */
  predicate IsIsoDate(s: string) {
    && |s| == 10 && s[4] == '-' && s[7] == '-'
    && AllDigits(s[..4]) && AllDigits(s[5..7]) && AllDigits(s[8..])
    && ValidDate(IsoFields(s))
  }

  /** The date the three digit groups of an ISO text denote. */
  function IsoFields(s: string): Date
    requires |s| == 10 && AllDigits(s[..4]) && AllDigits(s[5..7]) && AllDigits(s[8..])
  {
    Date(DigitsValue(s[..4]), DigitsValue(s[5..7]), DigitsValue(s[8..]))
  }

  /** `date.isoformat()`. */
  function IsoDate(d: Date): (s: string)
    requires ValidDate(d)
    ensures IsIsoDate(s) && IsoFields(s) == d
  {
    DecLength(d.year, 4);
    DecLength(d.month, 2);
    DecLength(d.day, 2);
    var y, m, dd := Pad(d.year, 4), Pad(d.month, 2), Pad(d.day, 2);
    var s := y + "-" + m + "-" + dd;
    assert s[..4] == y && s[5..7] == m && s[8..] == dd;
    s
  }

  /** Reading an ISO date back gives the date that was printed. */
  lemma IsoDateInjective(d1: Date, d2: Date)
    requires ValidDate(d1) && ValidDate(d2) && IsoDate(d1) == IsoDate(d2)
    ensures d1 == d2
  {
    assert IsoFields(IsoDate(d1)) == IsoFields(IsoDate(d2));
  }

  // ------------------------------------------------------- the whole step

  /** The release-date normalisation of one record. Any failure is the
      ValueError `strptime` raises. */
  function NormalizeDate(raw: string): (r: Result<string>)
    ensures r.Ok? ==> IsIsoDate(r.value)
    ensures r.Err? ==> r.error == ValueError
  {
    var text := TranslateMonthText(Strip(BeforeParen(raw)));
    var d :- ParseUsDate(text);
    Ok(IsoDate(d))
  }

  // --------------------------------------------- dates as the site prints

  /** The text after the month name: " D, YYYY". */
  function DateTail(d: Date): string
    requires ValidDate(d)
  {
    " " + Dec(d.day) + ", " + Pad(d.year, 4)
  }

  /** A date as printed in English: "March 10, 2015". */
  function FormatUsDate(d: Date): string
    requires ValidDate(d)
  {
    EnMonths[d.month - 1] + DateTail(d)
  }

  /** The same date with the Portuguese month name: "Março 10, 2015". */
  function FormatPtDate(d: Date): string
    requires ValidDate(d)
  {
    PtMonths[d.month - 1] + DateTail(d)
  }

  // ------------------------------------------------ facts about the tables

  predicate Mismatch(a: string, b: string, k: nat) {
    k < |a| && k < |b| && a[k] != b[k]
  }

  /** Two names that differ within their common length. */
  predicate Diverge(a: string, b: string) {
    Mismatch(a, b, 0) || Mismatch(a, b, 1) || Mismatch(a, b, 2) || Mismatch(a, b, 3) || Mismatch(a, b, 6)
  }

  /** No Portuguese name of the table is found inside an English one. */
  lemma PtEnDiverge()
    ensures forall i, j | 0 <= i < 12 && 0 <= j < 12 :: Diverge(PtMonths[i], EnMonths[j])
  {
  }

  /** No Portuguese name of the table is found inside another one. */
  lemma PtDiverge()
    ensures forall i, j | 0 <= i < 12 && 0 <= j < 12 && i != j :: Diverge(PtMonths[i], PtMonths[j])
  {
  }

  /** The English names are distinct. */
  lemma EnLowerDistinct()
    ensures forall i, j | 0 <= i < 12 && 0 <= j < 12 && i != j :: EnMonthsLower[i] != EnMonthsLower[j]
  {
  }

  lemma EnNameFacts(i: nat)
    requires i < 12
    ensures |EnMonths[i]| > 0 && IsUpper(EnMonths[i][0])
    ensures forall k :: 0 <= k < |EnMonths[i]| ==> IsAsciiLetter(EnMonths[i][k])
    ensures forall k :: 1 <= k < |EnMonths[i]| ==> !IsUpper(EnMonths[i][k])
  {
  }

  /** `%B` compares the English name in lower case. */
  lemma EnNameLower(i: nat)
    requires i < 12
    ensures LowerAscii(EnMonths[i]) == EnMonthsLower[i]
  {
  }

  lemma PtNameFacts(i: nat)
    requires i < 12
    ensures |PtMonths[i]| > 0 && IsUpper(PtMonths[i][0])
    ensures forall k :: 1 <= k < |PtMonths[i]| ==> !IsUpper(PtMonths[i][k])
    ensures '(' !in PtMonths[i]
  {
  }

  /** The tail holds only spaces, digits and a comma. */
  lemma TailFacts(d: Date)
    requires ValidDate(d)
    ensures forall k :: 0 <= k < |DateTail(d)| ==> !IsUpper(DateTail(d)[k]) && DateTail(d)[k] != '('
    ensures |DateTail(d)| > 0 && !IsSpace(DateTail(d)[|DateTail(d)| - 1])
  {
    var t := DateTail(d);
    var day, year := Dec(d.day), Pad(d.year, 4);
    assert t == " " + day + ", " + year;
    forall k | 0 <= k < |t| ensures !IsUpper(t[k]) && t[k] != '(' {
      if 1 <= k < 1 + |day| {
        assert t[k] == day[k - 1];
      } else if 3 + |day| <= k {
        assert t[k] == year[k - 3 - |day|];
      }
    }
    assert t[|t| - 1] == year[|year| - 1];
  }

  /** A name starting with the only capital letter of the text cannot be
      found anywhere in it except at the front, and there it diverges. */
  lemma NotFound(name: string, rest: string, pat: string)
    requires |pat| > 0 && IsUpper(pat[0])
    requires forall k :: 1 <= k < |name| ==> !IsUpper(name[k])
    requires forall k :: 0 <= k < |rest| ==> !IsUpper(rest[k])
    requires Diverge(pat, name)
    ensures !Contains(name + rest, pat)
  {
    var s := name + rest;
    forall i | 0 <= i <= |s| ensures !StartsWith(s[i..], pat) {
      if i == 0 {
        var k: nat :| k < |pat| && k < |name| && pat[k] != name[k];
        if |pat| <= |s| {
          assert s[k] == name[k];
          assert s[..|pat|][k] == s[k];
        }
      } else if i < |s| {
        assert s[i..][0] == s[i];
        if i < |name| {
          assert s[i] == name[i];
        } else {
          assert s[i] == rest[i - |name|];
        }
      }
    }
  }

  /** Text without capitals holds no month name of the table. */
  lemma NoCapitalNoName(rest: string, pat: string)
    requires |pat| > 0 && IsUpper(pat[0])
    requires forall k :: 0 <= k < |rest| ==> !IsUpper(rest[k])
    ensures !Contains(rest, pat)
  {
    forall i | 0 <= i <= |rest| ensures !StartsWith(rest[i..], pat) {
      if i < |rest| {
        assert rest[i..][0] == rest[i];
      }
    }
  }

  // ------------------------------------------------------------ properties

  /** An English date passes the translation loop unchanged. */
  lemma EnglishUntranslated(d: Date)
    requires ValidDate(d)
    ensures TranslateMonthText(FormatUsDate(d)) == FormatUsDate(d)
  {
    var name := EnMonths[d.month - 1];
    PtEnDiverge();
    EnNameFacts(d.month - 1);
    TailFacts(d);
    forall j | 0 <= j < 12 ensures !Contains(FormatUsDate(d), PtMonths[j]) {
      PtNameFacts(j);
      NotFound(name, DateTail(d), PtMonths[j]);
    }
    assert FirstPtMonth(FormatUsDate(d), 0) == 12;
  }

  /** A Portuguese date has its month, and only its month, translated. */
  lemma PortugueseTranslated(d: Date)
    requires ValidDate(d)
    ensures TranslateMonthText(FormatPtDate(d)) == FormatUsDate(d)
  {
    var i := d.month - 1;
    var s, tail := FormatPtDate(d), DateTail(d);
    var pt := PtMonths[i];
    PtDiverge();
    PtNameFacts(i);
    TailFacts(d);
    forall j | 0 <= j < i ensures !Contains(s, PtMonths[j]) {
      PtNameFacts(j);
      NotFound(pt, tail, PtMonths[j]);
    }
    assert StartsWith(s[0..], pt);
    assert FirstPtMonth(s, 0) == i;
    NoCapitalNoName(tail, pt);
    assert s == pt + tail;
    ReplaceFront(pt, tail, EnMonths[i]);
  }

  /** `%d` accepts every day number of a month, printed without padding. */
  lemma DayTokenDec(day: int)
    requires 1 <= day <= 31
    ensures DayToken(Dec(day))
  {
    if day >= 10 {
      assert Dec(day) == Dec(day / 10) + [DigitChar(day % 10)];
      assert Dec(day / 10) == [DigitChar(day / 10)];
    }
  }

  lemma {:induction false} LetterRunPrefix(a: string, b: string)
    requires forall k :: 0 <= k < |a| ==> IsAsciiLetter(a[k])
    requires |b| > 0 && !IsAsciiLetter(b[0])
    ensures LetterRun(a + b) == |a|
  {
    if a != [] {
      assert (a + b)[1..] == a[1..] + b;
      LetterRunPrefix(a[1..], b);
    }
  }

  lemma {:induction false} DigitRunPrefix(a: string, b: string)
    requires AllDigits(a)
    requires |b| > 0 && !IsDigit(b[0])
    ensures DigitRun(a + b) == |a|
  {
    if a != [] {
      assert (a + b)[1..] == a[1..] + b;
      DigitRunPrefix(a[1..], b);
    }
  }

  /** One space before a digit is a whitespace run of length one. */
  lemma OneSpace(x: string)
    requires |x| > 0 && IsDigit(x[0])
    ensures LeadingSpaces(" " + x) == 1 && (" " + x)[1..] == x
  {
    var c := " " + x;
    assert c[1..] == x;
    assert !IsSpace(x[0]);
    assert LeadingSpaces(x) == 0;
  }

  /** The year part of a printed date reads back as the year. */
  lemma YearTail(year: int)
    requires 1 <= year <= 9999
    ensures ParseYear(" " + Pad(year, 4)) == Ok(year)
  {
    var y := Pad(year, 4);
    DecLength(year, 4);
    assert |y| == 4;
    OneSpace(y);
  }

  /** The text after the month name reads back as the day and year. */
  lemma DayYearTail(d: Date)
    requires ValidDate(d)
    ensures ParseDayYear(d.month, DateTail(d)) == Ok(d)
  {
    var b := Dec(d.day) + (", " + Pad(d.year, 4));
    assert DateTail(d) == " " + b;
    OneSpace(b);
    DayCommaYear(d);
  }

  /** "<day>, <year>" reads back as the day and year. */
  lemma DayCommaYear(d: Date)
    requires ValidDate(d)
    ensures ParseDayComma(d.month, Dec(d.day) + (", " + Pad(d.year, 4))) == Ok(d)
  {
    var day, year := Dec(d.day), Pad(d.year, 4);
    var b := day + (", " + year);
    DigitRunPrefix(day, ", " + year);
    assert b[..|day|] == day;
    DayTokenDec(d.day);
    assert b[|day|] == ',';
    assert b[|day| + 1..] == " " + year;
    YearTail(d.year);
  }

  /** Reading an English date back gives the date: `strptime` inverts the
      site's printing for every date it can hold. */
  lemma ParseFormat(d: Date)
    requires ValidDate(d)
    ensures ParseUsDate(FormatUsDate(d)) == Ok(d)
  {
    var i := d.month - 1;
    var name, tail := EnMonths[i], DateTail(d);
    var t := FormatUsDate(d);
    EnNameFacts(i);
    EnNameLower(i);
    EnLowerDistinct();
    LetterRunPrefix(name, tail);
    assert t[..|name|] == name;
    assert MonthNumber(EnMonthsLower[i]) == d.month;
    assert t[|name|..] == tail;
    DayYearTail(d);
  }

  /** The text a date normalises from: the date, optional whitespace, and
      optionally a parenthesised note. */
  lemma BeforeParenStrip(s: string, pad: string, note: string)
    requires |s| > 0 && !IsSpace(s[0]) && !IsSpace(s[|s| - 1]) && '(' !in s
    requires forall k :: 0 <= k < |pad| ==> IsSpace(pad[k])
    requires note == [] || note[0] == '('
    ensures Strip(BeforeParen(s + pad + note)) == s
  {
    assert '(' !in s + pad by {
      forall k | 0 <= k < |s + pad| ensures (s + pad)[k] != '(' {
        if k < |s| {
          assert (s + pad)[k] == s[k];
        } else {
          assert (s + pad)[k] == pad[k - |s|];
        }
      }
    }
    if note == [] {
      assert s + pad + note == s + pad;
      SplitNone(s + pad, '(');
    } else {
      assert s + pad + note == (s + pad) + ['('] + note[1..];
      SplitFirst(s + pad, '(', note[1..]);
    }
    StripTrailing(s, pad);
  }

  /** An English release date, with or without a note in parentheses,
      normalises to its ISO form. */
  lemma NormalizeEnglish(d: Date, pad: string, note: string)
    requires ValidDate(d)
    requires forall k :: 0 <= k < |pad| ==> IsSpace(pad[k])
    requires note == [] || note[0] == '('
    ensures NormalizeDate(FormatUsDate(d) + pad + note) == Ok(IsoDate(d))
  {
    var s := FormatUsDate(d);
    var name := EnMonths[d.month - 1];
    EnNameFacts(d.month - 1);
    TailFacts(d);
    assert s[0] == name[0];
    assert s[|s| - 1] == DateTail(d)[|DateTail(d)| - 1];
    assert '(' !in s by {
      forall k | 0 <= k < |s| ensures s[k] != '(' {
        if k < |name| {
          assert s[k] == name[k];
        } else {
          assert s[k] == DateTail(d)[k - |name|];
        }
      }
    }
    BeforeParenStrip(s, pad, note);
    EnglishUntranslated(d);
    ParseFormat(d);
  }

  /** A Portuguese release date, with or without a note in parentheses,
      normalises to the ISO form of the same date. */
  lemma NormalizePortuguese(d: Date, pad: string, note: string)
    requires ValidDate(d)
    requires forall k :: 0 <= k < |pad| ==> IsSpace(pad[k])
    requires note == [] || note[0] == '('
    ensures NormalizeDate(FormatPtDate(d) + pad + note) == Ok(IsoDate(d))
  {
    var s := FormatPtDate(d);
    var name := PtMonths[d.month - 1];
    PtNameFacts(d.month - 1);
    TailFacts(d);
    assert s[0] == name[0];
    assert s[|s| - 1] == DateTail(d)[|DateTail(d)| - 1];
    assert '(' !in s by {
      forall k | 0 <= k < |s| ensures s[k] != '(' {
        if k < |name| {
          assert s[k] == name[k];
        } else {
          assert s[k] == DateTail(d)[k - |name|];
        }
      }
    }
    BeforeParenStrip(s, pad, note);
    PortugueseTranslated(d);
    ParseFormat(d);
  }

  /** A Portuguese release date with a country note: "Março 10, 2015 (USA)"
      becomes "2015-03-10". */
  lemma MarchExample(raw: string)
    requires raw == "Março 10, 2015 (USA)"
    ensures NormalizeDate(raw) == Ok("2015-03-10")
  {
    var d := Date(2015, 3, 10);
    var pad, note := " ", "(USA)";
    MarchPrinted(d);
    NormalizePortuguese(d, pad, note);
  }

  lemma MarchPrinted(d: Date)
    requires d == Date(2015, 3, 10)
    ensures ValidDate(d)
    ensures FormatPtDate(d) + " " + "(USA)" == "Março 10, 2015 (USA)"
    ensures IsoDate(d) == "2015-03-10"
  {
    MarchText(d);
    MarchIso(d);
  }

  lemma MarchText(d: Date)
    requires d == Date(2015, 3, 10)
    ensures ValidDate(d)
    ensures FormatPtDate(d) + " " + "(USA)" == "Março 10, 2015 (USA)"
  {
    MarchTail(d);
    MarchJoin(PtMonths[d.month - 1], DateTail(d));
  }

  lemma MarchTail(d: Date)
    requires d == Date(2015, 3, 10)
    ensures ValidDate(d)
    ensures DateTail(d) == " 10, 2015"
  {
    DigitsOfTen(d.day);
    DigitsOf2015(d.year);
  }

  lemma MarchJoin(month: string, tail: string)
    requires month == "Março" && tail == " 10, 2015"
    ensures month + tail + " " + "(USA)" == "Março 10, 2015 (USA)"
  {
  }

  lemma DigitsOfTen(n: nat)
    requires n == 10
    ensures Dec(n) == "10"
  {
    assert Dec(n / 10) == "1";
  }

  lemma DigitsOf2015(n: nat)
    requires n == 2015
    ensures Pad(n, 4) == "2015"
  {
    assert Dec(2) == "2";
    assert Dec(20) == "20";
    assert Dec(201) == "201";
    assert Dec(n) == "2015";
  }

  lemma MarchIso(d: Date)
    requires d == Date(2015, 3, 10)
    ensures ValidDate(d)
    ensures IsoDate(d) == "2015-03-10"
  {
  }

  /** Text whose month is neither a table name nor an English month name
      does not parse. */
  lemma UnknownMonthFails(raw: string)
    requires var t := Strip(BeforeParen(raw));
      (forall j :: 0 <= j < 12 ==> !Contains(t, PtMonths[j]))
      && LowerAscii(LeadingWord(t)) !in EnMonthsLower
    ensures NormalizeDate(raw) == Err(ValueError)
  {
    var t := Strip(BeforeParen(raw));
    assert FirstPtMonth(t, 0) == 12;
  }
}
