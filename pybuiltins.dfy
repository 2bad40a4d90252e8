/** The few pieces of Python that the extraction script leans on: the error
    kinds it can raise, the values it stores in its per-record dictionary,
    and the `str`/`int` built-ins it calls (`strip`, `split`, `replace`,
    `in`, `int(...)`), each written out with the same edge cases as CPython. */
module PyBuiltins {

  /** The exceptions the script can raise. None of them is caught around a
      whole record, so any of them ends the run. */
  datatype PyError =
    | ValueError      // int(...) or strptime on malformed text
    | KeyError        // a missing dictionary key or DataFrame column
    | IndexError      // a list index past the end
    | NameError       // a loop-carried variable read before it was ever bound
    | AttributeError  // a str method called on a non-string value
    | TimeoutError    // a WebDriverWait that never saw its element

  /** The outcome of a step that may raise: its value, or the exception. */
  datatype Result<T> = Ok(value: T) | Err(error: PyError) {
    predicate IsFailure() { Err? }

    function PropagateFailure<U>(): Result<U>
      requires Err?
    {
      Err(error)
    }

    function Extract(): T
      requires Ok?
    {
      value
    }
  }

  datatype Option<T> = None | Some(value: T)

  /** A value held in the per-record dictionary: page text, a parsed
      integer, or Python's None. */
  datatype Value = Str(s: string) | Int(i: int) | Null

  // ---------------------------------------------------------------- chars

  /** Python's `str.isspace()`: the characters `strip()` removes and that
      `\s` matches in a regular expression. */
  predicate IsSpace(c: char) {
    c == ' ' || ('\U{9}' <= c <= '\U{D}') || ('\U{1C}' <= c <= '\U{1F}')
    || c == '\U{85}' || c == '\U{A0}' || c == '\U{1680}'
    || ('\U{2000}' <= c <= '\U{200A}') || c == '\U{2028}' || c == '\U{2029}'
    || c == '\U{202F}' || c == '\U{205F}' || c == '\U{3000}'
  }

  predicate IsDigit(c: char) { '0' <= c <= '9' }

  function DigitVal(c: char): (d: nat)
    requires IsDigit(c)
    ensures d < 10
  {
    (c as int) - ('0' as int)
  }

  function DigitChar(d: nat): (c: char)
    requires d < 10
    ensures IsDigit(c) && DigitVal(c) == d
  {
    (('0' as int) + d) as char
  }

  predicate AllDigits(s: string) {
    forall i :: 0 <= i < |s| ==> IsDigit(s[i])
  }

  // ---------------------------------------------------------------- strip

  /** Number of whitespace characters at the front of `s`. */
  function LeadingSpaces(s: string): (n: nat)
    ensures n <= |s|
    ensures forall k :: 0 <= k < n ==> IsSpace(s[k])
    ensures n < |s| ==> !IsSpace(s[n])
  {
    if |s| > 0 && IsSpace(s[0]) then 1 + LeadingSpaces(s[1..]) else 0
  }

  /** Number of whitespace characters at the back of `s`. */
  function TrailingSpaces(s: string): (n: nat)
    ensures n <= |s|
    ensures forall k :: |s| - n <= k < |s| ==> IsSpace(s[k])
    ensures n < |s| ==> !IsSpace(s[|s| - n - 1])
  {
    if |s| > 0 && IsSpace(s[|s| - 1]) then 1 + TrailingSpaces(s[..|s| - 1]) else 0
  }

  /** Python's `s.strip()`: the middle of `s` left once the whitespace on
      both ends is gone. */
  function Strip(s: string): (r: string)
    ensures |r| <= |s|
    ensures |r| > 0 ==> !IsSpace(r[0]) && !IsSpace(r[|r| - 1])
    ensures var i := LeadingSpaces(s);
      i + |r| <= |s| && r == s[i..i + |r|]
      && forall k :: i + |r| <= k < |s| ==> IsSpace(s[k])
  {
    var t := s[LeadingSpaces(s)..];
    t[..|t| - TrailingSpaces(t)]
  }

  /** `strip()` of text whose two ends are not whitespace, followed by
      whitespace only, gives back that text. */
  lemma StripTrailing(a: string, pad: string)
    requires |a| > 0 && !IsSpace(a[0]) && !IsSpace(a[|a| - 1])
    requires forall k :: 0 <= k < |pad| ==> IsSpace(pad[k])
    ensures Strip(a + pad) == a
  {
    var s := a + pad;
    assert LeadingSpaces(s) == 0;
    var t := s[0..];
    assert t == s;
    TrailingAll(a, pad);
    assert t[..|t| - TrailingSpaces(t)] == a;
  }

  lemma {:induction false} TrailingAll(a: string, pad: string)
    requires |a| > 0 && !IsSpace(a[|a| - 1])
    requires forall k :: 0 <= k < |pad| ==> IsSpace(pad[k])
    ensures TrailingSpaces(a + pad) == |pad|
    decreases |pad|
  {
    if pad == [] {
      assert a + pad == a;
    } else {
      var p' := pad[..|pad| - 1];
      assert (a + pad)[..|a + pad| - 1] == a + p';
      TrailingAll(a, p');
    }
  }

  /** Text without whitespace is left alone by `strip()`. */
  lemma StripNoSpace(s: string)
    requires forall k :: 0 <= k < |s| ==> !IsSpace(s[k])
    ensures Strip(s) == s
  {
    assert LeadingSpaces(s) == 0;
    assert TrailingSpaces(s) == 0;
  }

  // ---------------------------------------------------------------- split

  /** Python's `s.split(sep)` with an explicit one-character separator:
      cuts at every occurrence and keeps the empty pieces. */
  function Split(s: string, sep: char): (parts: seq<string>)
    ensures |parts| >= 1
    ensures forall p :: p in parts ==> sep !in p
  {
    if s == [] then [[]]
    else
      var rest := Split(s[1..], sep);
      if s[0] == sep then [[]] + rest
      else [[s[0]] + rest[0]] + rest[1..]
  }

  /** `sep.join(parts)`, the inverse of `Split`. */
  function Join(parts: seq<string>, sep: char): string
    requires |parts| >= 1
  {
    if |parts| == 1 then parts[0] else parts[0] + [sep] + Join(parts[1..], sep)
  }

  /** Splitting loses nothing: joining the pieces back gives the text. */
  lemma {:induction false} JoinSplit(s: string, sep: char)
    ensures Join(Split(s, sep), sep) == s
  {
    if s != [] {
      var rest := Split(s[1..], sep);
      JoinSplit(s[1..], sep);
      if s[0] != sep {
        if |rest| == 1 {
        } else {
          assert [s[0]] + rest[0] + [sep] + Join(rest[1..], sep) == [s[0]] + Join(rest, sep);
        }
      }
    }
  }

  /** The first piece is the text up to the first separator. */
  lemma {:induction false} SplitHead(s: string, sep: char)
    ensures var h := Split(s, sep)[0];
      StartsWith(s, h) && (|h| < |s| ==> s[|h|] == sep)
  {
    if s != [] {
      SplitHead(s[1..], sep);
    }
  }

  /** Text without the separator is one piece. */
  lemma {:induction false} SplitNone(s: string, sep: char)
    requires sep !in s
    ensures Split(s, sep) == [s]
  {
    if s != [] {
      SplitNone(s[1..], sep);
      assert [s[0]] + s[1..] == s;
    }
  }

  /** The first piece ends at the first separator, and the rest is the split
      of what follows it. */
  lemma {:induction false} SplitFirst(a: string, sep: char, b: string)
    requires sep !in a
    ensures Split(a + [sep] + b, sep) == [a] + Split(b, sep)
  {
    var s := a + [sep] + b;
    if a == [] {
      assert s[1..] == b;
    } else {
      assert s[1..] == a[1..] + [sep] + b;
      SplitFirst(a[1..], sep, b);
      assert [a[0]] + a[1..] == a;
    }
  }

  /** The last piece starts after the last separator: splitting a text
      with one more piece appended adds that piece. */
  lemma {:induction false} SplitLast(r: string, sep: char, d: string)
    requires sep !in d
    ensures Split(r + [sep] + d, sep) == Split(r, sep) + [d]
  {
    var s := r + [sep] + d;
    if r == [] {
      assert s[1..] == d;
      SplitNone(d, sep);
    } else {
      assert s[1..] == r[1..] + [sep] + d;
      SplitLast(r[1..], sep, d);
    }
  }

  /** There are at least two pieces exactly when the separator occurs. */
  lemma {:induction false} SplitTwoPieces(s: string, sep: char)
    ensures |Split(s, sep)| >= 2 <==> sep in s
  {
    if s != [] {
      SplitTwoPieces(s[1..], sep);
      assert sep in s <==> s[0] == sep || sep in s[1..];
    }
  }

  // ---------------------------------------------------------- in / replace

  predicate StartsWith(s: string, pat: string) {
    |pat| <= |s| && s[..|pat|] == pat
  }

  /** Python's substring test `pat in s`. */
  predicate Contains(s: string, pat: string) {
    exists i :: 0 <= i <= |s| && StartsWith(s[i..], pat)
  }

  /** Python's `s.replace(pat, rep)`: every non-overlapping occurrence,
      found left to right, is replaced. */
  function ReplaceAll(s: string, pat: string, rep: string): (r: string)
    requires |pat| > 0
    ensures !Contains(s, pat) ==> r == s
    // replacing a text by itself changes nothing
    ensures rep == pat ==> r == s
    // a replacement of the same length keeps the length
    ensures |rep| == |pat| ==> |r| == |s|
    decreases |s|
  {
    if |s| < |pat| then s
    else if StartsWith(s, pat) then
      assert StartsWith(s[0..], pat);
      assert s == s[..|pat|] + s[|pat|..];
      rep + ReplaceAll(s[|pat|..], pat, rep)
    else
      var tail := ReplaceAll(s[1..], pat, rep);
      assert Contains(s[1..], pat) ==> Contains(s, pat) by {
        if Contains(s[1..], pat) {
          var i :| 0 <= i <= |s[1..]| && StartsWith(s[1..][i..], pat);
          assert s[1..][i..] == s[i + 1..];
        }
      }
      [s[0]] + tail
  }

  /** An occurrence at the front followed by text without one: only the
      front is replaced. */
  lemma ReplaceFront(pat: string, rest: string, rep: string)
    requires |pat| > 0 && !Contains(rest, pat)
    ensures ReplaceAll(pat + rest, pat, rep) == rep + rest
  {
    var s := pat + rest;
    assert StartsWith(s, pat);
    assert s[|pat|..] == rest;
  }

  /** Python's `s.replace(str(c), '')` for one character: every `c` dropped. */
  function RemoveChar(s: string, c: char): (r: string)
    ensures c !in r
    ensures |r| <= |s|
    ensures forall x :: x in r <==> x in s && x != c
  {
    if s == [] then []
    else if s[0] == c then RemoveChar(s[1..], c)
    else [s[0]] + RemoveChar(s[1..], c)
  }

  lemma {:induction false} RemoveCharAbsent(s: string, c: char)
    requires c !in s
    ensures RemoveChar(s, c) == s
  {
    if s != [] {
      RemoveCharAbsent(s[1..], c);
    }
  }

  lemma {:induction false} RemoveCharAppend(a: string, b: string, c: char)
    ensures RemoveChar(a + b, c) == RemoveChar(a, c) + RemoveChar(b, c)
  {
    if a == [] {
      assert a + b == b;
    } else {
      assert (a + b)[0] == a[0];
      assert (a + b)[1..] == a[1..] + b;
      RemoveCharAppend(a[1..], b, c);
    }
  }

  // ------------------------------------------------------------- decimals

  /** Value of a string of decimal digits, most significant first. */
  function DigitsValue(s: string): nat
    requires AllDigits(s)
  {
    if s == [] then 0 else 10 * DigitsValue(s[..|s| - 1]) + DigitVal(s[|s| - 1])
  }

  function Pow10(n: nat): (p: nat)
    ensures p >= 1
  {
    if n == 0 then 1 else 10 * Pow10(n - 1)
  }

  lemma {:induction false} DigitsValueAppend(a: string, b: string)
    requires AllDigits(a) && AllDigits(b)
    ensures AllDigits(a + b)
    ensures DigitsValue(a + b) == DigitsValue(a) * Pow10(|b|) + DigitsValue(b)
    decreases |b|
  {
    if b == [] {
      assert a + b == a;
    } else {
      var b' := b[..|b| - 1];
      var d := DigitVal(b[|b| - 1]);
      assert (a + b)[..|a + b| - 1] == a + b';
      DigitsValueAppend(a, b');
      assert b[..|b| - 1] == b';
      ShiftDigit(DigitsValue(a), Pow10(|b'|), DigitsValue(b'), d);
    }
  }

  /** One more digit: ten times (x * p + y), plus the digit. */
  lemma ShiftDigit(x: int, p: int, y: int, d: int)
    ensures 10 * (x * p + y) + d == x * (10 * p) + (10 * y + d)
  {
    assert 10 * (x * p) == x * (10 * p);
  }

  /** `str(n)` for a natural number: decimal digits, no leading zero. */
  function Dec(n: nat): (s: string)
    ensures |s| >= 1 && AllDigits(s)
    ensures |s| > 1 ==> s[0] != '0'
    ensures DigitsValue(s) == n
  {
    if n < 10 then [DigitChar(n)]
    else
      var s := Dec(n / 10) + [DigitChar(n % 10)];
      assert s[..|s| - 1] == Dec(n / 10);
      s
  }

  /** A number below `10^k` has at most `k` digits. */
  lemma {:induction false} DecLength(n: nat, k: nat)
    requires k >= 1 && n < Pow10(k)
    ensures |Dec(n)| <= k
  {
    if n >= 10 {
      DecLength(n / 10, k - 1);
    }
  }

  /** The decimal rendering is one-to-one. */
  lemma DecInjective(m: nat, n: nat)
    requires Dec(m) == Dec(n)
    ensures m == n
  {
    assert DigitsValue(Dec(m)) == DigitsValue(Dec(n));
  }

  /** `n` written with at least `width` digits, zero-padded on the left
      (as `%0<width>d` does). */
  function Pad(n: nat, width: nat): (s: string)
    ensures AllDigits(s) && DigitsValue(s) == n
    ensures |s| == if |Dec(n)| < width then width else |Dec(n)|
  {
    var d := Dec(n);
    if |d| < width then
      var z := seq(width - |d|, _ => '0');
      assert DigitsValue(z) == 0 by { ZerosValue(width - |d|); }
      DigitsValueAppend(z, d);
      z + d
    else d
  }

  lemma {:induction false} ZerosValue(k: nat)
    ensures AllDigits(seq(k, _ => '0')) && DigitsValue(seq(k, _ => '0')) == 0
  {
    if k > 0 {
      assert seq(k, _ => '0')[..k - 1] == seq(k - 1, _ => '0');
      ZerosValue(k - 1);
    }
  }

  // ----------------------------------------------------------------- int()

  /** The part of an `int()` argument after its sign: digits, with single
      underscores allowed between two digits. */
  predicate WellGrouped(b: string) {
    && |b| > 0 && IsDigit(b[0]) && IsDigit(b[|b| - 1])
    && (forall i :: 0 <= i < |b| ==> IsDigit(b[i]) || b[i] == '_')
    && (forall i :: 0 <= i < |b| - 1 ==> b[i] == '_' ==> b[i + 1] != '_')
  }

  /** A base-10 integer literal as `int()` accepts it once stripped: one
      optional sign, then a well-grouped run of digits. */
  predicate IntLiteral(t: string) {
    || WellGrouped(t)
    || (|t| > 0 && (t[0] == '+' || t[0] == '-') && WellGrouped(t[1..]))
  }

  /** Python's `int(s)` in base 10: surrounding whitespace is ignored, one
      optional sign, then a well-grouped run of digits; anything else is a
      ValueError. */
  function PyInt(s: string): (r: Result<int>)
    ensures r.Ok? <==> IntLiteral(Strip(s))
    ensures r.Ok? ==> forall k :: 0 <= k < |s| ==>
      IsDigit(s[k]) || IsSpace(s[k]) || s[k] in "+-_"
    ensures r.Ok? && r.value < 0 ==> Strip(s)[0] == '-'
    ensures r.Ok? && Strip(s)[0] != '-' ==> r.value >= 0
    ensures r.Err? ==> r.error == ValueError
  {
    var t := Strip(s);
    var signed := |t| > 0 && (t[0] == '+' || t[0] == '-');
    var body := if signed then t[1..] else t;
    if WellGrouped(body) then
      PyIntCharset(s, t, signed);
      var magnitude: int := DigitsValue(RemoveChar(body, '_'));
      Ok(if signed && t[0] == '-' then -magnitude else magnitude)
    else Err(ValueError)
  }

  lemma PyIntCharset(s: string, t: string, signed: bool)
    requires t == Strip(s)
    requires signed == (|t| > 0 && (t[0] == '+' || t[0] == '-'))
    requires WellGrouped(if signed then t[1..] else t)
    ensures AllDigits(RemoveChar(if signed then t[1..] else t, '_'))
    ensures forall k :: 0 <= k < |s| ==> IsDigit(s[k]) || IsSpace(s[k]) || s[k] in "+-_"
  {
    var body := if signed then t[1..] else t;
    SignedCharset(t, signed);
    StripCharset(s, t);
    UnderscoresDropped(body);
  }

  lemma SignedCharset(t: string, signed: bool)
    requires signed == (|t| > 0 && (t[0] == '+' || t[0] == '-'))
    requires WellGrouped(if signed then t[1..] else t)
    ensures forall k :: 0 <= k < |t| ==> IsDigit(t[k]) || t[k] in "+-_"
  {
    var body := if signed then t[1..] else t;
    forall k | 0 <= k < |t| ensures IsDigit(t[k]) || t[k] in "+-_" {
      if !(signed && k == 0) {
        assert t[k] == body[k - (if signed then 1 else 0)];
      }
    }
  }

  /** Dropping the underscores of digits and underscores leaves digits. */
  lemma UnderscoresDropped(body: string)
    requires forall i :: 0 <= i < |body| ==> IsDigit(body[i]) || body[i] == '_'
    ensures AllDigits(RemoveChar(body, '_'))
  {
    var r := RemoveChar(body, '_');
    forall k | 0 <= k < |r| ensures IsDigit(r[k]) {
      assert r[k] in r;
      var j :| 0 <= j < |body| && body[j] == r[k];
    }
  }

  /** Every character of `s` is whitespace or a character of `strip(s)`. */
  lemma StripCharset(s: string, t: string)
    requires t == Strip(s)
    requires forall k :: 0 <= k < |t| ==> IsDigit(t[k]) || t[k] in "+-_"
    ensures forall k :: 0 <= k < |s| ==> IsDigit(s[k]) || IsSpace(s[k]) || s[k] in "+-_"
  {
    var i := LeadingSpaces(s);
    forall k | 0 <= k < |s|
      ensures IsDigit(s[k]) || IsSpace(s[k]) || s[k] in "+-_"
    {
      if i <= k < i + |t| {
        assert s[k] == t[k - i];
      }
    }
  }

  /** `int()` reads a plain run of digits as its decimal value. */
  lemma PyIntDigits(d: string)
    requires |d| > 0 && AllDigits(d)
    ensures PyInt(d) == Ok(DigitsValue(d))
  {
    StripNoSpace(d);
    RemoveCharAbsent(d, '_');
  }

  /** `int(str(n)) == n`. */
  lemma PyIntDec(n: nat)
    ensures PyInt(Dec(n)) == Ok(n)
  {
    PyIntDigits(Dec(n));
  }
}
