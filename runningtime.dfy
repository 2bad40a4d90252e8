/** The running-time conversion ("2 hr 15 min" to 135). Its two working
    variables, the token list and the unit-to-number dictionary, are
    script-level variables that are never reset, so a record without a
    usable running time sees whatever an earlier record left in them. */
module RunningTime {
  import opened PyBuiltins

  /** `split_running_time` and `liquid_running_time`; None until the first
      assignment binds the name. */
  datatype RtState = RtState(split: Option<seq<string>>, liquid: Option<map<string, string>>)

  /** Neither variable bound yet: the state before the first record. */
  const Unbound := RtState(None, None)

  const HourUnit := "hr"
  const MinuteUnit := "min"

  /** `int(liquid[unit])`. */
  function UnitValue(liquid: map<string, string>, unit: string): (r: Result<int>)
    ensures r.Ok? <==> unit in liquid && PyInt(liquid[unit]).Ok?
    ensures r.Ok? ==> PyInt(liquid[unit]) == r
    ensures r.Err? ==> r.error == (if unit in liquid then ValueError else KeyError)
  {
    if unit in liquid then PyInt(liquid[unit]) else Err(KeyError)
  }

  /** The dictionary built from the tokens, keyed by unit: the first two
      pairs when there are four tokens or more (the `minutes` branch), the
      first pair when there are two or three, and otherwise the dictionary
      an earlier record left. */
  function Pairs(split: Option<seq<string>>, prev: Option<map<string, string>>): (r: (Option<map<string, string>>, bool))
    ensures r.1 <==> split.Some? && |split.value| >= 4
    ensures split.Some? && |split.value| >= 2 ==>
      && r.0.Some?
      && split.value[1] in r.0.value
      && (r.1 ==> split.value[3] in r.0.value && r.0.value[split.value[3]] == split.value[2])
      && (!r.1 || split.value[1] != split.value[3] ==> r.0.value[split.value[1]] == split.value[0])
    ensures r.1 ==> r.0.value.Keys == {split.value[1], split.value[3]}
    ensures split.Some? && 2 <= |split.value| < 4 ==> r.0.value.Keys == {split.value[1]}
    ensures !(split.Some? && |split.value| >= 2) ==> r.0 == prev
  {
    if split.Some? && |split.value| >= 4 then
      var sp := split.value;
      (Some(map[sp[1] := sp[0]][sp[3] := sp[2]]), true)
    else if split.Some? && |split.value| >= 2 then
      (Some(map[split.value[1] := split.value[0]]), false)
    else (prev, false)
  }

  /** The token list the record leaves in `split_running_time`: its own
      running time split on spaces, or the previous list when it has none
      (the lookup's KeyError is caught and nothing is assigned). */
  function Tokens(raw: Option<Value>, st: RtState): (r: Result<Option<seq<string>>>)
    ensures r.Ok? <==> raw.None? || raw.value.Str?
    ensures r.Ok? ==> r.value == if raw.None? then st.split else Some(Split(raw.value.s, ' '))
    ensures r.Err? ==> r.error == AttributeError
  {
    match raw
    case None => Ok(st.split)
    case Some(Str(s)) => Ok(Some(Split(s, ' ')))
    case Some(_) => Err(AttributeError)
  }

  /** The minutes read from the dictionary. With four tokens or more both
      units must be present and numeric, or the record's conversion raises.
      Otherwise hours are tried first, then minutes; neither unit present
      gives None, and a dictionary never bound is a NameError. */
  function Minutes(liquid: Option<map<string, string>>, minutes: bool): (r: Result<Value>)
    requires minutes ==> liquid.Some?
    ensures r.Ok? ==> r.value.Int? || r.value.Null?
    ensures minutes ==> (r.Ok? <==> UnitValue(liquid.value, HourUnit).Ok? && UnitValue(liquid.value, MinuteUnit).Ok?)
    ensures minutes && r.Ok? ==>
      r.value == Int(UnitValue(liquid.value, HourUnit).value * 60 + UnitValue(liquid.value, MinuteUnit).value)
    ensures !minutes && liquid.None? ==> r == Err(NameError)
    ensures !minutes && liquid.Some? && UnitValue(liquid.value, HourUnit).Ok? ==>
      r == Ok(Int(UnitValue(liquid.value, HourUnit).value * 60))
    // None only when hours fail and there is no minutes entry at all
    ensures r.Ok? && r.value.Null? <==>
      !minutes && liquid.Some? && UnitValue(liquid.value, HourUnit).Err? && MinuteUnit !in liquid.value
    ensures !minutes && liquid.Some? && UnitValue(liquid.value, HourUnit).Err? && MinuteUnit in liquid.value ==>
      r == (var m :- PyInt(liquid.value[MinuteUnit]); Ok(Int(m)))
  {
    if minutes then
      var hours :- UnitValue(liquid.value, HourUnit);
      var mins :- UnitValue(liquid.value, MinuteUnit);
      Ok(Int(hours * 60 + mins))
    else if liquid.None? then Err(NameError)
    else
      match UnitValue(liquid.value, HourUnit)
      case Ok(hours) => Ok(Int(hours * 60))
      case Err(_) =>
        if MinuteUnit !in liquid.value then Ok(Null)
        else
          var mins :- PyInt(liquid.value[MinuteUnit]);
          Ok(Int(mins))
  }

  /** The conversion for one record. `raw` is the record's `Running Time`
      entry, or None when the record has none. On success it gives the new
      entry (whole minutes, or None) and the variables as they are left. */
  function RunningTimeStep(raw: Option<Value>, st: RtState): (r: Result<(Value, RtState)>)
    ensures r.Ok? ==> r.value.0.Int? || r.value.0.Null?
    // the token list is the record's own when it has a running time
    ensures r.Ok? && raw.Some? ==> raw.value.Str? && r.value.1.split == Some(Split(raw.value.s, ' '))
    ensures r.Ok? && raw.None? ==> r.value.1.split == st.split
    // the dictionary is rebuilt from that token list, or carried over
    ensures r.Ok? ==> r.value.1.liquid == Pairs(r.value.1.split, st.liquid).0
    ensures r.Ok? && !(r.value.1.split.Some? && |r.value.1.split.value| >= 2) ==> r.value.1.liquid == st.liquid
    // the value is None only when the hours fail and no minutes entry exists
    ensures r.Ok? && r.value.0.Null? ==>
      && r.value.1.liquid.Some?
      && UnitValue(r.value.1.liquid.value, HourUnit).Err?
      && MinuteUnit !in r.value.1.liquid.value
  {
    var split :- Tokens(raw, st);
    var (liquid, minutes) := Pairs(split, st.liquid);
    var v :- Minutes(liquid, minutes);
    Ok((v, RtState(split, liquid)))
  }

  // ------------------------------------------------------------ properties

  /** Splitting "<a> <b>" and "<a> <b> <c> <d>" on spaces when no piece
      holds a space. */
  lemma SplitTwo(a: string, b: string)
    requires ' ' !in a && ' ' !in b
    ensures Split(a + " " + b, ' ') == [a, b]
  {
    SplitLast(a, ' ', b);
    SplitNone(a, ' ');
  }

  lemma SplitFour(a: string, b: string, c: string, d: string)
    requires ' ' !in a && ' ' !in b && ' ' !in c && ' ' !in d
    ensures Split(a + " " + b + " " + c + " " + d, ' ') == [a, b, c, d]
  {
    SplitLast(a + " " + b + " " + c, ' ', d);
    SplitLast(a + " " + b, ' ', c);
    SplitTwo(a, b);
  }

  lemma DecNoSpace(n: nat)
    ensures ' ' !in Dec(n)
  {
    assert forall k :: 0 <= k < |Dec(n)| ==> Dec(n)[k] != ' ';
  }

  /** A running time of four space-free tokens: a dictionary of the two
      (number, unit) pairs, both units required. */
  lemma FourTokens(text: string, a: string, u: string, b: string, w: string, st: RtState)
    requires ' ' !in a && ' ' !in u && ' ' !in b && ' ' !in w
    requires text == a + " " + u + " " + b + " " + w
    ensures var r, v := RunningTimeStep(Some(Str(text)), st), Minutes(Some(map[u := a][w := b]), true);
      && (r.Ok? <==> v.Ok?)
      && (r.Ok? ==> r.value.0 == v.value)
  {
    SplitFour(a, u, b, w);
  }

  /** A running time of two space-free tokens: one (number, unit) pair. */
  lemma TwoTokens(text: string, a: string, u: string, st: RtState)
    requires ' ' !in a && ' ' !in u
    requires text == a + " " + u
    ensures var r, v := RunningTimeStep(Some(Str(text)), st), Minutes(Some(map[u := a]), false);
      && (r.Ok? <==> v.Ok?)
      && (r.Ok? ==> r.value.0 == v.value)
  {
    SplitTwo(a, u);
  }

  /** A unit whose number is printed in decimal reads back as that number. */
  lemma UnitDec(liquid: map<string, string>, unit: string, n: nat)
    requires unit in liquid && liquid[unit] == Dec(n)
    ensures UnitValue(liquid, unit) == Ok(n)
  {
    PyIntDec(n);
  }

  /** Both units present in decimal: hours times sixty plus minutes. */
  lemma BothUnits(liquid: map<string, string>, h: nat, m: nat)
    requires HourUnit in liquid && liquid[HourUnit] == Dec(h)
    requires MinuteUnit in liquid && liquid[MinuteUnit] == Dec(m)
    ensures var v := Minutes(Some(liquid), true); v.Ok? && v.value == Int(h * 60 + m)
  {
    UnitDec(liquid, HourUnit, h);
    UnitDec(liquid, MinuteUnit, m);
  }

  /** Four words joined by single spaces. */
  lemma Spaced(a: string, u: string, b: string, w: string)
    ensures u == HourUnit && w == MinuteUnit ==> a + " hr " + b + " min" == a + " " + u + " " + b + " " + w
    ensures u == MinuteUnit && w == HourUnit ==> a + " min " + b + " hr" == a + " " + u + " " + b + " " + w
  {
  }

  /** "H hr M min" is H*60+M minutes, whatever earlier records left. */
  lemma HoursAndMinutes(h: nat, m: nat, st: RtState)
    ensures var r := RunningTimeStep(Some(Str(Dec(h) + " hr " + Dec(m) + " min")), st);
      r.Ok? && r.value.0 == Int(h * 60 + m)
  {
    var a, b := Dec(h), Dec(m);
    DecNoSpace(h);
    DecNoSpace(m);
    var text := a + " hr " + b + " min";
    Spaced(a, HourUnit, b, MinuteUnit);
    FourTokens(text, a, HourUnit, b, MinuteUnit, st);
    var r := RunningTimeStep(Some(Str(text)), st);
    var v := Minutes(Some(map[HourUnit := a][MinuteUnit := b]), true);
    BothUnits(map[HourUnit := a][MinuteUnit := b], h, m);
    assert v.Ok?;
    assert r.Ok? && r.value.0 == v.value;
  }

  /** The pairs are looked up by unit, so their order does not matter:
      "M min H hr" is also H*60+M minutes. */
  lemma MinutesThenHours(h: nat, m: nat, st: RtState)
    ensures var r := RunningTimeStep(Some(Str(Dec(m) + " min " + Dec(h) + " hr")), st);
      r.Ok? && r.value.0 == Int(h * 60 + m)
  {
    var a, b := Dec(h), Dec(m);
    DecNoSpace(h);
    DecNoSpace(m);
    var text := b + " min " + a + " hr";
    Spaced(b, MinuteUnit, a, HourUnit);
    FourTokens(text, b, MinuteUnit, a, HourUnit, st);
    var r := RunningTimeStep(Some(Str(text)), st);
    var v := Minutes(Some(map[MinuteUnit := b][HourUnit := a]), true);
    BothUnits(map[MinuteUnit := b][HourUnit := a], h, m);
    assert v.Ok?;
    assert r.Ok? && r.value.0 == v.value;
  }

  /** "H hr" is H*60 minutes. */
  lemma HoursOnly(h: nat, st: RtState)
    ensures var r := RunningTimeStep(Some(Str(Dec(h) + " hr")), st);
      r.Ok? && r.value.0 == Int(h * 60)
  {
    var a := Dec(h);
    DecNoSpace(h);
    TwoTokens(a + " hr", a, HourUnit, st);
    PyIntDec(h);
    assert UnitValue(map[HourUnit := a], HourUnit) == Ok(h);
    assert Minutes(Some(map[HourUnit := a]), false).value == Int(h * 60);
  }

  /** "M min" is M minutes. */
  lemma MinutesOnly(m: nat, st: RtState)
    ensures var r := RunningTimeStep(Some(Str(Dec(m) + " min")), st);
      r.Ok? && r.value.0 == Int(m)
  {
    var b := Dec(m);
    DecNoSpace(m);
    TwoTokens(b + " min", b, MinuteUnit, st);
    PyIntDec(m);
    var liquid := map[MinuteUnit := b];
    assert HourUnit !in liquid;
    assert UnitValue(liquid, HourUnit) == Err(KeyError);
    assert Minutes(Some(liquid), false).value == Int(m);
  }

  /** The worked examples: "2 hr 15 min" is 135 minutes, "1 hr" is 60 and
      "45 min" is 45. */
  lemma TwoHoursFifteen(text: string, st: RtState)
    requires text == "2 hr 15 min"
    ensures RunningTimeStep(Some(Str(text)), st).Ok?
    ensures RunningTimeStep(Some(Str(text)), st).value.0 == Int(135)
  {
    var h, m := 2, 15;
    assert Dec(h) == "2" && Dec(m) == "15";
    assert text == Dec(h) + " hr " + Dec(m) + " min";
    HoursAndMinutes(h, m, st);
  }

  lemma OneHour(text: string, st: RtState)
    requires text == "1 hr"
    ensures RunningTimeStep(Some(Str(text)), st).Ok?
    ensures RunningTimeStep(Some(Str(text)), st).value.0 == Int(60)
  {
    var h := 1;
    assert Dec(h) == "1";
    assert text == Dec(h) + " hr";
    HoursOnly(h, st);
  }

  lemma FortyFiveMinutes(text: string, st: RtState)
    requires text == "45 min"
    ensures RunningTimeStep(Some(Str(text)), st).Ok?
    ensures RunningTimeStep(Some(Str(text)), st).value.0 == Int(45)
  {
    var m := 45;
    assert Dec(m) == "45";
    assert text == Dec(m) + " min";
    MinutesOnly(m, st);
  }

  /** The first record of the run without a running time: the token list
      was never bound, and the final `except KeyError` does not catch the
      NameError, so the run stops. */
  lemma FirstRecordWithoutRunningTime()
    ensures RunningTimeStep(None, Unbound) == Err(NameError)
  {
  }

  /** A later record without a running time repeats the value of the
      record before it and leaves the variables as they were. */
  lemma MissingRepeatsPrevious(text: string, st: RtState)
    requires RunningTimeStep(Some(Str(text)), st).Ok?
    ensures var prev := RunningTimeStep(Some(Str(text)), st).value;
      RunningTimeStep(None, prev.1) == Ok(prev)
  {
    var prev := RunningTimeStep(Some(Str(text)), st).value;
    var sp := Split(text, ' ');
    if |sp| < 2 {
      assert prev.1.liquid == st.liquid;
    }
  }

  /** A running time of a single token (no unit) also falls back on the
      dictionary an earlier record left. */
  lemma SingleTokenUsesPrevious(text: string, st: RtState)
    requires ' ' !in text
    ensures RunningTimeStep(Some(Str(text)), st) == RunningTimeStep(None, RtState(Some([text]), st.liquid))
  {
    SplitNone(text, ' ');
  }

  /** An hours number that is not an integer, with no minutes entry, gives
      None: the ValueError of the hours lookup is swallowed like a missing
      key. */
  lemma HoursNotIntegerNull(h: string, st: RtState)
    requires ' ' !in h && PyInt(h).Err?
    ensures var r := RunningTimeStep(Some(Str(h + " hr")), st);
      r.Ok? && r.value.0 == Null
  {
    TwoTokens(h + " hr", h, HourUnit, st);
    assert UnitValue(map[HourUnit := h], HourUnit).Err?;
  }

  lemma OneAndAHalfHours(text: string, st: RtState)
    requires text == "1.5 hr"
    ensures RunningTimeStep(Some(Str(text)), st).Ok?
    ensures RunningTimeStep(Some(Str(text)), st).value.0 == Null
  {
    var h := "1.5";
    assert text == h + " hr";
    DecimalPointNotInt(h, 1);
    HoursNotIntegerNull(h, st);
  }

  /** Text with a decimal point is no integer for `int()`. */
  lemma DecimalPointNotInt(h: string, k: nat)
    requires k < |h| && h[k] == '.'
    ensures PyInt(h).Err?
  {
    assert !IsDigit(h[k]) && !IsSpace(h[k]) && h[k] !in "+-_";
  }

  /** A one-token running time is recomputed from the earlier dictionary
      hours first: with a decimal hours entry it is that many hours, whatever
      minutes entry the earlier record also had. */
  lemma OneTokenHoursFirst(text: string, h: nat, st: RtState)
    requires ' ' !in text
    requires st.liquid.Some? && HourUnit in st.liquid.value && st.liquid.value[HourUnit] == Dec(h)
    ensures var r := RunningTimeStep(Some(Str(text)), st);
      r.Ok? && r.value.0 == Int(h * 60)
  {
    SplitNone(text, ' ');
    UnitDec(st.liquid.value, HourUnit, h);
  }

  /** After "2 hr 15 min" (135 minutes), a running time "120" gives 120:
      the old dictionary is read hours first, so the minutes are lost. */
  lemma OneTokenAfterTwoHoursFifteen(text: string, st: RtState)
    requires text == "120"
    requires st.liquid == Some(map[HourUnit := "2", MinuteUnit := "15"])
    ensures RunningTimeStep(Some(Str(text)), st).Ok?
    ensures RunningTimeStep(Some(Str(text)), st).value.0 == Int(120)
  {
    var h: nat := 2;
    assert Dec(h) == "2";
    assert HourUnit != MinuteUnit;
    OneTokenHoursFirst(text, h, st);
  }

  /** Two records in a row: "2 hr 15 min" leaves the dictionary
      {'hr': '2', 'min': '15'} behind, and a following "120" is read
      through it as 120 minutes. */
  lemma CarryAfterTwoHoursFifteen(st: RtState)
    ensures var r1 := RunningTimeStep(Some(Str("2 hr 15 min")), st);
      && r1.Ok?
      && RunningTimeStep(Some(Str("120")), r1.value.1).Ok?
      && RunningTimeStep(Some(Str("120")), r1.value.1).value.0 == Int(120)
  {
    var text := "2 hr 15 min";
    assert text == "2" + " " + "hr" + " " + "15" + " " + "min";
    SplitFour("2", "hr", "15", "min");
    TwoHoursFifteen(text, st);
    var r1 := RunningTimeStep(Some(Str(text)), st);
    assert r1.value.1.split == Some(["2", "hr", "15", "min"]);
    assert r1.value.1.liquid == Some(map[HourUnit := "2", MinuteUnit := "15"]);
    OneTokenAfterTwoHoursFifteen("120", r1.value.1);
  }
}
