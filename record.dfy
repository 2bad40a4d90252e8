/** One title's record: the dictionary the script fills from a summary page
    (title, synopsis, gross figures, attribute blocks) and then normalises
    field by field (release date, opening weekend, budget, running time). */
module Record {
  import opened PyBuiltins
  import opened Money
  import opened Gross
  import opened Dates
  import opened RunningTime

  /** `info_dict`: labels to values. */
  type Info = map<string, Value>

  const TitleKey := "movie_title"
  const SummaryKey := "movie_summary"
  const ReleaseKey := "Earliest Release Date"
  const OpeningKey := "Domestic Opening"
  const BudgetKey := "Budget"
  const RunningTimeKey := "Running Time"
  const ImdbKey := "IMDbPro"

  /** What the summary page shows, as the waits would find it. A title or
      synopsis element that never appears is None; a list of gross cells or
      attribute blocks that never appears is empty (a wait for all elements
      succeeds only once at least one is present). */
  datatype SummaryPage = SummaryPage(
    title: Option<string>,
    summary: Option<string>,
    gross: seq<string>,
    blocks: seq<string>)

  // ------------------------------------------------------ attribute blocks

  /** The label and value of one attribute block: its first two lines,
      stripped, when it has at least two lines. */
  function BlockEntry(block: string): (e: Option<(string, string)>)
    ensures e.Some? <==> '\n' in block
    ensures e.Some? ==>
      && |Split(block, '\n')| >= 2
      && e.value == (Strip(Split(block, '\n')[0]), Strip(Split(block, '\n')[1]))
  {
    SplitTwoPieces(block, '\n');
    var lines := Split(block, '\n');
    if |lines| >= 2 then Some((Strip(lines[0]), Strip(lines[1]))) else None
  }

  /** The entries of a page's blocks, in page order. */
  function Entries(blocks: seq<string>): (es: seq<Option<(string, string)>>)
    ensures |es| == |blocks|
  {
    seq(|blocks|, i requires 0 <= i < |blocks| => BlockEntry(blocks[i]))
  }

  /** One entry applied to the dictionary. */
  function ApplyEntry(info: Info, e: Option<(string, string)>): Info {
    match e
    case Some((key, value)) => info[key := Str(value)]
    case None => info
  }

  /** The entries applied in order. */
  function ApplyEntries(info: Info, es: seq<Option<(string, string)>>): (r: Info)
    // labels are only ever added
    ensures info.Keys <= r.Keys
    // a label no entry carries keeps its value
    ensures forall k :: k in info && (forall i :: 0 <= i < |es| ==> !Carries(es[i], k)) ==> r[k] == info[k]
    decreases |es|
  {
    if |es| == 0 then info
    else ApplyEntry(ApplyEntries(info, es[..|es| - 1]), es[|es| - 1])
  }

  /** The blocks applied in page order. */
  function ApplyBlocks(info: Info, blocks: seq<string>): (r: Info)
    // the labels are the old ones and those of the blocks with two lines
    ensures r.Keys == info.Keys + set e | e in Entries(blocks) && e.Some? :: e.value.0
  {
    ApplyEntriesKeys(info, Entries(blocks));
    ApplyEntries(info, Entries(blocks))
  }

  /** Whether an entry carries label `key`. */
  predicate Carries(e: Option<(string, string)>, key: string) {
    e.Some? && e.value.0 == key
  }

  /** The position of the last entry carrying label `key`, if any. */
  function LastEntry(es: seq<Option<(string, string)>>, key: string): (j: Option<nat>)
    ensures j.Some? ==> j.value < |es| && Carries(es[j.value], key)
    ensures j.Some? ==> forall k :: j.value < k < |es| ==> !Carries(es[k], key)
    ensures j.None? ==> forall k :: 0 <= k < |es| ==> !Carries(es[k], key)
    decreases |es|
  {
    if |es| == 0 then None
    else
      var n := |es| - 1;
      if Carries(es[n], key) then Some(n)
      else
        var j := LastEntry(es[..n], key);
        assert forall k :: 0 <= k < n ==> es[..n][k] == es[k];
        j
  }

  /** The position of the last block labelled `key`, if any. */
  function LastBlock(blocks: seq<string>, key: string): Option<nat> {
    LastEntry(Entries(blocks), key)
  }

  /** The value of the last block labelled `key`, if any. */
  function BlockValue(blocks: seq<string>, key: string): (v: Option<string>)
    ensures v.Some? <==> LastBlock(blocks, key).Some?
    ensures v.Some? ==> var j := LastBlock(blocks, key).value;
      j < |blocks| && BlockEntry(blocks[j]) == Some((key, v.value))
  {
    match LastBlock(blocks, key)
    case Some(j) =>
      assert Entries(blocks)[j] == BlockEntry(blocks[j]);
      Some(BlockEntry(blocks[j]).value.1)
    case None => None
  }

  /** A block value as the dictionary entry it becomes. */
  function StrEntry(v: Option<string>): Option<Value> {
    if v.Some? then Some(Str(v.value)) else None
  }

  /** The loop over the attribute blocks, updating the dictionary in place. */
  method ParseAttributeBlocks(info: Info, blocks: seq<string>) returns (out: Info)
    ensures out == ApplyBlocks(info, blocks)
  {
    out := info;
    ghost var es := Entries(blocks);
    for i := 0 to |blocks|
      invariant out == ApplyEntries(info, es[..i])
    {
      ApplyEntriesSnoc(info, es, i);
      assert es[i] == BlockEntry(blocks[i]);
      var lines := Split(blocks[i], '\n');
      if |lines| >= 2 {
        var key := Strip(lines[0]);
        var value := Strip(lines[1]);
        out := out[key := Str(value)];
      }
    }
    assert es[..|blocks|] == es;
  }

  lemma ApplyEntriesSnoc(info: Info, es: seq<Option<(string, string)>>, i: nat)
    requires i < |es|
    ensures ApplyEntries(info, es[..i + 1]) == ApplyEntry(ApplyEntries(info, es[..i]), es[i])
  {
    assert es[..i + 1][..i] == es[..i];
  }

  /** A label's value after the entries: the last entry with that label
      wins; a label no entry carries keeps the value it had. */
  lemma {:induction false} ApplyEntriesLookup(info: Info, es: seq<Option<(string, string)>>, key: string)
    ensures var out := ApplyEntries(info, es);
      match LastEntry(es, key)
      case Some(j) => key in out && out[key] == Str(es[j].value.1)
      case None => (key in out <==> key in info) && (key in info ==> out[key] == info[key])
    decreases |es|
  {
    if |es| > 0 {
      var n := |es| - 1;
      ApplyEntriesLookup(info, es[..n], key);
      if !Carries(es[n], key) {
        assert LastEntry(es, key) == LastEntry(es[..n], key);
        match LastEntry(es[..n], key)
        case Some(j) => assert es[..n][j] == es[j];
        case None =>
      }
    }
  }

  /** The labels after the entries are the old ones and every entry's. */
  lemma {:induction false} ApplyEntriesKeys(info: Info, es: seq<Option<(string, string)>>)
    ensures ApplyEntries(info, es).Keys == info.Keys + set e | e in es && e.Some? :: e.value.0
    decreases |es|
  {
    if |es| > 0 {
      var n := |es| - 1;
      ApplyEntriesKeys(info, es[..n]);
      assert es == es[..n] + [es[n]];
      var before := set e | e in es[..n] && e.Some? :: e.value.0;
      var after := set e | e in es && e.Some? :: e.value.0;
      if es[n].Some? {
        assert after == before + {es[n].value.0};
      } else {
        assert after == before;
      }
    }
  }

  /** The same facts for the blocks of a page. */
  lemma ApplyBlocksLookup(info: Info, blocks: seq<string>, key: string)
    ensures var out := ApplyBlocks(info, blocks);
      match LastBlock(blocks, key)
      case Some(j) => j < |blocks| && BlockEntry(blocks[j]).Some? && BlockEntry(blocks[j]).value.0 == key
        && key in out && out[key] == Str(BlockEntry(blocks[j]).value.1)
      case None => (key in out <==> key in info) && (key in info ==> out[key] == info[key])
  {
    ApplyEntriesLookup(info, Entries(blocks), key);
  }

  /** A label the dictionary lacks holds its last block's value after the
      blocks, or is still absent when no block carries it. */
  lemma BlockLookup(info: Info, blocks: seq<string>, key: string)
    requires key !in info
    ensures var out := ApplyBlocks(info, blocks);
      && (key in out <==> BlockValue(blocks, key).Some?)
      && (key in out ==> out[key] == Str(BlockValue(blocks, key).value))
  {
    ApplyBlocksLookup(info, blocks, key);
  }

  /** A one-line block is ignored. */
  lemma ShortBlockIgnored(info: Info, block: string)
    requires '\n' !in block
    ensures ApplyEntry(info, BlockEntry(block)) == info
  {
  }

  /** Lines after the second are ignored. */
  lemma ExtraLinesIgnored(name: string, value: string, rest: string)
    requires '\n' !in name && '\n' !in value
    ensures BlockEntry(name + "\n" + value + "\n" + rest) == Some((Strip(name), Strip(value)))
    ensures BlockEntry(name + "\n" + value) == Some((Strip(name), Strip(value)))
  {
    assert name + "\n" + value + "\n" + rest == name + ['\n'] + (value + ['\n'] + rest);
    SplitFirst(name, '\n', value + ['\n'] + rest);
    SplitFirst(value, '\n', rest);
    assert name + "\n" + value == name + ['\n'] + value;
    SplitFirst(name, '\n', value);
    SplitNone(value, '\n');
  }

  // ------------------------------------------------------------ the fields

  /** `info[key].split('(')[0].strip()`, translated and parsed: the ISO
      date that replaces the release date. */
  function ConvertDate(info: Info): (r: Result<Info>)
    ensures r.Ok? ==>
      && ReleaseKey in info && info[ReleaseKey].Str? && NormalizeDate(info[ReleaseKey].s).Ok?
      && r.value == info[ReleaseKey := Str(NormalizeDate(info[ReleaseKey].s).value)]
    ensures r.Ok? ==> IsIsoDate(r.value[ReleaseKey].s)
    ensures r.Err? ==> r.error == (if ReleaseKey !in info then KeyError
                                   else if !info[ReleaseKey].Str? then AttributeError
                                   else ValueError)
  {
    if ReleaseKey !in info then Err(KeyError)
    else if !info[ReleaseKey].Str? then Err(AttributeError)
    else
      var iso :- NormalizeDate(info[ReleaseKey].s);
      Ok(info[ReleaseKey := Str(iso)])
  }

  /** The date conversion leaves the money and running-time entries alone. */
  lemma DateKeepsOthers(info: Info)
    requires ConvertDate(info).Ok?
    ensures var dated := ConvertDate(info).value;
      && (OpeningKey in dated <==> OpeningKey in info) && (OpeningKey in info ==> dated[OpeningKey] == info[OpeningKey])
      && (BudgetKey in dated <==> BudgetKey in info) && (BudgetKey in info ==> dated[BudgetKey] == info[BudgetKey])
      && RunningTimeEntry(dated) == RunningTimeEntry(info)
  {
    NormalisedDistinct();
  }

  /** A money field converted in place when present; a record without it
      is left as it is. */
  function ConvertMoneyField(info: Info, key: string): (r: Result<Info>)
    ensures key !in info ==> r == Ok(info)
    ensures r.Ok? && key in info ==>
      && info[key].Str? && ParseMoney(info[key].s).Ok?
      && r.value == info[key := Int(ParseMoney(info[key].s).value)]
    ensures r.Err? ==> key in info && r.error == (if info[key].Str? then ValueError else AttributeError)
  {
    if key !in info then Ok(info)
    else if !info[key].Str? then Err(AttributeError)
    else
      var n :- ParseMoney(info[key].s);
      Ok(info[key := Int(n)])
  }

  /** The running-time entry the conversion starts from. */
  function RunningTimeEntry(info: Info): Option<Value> {
    if RunningTimeKey in info then Some(info[RunningTimeKey]) else None
  }

  /** The labels the script rewrites after the blocks are read. */
  const Normalised: set<string> := {ReleaseKey, OpeningKey, BudgetKey, RunningTimeKey, ImdbKey}

  /** The rewritten labels differ pairwise (their lengths do), and a label
      of any other length is none of them. */
  lemma NormalisedLengths(k: string)
    ensures |ReleaseKey| == 21 && |OpeningKey| == 16 && |BudgetKey| == 6
    ensures |RunningTimeKey| == 12 && |ImdbKey| == 7
    ensures |k| !in {21, 16, 6, 12, 7} ==> k !in Normalised
  {
  }

  /** The rewritten labels are pairwise distinct. */
  lemma NormalisedDistinct()
    ensures ReleaseKey != OpeningKey && ReleaseKey != BudgetKey && ReleaseKey != RunningTimeKey && ReleaseKey != ImdbKey
    ensures OpeningKey != BudgetKey && OpeningKey != RunningTimeKey && OpeningKey != ImdbKey
    ensures BudgetKey != RunningTimeKey && BudgetKey != ImdbKey && RunningTimeKey != ImdbKey
  {
    NormalisedLengths(ImdbKey);
  }

  /** The dictionary before the blocks: title, synopsis and gross figures. */
  function BaseInfo(title: string, summary: string, g: GrossFigures): (info: Info)
    ensures info.Keys == {TitleKey, SummaryKey} + GrossEntries(g).Keys
    ensures info[TitleKey] == Str(title)
    ensures info[SummaryKey] == Str(summary)
    ensures forall k :: k in GrossEntries(g) ==> info[k] == GrossEntries(g)[k]
  {
    assert |TitleKey| == 11 && |SummaryKey| == 13 && |DomesticKey| == 14 && |InternationalKey| == 19;
    assert TitleKey[0] != TotalKey[0];
    map[TitleKey := Str(title), SummaryKey := Str(summary)] + GrossEntries(g)
  }

  /** The last two steps: the running time, then `IMDbPro` dropped. */
  function FinishRecord(info: Info, st: RtState): (r: Result<(Info, RtState)>)
    ensures r.Ok? ==> ImdbKey !in r.value.0
    ensures r.Ok? ==>
      && RunningTimeKey in r.value.0
      && (r.value.0[RunningTimeKey].Int? || r.value.0[RunningTimeKey].Null?)
    ensures r.Ok? ==> forall k :: k != RunningTimeKey && k != ImdbKey ==>
      (k in r.value.0 <==> k in info) && (k in info ==> r.value.0[k] == info[k])
    // the new entry and the variables are those of the running-time step
    ensures var step := RunningTimeStep(RunningTimeEntry(info), st);
      && (r.Ok? <==> step.Ok?)
      && (r.Ok? ==> r.value.0[RunningTimeKey] == step.value.0 && r.value.1 == step.value.1)
      && (r.Err? ==> r.error == step.error)
  {
    NormalisedLengths(ImdbKey);
    var (minutes, st') :- RunningTimeStep(RunningTimeEntry(info), st);
    Ok((info[RunningTimeKey := minutes] - {ImdbKey}, st'))
  }

  /** Opening weekend, then budget, converted where present. */
  function MoneyFields(info: Info): (r: Result<Info>)
    ensures r.Ok? ==> (OpeningKey in r.value <==> OpeningKey in info)
    ensures r.Ok? && OpeningKey in r.value ==> r.value[OpeningKey].Int?
    ensures r.Ok? ==> (BudgetKey in r.value <==> BudgetKey in info)
    ensures r.Ok? && BudgetKey in r.value ==> r.value[BudgetKey].Int?
    ensures r.Ok? ==> forall k :: k != OpeningKey && k != BudgetKey ==>
      (k in r.value <==> k in info) && (k in info ==> r.value[k] == info[k])
    // a present field holds the amount its text stands for
    ensures r.Ok? && OpeningKey in info ==>
      && info[OpeningKey].Str? && ParseMoney(info[OpeningKey].s).Ok?
      && r.value[OpeningKey] == Int(ParseMoney(info[OpeningKey].s).value)
    ensures r.Ok? && BudgetKey in info ==>
      && info[BudgetKey].Str? && ParseMoney(info[BudgetKey].s).Ok?
      && r.value[BudgetKey] == Int(ParseMoney(info[BudgetKey].s).value)
    // the conversion fails exactly when a present field is not money text
    ensures r.Err? <==>
      || (OpeningKey in info && !(info[OpeningKey].Str? && ParseMoney(info[OpeningKey].s).Ok?))
      || (BudgetKey in info && !(info[BudgetKey].Str? && ParseMoney(info[BudgetKey].s).Ok?))
  {
    NormalisedDistinct();
    var withOpening :- ConvertMoneyField(info, OpeningKey);
    ConvertMoneyField(withOpening, BudgetKey)
  }

  /** Opening weekend and budget converted, then the last two steps. */
  function ConvertMoney(info: Info, st: RtState): (r: Result<(Info, RtState)>)
    ensures r.Ok? ==> ImdbKey !in r.value.0
    ensures r.Ok? ==>
      && RunningTimeKey in r.value.0
      && (r.value.0[RunningTimeKey].Int? || r.value.0[RunningTimeKey].Null?)
    ensures r.Ok? ==> (OpeningKey in r.value.0 <==> OpeningKey in info)
    ensures r.Ok? && OpeningKey in r.value.0 ==> r.value.0[OpeningKey].Int?
    ensures r.Ok? ==> (BudgetKey in r.value.0 <==> BudgetKey in info)
    ensures r.Ok? && BudgetKey in r.value.0 ==> r.value.0[BudgetKey].Int?
    ensures r.Ok? ==> forall k :: k !in Normalised ==>
      (k in r.value.0 <==> k in info) && (k in info ==> r.value.0[k] == info[k])
    ensures r.Ok? && ReleaseKey in info ==> ReleaseKey in r.value.0 && r.value.0[ReleaseKey] == info[ReleaseKey]
    ensures r.Ok? && OpeningKey in info ==>
      && info[OpeningKey].Str? && ParseMoney(info[OpeningKey].s).Ok?
      && r.value.0[OpeningKey] == Int(ParseMoney(info[OpeningKey].s).value)
    ensures r.Ok? && BudgetKey in info ==>
      && info[BudgetKey].Str? && ParseMoney(info[BudgetKey].s).Ok?
      && r.value.0[BudgetKey] == Int(ParseMoney(info[BudgetKey].s).value)
    ensures r.Ok? ==> var step := RunningTimeStep(RunningTimeEntry(info), st);
      step.Ok? && r.value.0[RunningTimeKey] == step.value.0 && r.value.1 == step.value.1
  {
    NormalisedDistinct();
    var budgeted :- MoneyFields(info);
    FinishRecord(budgeted, st)
  }

  /** The field conversions after the blocks, in script order: release
      date, opening weekend, budget, running time, then `IMDbPro` dropped.
      Every other label is left as it was. */
  function Normalize(info: Info, st: RtState): (r: Result<(Info, RtState)>)
    ensures r.Ok? ==> ImdbKey !in r.value.0
    ensures r.Ok? ==>
      && ReleaseKey in r.value.0 && r.value.0[ReleaseKey].Str?
      && IsIsoDate(r.value.0[ReleaseKey].s)
    ensures r.Ok? ==>
      && RunningTimeKey in r.value.0
      && (r.value.0[RunningTimeKey].Int? || r.value.0[RunningTimeKey].Null?)
    ensures r.Ok? ==> (OpeningKey in r.value.0 <==> OpeningKey in info)
    ensures r.Ok? && OpeningKey in r.value.0 ==> r.value.0[OpeningKey].Int?
    ensures r.Ok? ==> (BudgetKey in r.value.0 <==> BudgetKey in info)
    ensures r.Ok? && BudgetKey in r.value.0 ==> r.value.0[BudgetKey].Int?
    ensures r.Ok? ==> forall k :: k !in Normalised ==>
      (k in r.value.0 <==> k in info) && (k in info ==> r.value.0[k] == info[k])
    ensures ReleaseKey !in info ==> r == Err(KeyError)
    ensures r.Ok? ==>
      && ReleaseKey in info && info[ReleaseKey].Str? && NormalizeDate(info[ReleaseKey].s).Ok?
      && r.value.0[ReleaseKey] == Str(NormalizeDate(info[ReleaseKey].s).value)
    ensures r.Ok? && OpeningKey in info ==>
      && info[OpeningKey].Str? && ParseMoney(info[OpeningKey].s).Ok?
      && r.value.0[OpeningKey] == Int(ParseMoney(info[OpeningKey].s).value)
    ensures r.Ok? && BudgetKey in info ==>
      && info[BudgetKey].Str? && ParseMoney(info[BudgetKey].s).Ok?
      && r.value.0[BudgetKey] == Int(ParseMoney(info[BudgetKey].s).value)
    ensures r.Ok? ==> var step := RunningTimeStep(RunningTimeEntry(info), st);
      step.Ok? && r.value.0[RunningTimeKey] == step.value.0 && r.value.1 == step.value.1
  {
    NormalisedLengths(ImdbKey);
    var dated :- ConvertDate(info);
    DateKeepsOthers(info);
    ConvertMoney(dated, st)
  }

  /** The record built from one summary page, and the running-time
      variables as it leaves them. A wait that never sees its element is a
      TimeoutError. */
  function RecordSpec(page: SummaryPage, st: RtState): (r: Result<(Info, RtState)>)
    ensures page.title.None? || page.summary.None? || |page.gross| == 0 ==> r == Err(TimeoutError)
    ensures r.Ok? ==> ClassifyGross(page.gross).Ok? && |page.blocks| > 0
    ensures r.Ok? ==> Normalize(ApplyBlocks(BaseInfo(page.title.value, page.summary.value,
                                 ClassifyGross(page.gross).value), page.blocks), st) == r
    // the release date is the last release-date block, as an ISO date
    ensures r.Ok? ==> var text := BlockValue(page.blocks, ReleaseKey);
      && text.Some? && NormalizeDate(text.value).Ok?
      && ReleaseKey in r.value.0 && r.value.0[ReleaseKey] == Str(NormalizeDate(text.value).value)
    // opening weekend and budget are the amounts of their last blocks
    ensures r.Ok? ==> var text := BlockValue(page.blocks, OpeningKey);
      && (OpeningKey in r.value.0 <==> text.Some?)
      && (text.Some? ==> ParseMoney(text.value).Ok?
                         && r.value.0[OpeningKey] == Int(ParseMoney(text.value).value))
    ensures r.Ok? ==> var text := BlockValue(page.blocks, BudgetKey);
      && (BudgetKey in r.value.0 <==> text.Some?)
      && (text.Some? ==> ParseMoney(text.value).Ok?
                         && r.value.0[BudgetKey] == Int(ParseMoney(text.value).value))
    // the running time and the variables come from the last running-time block
    ensures r.Ok? ==> var step := RunningTimeStep(StrEntry(BlockValue(page.blocks, RunningTimeKey)), st);
      && step.Ok? && RunningTimeKey in r.value.0
      && r.value.0[RunningTimeKey] == step.value.0 && r.value.1 == step.value.1
  {
    if page.title.None? || page.summary.None? || |page.gross| == 0 then Err(TimeoutError)
    else
      var g :- ClassifyGross(page.gross);
      if |page.blocks| == 0 then Err(TimeoutError)
      else
        PageValues(page.title.value, page.summary.value, g, page.blocks, st);
        Normalize(ApplyBlocks(BaseInfo(page.title.value, page.summary.value, g), page.blocks), st)
  }

  /** The converted fields of a record, in terms of the blocks that carry
      them. */
  lemma PageValues(title: string, summary: string, g: GrossFigures, blocks: seq<string>, st: RtState)
    ensures var r := Normalize(ApplyBlocks(BaseInfo(title, summary, g), blocks), st);
      var date := BlockValue(blocks, ReleaseKey);
      var opening := BlockValue(blocks, OpeningKey);
      var budget := BlockValue(blocks, BudgetKey);
      var step := RunningTimeStep(StrEntry(BlockValue(blocks, RunningTimeKey)), st);
      r.Ok? ==>
      && date.Some? && NormalizeDate(date.value).Ok?
      && r.value.0[ReleaseKey] == Str(NormalizeDate(date.value).value)
      && (OpeningKey in r.value.0 <==> opening.Some?)
      && (opening.Some? ==>
            ParseMoney(opening.value).Ok? && r.value.0[OpeningKey] == Int(ParseMoney(opening.value).value))
      && (BudgetKey in r.value.0 <==> budget.Some?)
      && (budget.Some? ==>
            ParseMoney(budget.value).Ok? && r.value.0[BudgetKey] == Int(ParseMoney(budget.value).value))
      && step.Ok? && r.value.0[RunningTimeKey] == step.value.0 && r.value.1 == step.value.1
  {
    var info := ApplyBlocks(BaseInfo(title, summary, g), blocks);
    BlockOverBase(title, summary, g, blocks, ReleaseKey);
    BlockOverBase(title, summary, g, blocks, OpeningKey);
    BlockOverBase(title, summary, g, blocks, BudgetKey);
    BlockOverBase(title, summary, g, blocks, RunningTimeKey);
    assert RunningTimeEntry(info) == StrEntry(BlockValue(blocks, RunningTimeKey));
  }

  /** A label the base dictionary lacks holds its last block's value, or is
      absent when no block carries it. */
  lemma BlockOverBase(title: string, summary: string, g: GrossFigures, blocks: seq<string>, key: string)
    requires key in Normalised
    ensures var info := ApplyBlocks(BaseInfo(title, summary, g), blocks);
      && (key in info <==> BlockValue(blocks, key).Some?)
      && (BlockValue(blocks, key).Some? ==> info[key] == Str(BlockValue(blocks, key).value))
  {
    NormalisedLengths(key);
    NotBaseKey(title, summary, g, key);
    BlockLookup(BaseInfo(title, summary, g), blocks, key);
  }

  /** The record builder as the script runs it: a dictionary filled and
      rewritten step by step, stopping at the first exception. */
  method BuildRecord(page: SummaryPage, st: RtState) returns (r: Result<(Info, RtState)>)
    ensures r == RecordSpec(page, st)
  {
    if page.title.None? || page.summary.None? || |page.gross| == 0 {
      return Err(TimeoutError);
    }
    var figures := ClassifyGross(page.gross);
    if figures.Err? {
      return Err(figures.error);
    }
    var info := BaseInfo(page.title.value, page.summary.value, figures.value);
    if |page.blocks| == 0 {
      return Err(TimeoutError);
    }
    info := ParseAttributeBlocks(info, page.blocks);
    ghost var blocksRead := info;

    // the release date: cut at '(', strip, translate the month, parse
    if ReleaseKey !in info {
      return Err(KeyError);
    }
    if !info[ReleaseKey].Str? {
      return Err(AttributeError);
    }
    var dateText := Strip(BeforeParen(info[ReleaseKey].s));
    dateText := TranslateMonth(dateText);
    var date := ParseUsDate(dateText);
    if date.Err? {
      return Err(date.error);
    }
    info := info[ReleaseKey := Str(IsoDate(date.value))];
    assert ConvertDate(blocksRead) == Ok(info);

    // opening weekend and budget
    var opening := ConvertMoneyField(info, OpeningKey);
    if opening.Err? {
      return Err(opening.error);
    }
    info := opening.value;
    var budget := ConvertMoneyField(info, BudgetKey);
    if budget.Err? {
      return Err(budget.error);
    }
    info := budget.value;

    // running time, then IMDbPro dropped
    var step := RunningTimeStep(RunningTimeEntry(info), st);
    if step.Err? {
      return Err(step.error);
    }
    info := info[RunningTimeKey := step.value.0];
    info := info - {ImdbKey};
    r := Ok((info, step.value.1));
  }

  // ------------------------------------------------------------ properties

  /** A record holds no `IMDbPro`, an ISO release date, a running time
      that is whole minutes or None, and integer opening weekend and
      budget when it has them at all. */
  lemma RecordFields(page: SummaryPage, st: RtState)
    requires RecordSpec(page, st).Ok?
    ensures var info := RecordSpec(page, st).value.0;
      && ImdbKey !in info
      && ReleaseKey in info && info[ReleaseKey].Str? && IsIsoDate(info[ReleaseKey].s)
      && RunningTimeKey in info && (info[RunningTimeKey].Int? || info[RunningTimeKey].Null?)
      && (OpeningKey in info ==> info[OpeningKey].Int?)
      && (BudgetKey in info ==> info[BudgetKey].Int?)
  {
  }

  /** A label that only attribute blocks write, other than the ones the
      script converts, holds the last block's value, or is absent when no
      block carries it. */
  lemma BlockFieldKept(page: SummaryPage, st: RtState, key: string)
    requires RecordSpec(page, st).Ok?
    requires key !in {TitleKey, SummaryKey, DomesticKey, InternationalKey, TotalKey}
    requires key !in Normalised
    ensures var info := RecordSpec(page, st).value.0;
      && (key in info <==> BlockValue(page.blocks, key).Some?)
      && (key in info ==> info[key] == Str(BlockValue(page.blocks, key).value))
  {
    var base := BaseInfo(page.title.value, page.summary.value, ClassifyGross(page.gross).value);
    NotBaseKey(page.title.value, page.summary.value, ClassifyGross(page.gross).value, key);
    BlockLookup(base, page.blocks, key);
  }

  lemma NotBaseKey(title: string, summary: string, g: GrossFigures, key: string)
    requires key !in {TitleKey, SummaryKey, DomesticKey, InternationalKey, TotalKey}
    ensures key !in BaseInfo(title, summary, g)
  {
    assert key !in GrossEntries(g).Keys;
  }

  /** The title reaches the record unless a block is labelled like it. */
  lemma TitleKept(page: SummaryPage, st: RtState)
    requires RecordSpec(page, st).Ok?
    requires LastBlock(page.blocks, TitleKey).None?
    ensures TitleKey in RecordSpec(page, st).value.0
    ensures RecordSpec(page, st).value.0[TitleKey] == Str(page.title.value)
  {
    var base := BaseInfo(page.title.value, page.summary.value, ClassifyGross(page.gross).value);
    ApplyBlocksLookup(base, page.blocks, TitleKey);
    assert |TitleKey| == 11;
    NormalisedLengths(TitleKey);
  }

  /** The synopsis reaches the record unless a block uses its label. */
  lemma SummaryKept(page: SummaryPage, st: RtState)
    requires RecordSpec(page, st).Ok?
    requires LastBlock(page.blocks, SummaryKey).None?
    ensures SummaryKey in RecordSpec(page, st).value.0
    ensures RecordSpec(page, st).value.0[SummaryKey] == Str(page.summary.value)
  {
    assert |SummaryKey| == 13;
    NormalisedLengths(SummaryKey);
    BaseKept(page.title.value, page.summary.value, ClassifyGross(page.gross).value, page.blocks, st, SummaryKey);
  }

  /** Each gross figure the page shows reaches the record as its amount,
      unless a block uses its label. */
  lemma GrossKept(page: SummaryPage, st: RtState, key: string)
    requires RecordSpec(page, st).Ok?
    requires key in GrossEntries(ClassifyGross(page.gross).value)
    requires LastBlock(page.blocks, key).None?
    ensures key in RecordSpec(page, st).value.0
    ensures RecordSpec(page, st).value.0[key] == GrossEntries(ClassifyGross(page.gross).value)[key]
  {
    var g := ClassifyGross(page.gross).value;
    GrossKeyLengths(g, key);
    NormalisedLengths(key);
    BaseKept(page.title.value, page.summary.value, g, page.blocks, st, key);
  }

  /** A base label no block uses and no conversion rewrites keeps its value
      through the blocks and the conversions. */
  lemma BaseKept(title: string, summary: string, g: GrossFigures, blocks: seq<string>, st: RtState, key: string)
    requires key in BaseInfo(title, summary, g)
    requires key !in Normalised
    requires LastBlock(blocks, key).None?
    requires Normalize(ApplyBlocks(BaseInfo(title, summary, g), blocks), st).Ok?
    ensures var out := Normalize(ApplyBlocks(BaseInfo(title, summary, g), blocks), st).value.0;
      key in out && out[key] == BaseInfo(title, summary, g)[key]
  {
    ApplyBlocksLookup(BaseInfo(title, summary, g), blocks, key);
  }

  /** A page without a release-date block cannot be a record: the lookup
      raises KeyError, which nothing catches. */
  lemma NoReleaseDateFails(page: SummaryPage, st: RtState)
    requires page.title.Some? && page.summary.Some? && ClassifyGross(page.gross).Ok? && |page.blocks| > 0
    requires LastBlock(page.blocks, ReleaseKey).None?
    ensures RecordSpec(page, st) == Err(KeyError)
  {
    var info := ApplyBlocks(BaseInfo(page.title.value, page.summary.value, ClassifyGross(page.gross).value), page.blocks);
    NoReleaseKey(page.title.value, page.summary.value, ClassifyGross(page.gross).value, page.blocks);
    assert RecordSpec(page, st) == Normalize(info, st);
  }

  /** Neither the base dictionary nor a block without that label holds a
      release date. */
  lemma NoReleaseKey(title: string, summary: string, g: GrossFigures, blocks: seq<string>)
    requires LastBlock(blocks, ReleaseKey).None?
    ensures ReleaseKey !in ApplyBlocks(BaseInfo(title, summary, g), blocks)
  {
    NormalisedLengths(ReleaseKey);
    NotBaseKey(title, summary, g, ReleaseKey);
    ApplyBlocksLookup(BaseInfo(title, summary, g), blocks, ReleaseKey);
  }
}
