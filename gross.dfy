/** The three gross-figure cells of a title's summary page (domestic,
    international, worldwide, left to right) and the positional rule that
    decides which of them become fields of the record. */
module Gross {
  import opened PyBuiltins
  import opened Money

  /** The figures read from the cells. `total` is always read; the other
      two are absent when their cell is the placeholder. */
  datatype GrossFigures = GrossFigures(domestic: Option<int>, international: Option<int>, total: int)

  const DomesticKey := "domestic_gross"
  const InternationalKey := "international_gross"
  const TotalKey := "total_gross"

  /** `int(cells[i].replace('$', '').replace(',', ''))`, including the
      IndexError of a list that is too short. */
  function MoneyCell(cells: seq<string>, i: nat): (r: Result<int>)
    ensures r.Ok? <==> i < |cells| && ParseMoney(cells[i]).Ok?
    ensures r.Ok? ==> ParseMoney(cells[i]) == r
    ensures i >= |cells| ==> r == Err(IndexError)
    ensures i < |cells| && r.Err? ==> r.error == ParseMoney(cells[i]).error
  {
    if i < |cells| then ParseMoney(cells[i]) else Err(IndexError)
  }

  /** The three-way branch on the placeholder: cell 0 is tested first, then
      cell 1; cell 2 is always the worldwide total. The reads happen in the
      order the script performs them, so the first failing one decides the
      error. */
  function ClassifyGross(cells: seq<string>): (r: Result<GrossFigures>)
    // the total always comes from cell 2
    ensures r.Ok? ==> |cells| >= 3 && ParseMoney(cells[2]) == Ok(r.value.total)
    // domestic is missing exactly when cell 0 is the placeholder
    ensures r.Ok? ==> (r.value.domestic.None? <==> cells[0] == Sentinel)
    // international is missing exactly when cell 1 is the placeholder and cell 0 is not
    ensures r.Ok? ==> (r.value.international.None? <==> cells[0] != Sentinel && cells[1] == Sentinel)
    ensures r.Ok? && r.value.domestic.Some? ==> ParseMoney(cells[0]) == Ok(r.value.domestic.value)
    ensures r.Ok? && r.value.international.Some? ==> ParseMoney(cells[1]) == Ok(r.value.international.value)
    // it fails exactly when a cell it reads is missing or is not a figure
    ensures r.Ok? <==>
      && |cells| >= 3
      && (cells[0] != Sentinel ==> ParseMoney(cells[0]).Ok?)
      && (cells[0] == Sentinel || cells[1] != Sentinel ==> ParseMoney(cells[1]).Ok?)
      && ParseMoney(cells[2]).Ok?
  {
    if |cells| == 0 then Err(IndexError)
    else if cells[0] == Sentinel then
      var international :- MoneyCell(cells, 1);
      var total :- MoneyCell(cells, 2);
      Ok(GrossFigures(None, Some(international), total))
    else if |cells| < 2 then Err(IndexError)
    else if cells[1] == Sentinel then
      var domestic :- MoneyCell(cells, 0);
      var total :- MoneyCell(cells, 2);
      Ok(GrossFigures(Some(domestic), None, total))
    else
      var domestic :- MoneyCell(cells, 0);
      var international :- MoneyCell(cells, 1);
      var total :- MoneyCell(cells, 2);
      Ok(GrossFigures(Some(domestic), Some(international), total))
  }

  /** The dictionary entries the figures become. */
  function GrossEntries(g: GrossFigures): (m: map<string, Value>)
    ensures TotalKey in m && m[TotalKey] == Int(g.total)
    ensures DomesticKey in m <==> g.domestic.Some?
    ensures InternationalKey in m <==> g.international.Some?
    ensures g.domestic.Some? ==> m[DomesticKey] == Int(g.domestic.value)
    ensures g.international.Some? ==> m[InternationalKey] == Int(g.international.value)
    ensures m.Keys <= {DomesticKey, InternationalKey, TotalKey}
  {
    var m := map[TotalKey := Int(g.total)];
    var m := if g.domestic.Some? then m[DomesticKey := Int(g.domestic.value)] else m;
    if g.international.Some? then m[InternationalKey := Int(g.international.value)] else m
  }

  /** A gross label is 14, 19 or 11 characters long. */
  lemma GrossKeyLengths(g: GrossFigures, key: string)
    requires key in GrossEntries(g)
    ensures |key| == 14 || |key| == 19 || |key| == 11
  {
    assert |DomesticKey| == 14 && |InternationalKey| == 19 && |TotalKey| == 11;
  }

  /** The fields written for each placeholder position, never more and
      never fewer: a placeholder in cell 0 leaves out the domestic figure, a
      placeholder in cell 1 the international one, none of them nothing. */
  lemma GrossTriad(cells: seq<string>)
    requires ClassifyGross(cells).Ok?
    ensures var keys := GrossEntries(ClassifyGross(cells).value).Keys;
      && (cells[0] == Sentinel ==> keys == {InternationalKey, TotalKey})
      && (cells[0] != Sentinel && cells[1] == Sentinel ==> keys == {DomesticKey, TotalKey})
      && (cells[0] != Sentinel && cells[1] != Sentinel ==> keys == {DomesticKey, InternationalKey, TotalKey})
  {
  }

  /** Two placeholders side by side are an error: cell 1 is then read as a
      figure. */
  lemma TwoPlaceholdersFail(cells: seq<string>)
    requires |cells| >= 2 && cells[0] == Sentinel && cells[1] == Sentinel
    ensures ClassifyGross(cells) == Err(ValueError)
  {
    SentinelIsNotMoney();
  }
}
