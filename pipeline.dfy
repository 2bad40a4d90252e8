/** The batch run: twenty years in a row, each year's index page giving a
    list of title links; every link that opens a summary page yields a
    record, and each year's records are written to one file. Navigation is
    an input: what each link turned out to be, and an empty link list for
    an index page whose table never appeared. */
module Pipeline {
  import opened PyBuiltins
  import opened RunningTime
  import opened Record
  import opened Table

  /** What following one title link gave. */
  datatype LinkOutcome =
    | NoSummaryLink          // the summary link never appeared: skipped
    | ClickFailed            // clicking it raised: skipped
    | Opened(page: SummaryPage)

  /** One written file. */
  datatype CsvFile = CsvFile(year: int, name: string, frame: Frame)

  /** The year counter's value before the first iteration. */
  const StartYear := 2007
  /** The number of years the run visits. */
  const YearCount := 20

  /** The file a year's table is written to. */
  function FileName(year: nat): (name: string)
    ensures |name| > 25 && name[..21] == "worldwide_box_office_"
  {
    "worldwide_box_office_" + Dec(year) + ".csv"
  }

  /** Different years write different files. */
  lemma FileNameInjective(y1: nat, y2: nat)
    requires FileName(y1) == FileName(y2)
    ensures y1 == y2
  {
    var p := "worldwide_box_office_";
    var s1, s2 := FileName(y1), FileName(y2);
    assert Dec(y1) == s1[|p|..|s1| - 4];
    assert Dec(y2) == s2[|p|..|s2| - 4];
    DecInjective(y1, y2);
  }

  // ---------------------------------------------------------- one year

  /** The pages of the links that opened, in link order. */
  function OpenedPages(links: seq<LinkOutcome>): (pages: seq<SummaryPage>)
    ensures |pages| <= |links|
    decreases |links|
  {
    if |links| == 0 then []
    else
      var rest := OpenedPages(links[..|links| - 1]);
      match links[|links| - 1]
      case Opened(page) => rest + [page]
      case _ => rest
  }

  /** How many links were skipped. */
  function CountSkipped(links: seq<LinkOutcome>): (n: nat)
    ensures n <= |links|
    decreases |links|
  {
    if |links| == 0 then 0
    else CountSkipped(links[..|links| - 1]) + (if links[|links| - 1].Opened? then 0 else 1)
  }

  /** How one record is built from its page and the running-time
      variables (`RecordSpec` in a run; the link loop does not depend on
      its details). */
  type Builder = (SummaryPage, RtState) -> Result<(Info, RtState)>

  /** The records of a year's links, in link order, and the running-time
      variables as the last record leaves them; the first exception ends
      it. */
  function CollectRecords(build: Builder, links: seq<LinkOutcome>, st: RtState): (r: Result<(seq<Info>, RtState)>)
    // one record per link that opened
    ensures r.Ok? ==> |r.value.0| == |OpenedPages(links)|
    // a year whose links all were skipped has no records and leaves the variables alone
    ensures OpenedPages(links) == [] ==> r == Ok(([], st))
    decreases |links|
  {
    if |links| == 0 then Ok(([], st))
    else
      var (records, cur) :- CollectRecords(build, links[..|links| - 1], st);
      match links[|links| - 1]
      case Opened(page) =>
        var (info, next) :- build(page, cur);
        Ok((records + [info], next))
      case _ => Ok((records, cur))
  }

  /** A year: the index page (an empty link list is the wait timing out),
      the records, the frame, the file. */
  function YearSpec(year: nat, links: seq<LinkOutcome>, st: RtState): (r: Result<(CsvFile, RtState)>)
    ensures r.Ok? ==> r.value.0.year == year && r.value.0.name == FileName(year)
    ensures |links| == 0 ==> r == Err(TimeoutError)
  {
    if |links| == 0 then Err(TimeoutError)
    else
      var (records, next) :- CollectRecords(RecordSpec, links, st);
      var frame :- AssembleTable(records);
      Ok((CsvFile(year, FileName(year), frame), next))
  }

  /** An exception at some link ends the year with it. */
  lemma {:induction false} CollectErrorSticks(build: Builder, links: seq<LinkOutcome>, n: nat, st: RtState)
    requires n <= |links| && CollectRecords(build, links[..n], st).Err?
    ensures CollectRecords(build, links, st) == CollectRecords(build, links[..n], st)
    decreases |links|
  {
    if n == |links| {
      assert links[..n] == links;
    } else {
      var m := |links| - 1;
      assert links[..m][..n] == links[..n];
      CollectErrorSticks(build, links[..m], n, st);
      CollectErrorStep(build, links, st);
    }
  }

  lemma CollectErrorStep(build: Builder, links: seq<LinkOutcome>, st: RtState)
    requires |links| > 0 && CollectRecords(build, links[..|links| - 1], st).Err?
    ensures CollectRecords(build, links, st) == CollectRecords(build, links[..|links| - 1], st)
  {
  }

  /** One more link: the fold over a prefix extended by one outcome. */
  lemma CollectSnoc(build: Builder, links: seq<LinkOutcome>, i: nat, st: RtState, records: seq<Info>, cur: RtState)
    requires i < |links| && CollectRecords(build, links[..i], st) == Ok((records, cur))
    ensures !links[i].Opened? ==> CollectRecords(build, links[..i + 1], st) == Ok((records, cur))
    ensures links[i].Opened? ==> var b := build(links[i].page, cur);
      && (b.Ok? ==> CollectRecords(build, links[..i + 1], st) == Ok((records + [b.value.0], b.value.1)))
      && (b.Err? ==> CollectRecords(build, links[..i + 1], st) == Err(b.error))
  {
    assert links[..i + 1][..i] == links[..i];
  }

  /** The link loop of one year, appending each record as it is built. */
  method RunYear(year: nat, links: seq<LinkOutcome>, st: RtState) returns (r: Result<(CsvFile, RtState)>)
    ensures r == YearSpec(year, links, st)
  {
    if |links| == 0 {
      return Err(TimeoutError);
    }
    var records: seq<Info> := [];
    var cur := st;
    for i := 0 to |links|
      invariant CollectRecords(RecordSpec, links[..i], st) == Ok((records, cur))
    {
      CollectSnoc(RecordSpec, links, i, st, records, cur);
      match links[i]
      case Opened(page) =>
        var built := BuildRecord(page, cur);
        if built.Err? {
          CollectErrorSticks(RecordSpec, links, i + 1, st);
          return Err(built.error);
        }
        records := records + [built.value.0];
        cur := built.value.1;
      case _ =>
    }
    assert links[..|links|] == links;
    var frame := AssembleTable(records);
    if frame.Err? {
      return Err(frame.error);
    }
    r := Ok((CsvFile(year, FileName(year), frame.value), cur));
  }

  /** One record per opened link: the count is the links minus the
      skipped ones. */
  lemma {:induction false} RecordCount(build: Builder, links: seq<LinkOutcome>, st: RtState)
    requires CollectRecords(build, links, st).Ok?
    ensures |CollectRecords(build, links, st).value.0| == |OpenedPages(links)| == |links| - CountSkipped(links)
    decreases |links|
  {
    if |links| > 0 {
      RecordCount(build, links[..|links| - 1], st);
    }
  }

  /** A skipped link leaves no trace: neither a record nor a change to the
      running-time variables. */
  lemma SkipInvisible(build: Builder, links: seq<LinkOutcome>, skipped: LinkOutcome, st: RtState)
    requires !skipped.Opened?
    ensures CollectRecords(build, links + [skipped], st) == CollectRecords(build, links, st)
    ensures OpenedPages(links + [skipped]) == OpenedPages(links)
  {
    assert (links + [skipped])[..|links|] == links;
  }

  /** A builder that puts the page's title in the record, when no block is
      labelled like the title. */
  ghost predicate KeepsTitle(build: Builder) {
    forall page, st :: build(page, st).Ok? && LastBlock(page.blocks, TitleKey).None? ==>
      && page.title.Some? && TitleKey in build(page, st).value.0
      && build(page, st).value.0[TitleKey] == Str(page.title.value)
  }

  lemma RecordSpecKeepsTitle()
    ensures KeepsTitle(RecordSpec)
  {
    forall page, st | RecordSpec(page, st).Ok? && LastBlock(page.blocks, TitleKey).None?
      ensures page.title.Some? && TitleKey in RecordSpec(page, st).value.0
      ensures RecordSpec(page, st).value.0[TitleKey] == Str(page.title.value)
    {
      TitleKept(page, st);
    }
  }

  /** Records keep link order: the k-th record carries the title of the
      k-th page that opened (when no block is labelled like the title). */
  lemma {:induction false} TitlesInLinkOrder(build: Builder, links: seq<LinkOutcome>, st: RtState)
    requires KeepsTitle(build) && CollectRecords(build, links, st).Ok?
    requires forall p :: p in OpenedPages(links) ==> LastBlock(p.blocks, TitleKey).None?
    ensures var records, pages := CollectRecords(build, links, st).value.0, OpenedPages(links);
      |records| == |pages| &&
      forall k :: 0 <= k < |records| ==>
        TitleKey in records[k] && pages[k].title.Some? && records[k][TitleKey] == Str(pages[k].title.value)
    decreases |links|
  {
    RecordCount(build, links, st);
    if |links| > 0 {
      var init := links[..|links| - 1];
      assert forall p :: p in OpenedPages(init) ==> p in OpenedPages(links);
      TitlesInLinkOrder(build, init, st);
      match links[|links| - 1]
      case Opened(page) =>
        assert page in OpenedPages(links);
      case _ =>
    }
  }

  /** The same for the records the script builds. */
  lemma RecordsInLinkOrder(links: seq<LinkOutcome>, st: RtState)
    requires CollectRecords(RecordSpec, links, st).Ok?
    requires forall p :: p in OpenedPages(links) ==> LastBlock(p.blocks, TitleKey).None?
    ensures var records, pages := CollectRecords(RecordSpec, links, st).value.0, OpenedPages(links);
      |records| == |pages| &&
      forall k :: 0 <= k < |records| ==>
        TitleKey in records[k] && pages[k].title.Some? && records[k][TitleKey] == Str(pages[k].title.value)
  {
    RecordSpecKeepsTitle();
    TitlesInLinkOrder(RecordSpec, links, st);
  }

  // ---------------------------------------------------------- all years

  /** How one year is processed from its year number, its links and the
      running-time variables (`YearSpec` in a run). */
  type YearStep = (nat, seq<LinkOutcome>, RtState) -> Result<(CsvFile, RtState)>

  /** A year's file is named after the year. */
  ghost predicate NamesFiles(step: YearStep) {
    forall y, links, st :: step(y, links, st).Ok? ==>
      step(y, links, st).value.0.year == y && step(y, links, st).value.0.name == FileName(y)
  }

  /** A year whose index page never shows its table raises TimeoutError. */
  ghost predicate TimesOutOnEmpty(step: YearStep) {
    forall y, st :: step(y, [], st) == Err(TimeoutError)
  }

  lemma YearSpecBehaves()
    ensures NamesFiles(YearSpec) && TimesOutOnEmpty(YearSpec)
  {
  }

  /** The run after `n` years: the files written, the exception that ended
      it if one did, and the running-time variables carried into the next
      year. Once an exception is raised nothing more happens. */
  function RunSpec(step: YearStep, web: seq<seq<LinkOutcome>>, n: nat): (r: (seq<CsvFile>, Option<PyError>, RtState))
    requires n <= |web|
    // at most one file per year, and one for each year when nothing raised
    ensures |r.0| <= n
    ensures r.1.None? ==> |r.0| == n
  {
    if n == 0 then ([], None, Unbound)
    else
      var (files, failure, st) := RunSpec(step, web, n - 1);
      if failure.Some? then (files, failure, st)
      else
        match step(StartYear + n, web[n - 1], st)
        case Err(e) => (files, Some(e), st)
        case Ok((file, next)) => (files + [file], None, next)
  }

  /** Once the run has failed it stays failed with the same files. */
  lemma {:induction false} RunFailureSticks(step: YearStep, web: seq<seq<LinkOutcome>>, n: nat, m: nat)
    requires n <= m <= |web| && RunSpec(step, web, n).1.Some?
    ensures RunSpec(step, web, m) == RunSpec(step, web, n)
    decreases m
  {
    if m > n {
      RunFailureSticks(step, web, n, m - 1);
    }
  }

  /** The year loop: the counter goes up before each year is fetched. */
  method RunAllYears(web: seq<seq<LinkOutcome>>) returns (files: seq<CsvFile>, failure: Option<PyError>)
    requires |web| == YearCount
    ensures files == RunSpec(YearSpec, web, YearCount).0 && failure == RunSpec(YearSpec, web, YearCount).1
  {
    var year := StartYear;
    var st := Unbound;
    files := [];
    failure := None;
    var i := 0;
    while i < YearCount
      invariant 0 <= i <= YearCount && year == StartYear + i
      invariant RunSpec(YearSpec, web, i) == (files, None, st)
    {
      year := year + 1;
      var r := RunYear(year, web[i], st);
      if r.Err? {
        failure := Some(r.error);
        RunFailureSticks(YearSpec, web, i + 1, YearCount);
        return;
      }
      files := files + [r.value.0];
      st := r.value.1;
      i := i + 1;
    }
  }

  /** The k-th file is year 2008 + k's, the years ascend one by one, and a
      run without an exception writes one file per year. */
  lemma {:induction false} FileYears(step: YearStep, web: seq<seq<LinkOutcome>>, n: nat)
    requires n <= |web| && NamesFiles(step)
    ensures |RunSpec(step, web, n).0| <= n
    ensures RunSpec(step, web, n).1.None? ==> |RunSpec(step, web, n).0| == n
    ensures forall k :: 0 <= k < |RunSpec(step, web, n).0| ==>
      && RunSpec(step, web, n).0[k].year == StartYear + 1 + k
      && RunSpec(step, web, n).0[k].name == FileName(StartYear + 1 + k)
  {
    if n > 0 {
      FileYears(step, web, n - 1);
      var prev := RunSpec(step, web, n - 1);
      if prev.1.None? {
        var y := step(StartYear + n, web[n - 1], prev.2);
        if y.Ok? {
          var files := prev.0 + [y.value.0];
          assert RunSpec(step, web, n).0 == files;
          assert y.value.0.year == StartYear + n && y.value.0.name == FileName(StartYear + n);
          forall k | 0 <= k < |files|
            ensures files[k].year == StartYear + 1 + k && files[k].name == FileName(StartYear + 1 + k)
          {
            if k < |prev.0| {
              assert files[k] == prev.0[k];
            }
          }
        }
      }
    }
  }

  /** A run visits the years 2008 to 2027 and, when nothing raises, writes
      one file for each. */
  lemma TwentyYears(web: seq<seq<LinkOutcome>>)
    requires |web| == YearCount
    ensures var (files, failure, _) := RunSpec(YearSpec, web, YearCount);
      failure.None? ==> |files| == 20 && files[0].year == 2008 && files[19].year == 2027
  {
    YearSpecBehaves();
    FileYears(YearSpec, web, YearCount);
  }

  /** No two files of a run share a name. */
  lemma FileNamesDistinct(step: YearStep, web: seq<seq<LinkOutcome>>, n: nat, k1: nat, k2: nat)
    requires n <= |web| && NamesFiles(step)
    requires k1 < k2 < |RunSpec(step, web, n).0|
    ensures RunSpec(step, web, n).0[k1].name != RunSpec(step, web, n).0[k2].name
  {
    FileYears(step, web, n);
    if RunSpec(step, web, n).0[k1].name == RunSpec(step, web, n).0[k2].name {
      FileNameInjective(StartYear + 1 + k1, StartYear + 1 + k2);
    }
  }

  /** An index page that never shows its table ends the whole run with a
      TimeoutError; the files of the years before it stay written. */
  lemma IndexTimeoutEndsRun(step: YearStep, web: seq<seq<LinkOutcome>>, i: nat)
    requires TimesOutOnEmpty(step)
    requires i < |web| && web[i] == []
    requires RunSpec(step, web, i).1.None?
    ensures RunSpec(step, web, |web|).0 == RunSpec(step, web, i).0
    ensures RunSpec(step, web, |web|).1 == Some(TimeoutError)
  {
    assert step(StartYear + i + 1, web[i], RunSpec(step, web, i).2) == Err(TimeoutError);
    RunFailureSticks(step, web, i + 1, |web|);
  }
}
