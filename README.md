# movies_mojobox — the box-office scraper, modelled in Dafny

The repository's batch script `main.py` collects worldwide box-office data.
For each of twenty years it:

- opens the year's ranking page on Box Office Mojo;
- follows every title link to the title's summary page;
- reads the title, the synopsis, the three gross figures and the attribute blocks (release date, rating, genres, running time, opening weekend, budget, distributor, ...);
- normalises some of those values into one dictionary per title;
- writes the year's dictionaries as an eleven-column CSV file named after the year.

This project models that script. The page contents and what each navigation step turned out to be are inputs. Every Python operation the script applies to them is stated as a Dafny function or method, and the promised behaviour is proved about it.

Modules, one per file:

| file | module | what it holds |
|---|---|---|
| `pybuiltins.dfy` | `PyBuiltins` | The Python built-ins the script relies on, as Python defines them: `str.strip`, `str.split(sep)` (empty pieces kept), `str.replace`, `in` on strings, and `int()` on text. `int()` accepts surrounding whitespace, a sign and single underscores between digits. Also the `Result`/`PyError` pair standing for a raised exception. |
| `money.dfy` | `Money` | `int(text.replace('$', '').replace(',', ''))`. Also the site's `$1,234,567` format, and the proof that converting a printed amount gives back the amount. |
| `gross.dfy` | `Gross` | The positional three-way branch over the gross cells. It tests the en-dash placeholder in cell 0, then in cell 1. |
| `dates.dfy` | `Dates` | The release date's normalisation: cut at `(`, strip, run the Portuguese month loop, `strptime(..., '%B %d, %Y')`, `isoformat()`. |
| `runningtime.dfy` | `RunningTime` | The running-time conversion, together with its two loop-carried variables. |
| `record.dfy` | `Record` | `info_dict` for one title: the imperative record builder and the attribute-block loop, each proved equal to a functional specification. |
| `table.dfy` | `Table` | The pandas steps: `pop('Budget')`, the six renames and the eleven-column selection. |
| `pipeline.dfy` | `Pipeline` | The link loop of one year and the loop over the twenty years. |

How a run behaves, as the script is written:

- Any exception that escapes a record aborts the whole run. This includes a `ValueError` from a money field or a date, the `KeyError` of a missing release date, and the timeout of a wait (Selenium's `TimeoutException`, called `TimeoutError` in the model). The years already written stay written.
- Only two things skip a link without a record: a summary link that never appears (`main.py:33-37`) and a click that raises (`main.py:39-43`).
- The running-time variables `split_running_time` and `liquid_running_time` are never reset. They are carried from record to record and from year to year. The model threads them through as an `RtState`.

## Model

| member | source | states |
|---|---|---|
| Money.ParseMoney | main.py:54-62 | Converting money text succeeds only if every character is a digit, a space, `$`, `,`, a sign or `_`. Every failure is a ValueError. |
| Money.MoneyTextValue | main.py:97 | Every `$` plus grouped-digits text converts to the number it shows, read in groups of three. |
| Money.FormatParse | main.py:102 | Printing a whole-dollar amount as the site does and converting it back gives the amount (round trip). |
| Money.SentinelIsNotMoney | main.py:53-56 | The en-dash placeholder is never a figure: converting it raises ValueError. |
| Gross.MoneyCell | main.py:54-62 | Reading cell `i` succeeds exactly when the cell exists and converts, and then gives the conversion. A missing cell is an IndexError; a cell that does not convert gives the conversion's error. |
| Gross.ClassifyGross | main.py:53-62 | The total always comes from cell 2. Domestic is missing iff cell 0 is the placeholder. International is missing iff cell 0 is not the placeholder and cell 1 is. Each present figure is its cell's conversion. The branch succeeds iff every cell it reads exists and converts. |
| Gross.GrossEntries | main.py:53-62 | The dictionary entries: `total_gross` always, and a domestic or international entry exactly when that figure is present, with the figure's value. |
| Gross.GrossTriad | main.py:53-62 | The keys written for each placeholder position, never more and never fewer. |
| Gross.TwoPlaceholdersFail | main.py:53-54 | Two placeholders in cells 0 and 1 raise ValueError, because cell 1 is then converted. |
| Record.BlockEntry | main.py:71-74 | A block yields an entry iff it holds a line break. The entry is the stripped first and second lines. |
| Record.LastEntry | main.py:70-75 | The position of the last entry with a given label, and that no later entry carries it. |
| Record.ParseAttributeBlocks | main.py:70-75 | The in-place loop over the blocks gives the blocks applied in page order. |
| Record.ApplyEntriesLookup | main.py:70-75 | After the blocks, a label holds the last block's value for it. A label no block carries keeps its earlier value, or stays absent. |
| Record.ApplyEntriesKeys | main.py:70-75 | The labels after the blocks are the earlier labels plus every block's label. |
| Record.ApplyBlocksLookup | main.py:70-75 | The last-block-wins lookup, stated for the blocks of a page. |
| Record.ApplyEntries | main.py:70-75 | Applying the entries only ever adds labels, and a label no entry carries keeps its value. |
| Record.ApplyBlocks | main.py:70-75 | The labels after the blocks are the earlier ones plus the label of every block with at least two lines. |
| Record.BlockValue | main.py:70-75 | The value of the last block with a label is that block's second line, present exactly when some block carries the label. |
| Record.BlockLookup | main.py:70-75 | A label missing before the blocks holds its last block's value after them, and is present exactly when some block carries it. |
| Record.ShortBlockIgnored | main.py:72 | A one-line block leaves the dictionary unchanged. |
| Record.ExtraLinesIgnored | main.py:71-74 | Lines after the second do not change a block's entry. |
| Dates.TranslateMonth | main.py:88-91 | The month loop: text without a table name is unchanged. Otherwise exactly the first table name, in table order, is replaced, everywhere it occurs. |
| Dates.TranslateMonthText | main.py:88-91 | Text without a table name is unchanged. Otherwise exactly the first table name, in table order, is replaced everywhere. |
| Dates.FirstPtMonth | main.py:88-89 | The index of the first table name occurring in the text, or 12 when none does. |
| Dates.BeforeParen | main.py:79 | The text before the first `(`: a prefix of the text without `(`, followed by `(` when shorter. |
| Dates.ParseUsDate | main.py:93 | `strptime(..., '%B %d, %Y')`: a result is a real calendar date whose month name is the text's leading word. A leading word that is no English month fails. Every failure is a ValueError. |
| Dates.IsoDate | main.py:93 | `isoformat()` writes `YYYY-MM-DD`, and reading its fields back gives the date. |
| Dates.IsoDateInjective | main.py:93 | Two different dates never print the same ISO text. |
| Dates.NormalizeDate | main.py:79-93 | A normalised release date is always an ISO date. Every failure is a ValueError. |
| Dates.ParseFormat | main.py:93 | `strptime` inverts the site's English printing of every valid date. |
| Dates.BeforeParenStrip | main.py:79 | Cutting at `(` and stripping leaves the date text, with or without a parenthesised note. |
| Dates.EnglishUntranslated | main.py:88-91 | An English date passes the month loop unchanged. |
| Dates.PortugueseTranslated | main.py:88-91 | In a Portuguese date, the month and only the month is translated. |
| Dates.NormalizeEnglish | main.py:79-93 | An English date, with or without a note, normalises to its own ISO form. |
| Dates.NormalizePortuguese | main.py:79-93 | A Portuguese date, with or without a note, normalises to the ISO form of the same date. |
| Dates.MarchExample | main.py:79-93 | "Março 10, 2015 (USA)" normalises to "2015-03-10". |
| Dates.UnknownMonthFails | main.py:88-93 | A month that is neither a table name nor an English month name is a ValueError. |
| RunningTime.UnitValue | main.py:123-129 | `int(liquid[unit])` succeeds iff the unit is present and numeric. An absent unit is a KeyError, a non-numeric one a ValueError. |
| RunningTime.Pairs | main.py:112-120 | Four tokens or more give a dictionary with exactly the keys tokens 1 and 3, mapped to tokens 0 and 2 (the second pair wins when the keys coincide), and set `minutes`. Two or three tokens give a dictionary with exactly key token 1, mapped to token 0. Fewer tokens leave the earlier dictionary in place. |
| RunningTime.Tokens | main.py:107-110 | The token list is the record's own running time split on spaces, or the earlier list when the record has none. A value that is not text is an AttributeError. |
| RunningTime.Minutes | main.py:122-131 | With both pairs the result is hours*60+minutes, and it fails unless both units are present and numeric. Otherwise hours are tried first and then minutes. The result is None iff the hours lookup fails and there is no minutes entry. A dictionary never bound is a NameError. |
| RunningTime.RunningTimeStep | main.py:106-131 | The new value is whole minutes or None. The carried token list is the record's own when it has a running time, and unchanged when it has none. The carried dictionary is the one rebuilt from that token list, and the earlier dictionary when the list has fewer than two tokens. None means the hours lookup failed and no minutes entry exists. |
| RunningTime.HoursAndMinutes | main.py:108-123 | "h hr m min" gives h*60+m. |
| RunningTime.MinutesThenHours | main.py:108-123 | "m min h hr" gives h*60+m as well: the pairs are keyed by unit, not by position. |
| RunningTime.HoursOnly | main.py:117-126 | "h hr" gives h*60. |
| RunningTime.MinutesOnly | main.py:117-129 | "m min" gives m. |
| RunningTime.TwoHoursFifteen | main.py:106-131 | "2 hr 15 min" gives 135. |
| RunningTime.OneHour | main.py:106-131 | "1 hr" gives 60. |
| RunningTime.FortyFiveMinutes | main.py:106-131 | "45 min" gives 45. |
| RunningTime.FirstRecordWithoutRunningTime | main.py:107-129 | A first record without a running time raises NameError. |
| RunningTime.MissingRepeatsPrevious | main.py:107-126 | A record without a running time that follows a converted one gets the same value and leaves the variables as they were. |
| RunningTime.SingleTokenUsesPrevious | main.py:108-120 | A one-token running time is converted with the earlier record's dictionary. |
| RunningTime.HoursNotIntegerNull | main.py:125-131 | An hours number that is not an integer, with no minutes entry, gives None: the bare `except` swallows the ValueError. |
| RunningTime.OneAndAHalfHours | main.py:106-131 | "1.5 hr" gives None. |
| RunningTime.OneTokenHoursFirst | main.py:112-126 | A one-token running time is recomputed from the earlier dictionary hours first: a decimal hours entry gives that many hours, whatever minutes entry it also holds. |
| RunningTime.OneTokenAfterTwoHoursFifteen | main.py:106-131 | After the dictionary of "2 hr 15 min" (135), a running time "120" gives 120. |
| RunningTime.CarryAfterTwoHoursFifteen | main.py:106-131 | Two records in a row: "2 hr 15 min" leaves its dictionary behind, and a following "120" is read through it as 120. |
| Record.ConvertDate | main.py:79-93 | The release date is replaced by its ISO form. The errors are a missing label (KeyError), a value that is not text (AttributeError) and an unparseable date (ValueError). |
| Record.ConvertMoneyField | main.py:96-102 | A present money field becomes its integer conversion, an absent one leaves the record unchanged. A field that does not convert is a ValueError. |
| Record.BaseInfo | main.py:45-62 | The dictionary before the blocks has exactly the title, the synopsis and the gross entries, holding the page's title, the page's synopsis and each figure's amount. |
| Record.FinishRecord | main.py:106-133 | After the last steps the record has no `IMDbPro` and every other label is unchanged. It succeeds exactly when the running-time step does. The running time and the carried variables are the step's, and a failure is the step's exception. |
| Record.MoneyFields | main.py:96-102 | Opening weekend and budget are present exactly when they were before, each holding the amount its text converts to. The conversion fails exactly when a present field does not convert. Every other label is unchanged. |
| Record.ConvertMoney | main.py:96-133 | Opening weekend and budget hold the amounts their texts convert to, and are present exactly when they were before. The running time and the carried variables are those of the running-time step on the record's entry. The release date and every label not converted are unchanged. |
| Record.Normalize | main.py:79-133 | After the conversions the record has no `IMDbPro`. The release date is the ISO form of its text. Opening weekend and budget hold the amounts their texts convert to, and are present exactly when they were before. The running time and the carried variables are those of the running-time step. Every other label is unchanged. A record without a release date raises KeyError. |
| Record.RecordSpec | main.py:45-133 | A title, synopsis or gross list that never appears is a TimeoutError. A record exists only when the gross cells classify and blocks are present. Its release date is the ISO form of the last release-date block. Opening weekend and budget are present exactly when a block carries them, holding the last such block's amount. The running time and the carried variables are the running-time step on the last running-time block. |
| Record.BuildRecord | main.py:45-133 | The step-by-step builder gives exactly the specified record, or the specified exception. |
| Record.RecordFields | main.py:79-133 | Every record holds no `IMDbPro`, an ISO date, a running time in minutes or None, and integer opening weekend and budget when present. |
| Record.BlockFieldKept | main.py:70-75 | A label only blocks write, and that the script does not convert, holds the last block's value, and is present exactly when some block carries it. |
| Record.TitleKept | main.py:47-48 | The title reaches the record unless a block uses its label. |
| Record.SummaryKept | main.py:49-50 | The synopsis reaches the record unless a block uses its label. |
| Record.GrossKept | main.py:53-62 | Each gross figure reaches the record as its amount unless a block uses its label. |
| Record.BaseKept | main.py:45-75 | A base label that no block uses and no conversion rewrites keeps its value. |
| Record.PageValues | main.py:70-133 | The converted fields of a record, in terms of the last blocks that carry them: the ISO release date, the opening weekend and budget amounts, and the running-time step. |
| Record.BlockOverBase | main.py:45-75 | A label the script converts holds its last block's value before the conversions, and is absent when no block carries it. |
| Record.NoReleaseDateFails | main.py:79 | A page without a release-date block raises KeyError. |
| Table.AssembleRow | main.py:141-148 | A row has one value per output column. |
| Table.Cell | main.py:141-148 | A value in an output column comes from a label the renames turn into that column. A record without such a label has None there. |
| Table.AssembleTable | main.py:137-148 | The frame exists iff some record has a budget and every output column is present in some record under its source label or its own name. Otherwise the result is a KeyError. The header is the eleven columns in order, with one row per record in record order. |
| Table.RenamesInverse | main.py:141-146 | Every renamed label is the source label of the column it is renamed to. |
| Table.SourceRenamed | main.py:141-148 | Renaming an output column's source label gives that column. |
| Table.ColumnsKept | main.py:141-148 | No output column name is itself renamed. |
| Table.RenamedTo | main.py:141-148 | The labels renamed to an output column are exactly its source label and its own name. |
| Table.ColumnPresentIff | main.py:141-148 | A column is present iff some record holds its source label or its own name. |
| Table.RowCells | main.py:141-148 | A field reaches its renamed column, and a missing field is None in the row. |
| Table.ReleaseDateColumn | main.py:143-148 | The release date lands in the third column. |
| Table.HiddenLabels | main.py:133-148 | Neither `Budget` nor `IMDbPro` affects an output row. |
| Table.NotHidden | main.py:138-148 | No output column, nor any label renamed to one, is `Budget` or `IMDbPro`. |
| Table.NoBudgetFails | main.py:138 | A year in which no record has a budget raises KeyError at `pop('Budget')`. |
| Table.MissingColumnFails | main.py:148 | A year in which no record has some output column raises KeyError at the selection. |
| Pipeline.FileName | main.py:150 | A file name starts with `worldwide_box_office_`. |
| Pipeline.FileNameInjective | main.py:150 | Different years write different files. |
| Pipeline.OpenedPages | main.py:28-43 | The pages that opened, never more than the links. |
| Pipeline.CountSkipped | main.py:33-43 | The skipped links, never more than the links. |
| Pipeline.CollectRecords | main.py:28-135 | A year yields one record per link that opened. A year whose links were all skipped has no records and leaves the running-time variables as they were. |
| Pipeline.YearSpec | main.py:21-150 | A year's file is named after the year. An index table that never appears is a TimeoutError. |
| Pipeline.CollectErrorSticks | main.py:28-135 | An exception at a link is the year's outcome, whatever the later links hold. |
| Pipeline.CollectSnoc | main.py:28-135 | One more link appends its record, leaves the records as they are (skip), or ends the year with its exception. |
| Pipeline.RunYear | main.py:21-150 | The link loop gives exactly the specified year: its records appended in link order, the frame, and the file. |
| Pipeline.RecordCount | main.py:28-43 | The number of records equals the opened pages, which is the links minus the skipped ones. |
| Pipeline.SkipInvisible | main.py:33-43 | A skipped link adds no record and leaves the running-time variables unchanged. |
| Pipeline.TitlesInLinkOrder | main.py:28-135 | For any builder that keeps the page title, the k-th record carries the title of the k-th page that opened. |
| Pipeline.RecordSpecKeepsTitle | main.py:47-48 | The script's record builder keeps the page title unless a block uses its label. |
| Pipeline.RecordsInLinkOrder | main.py:28-135 | The k-th record carries the title of the k-th page that opened. |
| Pipeline.YearSpecBehaves | main.py:21-23 | The year step names its file after the year and times out on an empty index. |
| Pipeline.RunFailureSticks | main.py:13-19 | After an exception the run writes nothing more. |
| Pipeline.RunAllYears | main.py:13-19 | The year loop, with the counter incremented before each year, gives exactly the specified run. |
| Pipeline.FileYears | main.py:16-19 | The k-th file is for year 2008 + k and is named after it. A run without an exception writes one file per year. |
| Pipeline.TwentyYears | main.py:13-19 | A run without an exception writes twenty files, for 2008 through 2027. |
| Pipeline.FileNamesDistinct | main.py:150 | No two files of a run share a name. |
| Pipeline.IndexTimeoutEndsRun | main.py:21-23 | An index page that never shows its table ends the run with a TimeoutError, and the earlier years' files remain. |
| Pipeline.RunSpec | main.py:13-19 | A run writes at most one file per year, and one for each year when nothing raised. |
| PyBuiltins.Strip | main.py:73-74 | `str.strip()` gives the text between its leading and trailing whitespace, and the result neither starts nor ends with whitespace. |
| PyBuiltins.Split | main.py:71 | `str.split(sep)` gives at least one piece, and no piece holds the separator. |
| PyBuiltins.SplitLast | main.py:108 | Appending a separator and a piece without separators adds exactly that piece to the split. |
| PyBuiltins.SplitHead | main.py:79 | The first piece of `split` is the text up to the first separator. |
| PyBuiltins.JoinSplit | main.py:71 | Joining the pieces of `split` with the separator gives back the text. |
| PyBuiltins.PyInt | main.py:54 | `int()` on text succeeds exactly when the stripped text is an optional sign followed by digits with single underscores between them. A negative result has a leading minus, and a result without one is not negative. Every failure is a ValueError. |
| PyBuiltins.PyIntDec | main.py:123 | `int()` of a number's decimal text gives the number. |
| PyBuiltins.ReplaceAll | main.py:90 | `str.replace`: text without the pattern is unchanged, replacing a pattern by itself changes nothing, and a same-length replacement keeps the length. |
| PyBuiltins.ReplaceFront | main.py:90 | An occurrence at the front followed by text without one: only the front is replaced. |
| PyBuiltins.RemoveChar | main.py:54 | `replace(c, '')` drops every `c`: the result holds no `c`, is no longer, and holds every other character of the text and no other. |

## How failures and missing values propagate

- Failures are not isolated per record. A `ValueError` or `KeyError` from a money field, a date or the running time is not caught: it aborts the whole run, not just the record (`Pipeline.CollectErrorSticks`, `Pipeline.RunFailureSticks`).
- A year whose index page never shows its table is not skipped. The wait raises, and the run ends (`Pipeline.IndexTimeoutEndsRun`).
- A running time becomes None only when the `hr` lookup fails (the key is missing or its text is not an integer, such as `1.5`) and the dictionary has no `min` entry: `1.5 hr` gives None (`RunningTime.HoursNotIntegerNull`). Beyond that:
  - a record with no running time reuses the previous record's tokens and so gets the previous record's value (`RunningTime.MissingRepeatsPrevious`);
  - a record with a one-token running time is recomputed from the previous record's dictionary with the hours-first fallback, which can differ from the previous record's value: after `2 hr 15 min` (135), a running time of `120` gives 120 (`RunningTime.SingleTokenUsesPrevious`, `RunningTime.CarryAfterTwoHoursFifteen`);
  - on the very first record this is a `NameError` (`RunningTime.FirstRecordWithoutRunningTime`);
  - a two-pair running time with a unit other than `hr`/`min`, or with a non-numeric number, raises.
- Money and running-time values may be negative, because `int()` accepts a sign. The model keeps them as integers without a bound.

## Left out

- Selenium: the waits, XPath locators, clicks, `driver.get` and `driver.quit`, and `start_driver`/`go_to_site` from `segmentação/inicializador.py`. These are replaced by inputs: a `SummaryPage` of texts per opened link, and a `LinkOutcome` per link. `driver.get` is assumed not to raise, and an element that never appears is the wait's TimeoutError. `segmentação/inicializador.py` is not part of this model.
- `print` calls (progress and click-error messages): they are output only.
- pandas: construction of the frame, CSV bytes, and the float/NaN rendering of integer columns that hold missing values. The frame is modelled as a header and rows of `Value` (text, integer or None).
- Table.Cell: block labels are page text, so a year's records may hold both a label the script renames and its new name (say `Genres` in one record and `genres` in another). pandas would then write two columns of that name and twelve columns in all. The model assumes no year's pages do this. It writes one column, holding the value under the page label (`Genres`) when the record has it and under the new name otherwise.
- PyBuiltins.PyInt: does not model the limit on decimal text longer than 4300 digits, which Python 3.11 and later reject with ValueError; box-office figures are far shorter.
- `int()` and `strptime` on non-ASCII digits, and Unicode case folding of month names: only ASCII digits and ASCII case-insensitive English month names are modelled.
- `app.py` and `app-exploracao.py`: dashboards over the written files, using floating point and plotting, outside the script.
- The unused imports (`re`, `os`, `psycopg2`).
