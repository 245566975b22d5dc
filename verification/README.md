# IO500 summary-to-CSV converter, modelled in Dafny

The converter reads an IO500 text report. It turns the report into three CSV tables:

- **results**: one row per `[RESULT]` record anywhere in the report. A row holds the test name, value, unit and time.
- **score**: the bandwidth and IOPS pair, taken from the report's last line.
- **total**: the aggregate `TOTAL` number, also taken from the last line.

The tables go to `<dir>/daos_io500_<base>.csv`, `<dir>/daos_io500_score.csv` and `<dir>/daos_io500_total.csv`. Here `<base>` is the report's file name with `.txt` removed.

The model has six modules, one per concern of the script:

- `Basics` (basics.dfy): `Option`, `Result`, string concatenation, and `LitAt`, which says that one text occurs in another at a given position.
- `CharClasses` (chars.dfy): the character classes `\w`, `\d`, `\s` and `[\d.]`. It also defines the shapes of the captured texts. A test name is `\w+(?:-\w+)+` and a value is `[\d.]+`. A plain field is one csv.writer never quotes.
- `Pattern` (pattern.dfy): a small language of linear patterns. A pattern is a sequence of pieces:
  - literals;
  - alternations of literals;
  - the greedy runs `\s+`, `[\d.]+` and `\w+(?:-\w+)+`.

  The pieces a pattern captures are its alternations and its number and name runs. `Groups` lists their tokens in order, as `match.groups()` does.

  The module gives two meanings to a pattern:
  - `Derives` is declarative. It says that a sequence of tokens spells a piece-by-piece match of the text.
  - `Scan` is a greedy scanner that never backtracks.

  `Search` tries `Scan` at successive positions, as `re.search` does. On a line-bounded search it cannot cross a newline, as the lazy `.*?` cannot. On *guarded* patterns the greedy scanner finds exactly what a backtracking regular-expression engine reports:
  - `ScanSound` shows that the scanner's result is a derivation.
  - `ScanFindsLongest` shows that the scanner succeeds whenever any derivation exists, and that it returns the longest one.
  - `SearchIsLeftmost` shows that the search reports the leftmost start.

  A pattern is guarded when each alternation is prefix-free and each run is followed by a piece that starts outside the run's class.
- `Extract` (extract.dfy): the three patterns of the script and proofs that they are guarded. It models the three extractors `parse_results_to_csv`, `parse_score_to_csv` and `parse_total_to_csv`, with `finditer` as `FindAll`.
- `OutputNames` (paths.dfy): `str.replace('.txt', '')` as `RemoveAll`, and the three output paths.
- `Report` (report.dfy): `main`. It covers:
  - `readlines`, and joining the lines back into the text;
  - the last line, and the `IndexError` that an empty report raises;
  - the three extractions;
  - the three writes in their order.

Facts of the code that the model keeps:

- `replace('.txt', '')` removes every `.txt`, not only a trailing one: `a.txt.b.txt` gives `a.b`. Removing can also create a new `.txt`: `a..txttxt` gives `a.txt`.
- `[\d.]+` accepts any run of digits and dots, such as `.` or `1.2.3`.
- On an empty report `lines[-1]` raises IndexError before any write. `Convert` returns `Failure(EmptyReport)` exactly when the report is empty.
- The writes happen in the order results, score, total. A base name of `score` or `total` makes the results path equal the score or total path, so a later write replaces the results file (`ResultsPathCollides`, `WrittenFiles`).

A report path with no directory part has `dirname` equal to `""`. Its results then go to `/daos_io500_<base>.csv` in the root directory (`EmptyDirectoryMeansRoot`).

## Model

| member | source | states |
|---|---|---|
| CharClasses.TestNameJoin | terraform/examples/io500/client_files/io500_summary_to_csv.py:28 | a word run, a hyphen and then a word run or a test name form a test name: one direction of the `\w+(?:-\w+)+` grammar |
| CharClasses.TestNameSplit | terraform/examples/io500/client_files/io500_summary_to_csv.py:28 | every test name splits at a hyphen into a word run and then a word run or a shorter test name: the other direction of the grammar |
| Pattern.Scan | terraform/examples/io500/client_files/io500_summary_to_csv.py:28 | the anchored attempt of a pattern at `i`: when it succeeds, the match starts at `i`, ends within the text, and has one token per remaining piece |
| Pattern.ScanSound | terraform/examples/io500/client_files/io500_summary_to_csv.py:28 | whatever the greedy scanner returns is a derivation of the pattern over the text it spans |
| Pattern.ScanFindsLongest | terraform/examples/io500/client_files/io500_summary_to_csv.py:28 | on a guarded pattern, whenever any derivation starts at `i` the scanner succeeds, ends no earlier, and if it ends at the same place it has the same tokens: the greedy runs with backtracking give what the scanner gives |
| Pattern.ScanEndsRun | terraform/examples/io500/client_files/io500_summary_to_csv.py:54-57 | a pattern ending in a run stops at the end of the text or before a character outside that run's class, so the captured number cannot be extended |
| Pattern.GroupsFrom | terraform/examples/io500/client_files/io500_summary_to_csv.py:32 | the groups from a piece on are at most as many as the pieces left |
| Pattern.Search | terraform/examples/io500/client_files/io500_summary_to_csv.py:41 | `re.search` from a position: a reported match starts at or after that position and is the pattern's anchored match there |
| Pattern.SearchStaysOnLine | terraform/examples/io500/client_files/io500_summary_to_csv.py:28 | the lazy `.*?` filler crosses no newline before the body it finds |
| Pattern.SearchSkipsNothing | terraform/examples/io500/client_files/io500_summary_to_csv.py:41 | every position a successful search passed over fails to scan |
| Pattern.SearchMissesNothing | terraform/examples/io500/client_files/io500_summary_to_csv.py:41 | a failed search leaves no position within reach that scans |
| Pattern.SearchIsLeftmost | terraform/examples/io500/client_files/io500_summary_to_csv.py:41 | on a guarded pattern a search reports a derivation with no match at any earlier reachable position, and reports nothing exactly when no reachable position matches |
| Extract.ResultBodyGuarded | terraform/examples/io500/client_files/io500_summary_to_csv.py:28 | the results pattern's body is guarded: its alternation is prefix-free and every run is followed by a piece starting outside its class |
| Extract.ScorePatternGuarded | terraform/examples/io500/client_files/io500_summary_to_csv.py:40 | the score pattern is guarded |
| Extract.TotalPatternGuarded | terraform/examples/io500/client_files/io500_summary_to_csv.py:54 | the total pattern is guarded |
| Extract.ResultGroupsFormRow | terraform/examples/io500/client_files/io500_summary_to_csv.py:32-33 | the four groups of any match of the results body are a test name, a number, `GiB/s` or `kIOPS`, and a number |
| Extract.ResultGroups | terraform/examples/io500/client_files/io500_summary_to_csv.py:32-33 | `match.groups()` picks the tokens of the four captured pieces: whenever each token is accepted by its piece, the groups are a test name, a number, a unit and a number |
| Extract.ResultGroupsAreGroups | terraform/examples/io500/client_files/io500_summary_to_csv.py:32 | the row `test, value, unit, time` is `match.groups()` of the results body: the tokens of its four captured pieces, in pattern order |
| Extract.ResultAt | terraform/examples/io500/client_files/io500_summary_to_csv.py:28 | an attempt of the results pattern at `p` succeeds only on a `[RESULT]` marker, ends past it within the text, and yields a well-formed results row |
| Extract.ResultAtFailsExactly | terraform/examples/io500/client_files/io500_summary_to_csv.py:28 | the attempt at `p` fails exactly when no marker, newline-free filler and body match there |
| Extract.ResultAtIsRegexMatch | terraform/examples/io500/client_files/io500_summary_to_csv.py:28 | a successful attempt is the regular expression's match: the body starts as early and ends as late as possible, and the row is that body's groups |
| Extract.BodyScanIsLongest | terraform/examples/io500/client_files/io500_summary_to_csv.py:28 | no match of the results body from a start ends after the one the scanner finds |
| Extract.FindAll | terraform/examples/io500/client_files/io500_summary_to_csv.py:31 | `finditer` reports matches in text order that never overlap, each one the pattern's match at its own start |
| Extract.FindAllMissesNothing | terraform/examples/io500/client_files/io500_summary_to_csv.py:31 | every position where the results pattern matches is a reported match or lies inside one |
| Extract.NoMarkerNoRecords | terraform/examples/io500/client_files/io500_summary_to_csv.py:31 | text with no `[RESULT]` marker from some position on yields no matches from there on |
| Extract.ResultsTable | terraform/examples/io500/client_files/io500_summary_to_csv.py:22-35 | the results table is the header followed by one well-formed row per reported match, in order |
| Extract.ResultsHeaderOnly | terraform/examples/io500/client_files/io500_summary_to_csv.py:23-25 | a report without any marker gives the header row alone |
| Extract.ScoreTable | terraform/examples/io500/client_files/io500_summary_to_csv.py:38-49 | the score table is empty or has exactly the score header, a `Bandwidth` row in `GiB/s` and an `IOPS` row in `kiops`, each with a number |
| Extract.ScoreTableIsFirstMatch | terraform/examples/io500/client_files/io500_summary_to_csv.py:40-49 | the score table is empty exactly when the pattern matches nowhere in the line. Otherwise it is the header, then `Bandwidth` with groups 1 and 2, then `IOPS` with groups 3 and 4 of the leftmost match |
| Extract.ScorePatternGroups | terraform/examples/io500/client_files/io500_summary_to_csv.py:43 | the four groups of the score pattern are the bandwidth, its unit, the IOPS and its unit, in that order |
| Extract.TotalTable | terraform/examples/io500/client_files/io500_summary_to_csv.py:52-59 | the total table is empty or is the `Total` header over one number |
| Extract.TotalTableIsFirstMatch | terraform/examples/io500/client_files/io500_summary_to_csv.py:54-59 | the total table is empty exactly when the pattern matches nowhere in the line. Otherwise it is `[['Total'], [group 1]]` of the leftmost match, and that group is the whole digit-and-dot run |
| Extract.TotalPatternGroups | terraform/examples/io500/client_files/io500_summary_to_csv.py:57 | the total pattern has a single group, the number |
| Extract.ResultsTableIsPlain | terraform/examples/io500/client_files/io500_summary_to_csv.py:84-86 | no field of the results table needs CSV quoting |
| Extract.ResultRowIsPlain | terraform/examples/io500/client_files/io500_summary_to_csv.py:84-86 | no field of a results row needs CSV quoting |
| Extract.ScoreTableIsPlain | terraform/examples/io500/client_files/io500_summary_to_csv.py:89-91 | no field of the score table needs CSV quoting |
| Extract.TotalTableIsPlain | terraform/examples/io500/client_files/io500_summary_to_csv.py:94-96 | no field of the total table needs CSV quoting |
| OutputNames.RemoveAll | terraform/examples/io500/client_files/io500_summary_to_csv.py:78 | `replace('.txt', '')` never lengthens the text |
| OutputNames.RemoveAllKeepsFreeText | terraform/examples/io500/client_files/io500_summary_to_csv.py:78 | `replace` returns text in which `.txt` does not occur unchanged |
| OutputNames.RemoveAllShortens | terraform/examples/io500/client_files/io500_summary_to_csv.py:78 | `replace` on text containing the pattern shortens it by at least the pattern's length |
| OutputNames.RemoveAllUnchanged | terraform/examples/io500/client_files/io500_summary_to_csv.py:78 | `replace` leaves the text unchanged exactly when the pattern does not occur in it |
| OutputNames.RemoveAllAtFirst | terraform/examples/io500/client_files/io500_summary_to_csv.py:78 | `replace` from the left: the text before the first occurrence is kept, that occurrence is dropped, and the result continues with `replace` of the text after it |
| OutputNames.BaseName | terraform/examples/io500/client_files/io500_summary_to_csv.py:78 | the base name is no longer than the file name, and equals it exactly when `.txt` does not occur in the file name |
| OutputNames.BaseNameStripsSuffix | terraform/examples/io500/client_files/io500_summary_to_csv.py:78 | a name without `.txt` in it, with `.txt` appended, gets back exactly that name |
| OutputNames.CsvPath | terraform/examples/io500/client_files/io500_summary_to_csv.py:79-81 | an output path is a `.csv` file in the directory whose name starts with `daos_io500_` |
| OutputNames.DeriveOutputPaths | terraform/examples/io500/client_files/io500_summary_to_csv.py:79-81 | the score and total paths are `<dir>/daos_io500_score.csv` and `<dir>/daos_io500_total.csv`, and the results path starts with `<dir>/daos_io500_` |
| OutputNames.ExampleRemovesInnerTxt | terraform/examples/io500/client_files/io500_summary_to_csv.py:78 | `a.txt.b.txt` has base name `a.b`: every occurrence goes, not only a trailing one |
| OutputNames.ExampleNotIdempotent | terraform/examples/io500/client_files/io500_summary_to_csv.py:78 | `a..txttxt` has base name `a.txt`, whose own base name is `a`: removal can create a new occurrence |
| OutputNames.CsvStemOfPath | terraform/examples/io500/client_files/io500_summary_to_csv.py:79-81 | the stem can be read back from a derived path |
| OutputNames.CsvPathOfStem | terraform/examples/io500/client_files/io500_summary_to_csv.py:79-81 | a path with a readable stem is the derived path of that stem |
| OutputNames.CsvPathInjective | terraform/examples/io500/client_files/io500_summary_to_csv.py:79-81 | two stems give the same path in a directory exactly when they are equal |
| OutputNames.DerivedStems | terraform/examples/io500/client_files/io500_summary_to_csv.py:79-81 | the three derived paths carry the base name, `score` and `total` |
| OutputNames.FixedPathsIgnoreFile | terraform/examples/io500/client_files/io500_summary_to_csv.py:80-81 | the score and total paths are the same for every report file in a directory, and differ from each other |
| OutputNames.ResultsPathCollides | terraform/examples/io500/client_files/io500_summary_to_csv.py:79-81 | the results path equals the score path exactly when the base name is `score`, and the total path exactly when it is `total` |
| OutputNames.ExampleRun1 | terraform/examples/io500/client_files/io500_summary_to_csv.py:78-81 | `run1.txt` in any directory gives `daos_io500_run1.csv`, `daos_io500_score.csv` and `daos_io500_total.csv` there |
| OutputNames.EmptyDirectoryMeansRoot | terraform/examples/io500/client_files/io500_summary_to_csv.py:79 | with an empty directory part the results path starts at the root directory |
| Report.LineEnd | terraform/examples/io500/client_files/io500_summary_to_csv.py:67 | the line starting at `i` is non-empty, has no newline before its last character, and ends after a newline or at the end of the text |
| Report.ReadLinesFrom | terraform/examples/io500/client_files/io500_summary_to_csv.py:67 | `readlines` splits the text into lines whose concatenation is the text. Every line but the last ends with a newline, and the last line is a suffix that starts after a newline. The list is empty only for empty text |
| Report.ReadLines | terraform/examples/io500/client_files/io500_summary_to_csv.py:67-73 | joining the lines `readlines` returns gives back the report text |
| Report.LastLineUnique | terraform/examples/io500/client_files/io500_summary_to_csv.py:70 | a text has at most one last line |
| Report.LastLine | terraform/examples/io500/client_files/io500_summary_to_csv.py:70 | `lines[-1]` fails exactly on an empty report and otherwise is the text's last line |
| Report.Convert | terraform/examples/io500/client_files/io500_summary_to_csv.py:62-81 | a run fails exactly on an empty report. Otherwise the results come from the whole text, the score and total from its last line, and the paths from the directory and file name |
| Report.Written | terraform/examples/io500/client_files/io500_summary_to_csv.py:84-96 | after the three writes in order, the disk holds exactly the three paths, and the total file always holds the total table |
| Report.WrittenFiles | terraform/examples/io500/client_files/io500_summary_to_csv.py:84-96 | the score and total files hold their tables. The results file holds the results table exactly when the base name is neither `score` nor `total` |
| Report.ConvertWritesPlainCsv | terraform/examples/io500/client_files/io500_summary_to_csv.py:84-96 | nothing a successful run writes needs CSV quoting |

## Left out

- File I/O is not modelled: opening and reading the report, creating the three files, and a failure partway through a write. The report's text, its directory and its file name are inputs. The files on disk are the map `Written` returns.
- `os.path.dirname` and `os.path.basename` are not modelled, because they depend on the platform's path rules. The directory and the file name are separate inputs.
- Decoding is not modelled: text mode's universal-newline translation and the file's character encoding. The text is the decoded report.
- `print`, the command-line handling (`sys.argv`, the usage message, `sys.exit(1)`) and the exit codes are not modelled. They are console and process effects with no bearing on the tables.
- csv.writer's output bytes are not modelled: the delimiter and the `\r\n` line terminator. What is proved is that no field needs quoting, so each row is written as its fields joined by commas.
- `IsWordChar` and `IsDigit` cover only ASCII letters, digits and `_` and the ASCII digits. Python's `\w` and `\d` on text patterns also match non-ASCII letters and digits. A report with such characters in a test name or value is outside the model.
- Python's regular-expression engine in general is not modelled. Only the three patterns of the script are, through the guarded linear-pattern language. For these patterns the greedy scanner is proved to agree with leftmost, greedy matching.
- OutputNames.RemoveAll: its contract states only the length bound. `RemoveAllAtFirst` states for every input what it computes: keep the text up to the first occurrence, drop that occurrence, repeat on the rest. `RemoveAllKeepsFreeText` states the case with no occurrence.
- OutputNames.DeriveOutputPaths: its contract gives the results path only up to the stem. That the stem is the base name is stated by `DerivedStems`.
- Pattern.Scan: its contract states only where the match starts and ends and how many tokens it has. That it is a derivation, and the longest one, is stated by `ScanSound` and `ScanFindsLongest`.
- OutputNames.BaseName: its contract does not give the result text itself when `.txt` occurs. It is `RemoveAll` of the file name, so `RemoveAllAtFirst` gives that text for every name.
- OutputNames.CsvPath: its contract does not mention the stem. That the stem can be read back from the path is stated by `CsvStemOfPath`, and that different stems give different paths by `CsvPathInjective`.
- Extract.ResultGroups: its contract does not name the positions it picks. That they are the tokens of the body's captured pieces, in order, is stated by `ResultGroupsAreGroups`.
- Pattern.GroupsFrom: its contract states only a bound on the number of groups. The groups of each of the three patterns are evaluated by `ResultGroupsAreGroups`, `ScorePatternGroups` and `TotalPatternGroups`.
- Pattern.Search: its contract states only soundness. Leftmost and complete search are stated by `SearchIsLeftmost` and the three lemmas it uses.
- Concrete lines such as `Bandwidth 12.34 GiB/s : IOPS 56.78 kiops` and `... TOTAL 9.99 ...` are not proved as instances. What they would show is proved for every line by `ScoreTableIsFirstMatch` and `TotalTableIsFirstMatch`.
- Running twice on the same input gives the same tables. This holds because `Convert` is a function of its inputs, and no separate lemma states it.
- Appending text without a `[RESULT]` marker can still change the results table. Appended digits extend the last record's time, and appended white space and digits can complete a partial record. The property proved instead is `NoMarkerNoRecords`: a stretch of text without markers contributes no records of its own.
