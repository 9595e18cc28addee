# Flow-log tag counter, modelled in Dafny

The program reads a lookup table of `dstport,protocol,tag` rows and a flow log of
version 2 records (whitespace-separated, at least 14 fields). It then writes a report
with two sections: how many flows carry each tag, and how many flows went to each
(destination port, protocol) pair. The whole program is one function, `main()`, in
`FlowLogsParser.py`. This project models the pipeline inside it:

- **Lookup loader** (`lookup.dfy`, module `Lookup`). `LookupEntry` is what one row
  contributes: nothing, or the key (port, stripped lower-case protocol) with the
  stripped tag. `LookupTable` is the table after all rows, the later row winning.
  `LoadLookup` is the loader's loop, proved to compute that table.
- **Flow-record checks** (`flow_records.dfy`, module `FlowRecords`). `ParseFlowLine`
  applies the checks to one line in the program's order: blank, too few fields, wrong
  version, non-integer port or protocol. `Accepted` gives the keys of a whole log, or
  the first refused line with its 1-based physical line number. `ProtocolName` is the
  protocol text. `TagOf` is the tag choice: the last lookup line naming the key decides,
  and a key no line names is "Untagged".
- **Ordered counters** (`tallies.dfy`, module `Tallies`). Python dictionaries keep
  insertion order, so a counter is a key sequence plus a map. `Counter` is the mutable
  counter with `Increment`. `Tally`, `Bump` and `TallyOf` are its value and the
  specification its methods are proved against.
- **Report** (`report.dfy`, module `Report`). `ReportText` is the fixed two-section
  layout. `WriteTagRows` and `WritePairRows` are the writing loops; `WriteReport` puts
  the headings around them; all are proved to produce it.
- **Whole run** (`flow_logs_parser.dfy`, module `FlowLogsParser`). `Evaluate` and
  `Output` give what a run computes. `CountFlows` is the flow-log loop that updates
  the two counters in place. `Run` chains the loader, the empty-table check, the
  flow-log loop and the report writer.
- **Small runs** (`scenarios.dfy`, module `Scenarios`). Small example runs: one lookup
  row and one record; a record whose pair has no lookup entry; lookup rows that are
  skipped.
- `text.dfy` (module `Text`) models the Python string operations the program uses, on
  ASCII: `strip()`, `split()`, `split(",")`, `lower()`, `int()` and `str()`.
  `seqs.dfy` and `wrappers.dfy` are small helpers.

Inputs are sequences of lines and the output is a string. A run ends in one of three
ways: `EmptyLookup` (the program's "lookup table is empty" exit), `FlowLogError` with
a `LineError(line, fault)` (the first refused flow-log line, where the fault is
`TooFewFields(n)`, `UnsupportedVersion(v)` or `NotIntegers`), or the report text.

Ports are whatever `int()` accepts, negative ones included: the program never checks
the sign, and neither does the model (`PortProtocol.port: int`).

## Model

| member | source | states |
|---|---|---|
| Text.Trim | FlowLogsParser.py:43 | `strip()` returns the slice of the line left after removing its whitespace prefix and suffix; it is empty exactly when the line is all whitespace, and otherwise neither starts nor ends with whitespace |
| Text.TrimAfterSpace | FlowLogsParser.py:43-45 | After stripping, a line starts with its first non-whitespace character |
| Text.SplitOn | FlowLogsParser.py:47 | `split(",")` gives at least one part, no part holds a comma, and joining the parts with commas gives the line back |
| Text.SplitOnJoin | FlowLogsParser.py:47 | Splitting at a separator undoes joining with it, when no part holds the separator |
| Text.Fields | FlowLogsParser.py:99 | `split()` fields are non-empty and hold no whitespace, and there are none exactly when the line is all whitespace |
| Text.FieldsOfJoin | FlowLogsParser.py:99 | Splitting space-joined well-formed fields gives the same fields back |
| Text.FieldsOfSpaced | FlowLogsParser.py:99 | `split()` on any line, laid out as non-empty whitespace-free fields between whitespace runs (non-empty between fields, any at the ends), gives exactly those fields in order |
| Text.FieldsOfTrim | FlowLogsParser.py:93-99 | Stripping a line first does not change its fields |
| Text.ParseIntOfIntToString | FlowLogsParser.py:56 | `ParseInt` (`int()`) reads the text `IntToString` (`str()`) gives for any integer back as that integer |
| Text.ParseIntOfDigits | FlowLogsParser.py:116-117 | `ParseInt` reads a run of ASCII digits as its value, also after `+` or extra leading zeros, and as its negation after `-` |
| Text.ParseIntRejects | FlowLogsParser.py:118-121 | `ParseInt` refuses the empty text, a lone sign and any text with a character other than a digit, except one leading sign |
| Text.IntToStringPlain | FlowLogsParser.py:163 | `IntToString` (`str()` on an integer) holds no whitespace, comma, line break or upper-case letter |
| Text.ToLowerLeavesNoUpper | FlowLogsParser.py:52 | `ToLower` (`lower()`) keeps the length, turns each capital into its own lower-case letter (32 code points on), keeps every other character, and so leaves no capital |
| Lookup.LoadLookup | FlowLogsParser.py:41-60 | The loader's loop builds exactly the table of the rows read in order |
| Lookup.LookupEntryOfParts | FlowLogsParser.py:43-60 | `LookupEntry` on any row, read off its comma-separated parts as they stand: nothing below three parts or when the stripped first part is not an integer, else (that integer, stripped lower-cased second part) with the stripped third part as tag |
| Lookup.RowAccepted | FlowLogsParser.py:51-60 | A row `p,q,t` whose stripped first field is an integer sets (that integer, stripped lower-cased q) to stripped t, whatever further comma fields follow |
| Lookup.LookupEntryOfRow | FlowLogsParser.py:43-60 | A row `port,protocol,tag` with a lower-case protocol and a plain tag is read back as exactly that key and tag |
| Lookup.CommentRowSkipped | FlowLogsParser.py:43-46 | A blank row, and a row whose first character after leading whitespace is `#`, adds nothing |
| Lookup.TwoFieldRowSkipped | FlowLogsParser.py:47-49 | Any row of two comma-separated fields adds nothing, however the fields are spaced and even when they are empty |
| Lookup.NonIntegerPortSkipped | FlowLogsParser.py:55-58 | Any row whose first comma-separated field, stripped, is not an integer adds nothing, whatever follows the first comma |
| Lookup.LookupEntryPlain | FlowLogsParser.py:51-53 | A stored protocol has no upper-case letter; a stored tag holds no comma and has no surrounding whitespace |
| Lookup.TableOfLastWins | FlowLogsParser.py:60 | A key's tag is the one from the last row that sets that key |
| Lookup.TableOfAbsent | FlowLogsParser.py:60 | A key that no row sets is absent from the table |
| Lookup.TableOfFromEntries | FlowLogsParser.py:60 | Every entry of the table comes from a row that sets it, and no later row sets the same key |
| Lookup.TableOfEmpty | FlowLogsParser.py:43-60 | The table is empty exactly when every row is skipped |
| Lookup.LookupTableEmpty | FlowLogsParser.py:66 | The lookup table is empty exactly when every lookup line is skipped |
| Lookup.TableTagsPlain | FlowLogsParser.py:53 | No tag in the table holds a comma or has surrounding whitespace |
| Lookup.TableTagsSingleLine | FlowLogsParser.py:53 | Lookup lines without line breaks give tags without line breaks |
| FlowRecords.FlowLineVerdict | FlowLogsParser.py:93-121 | `ParseFlowLine`'s verdict, in terms of the raw line's fields: blank iff there are none; else fewer than 14 fields (with the count); else version not "2" (with the version); else port or protocol not an integer; else the record of those two integers |
| FlowRecords.BlankIffWhitespace | FlowLogsParser.py:93-97 | A line is skipped as blank exactly when it is all whitespace |
| FlowRecords.FlowLineOfFields | FlowLogsParser.py:99-117 | A version 2 line of at least 14 fields with decimal port and protocol in fields 6 and 7 is accepted with exactly those numbers |
| FlowRecords.ProtocolNameMeaning | FlowLogsParser.py:124-127 | `ProtocolName` gives "icmp", "tcp" and "udp" for exactly 1, 6 and 17; the text of any other number reads back as that number |
| FlowRecords.ProtocolNameInjective | FlowLogsParser.py:124-127 | Distinct protocol numbers get distinct texts, so the pair counter never merges two protocols |
| FlowRecords.ProtocolNamePlain | FlowLogsParser.py:80-85 | A protocol text holds no comma, line break or upper-case letter |
| FlowRecords.TagOfLastSetter | FlowLogsParser.py:130-131 | `TagOf` the lookup table gives the tag of the last lookup line that names the flow's (port, protocol) key |
| FlowRecords.TagOfUnnamed | FlowLogsParser.py:132-133 | A flow whose key no lookup line names is tagged "Untagged" |
| FlowRecords.TagOfHasSetter | FlowLogsParser.py:130-133 | Conversely, a tag other than "Untagged" comes from the last lookup line that names the key |
| FlowRecords.TagFromTable | FlowLogsParser.py:130-133 | Every chosen tag is "Untagged" or some tag of the table |
| FlowRecords.ScanWellFormed | FlowLogsParser.py:91-138 | Without a malformed line, `Scan` yields the keys of all records, in order, as the head-first `RecordKeys` lists them |
| FlowRecords.ScanKeepsFailure | FlowLogsParser.py:143-146 | Once a prefix has failed, the lines after it change nothing |
| FlowRecords.ScanStopsAtFirstMalformed | FlowLogsParser.py:101-121 | The first malformed verdict decides the error: its 1-based position and its fault |
| FlowRecords.RecordKeysCount | FlowLogsParser.py:95-97 | Without a malformed line, every non-blank line yields exactly one key |
| FlowRecords.AcceptedIffNoneMalformed | FlowLogsParser.py:88-121 | `Accepted` succeeds exactly when no line is malformed; its keys are then those of the non-blank lines, one per line, in order |
| FlowRecords.AcceptedFailsAtFirstMalformed | FlowLogsParser.py:92-121 | The first malformed line fails the log with its 1-based physical line number (blank lines counted) and its fault, whatever comes before or after it |
| FlowRecords.AcceptedStep | FlowLogsParser.py:91-97 | Reading line n+1 is one `Step`: a failure stays, a malformed line fails with number n+1, a record adds its key, a blank line adds nothing |
| FlowRecords.AcceptedKeepsFailure | FlowLogsParser.py:143-146 | A log whose prefix has failed fails the same way |
| FlowRecords.ScanKeysPlain | FlowLogsParser.py:124-127 | No accepted key's protocol text holds a comma or a line break |
| Tallies.BumpOne | FlowLogsParser.py:136-138 | One `Bump` raises exactly one count, that key's, by exactly one, appends the key to the order when it is new, keeps the counter well formed and adds one to the total |
| Tallies.TallyOfCounts | FlowLogsParser.py:136-138 | `TallyOf` a sequence lists exactly the keys that occur and counts each key as often as it occurs |
| Tallies.TallyOfTotal | FlowLogsParser.py:136-138 | The counts of a sequence's counter add up to its length |
| Tallies.TallyOfOrder | FlowLogsParser.py:136-138 | The counter lists its keys in order of first occurrence |
| Tallies.Counter.constructor | FlowLogsParser.py:73-74 | A new counter is empty and well formed |
| Tallies.Counter.Increment | FlowLogsParser.py:136 | `counts[k] = counts.get(k, 0) + 1`: the new state is `Bump` of the old one, still well formed |
| Report.WriteTagRows | FlowLogsParser.py:155-156 | The loop writes one `tag,count` line per tag, in first-seen order |
| Report.WritePairRows | FlowLogsParser.py:162-163 | The loop writes one `port,protocol,count` line per pair, in first-seen order |
| Report.WriteReport | FlowLogsParser.py:153-163 | The text written from the two counters is the report layout |
| Report.ReportTextSections | FlowLogsParser.py:153-163 | `ReportText` is the tag headings, the tag rows, the empty line with the pair headings, and the pair rows, in that order |
| Report.ReportLines | FlowLogsParser.py:153-163 | Split at line breaks, the report gives its rows in order, then nothing after the last line break |
| Report.TagRowFields | FlowLogsParser.py:156 | A tag row splits at commas into the tag and the count, and the count reads back |
| Report.PairRowFields | FlowLogsParser.py:163 | A pair row splits at commas into port, protocol and count, and both numbers read back |
| FlowLogsParser.CountStep | FlowLogsParser.py:91-138 | One flow-log line: a malformed line decides the whole log, a blank line changes nothing, and a record appends its key and its tag to the two counters' inputs |
| FlowLogsParser.CountRecord | FlowLogsParser.py:136-138 | An accepted line bumps its tag's count and its pair's count and nothing else |
| FlowLogsParser.CountFlows | FlowLogsParser.py:88-138 | The flow-log loop returns the first refused line, or leaves the counters holding the tallies of the accepted keys and of their tags |
| FlowLogsParser.Run | FlowLogsParser.py:39-163 | A whole run returns `Output`: `EmptyLookup`, the first flow-log error, or the report of the two tallies |
| FlowLogsParser.EmptyLookupIffAllSkipped | FlowLogsParser.py:66-68 | The run fails for an empty table exactly when every lookup line is skipped, whatever the flow log holds |
| FlowLogsParser.FirstRefusedLineFails | FlowLogsParser.py:143-146 | With a usable table, the first refused flow-log line fails the run with its line number and fault |
| FlowLogsParser.SuccessIff | FlowLogsParser.py:66-146 | `Evaluate` succeeds exactly when some lookup line is used and no flow-log line is refused |
| FlowLogsParser.CountsOfRun | FlowLogsParser.py:136-138 | Each pair is counted once per accepted line that carries it, and each tag once per accepted line it tags |
| FlowLogsParser.OrderOfRun | FlowLogsParser.py:155-163 | Both sections list their keys in order of first occurrence |
| FlowLogsParser.TotalsOfRun | FlowLogsParser.py:136-138 | The tag counts and the pair counts each add up to the number of non-blank flow-log lines |
| FlowLogsParser.TagsOfRun | FlowLogsParser.py:130-133 | Every counted tag is a lookup tag or "Untagged" |
| FlowLogsParser.ReportOfRun | FlowLogsParser.py:153-163 | The report reads back line by line as the headings and one row per tag and per pair, each row splitting at commas into its key and its count |
| Scenarios.OneKeyCounts | FlowLogsParser.py:129-138 | A log with a single accepted key gives one tag and one pair, each counted once |
| Scenarios.OneRecordCounts | FlowLogsParser.py:124-138 | A one-line log with an accepted record counts that record's tag and pair once |
| Scenarios.UntaggedRecord | FlowLogsParser.py:130-138 | A record to port 53 over protocol 17 without a lookup entry is counted under "Untagged" and under (53, "udp") |
| Scenarios.SingleCountsReport | FlowLogsParser.py:153-163 | The full report text for one tag and one pair counted once |
| Scenarios.OneRowOneRecordReport | FlowLogsParser.py:41-163 | One lookup row and one matching record give the report with `tag,1` and `port,protocol,1` (e.g. `sv_P1,1` and `25,tcp,1`) |
| Scenarios.SkippedLookupRows | FlowLogsParser.py:47-58 | `80,tcp` and `abc,tcp,sv_P2` are skipped |

## Left out

- Command-line argument checking and the usage message (FlowLogsParser.py:23-30): process glue.
- `os.path.abspath` and the status prints (FlowLogsParser.py:33-34, 149, 165): environment calls and console output.
- Opening, reading and writing files, `FileNotFoundError` for either input, write failures, and the message texts (FlowLogsParser.py:41, 61-63, 90, 140-142, 151, 166-168). Inputs are sequences of lines and the output is a string, so these I/O errors have no counterpart in the model.
- UTF-8 decoding with `errors="replace"`, and splitting a file into lines: I/O. The lines are given already decoded and split.
- `sys.exit(1)`: a failed run is the `RunError` value it exits for.
- Each line is passed without its line break. `strip()` removes a trailing line break anyway, so this changes no result.
- Text.ParseInt: models `int()` as an optional `+`/`-` followed by ASCII digits. Python also accepts underscores between digits, non-ASCII decimal digits and surrounding whitespace; the texts `int()` sees here are already stripped or whitespace-free, so the underscore and non-ASCII-digit forms differ. Python 3.11 and later (and the 3.7.14, 3.8.14, 3.9.14 and 3.10.7 security releases) also refuse a decimal text of more than 4300 digits: such a lookup row is skipped and such a flow line fails as not integers, while `ParseInt` accepts both.
- Text.IsSpace: models the ASCII whitespace that `strip()` and `split()` use (tab, line feed, vertical tab, form feed, carriage return, 0x1C-0x1F, space). The other Unicode whitespace characters are not modelled.
- Text.ToLower: models `lower()` on ASCII letters only; non-ASCII case mapping is not modelled.
- FlowLogsParser.ReportOfRun: requires that no lookup line holds a line break. Lines read from a file never hold one once their own terminator is removed.
