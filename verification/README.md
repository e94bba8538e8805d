# Change-of-system monitor: a verified model

The monitor collects system-change events, filters them, counts them, raises alerts, stores
them in a rotating log, reports them in batches and exports them; it also writes snapshots of
the system and compares two of them. This project models that logic in Dafny and proves what it
keeps. `dafny verify dfyconfig.toml` checks everything.

| files | part of the system |
|---|---|
| `JsonParser`, `JsonGrammar`, `JsonPrinter` | the recursive-descent JSON parser as a class over a cursor, an independent grammar that it accepts exactly, and which trees have a text; up to the numerals `stod` takes the grammar holds RFC 8259 (sections 2 to 7), and more: any character may follow a backslash, any four a `\u`, and control bytes may stand unescaped |
| `JsonWriter`, `EventExport`, `SnapshotWriter` | the writers of event exports and snapshot files, proved to write instances of that grammar |
| `SnapshotDiff`, `SnapshotKeys` | the keyed comparison of two parsed snapshots, and which rows it files under which key |
| `Events`, `Strings`, `Collections`, `Rules` | the event record and its name tables, text helpers, bounded histories, named rule lists |
| `StorageCodec`, `FileStorage`, `StorageHistory` | the tab-separated record codec, the store as a class over a map from slot to text, and its whole runs |
| `AlertManager`, `AlertHistory`, `AlertThreads`, `AlertSchedules`, `AlertStale`, `MessageFormat` | alerting: the class, sequential runs, interleaved threads, particular schedules, how many alerts stale times let through, message templates |
| `SecurityAuditor`, `AuditHistory`, `AuditDecision` | the security auditor: the class, what every run keeps, when a rule fires |
| `Statistics`, `Reporter`, `EventFilter`, `FilterChain`, `MonitorEngine` | counters and time buckets, the report queue, the filter chain, and the engine that routes an event through all of them |
| `ConfigText`, `ConfigStore`, `CsvExport` | the configuration file format and the CSV export, each with an inverse |

Each class follows the source statement by statement and is tied to functions on values; the
lemmas are about those functions, and say of each what it is without using its own text: which
entries a window holds, which events a query returns, which bytes a table maps to which. Times are integer milliseconds. A reading of the clock is a
value of a function from tick numbers to times (or a parameter), so that a claim can say
exactly which readings it needs in order.

Results that say where the code falls short of a simpler promise:
`AlertSchedules.StaleTimeBreaksBound` (an alert's time is read before the lock is taken),
`AuditHistory.LateCheckFiresEarly` (the cooldown check reads the clock after the stamp),
`FilterChain.DryRunAgrees` and `DryRunMisleads` (the dry run stops at a Modify rule),
`FilterChain.OrderMatters` (the sort is not stable), `StorageHistory.CounterExactlyWhenOneLine`
and `CounterAfterPrune`, `SnapshotDiff.FieldDiffsAsymmetry` (nested values are not compared),
`MessageFormat.ThresholdEatsOne`, `PlaceholderInValueNeverEnds` and `TwoSlotsNeverEnd` (the
replacing loops need not end), `StorageHistory.KeptNeedsLineEnd` (a file that does not end its
last line), `JsonPrinter.LargerThanRfc`, `HugeNumberRefused` and `RfcWritableIff` (the parser takes
more than RFC 8259, refuses numbers beyond a double and reads every `\u` as a question mark),
`MessageFormat.LaterPlaceholderRewritten` (a value that holds a later placeholder), `Reporter.ZeroNeverSends`.

## Model

| member | source | states |
|---|---|---|
| `JsonParser.Parser.ParseString` | src/snapshot_diff/snapshot_diff.cpp:131-165 | the cursor loop returns what the string rule gives from the cursor, moves the cursor there and never past the end, on any text |
| `JsonParser.Parser.ParseNumber` | src/snapshot_diff/snapshot_diff.cpp:167-176 | takes the longest run of number characters and succeeds exactly when `stod` accepts it |
| `JsonParser.Parser.ParseValue` | src/snapshot_diff/snapshot_diff.cpp:73-85 | dispatch on the first character; the mutual recursion terminates on every input |
| `JsonParser.Parser.ParseObject` | src/snapshot_diff/snapshot_diff.cpp:87-110 | members, separators and the closing brace, or failure, as the object rule says; a repeated key keeps the last value |
| `JsonParser.Parser.ParseArray` | src/snapshot_diff/snapshot_diff.cpp:112-129 | elements, separators and the closing bracket, or failure, as the array rule says |
| `JsonParser.Parser.Parse` | src/snapshot_diff/snapshot_diff.cpp:53-56 | the whole parser equals the recursive definition `Source.Parse` |
| `JsonGrammar.ValueComplete` | src/snapshot_diff/snapshot_diff.cpp:73-196 | every well-formed writing of a value is accepted, read as what it means, and left exactly at its end |
| `JsonGrammar.ValueSound` | src/snapshot_diff/snapshot_diff.cpp:73-196 | whatever is accepted is such a writing |
| `JsonGrammar.ParsesExactlyTheGrammar` | src/snapshot_diff/snapshot_diff.cpp:53-196 | on any text, parse gives `v` and stops at `q` if and only if the text begins with a writing of `v` that ends at `q` |
| `JsonGrammar.PrintThenParse` | src/snapshot_diff/snapshot_diff.cpp:53-196 | each writing of a tree, with any blanks and escapes, parses to that tree and the parser stops at its end, whatever follows |
| `JsonGrammar.NumeralsDecide` | src/snapshot_diff/snapshot_diff.cpp:53-196 | a writing of the right shape is accepted with its meaning exactly when `stod` takes each of its numerals, those of overwritten members included, and refused otherwise |
| `JsonPrinter.WritableIffNumerals` | src/snapshot_diff/snapshot_diff.cpp:53-196 | a tree has a writing exactly when its numbers are numerals that `stod` takes |
| `JsonPrinter.EveryTreeReadsBack` | src/snapshot_diff/snapshot_diff.cpp:53-196 | every such tree, printed after any blanks and before any text that does not run on, is read back, and the parser stops at the end of the print |
| `JsonPrinter.RfcTextsParse` | src/snapshot_diff/snapshot_diff.cpp:53-196 | a text of RFC 8259, white space around it included, parses to its meaning exactly when `stod` takes each of its numerals, and is refused otherwise |
| `JsonPrinter.HugeNumberRefused` | src/snapshot_diff/snapshot_diff.cpp:167-176 | `1e400` is a text of RFC 8259 that is refused when `stod` throws on it |
| `JsonPrinter.RfcWritableIff` | src/snapshot_diff/snapshot_diff.cpp:131-176 | a tree has a text of RFC 8259 that is read as it exactly when its numbers are RFC numbers that `stod` takes and its strings hold no control byte that only `\u` could write, since every `\u` is read as a question mark |
| `JsonPrinter.LargerThanRfc` | src/snapshot_diff/snapshot_diff.cpp:141-157 | `"\q"` parses, and is no text of RFC 8259 |
| `JsonPrinter.EscapesAre` | src/snapshot_diff/snapshot_diff.cpp:141-157 | the two-character escapes stand for the code points of RFC 8259, section 7 |
| `JsonPrinter.AlphabetIs` | src/snapshot_diff/snapshot_diff.cpp:167-172 | white space and number characters are those of sections 2 and 6 |
| `JsonPrinter.LiteralsRead` | src/snapshot_diff/snapshot_diff.cpp:178-195 | `null`, `true` and `false` are read as such |
| `JsonPrinter.UnicodeReads` | src/snapshot_diff/snapshot_diff.cpp:149-154 | a `\u` escape is read as a question mark, whatever its digits |
| `Events.NamesRoundTrip` | src/core/event.cpp:5-54 | the reverse tables undo the name tables for every category and type, and names need no escaping |
| `Events.NamesAre` | src/core/event.cpp:5-54 | the names, written out |
| `Strings.LessIs` | src/storage/storage.cpp:30-34 | attributes are visited in the order of std::string: a proper beginning first, else the first difference |
| `Strings.ClassesAre` | src/config/config_store.cpp:13-19 | white space of the C locale and the digits, by code |
| `Strings.ValueAppend` | src/storage/storage.cpp:58-63 | the value of a numeral, digit by digit |
| `JsonWriter.JsonEscape` | src/export/event_exporter.cpp:49-72 | the escaping loop writes the body of a JSON string |
| `JsonWriter.PiecesReadBack` | src/snapshot/snapshot_generator.cpp:100-123 | an escaped string is well formed and is read back as itself, control bytes written as `\u00xx` coming back as `?` |
| `JsonWriter.ReadBackIffClean` | src/snapshot_diff/snapshot_diff.cpp:131-165 | a string survives writing and parsing exactly when it has no such control byte |
| `JsonPrinter.ControlDigits` | src/export/event_exporter.cpp:60-68 | the four digits the writer puts behind `\u` are the code point of the character |
| `EventExport.WriteEvent` | src/export/event_exporter.cpp:121-149 | one event, its nine fields written cell by cell through the escaping loop and its attributes by theirs, is the text of a grammar tree |
| `EventExport.ExportToJson` | src/export/event_exporter.cpp:109-155 | the whole file is the text of a grammar tree and a line end |
| `EventExport.ExportParses` | src/export/event_exporter.cpp:109-155 | if `stod` takes the ids of the exported events, the file parses, up to its last line end, to one object per event with the event's fields |
| `EventExport.ExportedMembers` | src/export/event_exporter.cpp:121-149 | each of the ten members holds the part of the event that its name says |
| `EventExport.CleanAttributesSurvive` | src/export/event_exporter.cpp:132-143 | attribute maps without control bytes come back unchanged |
| `SnapshotWriter.WriteTable` | src/snapshot/snapshot_generator.cpp:199-251 | a table section, its rows written cell by cell, is the text of a grammar tree, for any rows |
| `SnapshotWriter.WriteRecord` | src/snapshot/snapshot_generator.cpp:419-446 | so is a record section |
| `SnapshotWriter.Generate` | src/snapshot/snapshot_generator.cpp:448-490 | so is the whole document, its metadata and sections written cell by cell, for any metadata and any list of sections |
| `SnapshotWriter.SnapshotParses` | src/snapshot/snapshot_generator.cpp:448-490 | a generated file parses, up to its last line end, to the captured data |
| `SnapshotDiff.IndexArray` | src/snapshot_diff/snapshot_diff.cpp:288-298 | the index of a table by extracted key, the first row of a key kept |
| `SnapshotDiff.IndexFinds` | src/snapshot_diff/snapshot_diff.cpp:257-298 | it holds exactly the keys of the keyed items, each with the fields of an item of that key; which key that is says `SnapshotKeys.KeyIs` |
| `SnapshotKeys.KeyIs` | src/snapshot_diff/snapshot_diff.cpp:257-286 | a row is filed under a key exactly by what it shows: its pid; else its protocol, address and port; else mount point and device; else local and remote address; else its name; else its texts and numbers spelled out in the order of std::map |
| `SnapshotDiff.IndexIgnoresOrder` | src/snapshot_diff/snapshot_diff.cpp:288-298 | when keys identify items, order and repetition do not matter to the index |
| `SnapshotDiff.OrderIgnoredIff` | src/snapshot_diff/snapshot_diff.cpp:288-298 | every permutation of the items gives the same index if and only if keys identify items; otherwise one of two clashing items put first shows |
| `SnapshotDiff.DiffFields` | src/snapshot_diff/snapshot_diff.cpp:301-317 | both loops of the field comparison; what their lines say is `SnapshotKeys.FieldLines` |
| `SnapshotDiff.FieldDiffsEmpty` | src/snapshot_diff/snapshot_diff.cpp:301-317 | empty exactly when both records have the same names and every scalar of the first renders as in the second |
| `SnapshotDiff.FlatFieldDiffs` | src/snapshot_diff/snapshot_diff.cpp:301-317 | on flat records that is equality up to rendering, and symmetric |
| `SnapshotDiff.FieldDiffsAsymmetry` | src/snapshot_diff/snapshot_diff.cpp:301-317 | for any records, exactly when exchanging the sides changes the verdict |
| `SnapshotKeys.FieldLines` | src/snapshot_diff/snapshot_diff.cpp:301-317 | a line is listed exactly for a name that is gone, a name that is new with its value, or a scalar that shows differently, old value before new |
| `SnapshotKeys.ScalarsAre` | src/snapshot_diff/snapshot_diff.cpp:242-254 | scalars are shown as their JSON text, strings without quotes and numbers as rendered |
| `SnapshotDiff.DiffArraySection` | src/snapshot_diff/snapshot_diff.cpp:325-349 | the added, removed and changed lists as the two loops build them; their content is `SnapshotKeys.ListedByKey` and `ChangesAre` |
| `SnapshotDiff.DiffPartitionsKeys` | src/snapshot_diff/snapshot_diff.cpp:325-349 | removed, added and common keys partition the keys of both indexes; changed keys are the common ones that differ; nothing is listed twice |
| `SnapshotKeys.ListedByKey` | src/snapshot_diff/snapshot_diff.cpp:325-349 | of any two tables: a key is removed exactly when some row of the first is filed under it, by what the row shows, and none of the second; added the other way round |
| `SnapshotKeys.ProcessesByPid` | src/snapshot_diff/snapshot_diff.cpp:257-349 | in process tables a pid is listed exactly when one of them shows it and the other does not, whatever the names |
| `SnapshotKeys.ChangesAre` | src/snapshot_diff/snapshot_diff.cpp:325-349 | a changed row is listed with its lines joined by semicolons |
| `SnapshotDiff.DiffConverse` | src/snapshot_diff/snapshot_diff.cpp:325-349 | added(a,b) = removed(b,a), and on flat tables the same keys change both ways |
| `SnapshotDiff.DiffWithItself` | src/snapshot_diff/snapshot_diff.cpp:325-349 | a table does not differ from itself |
| `SnapshotDiff.DiffIgnoresOrder` | src/snapshot_diff/snapshot_diff.cpp:288-349 | permuting items that keys identify changes nothing in any diff |
| `SnapshotDiff.NoDiffIffAgree` | src/snapshot_diff/snapshot_diff.cpp:325-349 | no difference exactly when the tables agree key by key |
| `SnapshotDiff.AnyDiff` | src/snapshot_diff/snapshot_diff.cpp:473-519 | the loop over sections and metadata finds a difference exactly when the snapshots do not agree |
| `SnapshotDiff.Run` | src/snapshot_diff/snapshot_diff.cpp:381-519 | status 2 exactly for unusable input, 0 exactly when both files are snapshots that agree, 1 otherwise |
| `SnapshotKeys.VanishedProcessDiffers` | src/snapshot_diff/snapshot_diff.cpp:257-519 | snapshots whose process tables give pids, one of which the other lacks, never agree |
| `SnapshotDiff.FlatVerdict` | src/snapshot_diff/snapshot_diff.cpp:473-519 | for flat snapshots the verdict is "same" exactly when every section and metadata field is the same up to rendering, and it is symmetric |
| `SnapshotDiff.GeneratedIsFlat` | src/snapshot/snapshot_generator.cpp:448-490 | every generated snapshot is flat |
| `SnapshotDiff.GeneratedVerdict` | src/snapshot_diff/snapshot_diff.cpp:381-519 | generator, parser and differ together: for two generated files the exit status is 0 exactly when the two record and four table sections look the same by key and the five metadata fields are the same up to rendering, all named |
| `StorageCodec.SerializeEvent` | src/storage/storage.cpp:20-42 | the nine tab-separated columns of a record |
| `StorageCodec.ColumnsAre` | src/storage/storage.cpp:20-42 | the nine columns of a record without tabs, in order, with blanks for line ends |
| `StorageCodec.ScanAttributes` | src/storage/storage.cpp:71-92 | the character loop over the attribute column equals its recursive definition |
| `StorageCodec.ParseEvent` | src/storage/storage.cpp:44-95 | tokens, number parsing and defaults for short lines |
| `StorageCodec.BadTimeIsNow` | src/storage/storage.cpp:44-95 | each column read lands in its field; an unreadable time is the clock |
| `StorageCodec.ShortLineIsDefault` | src/storage/storage.cpp:44-57 | a line of fewer columns is the default event |
| `StorageCodec.StollDecimal` | src/storage/storage.cpp:58-63 | every 64-bit timestamp is read back from its decimal form |
| `StorageCodec.StollReads` | src/storage/storage.cpp:58-63 | white space, a sign or none, digits and any rest give the number within 64 bits, nothing beyond |
| `StorageCodec.StollRefuses` | src/storage/storage.cpp:58-63 | without digits there is nothing to read |
| `StorageCodec.AttributesRoundTrip` | src/storage/storage.cpp:20-95 | the attribute map survives if and only if it is attributable: keys non-empty, no `=`, no `||`, and no bar where it would meet a separator |
| `StorageCodec.EventRoundTrip` | src/storage/storage.cpp:20-95 | parsing a serialized event restores it, up to the id, if and only if it is storable |
| `StorageCodec.RecordIsOneLine` | src/storage/storage.cpp:20-42 | a record is one line exactly when source, target, host and platform are |
| `FileStorage.Storage.Open` | src/storage/storage.cpp:105-121 | opening creates the file if needed and reads both counters off it |
| `FileStorage.Storage.Insert` | src/storage/storage.cpp:145-154 | appends one record, counts it, and rotates if the limit is reached; nothing on a closed store |
| `FileStorage.Storage.ShiftBackups` | src/storage/storage.cpp:248-260 | the renaming loop moves each backup one slot up and drops the oldest |
| `FileStorage.Storage.MaybeRotateLocked` | src/storage/storage.cpp:240-269 | the exact content of every slot after a rotation |
| `FileStorage.RotatedSlots` | src/storage/storage.cpp:240-269 | slot 0 is empty, slots 1 to n hold what was one below, the rest is untouched |
| `FileStorage.Storage.Prune` | src/storage/storage.cpp:194-236 | rewrites the active file with its last records only; nothing without an opened file |
| `FileStorage.Storage.Query` | src/storage/storage.cpp:158-181 | the scan with early stop gives a slice of all matching records; which those are say `StorageHistory.AnswersAreAsked` and `QueryAnswers` |
| `StorageHistory.HistoryIsSuffix` | src/storage/storage.cpp:145-277 | in every run of inserts, backups from the highest down and then the active file are a contiguous tail of everything written |
| `StorageHistory.HistoryKeepsEnough` | src/storage/storage.cpp:145-277 | how much of it: from a store without backups, or with full ones without gaps, either nothing is lost or every backup slot is in use with at least the limit, so at least the lesser of everything and slots times limit is kept |
| `StorageHistory.InsertKeeps` | src/storage/storage.cpp:145-154 | one insert of any record keeps all records but oldest ones, from any open store whose file ends at a line end |
| `StorageHistory.RecordsRun` | src/storage/storage.cpp:145-277 | record by record, every run of inserts keeps a suffix of what was there and what was inserted |
| `StorageHistory.PruneKeeps` | src/storage/storage.cpp:194-236 | a prune with any bound and any counter skips the oldest records, as many as the counter is over the bound, and keeps the rest in order and every backup |
| `StorageHistory.KeptIsSubsequence` | src/storage/storage.cpp:145-277 | in every run of inserts and prunes, any events and any bounds, the kept records are an in-order subsequence of what was there and what was inserted |
| `StorageHistory.KeptNeedsLineEnd` | src/storage/storage.cpp:145-154 | only the line end of the file found is needed: without it the first record inserted runs into the last one |
| `StorageHistory.BytesAlwaysRight` | src/storage/storage.cpp:145-277 | in every run of inserts and prunes the byte counter is the size of the active file |
| `StorageHistory.CountersAgree` | src/storage/storage.cpp:145-277 | in every run of one-line inserts and prunes with bounds that are not negative the event counter is the number of records in the active file |
| `StorageHistory.AfterOpening` | src/storage/storage.cpp:105-277 | from opening on: the byte counter is right in every run on any file; if the file found ends at a line end, the kept records are an in-order subsequence and, for one-line events and bounds that are not negative, the event counter is right |
| `StorageHistory.CounterExactlyWhenOneLine` | src/storage/storage.cpp:145-154 | one insert keeps the event counter right if and only if the record is one line or the file rotates |
| `StorageHistory.CounterAfterPrune` | src/storage/storage.cpp:194-236 | a prune keeps it right if and only if its bound is not negative |
| `StorageHistory.RunSizes` | src/storage/storage.cpp:240-269 | with rotation on, in every run of inserts and prunes the active file stays below the limit and every new backup is at least the limit and less than the limit plus one line |
| `StorageHistory.AnswerIs` | src/storage/storage.cpp:158-181 | an answer is exactly the slice from `offset` of length `limit`; a negative offset counts as zero, a limit below one as one |
| `StorageHistory.AnswersAreAsked` | src/storage/storage.cpp:158-181 | whatever the file holds, every event answered is not before the lower and not after the upper bound, where positive, and has the keyword in summary or target |
| `StorageHistory.QueryAnswers` | src/storage/storage.cpp:145-181 | a store without records answers, after inserts, with the page asked for of exactly the inserted events within the bounds and with the keyword, in order |
| `StorageHistory.PagesJoin` | src/storage/storage.cpp:158-181 | consecutive pages concatenate without gaps or repeats |
| `StorageHistory.AllPages` | src/storage/storage.cpp:158-181 | enough pages give the full filtered list |
| `StorageHistory.QueryAfterInserts` | src/storage/storage.cpp:145-181 | a query after inserts answers from what it would have found before and then exactly the inserted events asked for, through both codecs |
| `StorageHistory.QueryAfterRotations` | src/storage/storage.cpp:145-277 | with rotation, a query after inserts answers from exactly the inserted events asked for from some point on, with the last of the records found before them when none was rotated out |
| `Rules.ReplacedKeeps` | src/alert/alert_manager.cpp:49-56 | adding a rule replaces its namesake, keeps all others and keeps names unique |
| `Rules.RemovedKeeps` | src/alert/alert_manager.cpp:60-68 | removing takes exactly the rules of that name |
| `Rules.EnablingSwitches` | src/filter/event_filter.cpp:39-46 | with unique names exactly the rule of the name is switched, on or off as asked |
| `AlertManager.Manager.AddRule` | src/alert/alert_manager.cpp:24-58 | find and replace, or append |
| `AlertManager.Manager.IsInCooldown` | src/alert/alert_manager.cpp:246-261 | the answer, and whether the clock was read |
| `AlertManager.Manager.PruneOld` | src/alert/alert_manager.cpp:114-118 | the erasing loop keeps exactly the times not before the cutoff; `AlertHistory.WindowRun` says which events those are |
| `AlertManager.Manager.TriggerAlert` | src/alert/alert_manager.cpp:180-201 | the alert raised, and the new history, cooldown table and id counter |
| `AlertManager.Manager.ProcessEvent` | src/alert/alert_manager.cpp:91-130 | the whole new state, the readings used and the alerts raised, over a copy of the rules |
| `AlertHistory.RunAgrees` | src/alert/alert_manager.cpp:91-130 | over every run the history is the last at most 10000 alerts, ids are consecutive from one, and the cooldown table holds each rule's last firing |
| `AlertHistory.WindowRun` | src/alert/alert_manager.cpp:101-123 | over every run a rule's stored list holds the times of exactly the events matched so far from some time already passed on, in order |
| `AlertHistory.RuleDecision` | src/alert/alert_manager.cpp:98-128 | at each event a rule that is off or does not match does nothing; any other holds exactly the events matched within the window, and raises one alert, for that rule and event, if and only if they are as many as the threshold and the cooldown is over |
| `AlertThreads.StepAgrees` | src/alert/alert_manager.cpp:91-201 | every step of every thread keeps history, ids and cooldown table exact against the log of all alerts |
| `AlertThreads.StepEntries` | src/alert/alert_manager.cpp:91-201 | and every committed alert rested against the alerts its cooldown check saw, with none of its thread's own in between |
| `AlertThreads.StepPhases` | src/alert/alert_manager.cpp:91-201 | and the same of every thread that is past its check but has not committed |
| `AlertThreads.EverySchedule` | src/alert/alert_manager.cpp:91-201 | under every interleaving ids are consecutive, the history is the last 10000 alerts in commit order, and each alert's cooldown check saw no alert of its rule within the cooldown |
| `AlertThreads.WindowBound` | src/alert/alert_manager.cpp:91-261 | with T threads, whenever the alerts of a rule are committed in time order, no window as long as its cooldown holds more than T of them |
| `AlertThreads.AtomicInOrder` | src/alert/alert_manager.cpp:180-194 | alerts are in time order if nobody steps between reading an alert's time and committing it |
| `AlertThreads.AtomicWindowBound` | src/alert/alert_manager.cpp:91-261 | so then the bound holds for every schedule |
| `AlertThreads.AloneApart` | src/alert/alert_manager.cpp:91-261 | one thread alone: any two alerts of a rule are at least the cooldown apart, with no assumption |
| `AlertSchedules.SequentialIsASchedule` | src/alert/alert_manager.cpp:91-130 | what the class computes for one caller is one of the schedules |
| `AlertSchedules.WindowBoundIsReached` | src/alert/alert_manager.cpp:91-261 | for every number of threads some schedule reaches the bound |
| `AlertSchedules.StaleTimeBreaksBound` | src/alert/alert_manager.cpp:180-194 | a thread that stops between reading and committing lets two threads raise three alerts within one cooldown, out of time order |
| `AlertStale.StaleBound` | src/alert/alert_manager.cpp:91-261 | with T threads, in every schedule, times stale or not, no window as long as a rule's cooldown holds more than T(T+1)/2 of its alerts |
| `AlertStale.StaleBoundIsReached` | src/alert/alert_manager.cpp:91-261 | for every number of threads some schedule reaches that bound |
| `MessageFormat.ReplaceLoop` | src/alert/alert_manager.cpp:220-222 | on every input on which the find-and-replace loop ends, it computes repeated replacement |
| `MessageFormat.FormatMessage` | src/alert/alert_manager.cpp:211-244 | the seven loops in order, and the text for an empty template, on every input on which they end |
| `MessageFormat.PlaceholdersAre` | src/alert/alert_manager.cpp:211-234 | which value each placeholder stands for, and the text for an empty template |
| `MessageFormat.HarmlessMessageEnds` | src/alert/alert_manager.cpp:216-241 | they end on every template when each inserted text has at most one opening brace, or does not hold its placeholder and either does not end in the beginning of it or does not start in the end of it |
| `MessageFormat.FormatSubstitutes` | src/alert/alert_manager.cpp:216-234 | the sequential rewriting ends and is simultaneous substitution, on templates of event placeholders and literals that hold no placeholder and end in the beginning of none, when each value does the same for its own placeholder and those looked for later |
| `MessageFormat.SingleBracesSubstitute` | src/alert/alert_manager.cpp:216-241 | in particular when literals and values have no two opening braces in a row and none at the end |
| `MessageFormat.LoopSubstitutesIff` | src/alert/alert_manager.cpp:220-234 | for one kind: its loop ends and substitutes in every such template if and only if the value does not hold its placeholder and does not end in the beginning of it |
| `MessageFormat.LaterPlaceholderRewritten` | src/alert/alert_manager.cpp:220-225 | a source of `{{target}}` is itself rewritten to the target |
| `MessageFormat.ThresholdEatsOne` | src/alert/alert_manager.cpp:236-241 | a threshold placeholder takes the next character with it |
| `MessageFormat.PlaceholderInValueNeverEnds` | src/alert/alert_manager.cpp:220-234 | with a value holding its own placeholder the loop ends exactly on the templates that do not hold it |
| `MessageFormat.TwoSlotsNeverEnd` | src/alert/alert_manager.cpp:220-234 | values that do not hold the placeholder can loop too: a template of two placeholders and a value of two endings and two beginnings of one |
| `MessageFormat.SourceLoops` | src/alert/alert_manager.cpp:220-222 | template `{{source}}{{source}}` with the source `}}}}{{source{{source` |
| `SecurityAuditor.Auditor.EnableRule` | src/security/security_auditor.cpp:71-79 | switches the first rule of the name |
| `SecurityAuditor.Auditor.IsInCooldown` | src/security/security_auditor.cpp:347-360 | the answer, and whether the clock was read |
| `SecurityAuditor.Auditor.RecordRuleEvent` | src/security/security_auditor.cpp:362-385 | append and prune by the rule's window |
| `SecurityAuditor.Auditor.CheckRule` | src/security/security_auditor.cpp:310-344 | one rule's turn: recorded or skipped, counted, fired |
| `SecurityAuditor.Auditor.ReportSecurityEvent` | src/security/security_auditor.cpp:283-345 | the whole new state and the trail of recorded events |
| `AuditHistory.KeepsIncidents` | src/security/security_auditor.cpp:283-294 | in any run of reports and rule edits the history is the last at most 1000 incidents |
| `AuditHistory.IncidentIds` | src/security/security_auditor.cpp:287-289 | numbered consecutively from one |
| `AuditHistory.EditsKeepUnique` | src/security/security_auditor.cpp:53-89 | rule edits keep names unique and touch no window or cooldown |
| `AuditHistory.CheckedApart` | src/security/security_auditor.cpp:307-360 | in every interleaving, with any rule edits, nothing is recorded before the cooldown check has seen the cooldown go by since every earlier firing of that name |
| `AuditHistory.FiringsApart` | src/security/security_auditor.cpp:307-360 | with one reading per call, firings of a rule are at least its cooldown apart |
| `AuditHistory.LateCheckFiresEarly` | src/security/security_auditor.cpp:308-342 | with the separate readings of the code, two firings 5 ms apart under a cooldown of 10 ms |
| `AuditDecision.EveryDecision` | src/security/security_auditor.cpp:323-343 | in every run of reports and rule edits, whatever the readings, a rule fires at a recorded event if and only if the number of its records that are left and younger than the window reaches the threshold; left is what no record since, with the window of its time, has pruned |
| `AuditDecision.EveryDecisionInOrder` | src/security/security_auditor.cpp:323-385 | with readings in order and a window of the rule that was never shorter before, the records counted are those within the window of this record and, short of it, of the call |
| `AuditDecision.EveryDecisionOneReading` | src/security/security_auditor.cpp:323-343 | with one reading per call those are all records younger than the window |
| `AuditDecision.RecordedExactly` | src/security/security_auditor.cpp:310-327 | after every run of reports and rule edits, an event is recorded if and only if the rule is on, matches, and its last firing is a cooldown back |
| `Statistics.Collector.Record` | src/stats/statistics.cpp:25-46 | all seven tables after one event, pruned when more than 120 minutes are held |
| `Statistics.Collector.PruneTimeBuckets` | src/stats/statistics.cpp:264-286 | the erasing loops keep exactly the buckets from the cutoffs on |
| `Statistics.RecordPrunes` | src/stats/statistics.cpp:42-45 | up to 120 minutes nothing goes; then exactly the minutes that ended two hours ago or earlier |
| `Statistics.Collector.Reset` | src/stats/statistics.cpp:145-160 | everything cleared, the category entries kept at zero |
| `Statistics.ClearedIs` | src/stats/statistics.cpp:145-160 | which entries are at zero and that everything else is empty |
| `Statistics.Collector.CountInRange` | src/stats/statistics.cpp:171-185 | the sum of the buckets in range |
| `Statistics.EntriesCount` | src/stats/statistics.cpp:25-32 | each entry of each table is the number of events since the last reset with that key |
| `Statistics.TablesSumToTotal` | src/stats/statistics.cpp:25-32 | category, type, source and target tables each sum to the total |
| `Statistics.CountsInRange` | src/stats/statistics.cpp:171-185 | a range from the last cutoff on counts exactly the events recorded in it |
| `Statistics.CountsHours` | src/stats/statistics.cpp:264-286 | the same for the hour buckets |
| `Statistics.CountsEvents` | src/stats/statistics.cpp:171-185 | a range of minutes or hours counts exactly the events stamped between its ends, to the millisecond |
| `Statistics.CountsSurvivors` | src/stats/statistics.cpp:171-185 | for every range, the buckets count what the full list, pruned when they are, would count |
| `Statistics.MinutesBounded` | src/stats/statistics.cpp:42-45 | if no event is stamped after the clock, a record leaves at most 121 minutes |
| `Reporter.Reporter.Enqueue` | src/reporting/reporter.cpp:67-71 | appended exactly when enabled |
| `Reporter.Reporter.EnqueueBatch` | src/reporting/reporter.cpp:73-77 | the same for a list |
| `Reporter.Reporter.TakeBatch` | src/reporting/reporter.cpp:90-98 | cuts a front part of the size the unsigned comparison gives |
| `Reporter.Reporter.FlushBatch` | src/reporting/reporter.cpp:88-113 | a flush sends a front part or, when the send fails, leaves the queue as it was |
| `Reporter.NothingLostOrRepeated` | src/reporting/reporter.cpp:67-113 | in every interleaving delivered, in flight and queued are together the accepted events, each once, in order |
| `Reporter.FlushesDeliver` | src/reporting/reporter.cpp:88-113 | what any number of successful flushes delivers |
| `Reporter.DrainsExactly` | src/reporting/reporter.cpp:88-113 | after any history `k` successful flushes deliver everything if and only if `k` batches cover the queue |
| `Reporter.ZeroNeverSends` | src/reporting/reporter.cpp:93-100 | batch size zero never sends anything |
| `Reporter.NegativeTakesAll` | src/reporting/reporter.cpp:93-100 | a negative batch size takes everything at once |
| `EventFilter.Filter.AddRule` | src/filter/event_filter.cpp:13-29 | replace or append, then some order by falling priority |
| `EventFilter.Filter.EnableRule` | src/filter/event_filter.cpp:39-46 | switches the first rule of the name |
| `EventFilter.Filter.Process` | src/filter/event_filter.cpp:58-92 | verdict, changed event and all four counters; what decides is `FilterChain.FirstStopDecides` |
| `EventFilter.Filter.ApplyModifications` | src/filter/event_filter.cpp:188-198 | the attribute loop overlays the rule's attributes; a non-empty summary replaces |
| `FilterChain.ModifiedIs` | src/filter/event_filter.cpp:188-198 | attribute by attribute, and that nothing else changes |
| `FilterChain.EditsKeepOrder` | src/filter/event_filter.cpp:13-51 | after any edits names are unique and priorities fall, however the sort broke ties |
| `FilterChain.FirstStopDecides` | src/filter/event_filter.cpp:58-92 | there is a first enabled matching non-Modify rule on the progressively changed event, or none, and it decides; with the event handed on and the number of changes |
| `FilterChain.DisabledRulesDoNothing` | src/filter/event_filter.cpp:58-107 | verdict, event, counts and dry run are those of the chain without the rules that are off |
| `FilterChain.OrderDoesNotMatter` | src/filter/event_filter.cpp:23-27 | without modifications, if the top matching rules act alike, every order of equal priorities gives the same verdict |
| `FilterChain.OrderMatters` | src/filter/event_filter.cpp:23-27 | otherwise some order gives the opposite verdict |
| `FilterChain.DryRunAgrees` | src/filter/event_filter.cpp:94-107 | the dry run agrees with the filter if and only if its first match is not a Modify rule or the first rule to stop the changed event is not a Deny rule |
| `FilterChain.DryRunAgreesUnmodified` | src/filter/event_filter.cpp:94-107 | so it agrees whenever no enabled Modify rule matches |
| `FilterChain.DryRunMisleads` | src/filter/event_filter.cpp:94-107 | a Modify rule ahead of a Deny rule |
| `MonitorEngine.Monitor.RouteEvent` | src/core/monitor_engine.cpp:308-350 | the whole state of the engine and its parts after one event, for any analysis by the auditor |
| `MonitorEngine.Monitor.Audit` | src/core/monitor_engine.cpp:326-329 | the findings of the analysis are reported one after the other |
| `MonitorEngine.Monitor.PushRecent` | src/core/monitor_engine.cpp:335-340 | the trimming loop leaves the last at most 5000 |
| `MonitorEngine.Monitor.RecentEvents` | src/core/monitor_engine.cpp:375-380 | the suffix of length min(limit, size), and no defined answer exactly when the limit is negative |
| `MonitorEngine.EverythingInStep` | src/core/monitor_engine.cpp:308-350 | after any run statistics, alerts, auditor, store, report queue and recent list have all seen the same allowed, changed events in order |
| `MonitorEngine.CountsAgree` | src/core/monitor_engine.cpp:308-350 | processed = allowed + denied, allowed = statistics total = store inserts, and any request for recent events is a suffix of the allowed ones |
| `ConfigText.TrimText` | src/config/config_store.cpp:13-19 | the two index loops strip white space at both ends |
| `ConfigText.StripMiddle` | src/config/config_store.cpp:13-19 | stripping gives the tight middle, however the ends are padded |
| `ConfigText.EscapeValue` | src/config/config_store.cpp:21-34 | the escaping loop |
| `ConfigText.UnescapeValue` | src/config/config_store.cpp:36-54 | the unescaping loop, with unknown escapes and a trailing backslash |
| `ConfigText.UnescapeEscape` | src/config/config_store.cpp:21-54 | unescaping undoes escaping for every text |
| `ConfigText.EscapesAre` | src/config/config_store.cpp:21-54 | the four escapes by code, unknown escapes and a trailing backslash |
| `ConfigText.SplitList` | src/config/config_store.cpp:56-70 | the trimmed pieces between commas, without an empty last one |
| `ConfigText.ListReadsBack` | src/config/config_store.cpp:56-70 | a joined list splits into itself if and only if its items are trimmed and comma-free |
| `ConfigText.TrailingComma` | src/config/config_store.cpp:56-70 | a comma at the end starts no further item |
| `ConfigStore.Store.Load` | src/config/config_store.cpp:101-117 | each line sets at most one key, on top of what is there |
| `ConfigStore.Store.Save` | src/config/config_store.cpp:119-138 | header and one line per key in map order |
| `ConfigStore.Store.GetList` | src/config/config_store.cpp:177-183 | fallback for a missing or empty value |
| `ConfigStore.SetThenGetList` | src/config/config_store.cpp:177-206 | for every list, exactly when get after set gives it back, the two empty cases included |
| `ConfigStore.LineReads` | src/config/config_store.cpp:109-115 | a saved line loads as its key and its value without the blanks, vertical tabs and form feeds at its ends |
| `ConfigStore.AnyLineReads` | src/config/config_store.cpp:101-117 | any line with white space around key and value sets the key; only the first equals sign counts |
| `ConfigStore.IgnoredLine` | src/config/config_store.cpp:101-117 | blank lines, comments and lines without an equals sign set nothing |
| `ConfigStore.LoadAfterSave` | src/config/config_store.cpp:101-138 | loading a saved store on top of any settings sets every key so |
| `ConfigStore.SaveLoadRoundTrip` | src/config/config_store.cpp:101-138 | save and load restore the map if and only if all keys and values are well formed |
| `ConfigStore.ReloadRestores` | src/config/config_store.cpp:74-138 | a saved store loads back whole on top of the defaults it contains |
| `CsvExport.EscapeCsvField` | src/export/event_exporter.cpp:24-47 | quotes added exactly when needed, inner quotes doubled |
| `CsvExport.ExportToCsv` | src/export/event_exporter.cpp:74-107 | header and one row of ten fields per event |
| `CsvExport.ColumnsHold` | src/export/event_exporter.cpp:74-107 | each column holds what its heading says |
| `CsvExport.AttributesAre` | src/export/event_exporter.cpp:96-101 | `key=value` for each attribute in map order, joined by semicolons |
| `CsvExport.FieldReads` | src/export/event_exporter.cpp:24-47 | a decoder after RFC 4180, section 2, reads every written field as its value |
| `CsvExport.ExportDecodes` | src/export/event_exporter.cpp:74-107 | the whole file decodes to the header and one ten-field record per event, whatever quotes, commas or line breaks the values contain |

## Left out

- Operating-system probing, hashing, regular expressions, the polling monitors, GUI, command line, report texts, webhooks and updates: input and output around what is modelled.
- Whether a rule matches an event (categories, types, patterns, custom conditions) and the text of an alert message are parameters of the rule machines; `format_message` itself is modelled in `MessageFormat`.
- Characters stand for bytes; decoding of multi-byte text is not modelled.
- JSON numbers are kept as lexemes. Which lexemes `stod` accepts and how a parsed number is rendered are parameters, so comparisons of snapshots are up to rendering. The parser, like the code, ignores what follows the first value; bytes 0x80 and above are ordinary characters.
- Blocks of the writers that print fixed lines one after the other are written by a loop over a list of cells. Sections are captured data given as values.
- The rendering of a timestamp in local time is a parameter of both exports; `EventExport.ExportParses` takes it to need no escaping, which holds for the format string in the code, and `stod` to take the ids of the events exported, which holds for any 64-bit number.
- File errors, opening an open store, closing it, and reconfiguring rotation in the middle of a run. The query's category and source filters are ignored by the code, and so here.
- Clocks that go back: the results that need readings in order say so, the others hold for any readings.
- Changing the rules of the alert manager while threads are inside it; its enabling, clearing, acknowledging and callbacks.
- What the auditor's analysis finds in an ordinary event (lists of names, paths and ports) is a parameter of the engine; the callbacks are left out.
- `get_stats`, `top_sources` and `top_targets` (the first locks one mutex twice), rates and time series; the collector's start and update times.
- The reporter's payload, its timer and its transport; a send succeeds or fails by choice of the environment. `stop` is one more flush.
- Numeric and Boolean getters of the configuration store, and its file paths. Its default settings are a parameter.
- MessageFormat.FormatMessage: requires that the loops end, since the code need not. Which texts with two or more opening braces that both end in a beginning and start in an end of their placeholder, without holding it, make a loop end is not decided; `TwoSlotsNeverEnd` and `SourceLoops` show that some do not.
- MessageFormat.FormatSubstitutes: for all loops together the condition on the values is sufficient only; that it is also necessary is proved for each loop alone (`LoopSubstitutesIff`).
- MessageFormat.ThresholdEatsOne: speaks of one placeholder among brace-free text; clean substitution of the two threshold placeholders is not claimed since the code does not give it.
- AlertThreads.WindowBound: assumes that the alerts of the rule are committed in the order of their times, which the code can violate (`AlertSchedules.StaleTimeBreaksBound`); without that the exact bound is the one of `AlertStale.StaleBound`.
- AuditDecision.EveryDecisionInOrder: speaks of rules whose window was never shorter before; after a shorter window events may be gone that the new one would count, and `EveryDecision` says which.
- Unsigned wrap-around of counters and ids is not modelled: they are natural numbers.
