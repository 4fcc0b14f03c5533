# Pentaho Kettle: ten core classes, modelled and verified

This Dafny project models ten classes of the Pentaho Data Integration (Kettle)
engine and user interface, and proves what they promise:

- **AnalyticQuery** (`analytic_query.dfy`) is the "Analytic Query" transformation step.
  - It appends LEAD/LAG values to every row, within groups of consecutive rows whose group fields compare equal.
  - It does this through a bounded queue of `2 * window + 1` rows and a cursor.
  - `Step` is the step as a class. `AnalyticOutput` is the reference output, a closed form for each row.
  - `Step.Run` is proved to write exactly the reference output.
- **PgpDecryptFiles** (`pgp_decrypt_files.dfy`) is the "Decrypt files with PGP" job entry.
  - It covers the success conditions, the error/success counters and the early exit on a broken condition.
  - It covers the `execute` skeleton, the date-stamped destination names, and `allocate`/`clone`.
- **XmlInputField** (`xml_input_field.dfy`) is one field of the XML input step.
  - It covers trim-type codes, constructor defaults, `clone`, and the comma-separated position list with its round trip.
- **EncodingTypes** (`encoding_type.dfy`) holds the text-file input's three encodings.
  - It covers line-end recognition, the guess of the encoding from a charset name, and byte-order-mark removal.
- **NullIf** (`null_if_meta.dfy`) holds the "Null if" step's settings.
  - It covers the pairs, allocation, deep cloning, the empty-string rule and `check`.
- **OlapMatrix** (`matrix.dfy`) is the sparse grid of cells that the OLAP input fills.
- **Xslt** (`xslt_data.dfy`) is the XSLT step's cache of compiled style sheets.
- **DatabaseExplorer** (`database_explorer_model.dfy`) is the database explorer's tree and its depth-first `findBy`.
- **FileOpenSave** (`vfs_directory.dfy`) is a virtual-file-system folder entry of the open/save dialog.
  - It covers children, `equals`, the 32-bit `hashCode` and `create`.
- **RepositoryUser** (`user_info.dfy`) is a repository user record.

`java_lang.dfy` (**JavaLang**) holds the pieces of the Java platform that the models share:
- null as `Option`;
- the `int` range;
- `Utils.isEmpty`;
- `equalsIgnoreCase`;
- `Integer.parseInt` and `Const.toInt`.

Java `int` arithmetic is written out where it matters (`Wrap32` in `hashCode`, `InInt32` in `parseInt`). Java bytes are the signed `Byte` newtype. Strings are sequences of characters.

## Model

| member | source | states |
|---|---|---|
| JavaLang.ToInt | engine/src/main/java/org/pentaho/di/job/entries/pgpdecryptfiles/JobEntryPGPDecryptFiles.java:374 | `Const.toInt`: the parsed value when the text parses as an `int`, the default when it is null or does not parse |
| JavaLang.ParseInt | engine/src/main/java/org/pentaho/di/job/entries/pgpdecryptfiles/JobEntryPGPDecryptFiles.java:374 | a parsed value is always within the 32-bit `int` range and comes from non-empty text; text of ASCII digits parses, to its decimal value, exactly when that value fits |
| JavaLang.ParseIntRoundTrip | engine/src/main/java/org/pentaho/di/job/entries/pgpdecryptfiles/JobEntryPGPDecryptFiles.java:374 | every non-negative `int` written in decimal parses back to itself, so `toInt` returns it rather than the default |
| JavaLang.DigitsRoundTrip | engine/src/main/java/org/pentaho/di/job/entries/pgpdecryptfiles/JobEntryPGPDecryptFiles.java:374 | the decimal digits of n read back as n |
| JavaLang.EqualsIgnoreCaseEquivalence | plugins/xml-input/core/src/main/java/org/pentaho/di/trans/steps/xmlinput/XMLInputField.java:132-143 | comparing ignoring case is reflexive, symmetric and transitive |
| AnalyticQuery.IndexOfValue | plugins/core/impl/src/main/java/org/pentaho/di/trans/steps/analyticquery/AnalyticQuery.java:76-86 | `indexOfValue` is the first position holding the name, and -1 exactly when the name is absent |
| AnalyticQuery.GroupNrs | plugins/core/impl/src/main/java/org/pentaho/di/trans/steps/analyticquery/AnalyticQuery.java:76-86 | one position per group field, each a valid index into the row when every group field exists |
| AnalyticQuery.WindowSize | plugins/core/impl/src/main/java/org/pentaho/di/trans/steps/analyticquery/AnalyticQuery.java:88-96 | the window size bounds every configured offset and is 0 or one of them (the maximum, at least 0) |
| AnalyticQuery.RunStart | plugins/core/impl/src/main/java/org/pentaho/di/trans/steps/analyticquery/AnalyticQuery.java:110-113 | the start of a row's group never lies after the row |
| AnalyticQuery.RunEnd | plugins/core/impl/src/main/java/org/pentaho/di/trans/steps/analyticquery/AnalyticQuery.java:110-113 | the end of a row's group lies after the row and within the input |
| AnalyticQuery.RunEndBounds | plugins/core/impl/src/main/java/org/pentaho/di/trans/steps/analyticquery/AnalyticQuery.java:110-113 | a group is a maximal block of equal keys that ends at a key change or at the end of the input |
| AnalyticQuery.RunStartBounds | plugins/core/impl/src/main/java/org/pentaho/di/trans/steps/analyticquery/AnalyticQuery.java:110-113 | a group starts at the first row or at a key change, and every row in it has the same key |
| AnalyticQuery.SameRun | plugins/core/impl/src/main/java/org/pentaho/di/trans/steps/analyticquery/AnalyticQuery.java:110-113 | every row between a group's start and one of its rows has the same group bounds |
| AnalyticQuery.SameGroup | plugins/core/impl/src/main/java/org/pentaho/di/trans/steps/analyticquery/AnalyticQuery.java:210-217 | false without a previous row; otherwise true exactly when, for every group field, the two rows' values have the same normal form (`compare == 0`) |
| AnalyticQuery.SameGroupKey | plugins/core/impl/src/main/java/org/pentaho/di/trans/steps/analyticquery/AnalyticQuery.java:210-217 | `sameGroup(previous, r)` is false for the first row and otherwise holds exactly when every group field of the two rows compares equal (`compare == 0`, through the column normal form) |
| AnalyticQuery.WindowCovers | plugins/core/impl/src/main/java/org/pentaho/di/trans/steps/analyticquery/AnalyticQuery.java:115-119 | when a row is emitted, the queue holds the row and every row of its group at most window-size away |
| AnalyticQuery.GroupWindow | plugins/core/impl/src/main/java/org/pentaho/di/trans/steps/analyticquery/AnalyticQuery.java:115-119 | the queue held when a row is emitted is a stretch of its own group that contains it |
| AnalyticQuery.GroupWindowCovers | plugins/core/impl/src/main/java/org/pentaho/di/trans/steps/analyticquery/AnalyticQuery.java:174-195 | that stretch reaches every row of the group that a LAG or LEAD of at most window-size rows can read |
| AnalyticQuery.WindowOf | plugins/core/impl/src/main/java/org/pentaho/di/trans/steps/analyticquery/AnalyticQuery.java:115-119 | the input rows queued when row i is emitted lie within i's group and include i |
| AnalyticQuery.AlignedFrom | plugins/core/impl/src/main/java/org/pentaho/di/trans/steps/analyticquery/AnalyticQuery.java:115-119 | the window of a row is fixed by the bounds of its group |
| AnalyticQuery.AnalyticOutput | plugins/core/impl/src/main/java/org/pentaho/di/trans/steps/analyticquery/AnalyticQuery.java:163-202 | the reference output has exactly one row per input row |
| AnalyticQuery.OutputPrefix | plugins/core/impl/src/main/java/org/pentaho/di/trans/steps/analyticquery/AnalyticQuery.java:163-202 | the output for the first n rows has n rows |
| AnalyticQuery.OutputAt | plugins/core/impl/src/main/java/org/pentaho/di/trans/steps/analyticquery/AnalyticQuery.java:198-200 | output row i is the reference row of input row i |
| AnalyticQuery.OutputRows | plugins/core/impl/src/main/java/org/pentaho/di/trans/steps/analyticquery/AnalyticQuery.java:198-200 | each output row is its input row followed by one value per computed field |
| AnalyticQuery.ValueFromSameGroup | plugins/core/impl/src/main/java/org/pentaho/di/trans/steps/analyticquery/AnalyticQuery.java:184-195 | a non-null LEAD/LAG value is always the subject field of a row of the same group |
| AnalyticQuery.SpecValueInGroup | plugins/core/impl/src/main/java/org/pentaho/di/trans/steps/analyticquery/AnalyticQuery.java:174-195 | for a non-negative offset, the value is the target row's subject when the target lies in the group, else null |
| AnalyticQuery.LagWithinGroup | plugins/core/impl/src/main/java/org/pentaho/di/trans/steps/analyticquery/AnalyticQuery.java:175-177 | LAG k is the subject value k rows earlier in the same group, and null when the group has no such row |
| AnalyticQuery.LeadWithinGroup | plugins/core/impl/src/main/java/org/pentaho/di/trans/steps/analyticquery/AnalyticQuery.java:178-180 | LEAD k is the subject value k rows later in the same group, and null when the group has no such row |
| AnalyticQuery.ValueAlignment | plugins/core/impl/src/main/java/org/pentaho/di/trans/steps/analyticquery/AnalyticQuery.java:184-195 | when the queue holds a row's window, its queue-relative value is the reference value |
| AnalyticQuery.WindowAlignment | plugins/core/impl/src/main/java/org/pentaho/di/trans/steps/analyticquery/AnalyticQuery.java:163-202 | when the queue holds a row's window, `processQueueObjectAt` puts the reference row |
| AnalyticQuery.SliceShaped | plugins/core/impl/src/main/java/org/pentaho/di/trans/steps/analyticquery/AnalyticQuery.java:115-119 | a queue made of input rows has rows of the input's shape |
| AnalyticQuery.EmitsMatch | plugins/core/impl/src/main/java/org/pentaho/di/trans/steps/analyticquery/AnalyticQuery.java:157-159 | a run of queue positions whose windows are the queue emits the matching slice of the reference output |
| AnalyticQuery.BurstEmits | plugins/core/impl/src/main/java/org/pentaho/di/trans/steps/analyticquery/AnalyticQuery.java:138-142 | when the queue first fills, its first window+1 rows are emitted as the reference rows |
| AnalyticQuery.SteadyEmit | plugins/core/impl/src/main/java/org/pentaho/di/trans/steps/analyticquery/AnalyticQuery.java:143-145 | afterwards, each full queue emits its middle row as the next reference row |
| AnalyticQuery.BurstWindow | plugins/core/impl/src/main/java/org/pentaho/di/trans/steps/analyticquery/AnalyticQuery.java:138-142 | at the first fill, each of the first window+1 rows has the whole queue as its window |
| AnalyticQuery.SteadyWindow | plugins/core/impl/src/main/java/org/pentaho/di/trans/steps/analyticquery/AnalyticQuery.java:143-145 | later, the row window places behind the newest one has the whole queue as its window |
| AnalyticQuery.ClosingWindow | plugins/core/impl/src/main/java/org/pentaho/di/trans/steps/analyticquery/AnalyticQuery.java:149-161 | when a group ends, each row not yet emitted has the remaining queue as its window |
| AnalyticQuery.ClearEmits | plugins/core/impl/src/main/java/org/pentaho/di/trans/steps/analyticquery/AnalyticQuery.java:149-161 | `clearQueue` at a group's end emits exactly the group's remaining reference rows |
| AnalyticQuery.ClearCount | plugins/core/impl/src/main/java/org/pentaho/di/trans/steps/analyticquery/AnalyticQuery.java:149-161 | the cursor never passes the queue's end and counts the rows already emitted |
| AnalyticQuery.ClosingAligned | plugins/core/impl/src/main/java/org/pentaho/di/trans/steps/analyticquery/AnalyticQuery.java:149-161 | a row still queued when its group ends has the queue as its window |
| AnalyticQuery.ExtendGroup | plugins/core/impl/src/main/java/org/pentaho/di/trans/steps/analyticquery/AnalyticQuery.java:110-115 | a row with the previous row's key keeps the group open |
| AnalyticQuery.CloseGroup | plugins/core/impl/src/main/java/org/pentaho/di/trans/steps/analyticquery/AnalyticQuery.java:104-113 | a key change, or the end of input, closes the open group |
| AnalyticQuery.NewGroup | plugins/core/impl/src/main/java/org/pentaho/di/trans/steps/analyticquery/AnalyticQuery.java:110-113 | the first row, or a row whose key differs from the one before, opens a group |
| AnalyticQuery.DueRows | plugins/core/impl/src/main/java/org/pentaho/di/trans/steps/analyticquery/AnalyticQuery.java:133-147 | after a row joins its group, `processQueue` puts exactly the reference rows that have become due |
| AnalyticQuery.QueueAdvance | plugins/core/impl/src/main/java/org/pentaho/di/trans/steps/analyticquery/AnalyticQuery.java:115-123 | adding a row and running `processQueue` keeps the queue/cursor/output invariant |
| AnalyticQuery.FlushState | plugins/core/impl/src/main/java/org/pentaho/di/trans/steps/analyticquery/AnalyticQuery.java:149-161 | flushing an ended group completes the reference output up to that point |
| AnalyticQuery.FreshState | plugins/core/impl/src/main/java/org/pentaho/di/trans/steps/analyticquery/AnalyticQuery.java:204-207 | a new group with an empty queue and cursor 0 satisfies the invariant |
| AnalyticQuery.Step.constructor | plugins/core/impl/src/main/java/org/pentaho/di/trans/steps/analyticquery/AnalyticQuery.java:43-49 | a step over the given metadata and input, not yet started: nothing read, nothing output, first row pending, and the step invariant holds |
| AnalyticQuery.Step.ProcessQueueObjectAt | plugins/core/impl/src/main/java/org/pentaho/di/trans/steps/analyticquery/AnalyticQuery.java:163-202 | puts one row: the queue row at pos-1 with its LEAD/LAG values read from inside the queue, null outside it; when a field whose subject is not in the row metadata would read a queued row, it throws (ArrayIndexOutOfBoundsException) and puts nothing |
| AnalyticQuery.Step.ProcessQueue | plugins/core/impl/src/main/java/org/pentaho/di/trans/steps/analyticquery/AnalyticQuery.java:133-147 | with a full queue, brings the cursor up to window+1 or emits the middle row; otherwise puts nothing |
| AnalyticQuery.Step.ClearQueue | plugins/core/impl/src/main/java/org/pentaho/di/trans/steps/analyticquery/AnalyticQuery.java:149-161 | puts every queue row from the cursor to the end, in order |
| AnalyticQuery.Step.ResetGroup | plugins/core/impl/src/main/java/org/pentaho/di/trans/steps/analyticquery/AnalyticQuery.java:204-207 | an empty queue and a zero cursor |
| AnalyticQuery.Step.Configure | plugins/core/impl/src/main/java/org/pentaho/di/trans/steps/analyticquery/AnalyticQuery.java:58-101 | succeeds exactly when every group field exists, setting positions, window and queue size; otherwise one error and the step stops |
| AnalyticQuery.Step.Enqueue | plugins/core/impl/src/main/java/org/pentaho/di/trans/steps/analyticquery/AnalyticQuery.java:115-119 | after the add and the polls, the queue holds the group's last rows, never more than the queue size |
| AnalyticQuery.Step.AddRow | plugins/core/impl/src/main/java/org/pentaho/di/trans/steps/analyticquery/AnalyticQuery.java:115-123 | enqueue, remember the row as previous, emit what is due, and keep the invariant |
| AnalyticQuery.Step.Finish | plugins/core/impl/src/main/java/org/pentaho/di/trans/steps/analyticquery/AnalyticQuery.java:104-107 | at the end of input the output is the complete reference output |
| AnalyticQuery.Step.CheckGroup | plugins/core/impl/src/main/java/org/pentaho/di/trans/steps/analyticquery/AnalyticQuery.java:110-113 | on a group change the old group is flushed and a new queue is started; either way the row's group is open |
| AnalyticQuery.Step.StartGroup | plugins/core/impl/src/main/java/org/pentaho/di/trans/steps/analyticquery/AnalyticQuery.java:110-113 | the old group is flushed in full and the new group starts at the current row |
| AnalyticQuery.Step.Handle | plugins/core/impl/src/main/java/org/pentaho/di/trans/steps/analyticquery/AnalyticQuery.java:103-130 | on null, flush and signal output done (returns false); otherwise take the row (returns true) |
| AnalyticQuery.Step.ProcessRow | plugins/core/impl/src/main/java/org/pentaho/di/trans/steps/analyticquery/AnalyticQuery.java:52-131 | one call keeps the step's invariant; returning true means one more row was read |
| AnalyticQuery.Step.Run | plugins/core/impl/src/main/java/org/pentaho/di/trans/steps/analyticquery/AnalyticQuery.java:52-131 | calling `processRow` until false writes exactly the reference output; with a missing group field, one error and nothing written |
| PgpDecryptFiles.SuccessStatus | engine/src/main/java/org/pentaho/di/job/entries/pgpdecryptfiles/JobEntryPGPDecryptFiles.java:549-559 | "no errors" succeeds exactly at zero errors, "at least n files" exactly at successes >= n, "errors less than n" exactly at errors <= n; any other condition fails |
| PgpDecryptFiles.ConditionBroken | engine/src/main/java/org/pentaho/di/job/entries/pgpdecryptfiles/JobEntryPGPDecryptFiles.java:1012-1019 | "no errors" breaks exactly at any error, "errors less than n" exactly at errors >= n; no other condition breaks |
| PgpDecryptFiles.NoErrorsBrokenIffFailing | engine/src/main/java/org/pentaho/di/job/entries/pgpdecryptfiles/JobEntryPGPDecryptFiles.java:549-559 | under "no errors", the condition is broken exactly when the entry would fail |
| PgpDecryptFiles.ErrorsLessBoundary | engine/src/main/java/org/pentaho/di/job/entries/pgpdecryptfiles/JobEntryPGPDecryptFiles.java:1012-1019 | under "errors less than", the condition breaks at errors >= limit but success needs only errors <= limit, so at errors == limit both hold |
| PgpDecryptFiles.AtLeastNeverBroken | engine/src/main/java/org/pentaho/di/job/entries/pgpdecryptfiles/JobEntryPGPDecryptFiles.java:1012-1019 | the "at least n files" condition never breaks early |
| PgpDecryptFiles.Apply | engine/src/main/java/org/pentaho/di/job/entries/pgpdecryptfiles/JobEntryPGPDecryptFiles.java:1004-1023 | a success adds one success; an error adds one error and re-checks the condition; a broken condition stays broken |
| PgpDecryptFiles.CountOf | engine/src/main/java/org/pentaho/di/job/entries/pgpdecryptfiles/JobEntryPGPDecryptFiles.java:1004-1023 | the number of events of one kind never exceeds the number of events |
| PgpDecryptFiles.ApplyAllCounts | engine/src/main/java/org/pentaho/di/job/entries/pgpdecryptfiles/JobEntryPGPDecryptFiles.java:1004-1023 | after a sequence of events, errors and successes grow by the number of each, and a broken condition stays broken |
| PgpDecryptFiles.RowStep | engine/src/main/java/org/pentaho/di/job/entries/pgpdecryptfiles/JobEntryPGPDecryptFiles.java:459-509 | a processed row adds its success events to the successes, its error events plus one for a failed status to the errors, and a broken condition stays broken |
| PgpDecryptFiles.SkippedRow | engine/src/main/java/org/pentaho/di/job/entries/pgpdecryptfiles/JobEntryPGPDecryptFiles.java:437-476 | a row without source or destination changes no counter |
| PgpDecryptFiles.RunFrom | engine/src/main/java/org/pentaho/di/job/entries/pgpdecryptfiles/JobEntryPGPDecryptFiles.java:437-518 | the argument loop exits early only with a broken condition |
| PgpDecryptFiles.Zip | engine/src/main/java/org/pentaho/di/job/entries/pgpdecryptfiles/JobEntryPGPDecryptFiles.java:482-518 | the configured arrays give one (source, destination) row per source index, when the destination array is at least as long |
| PgpDecryptFiles.Arguments | engine/src/main/java/org/pentaho/di/job/entries/pgpdecryptfiles/JobEntryPGPDecryptFiles.java:429-518 | the rows the loop walks and how many: the previous result rows when arguments come from them, else one (source, destination) row per source index, walked up to the iteration at which the job is stopped and never past the last row; none exactly when there is no loop |
| PgpDecryptFiles.ExecuteResult | engine/src/main/java/org/pentaho/di/job/entries/pgpdecryptfiles/JobEntryPGPDecryptFiles.java:362-538 | a failed check of the move-to folder gives one error and a failure; a success always satisfies the success condition; without arguments nothing is counted and the result is the success condition at zero |
| PgpDecryptFiles.NoErrorsLoop | engine/src/main/java/org/pentaho/di/job/entries/pgpdecryptfiles/JobEntryPGPDecryptFiles.java:437-518 | under "no errors", the loop keeps "broken exactly when some error was counted" |
| PgpDecryptFiles.NoErrorsEvents | engine/src/main/java/org/pentaho/di/job/entries/pgpdecryptfiles/JobEntryPGPDecryptFiles.java:1004-1019 | the same invariant across the events of one file or folder |
| PgpDecryptFiles.NoErrorsExecute | engine/src/main/java/org/pentaho/di/job/entries/pgpdecryptfiles/JobEntryPGPDecryptFiles.java:362-538 | under "no errors", `execute` succeeds exactly when it reports zero errors |
| PgpDecryptFiles.BrokenFails | engine/src/main/java/org/pentaho/di/job/entries/pgpdecryptfiles/JobEntryPGPDecryptFiles.java:437-525 | a run that leaves the loop on a broken condition fails and writes no result lines |
| PgpDecryptFiles.LastIndexOf | engine/src/main/java/org/pentaho/di/job/entries/pgpdecryptfiles/JobEntryPGPDecryptFiles.java:1108-1146 | `lastIndexOf` is -1 exactly when the character is absent, else its last position |
| PgpDecryptFiles.ExtensionStart | engine/src/main/java/org/pentaho/di/job/entries/pgpdecryptfiles/JobEntryPGPDecryptFiles.java:1108-1146 | the extension starts at the last "." or, without one, at the end of the name |
| PgpDecryptFiles.Stamped | engine/src/main/java/org/pentaho/di/job/entries/pgpdecryptfiles/JobEntryPGPDecryptFiles.java:1108-1146 | the stamp goes before the extension or at the end of the name, as configured |
| PgpDecryptFiles.DestinationFilename | engine/src/main/java/org/pentaho/di/job/entries/pgpdecryptfiles/JobEntryPGPDecryptFiles.java:1108-1146 | with no date, time or format requested, the name is unchanged wherever the stamp would go |
| PgpDecryptFiles.MoveDestinationFilename | engine/src/main/java/org/pentaho/di/job/entries/pgpdecryptfiles/JobEntryPGPDecryptFiles.java:1148-1191 | a given date format stamps the name with it; otherwise the name is built like the destination name |
| PgpDecryptFiles.ExtensionKept | engine/src/main/java/org/pentaho/di/job/entries/pgpdecryptfiles/JobEntryPGPDecryptFiles.java:1108-1146 | stamping before the extension keeps the stem and the extension around the stamp |
| PgpDecryptFiles.DecryptFilesEntry.constructor | engine/src/main/java/org/pentaho/di/job/entries/pgpdecryptfiles/JobEntryPGPDecryptFiles.java:110-139 | the defaults: "no errors" condition, limit "10", "do_nothing", no arrays, zero counters |
| PgpDecryptFiles.DecryptFilesEntry.Allocate | engine/src/main/java/org/pentaho/di/job/entries/pgpdecryptfiles/JobEntryPGPDecryptFiles.java:145-150 | four fresh arrays of the given size, all null |
| PgpDecryptFiles.DecryptFilesEntry.CopyOf | engine/src/main/java/org/pentaho/di/job/entries/pgpdecryptfiles/JobEntryPGPDecryptFiles.java:152-163 | a fresh array holding the first n entries |
| PgpDecryptFiles.DecryptFilesEntry.Copy | engine/src/main/java/org/pentaho/di/job/entries/pgpdecryptfiles/JobEntryPGPDecryptFiles.java:152-163 | the copy has the settings and counters of the original and the given arrays |
| PgpDecryptFiles.DecryptFilesEntry.Clone | engine/src/main/java/org/pentaho/di/job/entries/pgpdecryptfiles/JobEntryPGPDecryptFiles.java:152-163 | a new entry with the same settings and counters; with a source array, fresh copies of the four arrays cut to its length; without one, the other arrays are shared |
| PgpDecryptFiles.DecryptFilesEntry.UpdateErrors | engine/src/main/java/org/pentaho/di/job/entries/pgpdecryptfiles/JobEntryPGPDecryptFiles.java:1004-1019 | one more error, and the condition re-checked |
| PgpDecryptFiles.DecryptFilesEntry.UpdateSuccess | engine/src/main/java/org/pentaho/di/job/entries/pgpdecryptfiles/JobEntryPGPDecryptFiles.java:1021-1023 | one more success |
| PgpDecryptFiles.DecryptFilesEntry.ApplyEvents | engine/src/main/java/org/pentaho/di/job/entries/pgpdecryptfiles/JobEntryPGPDecryptFiles.java:1004-1023 | the counters after a sequence of events are the fold `ApplyAll` |
| PgpDecryptFiles.DecryptFilesEntry.RunArguments | engine/src/main/java/org/pentaho/di/job/entries/pgpdecryptfiles/JobEntryPGPDecryptFiles.java:437-518 | the loop's counters and early exit are those of `RunFrom` |
| PgpDecryptFiles.DecryptFilesEntry.Execute | engine/src/main/java/org/pentaho/di/job/entries/pgpdecryptfiles/JobEntryPGPDecryptFiles.java:362-538 | when the destination array covers the source array, the result is `ExecuteResult` of the settings; the limit is `toInt(limit, 10)`; the source and destination arrays are cleared |
| XmlInputField.TrimTypeFrom | plugins/xml-input/core/src/main/java/org/pentaho/di/trans/steps/xmlinput/XMLInputField.java:132-143 | the first code at or after a position that matches ignoring case, else 0 |
| XmlInputField.TrimTypeByCode | plugins/xml-input/core/src/main/java/org/pentaho/di/trans/steps/xmlinput/XMLInputField.java:132-143 | null gives "none"; otherwise the index of the matching code, or 0 when none matches |
| XmlInputField.TrimTypeCode | plugins/xml-input/core/src/main/java/org/pentaho/di/trans/steps/xmlinput/XMLInputField.java:158-163 | the code of a valid index, else "none" |
| XmlInputField.CodesDistinct | plugins/xml-input/core/src/main/java/org/pentaho/di/trans/steps/xmlinput/XMLInputField.java:39 | no two trim-type codes are equal ignoring case |
| XmlInputField.TrimTypeRoundTrip | plugins/xml-input/core/src/main/java/org/pentaho/di/trans/steps/xmlinput/XMLInputField.java:132-163 | reading back a trim type's code, in any letter case, gives the trim type |
| XmlInputField.Join | plugins/xml-input/core/src/main/java/org/pentaho/di/trans/steps/xmlinput/XMLInputField.java:309-321 | one code is written as itself, without separator |
| XmlInputField.Pieces | plugins/xml-input/core/src/main/java/org/pentaho/di/trans/steps/xmlinput/XMLInputField.java:328 | cutting at "," gives at least one piece |
| XmlInputField.DropTrailingEmpty | plugins/xml-input/core/src/main/java/org/pentaho/di/trans/steps/xmlinput/XMLInputField.java:328 | a prefix of the pieces that does not end in an empty piece |
| XmlInputField.Split | plugins/xml-input/core/src/main/java/org/pentaho/di/trans/steps/xmlinput/XMLInputField.java:328 | `split(",")` of text without a comma is the text itself |
| XmlInputField.PiecesOfJoin | plugins/xml-input/core/src/main/java/org/pentaho/di/trans/steps/xmlinput/XMLInputField.java:309-328 | cutting joined comma-free codes gives them back |
| XmlInputField.PiecesOfPlain | plugins/xml-input/core/src/main/java/org/pentaho/di/trans/steps/xmlinput/XMLInputField.java:328 | a comma-free text is one piece |
| XmlInputField.PiecesAppend | plugins/xml-input/core/src/main/java/org/pentaho/di/trans/steps/xmlinput/XMLInputField.java:314-317 | appending a comma and a comma-free code adds exactly that piece |
| XmlInputField.SplitJoin | plugins/xml-input/core/src/main/java/org/pentaho/di/trans/steps/xmlinput/XMLInputField.java:309-337 | `split` undoes the join when the codes are comma-free and the last is not empty |
| XmlInputField.EmptyListEncoding | plugins/xml-input/core/src/main/java/org/pentaho/di/trans/steps/xmlinput/XMLInputField.java:309-337 | an empty list is written as "", which reads back as one empty code |
| XmlInputField.Codes | plugins/xml-input/core/src/main/java/org/pentaho/di/trans/steps/xmlinput/XMLInputField.java:312-318 | one code per position, each the position's text |
| XmlInputField.PositionsRoundTrip | plugins/xml-input/core/src/main/java/org/pentaho/di/trans/steps/xmlinput/XMLInputField.java:309-337 | writing positions out and reading them back gives the same positions |
| XmlInputField.XmlInputField.constructor | plugins/xml-input/core/src/main/java/org/pentaho/di/trans/steps/xmlinput/XMLInputField.java:64-76 | the given name and positions; length and precision -1, string type, no trimming, empty format and symbols, not repeated |
| XmlInputField.XmlInputField.FlipRepeated | plugins/xml-input/core/src/main/java/org/pentaho/di/trans/steps/xmlinput/XMLInputField.java:305-307 | the repeat flag is negated |
| XmlInputField.XmlInputField.TrimTypeCodeOfField | plugins/xml-input/core/src/main/java/org/pentaho/di/trans/steps/xmlinput/XMLInputField.java:158-163 | the field's trim type always has a code from the list |
| XmlInputField.XmlInputField.SetTrimTypeByCode | plugins/xml-input/core/src/main/java/org/pentaho/di/trans/steps/xmlinput/XMLInputField.java:132-143 | the stored trim type is the one read from the code, always a valid index |
| XmlInputField.XmlInputField.GetFieldPositionsCode | plugins/xml-input/core/src/main/java/org/pentaho/di/trans/steps/xmlinput/XMLInputField.java:309-321 | the positions' texts joined with "," |
| XmlInputField.XmlInputField.SetFieldPosition | plugins/xml-input/core/src/main/java/org/pentaho/di/trans/steps/xmlinput/XMLInputField.java:326-337 | a new array with one position per piece; null text or a bad piece is an error that leaves the pieces parsed before it |
| XmlInputField.XmlInputField.Clone | plugins/xml-input/core/src/main/java/org/pentaho/di/trans/steps/xmlinput/XMLInputField.java:172-188 | the same settings with a fresh copy of the position array |
| XmlInputField.XmlInputField.Copy | plugins/xml-input/core/src/main/java/org/pentaho/di/trans/steps/xmlinput/XMLInputField.java:172-188 | the copy has every setting of the original and the given position array |
| EncodingTypes.EncodingType.Length | engine/src/main/java/org/pentaho/di/trans/steps/textfileinput/EncodingType.java:27-28 | one or two bytes per character |
| EncodingTypes.EncodingType.Bom | engine/src/main/java/org/pentaho/di/trans/steps/textfileinput/EncodingType.java:27-28 | no mark for the one-byte type; U+FEFF for big-endian, and its byte swap for little-endian |
| EncodingTypes.EncodingType.CarriageReturnChar | engine/src/main/java/org/pentaho/di/trans/steps/textfileinput/EncodingType.java:27-28 | '\r', byte-swapped for the little-endian type |
| EncodingTypes.EncodingType.LineFeedChar | engine/src/main/java/org/pentaho/di/trans/steps/textfileinput/EncodingType.java:27-28 | '\n', byte-swapped for the little-endian type |
| EncodingTypes.EncodingType.IsReturn | engine/src/main/java/org/pentaho/di/trans/steps/textfileinput/EncodingType.java:68-70 | a plain '\r', or for the little-endian type also its byte swap |
| EncodingTypes.EncodingType.IsLinefeed | engine/src/main/java/org/pentaho/di/trans/steps/textfileinput/EncodingType.java:72-74 | a plain '\n', or for the little-endian type also its byte swap |
| EncodingTypes.LineEnds | engine/src/main/java/org/pentaho/di/trans/steps/textfileinput/EncodingType.java:68-74 | which codes count as carriage return and line feed for each type, and that no code is both |
| EncodingTypes.GuessEncodingType | engine/src/main/java/org/pentaho/di/trans/steps/textfileinput/EncodingType.java:76-93 | empty gives one byte; a "UnicodeBig" prefix, UTF-16 and UTF-16BE give big-endian; a "UnicodeLittle" prefix and UTF-16LE give little-endian; every other name gives one byte |
| EncodingTypes.GuessTwoBytes | engine/src/main/java/org/pentaho/di/trans/steps/textfileinput/EncodingType.java:76-93 | a two-byte type is chosen exactly for the UnicodeBig/UnicodeLittle and UTF-16 names |
| EncodingTypes.IndexOf | engine/src/main/java/org/pentaho/di/trans/steps/textfileinput/EncodingType.java:99 | the first position of a character that occurs |
| EncodingTypes.RemoveBomIfPresent | engine/src/main/java/org/pentaho/di/trans/steps/textfileinput/EncodingType.java:95-100 | null stays null; the first U+FEFF, wherever it is, is removed; text without one is unchanged |
| EncodingTypes.RemoveLeadingBom | engine/src/main/java/org/pentaho/di/trans/steps/textfileinput/EncodingType.java:95-100 | a leading mark is removed exactly, and removal is idempotent on such text |
| EncodingTypes.StripBom | engine/src/main/java/org/pentaho/di/trans/steps/textfileinput/EncodingType.java:110-128 | the bytes unchanged, or all but the first two |
| EncodingTypes.StripBomRemovesMark | engine/src/main/java/org/pentaho/di/trans/steps/textfileinput/EncodingType.java:113-125 | a two-byte type drops either byte-order mark and keeps the content; the one-byte type keeps everything |
| EncodingTypes.StripBomAnyHighPair | engine/src/main/java/org/pentaho/di/trans/steps/textfileinput/EncodingType.java:117 | any two leading negative bytes are dropped, mark or not |
| EncodingTypes.GetBytes | engine/src/main/java/org/pentaho/di/trans/steps/textfileinput/EncodingType.java:102-129 | the result is `StripBom` of the encoded bytes: the encoded array itself, or a fresh one two bytes shorter |
| NullIf.Field.constructor | engine/src/main/java/org/pentaho/di/trans/steps/nullif/NullIfMeta.java:55-60 | a pair with null name and null value, the Java field defaults |
| NullIf.Field.SetFieldValue | engine/src/main/java/org/pentaho/di/trans/steps/nullif/NullIfMeta.java:88-93 | the stored value is `StoredValue` of the given value and the system setting |
| NullIf.Field.SetFieldName | engine/src/main/java/org/pentaho/di/trans/steps/nullif/NullIfMeta.java:73-75 | the stored name is the one given |
| NullIf.Field.Clone | engine/src/main/java/org/pentaho/di/trans/steps/nullif/NullIfMeta.java:95-101 | a new pair with the same name and value |
| NullIf.StoredValue | engine/src/main/java/org/pentaho/di/trans/steps/nullif/NullIfMeta.java:88-93 | a non-null value is kept; null becomes "" exactly when empty strings differ from null |
| NullIf.StoredValueIdempotent | engine/src/main/java/org/pentaho/di/trans/steps/nullif/NullIfMeta.java:88-93 | storing a stored value again changes nothing |
| NullIf.CheckRemarks | engine/src/main/java/org/pentaho/di/trans/steps/nullif/NullIfMeta.java:231-259 | two remarks: a warning when no fields arrive, else OK; OK with input streams, else an error |
| NullIf.CheckErrorsOnlyForInput | engine/src/main/java/org/pentaho/di/trans/steps/nullif/NullIfMeta.java:231-259 | `check` reports an error exactly when no step sends input, never about the fields |
| NullIf.NullIfMeta.constructor | engine/src/main/java/org/pentaho/di/trans/steps/nullif/NullIfMeta.java:107-109 | no field array yet (null) |
| NullIf.NullIfMeta.Allocate | engine/src/main/java/org/pentaho/di/trans/steps/nullif/NullIfMeta.java:123-128 | a fresh array of count fresh, distinct pairs with null name and value |
| NullIf.NullIfMeta.SetDefault | engine/src/main/java/org/pentaho/di/trans/steps/nullif/NullIfMeta.java:162-171 | no pairs at all |
| NullIf.NullIfMeta.Clone | engine/src/main/java/org/pentaho/di/trans/steps/nullif/NullIfMeta.java:130-141 | as many pairs, each a fresh copy of the original at the same position |
| NullIf.NullIfMeta.Check | engine/src/main/java/org/pentaho/di/trans/steps/nullif/NullIfMeta.java:231-259 | appends exactly `CheckRemarks` and keeps the earlier remarks |
| OlapMatrix.Matrix.constructor | engine/src/main/java/org/pentaho/di/trans/steps/olapinput/olap4jhelper/Matrix.java:23-32 | an empty 0-by-0 grid with offset 0 |
| OlapMatrix.Matrix.Sized | engine/src/main/java/org/pentaho/di/trans/steps/olapinput/olap4jhelper/Matrix.java:42-45 | an empty grid of the given size |
| OlapMatrix.Matrix.Get | engine/src/main/java/org/pentaho/di/trans/steps/olapinput/olap4jhelper/Matrix.java:96-98 | the stored cell, or null exactly when nothing is stored there |
| OlapMatrix.Matrix.Set | engine/src/main/java/org/pentaho/di/trans/steps/olapinput/olap4jhelper/Matrix.java:61-85 | reading back gives the cell, other coordinates are unchanged, and in-range stores keep every cell in bounds |
| OlapMatrix.Matrix.SetOffset | engine/src/main/java/org/pentaho/di/trans/steps/olapinput/olap4jhelper/Matrix.java:133-147 | `getOffset` returns the offset set |
| OlapMatrix.Matrix.MatrixWidth | engine/src/main/java/org/pentaho/di/trans/steps/olapinput/olap4jhelper/Matrix.java:105-107 | the width; in a valid grid every stored cell's x lies in [0, width) |
| OlapMatrix.Matrix.MatrixHeight | engine/src/main/java/org/pentaho/di/trans/steps/olapinput/olap4jhelper/Matrix.java:114-116 | the height; in a valid grid every stored cell's y lies in [0, height) |
| OlapMatrix.Matrix.GetOffset | engine/src/main/java/org/pentaho/di/trans/steps/olapinput/olap4jhelper/Matrix.java:144-147 | the offset field, which is what `setOffset` stored last |
| Xslt.Transformer.ClearParameters | plugins/xml/core/src/main/java/org/pentaho/di/trans/steps/xslt/XsltData.java:72 | the transformer has no parameters left |
| Xslt.Transformer.SetParameter | plugins/xml/core/src/main/java/org/pentaho/di/trans/steps/xslt/XsltData.java:69-77 | the parameter map gains or replaces exactly that one entry |
| Xslt.XsltData.constructor | plugins/xml/core/src/main/java/org/pentaho/di/trans/steps/xslt/XsltData.java:58-67 | positions -1, no file name, an empty cache, no parameters |
| Xslt.XsltData.CreateNewTemplate | plugins/xml/core/src/main/java/org/pentaho/di/trans/steps/xslt/XsltData.java:79-108 | a compiled transformer is cached under its source; a failure leaves the cache unchanged |
| Xslt.XsltData.GetTemplate | plugins/xml/core/src/main/java/org/pentaho/di/trans/steps/xslt/XsltData.java:69-77 | a cached transformer is returned with its parameters cleared and the cache unchanged; on a miss a compiled transformer is cached under that name, and a failed compile changes nothing; the parameters of every other cached transformer are untouched |
| Xslt.XsltData.Dispose | plugins/xml/core/src/main/java/org/pentaho/di/trans/steps/xslt/XsltData.java:110-115 | cache, factory, output metadata and properties are dropped |
| DatabaseExplorer.DrillDown | ui/src/main/java/org/pentaho/di/ui/core/database/dialog/XulDatabaseExplorerModel.java:75-96 | a node that is found always matches the request |
| DatabaseExplorer.FirstMatch | ui/src/main/java/org/pentaho/di/ui/core/database/dialog/XulDatabaseExplorerModel.java:77-94 | the first matching node of a list, and none exactly when no node matches |
| DatabaseExplorer.FirstMatchAppend | ui/src/main/java/org/pentaho/di/ui/core/database/dialog/XulDatabaseExplorerModel.java:77-94 | the first match of a concatenation is in the first part if there is one there |
| DatabaseExplorer.DrillDownIsFirstInPreOrder | ui/src/main/java/org/pentaho/di/ui/core/database/dialog/XulDatabaseExplorerModel.java:75-96 | `drillDown` returns the first match in pre-order: a node before its children, siblings in order, null entries skipped |
| DatabaseExplorer.DatabaseExplorerModel.constructor | ui/src/main/java/org/pentaho/di/ui/core/database/dialog/XulDatabaseExplorerModel.java:30-33 | a root node without children and no selection |
| DatabaseExplorer.DatabaseExplorerModel.FindBy | ui/src/main/java/org/pentaho/di/ui/core/database/dialog/XulDatabaseExplorerModel.java:70-73 | a found node matches and is in the tree; null exactly when no node of the tree matches |
| DatabaseExplorer.DatabaseExplorerModel.GetTable | ui/src/main/java/org/pentaho/di/ui/core/database/dialog/XulDatabaseExplorerModel.java:47-52 | the selected node's name exactly when it is a table, else null |
| DatabaseExplorer.DatabaseExplorerModel.GetSchema | ui/src/main/java/org/pentaho/di/ui/core/database/dialog/XulDatabaseExplorerModel.java:54-59 | null when nothing is selected, else the selected node's schema |
| DatabaseExplorer.DatabaseExplorerModel.SetSelectedNode | ui/src/main/java/org/pentaho/di/ui/core/database/dialog/XulDatabaseExplorerModel.java:103-111 | the selection is replaced and the tree is unchanged |
| DatabaseExplorer.DatabaseExplorerModel.SetDatabase | ui/src/main/java/org/pentaho/di/ui/core/database/dialog/XulDatabaseExplorerModel.java:43-45 | the tree is the one given |
| FileOpenSave.Wrap32 | plugins/file-open-save-new/core/src/main/java/org/pentaho/di/plugins/fileopensave/providers/vfs/model/VFSDirectory.java:116-119 | the `int` congruent to a value modulo 2^32; values already in range are unchanged |
| FileOpenSave.WrapStep | plugins/file-open-save-new/core/src/main/java/org/pentaho/di/plugins/fileopensave/providers/vfs/model/VFSDirectory.java:116-119 | wrapping after each multiply-add step equals wrapping once at the end |
| FileOpenSave.StringHash | plugins/file-open-save-new/core/src/main/java/org/pentaho/di/plugins/fileopensave/providers/vfs/model/VFSDirectory.java:116-119 | `String.hashCode` is always an `int` |
| FileOpenSave.StringHashIsWrappedPolynomial | plugins/file-open-save-new/core/src/main/java/org/pentaho/di/plugins/fileopensave/providers/vfs/model/VFSDirectory.java:116-119 | the step-by-step `int` hash is the sum of `s[i] * 31^(n-1-i)` reduced to 32 bits |
| FileOpenSave.Hash3 | plugins/file-open-save-new/core/src/main/java/org/pentaho/di/plugins/fileopensave/providers/vfs/model/VFSDirectory.java:116-119 | `Objects.hash` of three values is an `int` |
| FileOpenSave.FolderName | plugins/file-open-save-new/core/src/main/java/org/pentaho/di/plugins/fileopensave/providers/vfs/model/VFSDirectory.java:91-97 | a name ending in "/" is named from the text without the slash, any other by its base name |
| FileOpenSave.TrailingSlashIgnored | plugins/file-open-save-new/core/src/main/java/org/pentaho/di/plugins/fileopensave/providers/vfs/model/VFSDirectory.java:91-97 | a folder delivered with a trailing slash gets the same name as without it |
| FileOpenSave.VfsDirectory.GetType | plugins/file-open-save-new/core/src/main/java/org/pentaho/di/plugins/fileopensave/providers/vfs/model/VFSDirectory.java:33-41 | every directory is of type "folder" |
| FileOpenSave.VfsDirectory.AddChild | plugins/file-open-save-new/core/src/main/java/org/pentaho/di/plugins/fileopensave/providers/vfs/model/VFSDirectory.java:59-61 | the file is appended at the end and the earlier children stay as they were |
| FileOpenSave.VfsDirectory.constructor | plugins/file-open-save-new/core/src/main/java/org/pentaho/di/plugins/fileopensave/providers/vfs/model/VFSDirectory.java:37 | a new directory has no children |
| FileOpenSave.VfsDirectory.HashCode | plugins/file-open-save-new/core/src/main/java/org/pentaho/di/plugins/fileopensave/providers/vfs/model/VFSDirectory.java:116-119 | the hash is an `int` |
| FileOpenSave.VfsDirectory.Equals | plugins/file-open-save-new/core/src/main/java/org/pentaho/di/plugins/fileopensave/providers/vfs/model/VFSDirectory.java:121-136 | reflexive; false for null and other classes; otherwise true exactly for equal provider, connection and path (null-safe); equal objects hash alike |
| FileOpenSave.VfsDirectory.Create | plugins/file-open-save-new/core/src/main/java/org/pentaho/di/plugins/fileopensave/providers/vfs/model/VFSDirectory.java:89-114 | the name from `FolderName`; connection and root only for a non-null connection; domain "" for null; the three flags true; date from the file or the clock |
| FileOpenSave.EqualsSymmetric | plugins/file-open-save-new/core/src/main/java/org/pentaho/di/plugins/fileopensave/providers/vfs/model/VFSDirectory.java:121-136 | `equals` between two directories is symmetric |
| RepositoryUser.UserInfo.constructor | engine/src/main/java/org/pentaho/di/repository/UserInfo.java:64-71 | all strings null, admin null, enabled |
| RepositoryUser.UserInfo.WithLogin | engine/src/main/java/org/pentaho/di/repository/UserInfo.java:59-62 | the defaults with the given login |
| RepositoryUser.UserInfo.Create | engine/src/main/java/org/pentaho/di/repository/UserInfo.java:51-57 | the five given values; id and admin null |
| RepositoryUser.UserInfo.Copy | engine/src/main/java/org/pentaho/di/repository/UserInfo.java:41-49 | all seven values of the original, id and admin included |
| RepositoryUser.UserInfo.GetName | engine/src/main/java/org/pentaho/di/repository/UserInfo.java:150-152 | a user's name is its login |
| RepositoryUser.UserInfo.SetName | engine/src/main/java/org/pentaho/di/repository/UserInfo.java:160-162 | `getName` returns the new name afterwards; only the login changes |
| RepositoryUser.UserInfo.SetEnabled | engine/src/main/java/org/pentaho/di/repository/UserInfo.java:105-107 | the user is enabled |
| RepositoryUser.UserInfo.SetDisabled | engine/src/main/java/org/pentaho/di/repository/UserInfo.java:109-111 | the user is disabled |
| RepositoryUser.UserInfo.SetEnabledTo | engine/src/main/java/org/pentaho/di/repository/UserInfo.java:113-115 | the flag takes the given value |
| RepositoryUser.UserInfo.SetRepositoryDirectory | engine/src/main/java/org/pentaho/di/repository/UserInfo.java:139-141 | always throws "not supported" and changes nothing |

## Left out

- Logging, the step/job engine (row sets, threads, `stopAll`, feedback lines) and internationalised messages are not modelled. Message keys stand in for the messages.
- AnalyticQuery:
  - The input row metadata is given. The fallback to the previous step's fields, and `getFields` on the output metadata, are not modelled.
  - An aggregate type other than LEAD and LAG is not modelled, because the step offers only those two.
  - Negative offsets are allowed in the model, but the lemmas about LEAD/LAG assume offsets of 0 or more.
  - `int` overflow of the queue size and the indices is not modelled.
- AnalyticQuery.Step: the constructor, `Valid` and `Run` require every subject field to exist in the row metadata. The Java step checks only the group fields; with a missing subject, the first emitted row whose LEAD/LAG target lies inside the queue throws ArrayIndexOutOfBoundsException. `ProcessQueueObjectAt` models that throw, but the step-level failure is not modelled.
- AnalyticQuery: group fields compare through `normal`, one canonical form per column standing for the row metadata's `compare`; two values compare equal exactly when their normal forms are equal.
- AnalyticQuery.Step.ProcessRow: `getRow` reads from a fixed input sequence and `putRow` appends to `output`.
- PgpDecryptFiles:
  - Processing one file or folder (GPG decryption, wildcards, subfolders, moving, result file names) is outside the model. Each one arrives as an `Outcome`: its success/error events and its status.
  - Variable substitution is not modelled, and the move-to folder check is a boolean.
  - The time stamp text comes from a `Stamp` input rather than the clock and `SimpleDateFormat`.
  - `successConditionBrokenExit` only guards a log line, so it is not modelled.
- PgpDecryptFiles.DecryptFilesEntry.Execute: the passphrase and wildcard arrays, which the loop reads only to process a file and to log, are not modelled, so a null or short passphrase or wildcard array (an exception in Java) is not modelled; neither is a failure of `new GPG`. `ArraysFit` excludes a destination array shorter than the source array. Java throws in that case only when the loop reaches a non-empty source entry past the end of the destination array before the condition breaks or the job stops, so the model also excludes some runs that end normally in Java.
- PgpDecryptFiles.DecryptFilesEntry.Clone: with a source array present, the model requires the passphrase, destination and wildcard arrays to be non-null and at least as long as the source array. Java's `System.arraycopy` throws NullPointerException or IndexOutOfBoundsException otherwise, and that throw is not modelled.
- XmlInputField.XmlInputField.GetFieldPositionsCode: a null position array or a null entry in it makes Java throw NullPointerException; the model requires the array and every entry to be present.
- XmlInputField.XmlInputField.Clone: a null entry in the position array makes Java throw NullPointerException; the model requires every entry to be present.
- XmlInputField:
  - `XMLInputFieldPosition` (its text form and its parser) is not part of this model. It is passed in as `show` and `parse`.
  - `trimTypeDesc` and the XML constructor are not modelled.
- JavaLang.ParseInt: ASCII digits only. `Integer.parseInt` also accepts the decimal digits of other scripts, which the model rejects.
- JavaLang.EqualsIgnoreCase: folds case for ASCII letters only, not the full Unicode case mapping of `equalsIgnoreCase`.
- FileOpenSave.StringHash: each Dafny character counts as one UTF-16 unit, so characters above U+FFFF hash differently from Java.
- EncodingTypes.GetBytes: `String.getBytes` (the character encoding itself) is not part of this model. The method receives the encoded bytes.
- NullIf.NullIfMeta.Clone: a null field array or a null entry in it makes Java throw NullPointerException; the model requires both to be present.
- NullIf:
  - The `KETTLE_EMPTY_STRING_DIFFERS_FROM_NULL` system property arrives as a boolean.
  - `getFields` of the "Null if" step changes nothing and is not modelled.
  - `loadXML`/`readData` are not modelled.
- Xslt.XsltData.GetTemplate and Xslt.XsltData.CreateNewTemplate: after `dispose` the cache is null and Java throws NullPointerException; the model requires the cache to be present.
- Xslt:
  - The transformer factory, reading the file or string, and compiling are reduced to the `compiles` flag.
  - A null style-sheet name as a cache key is not modelled.
  - `outputRowMeta`, the factory and the output properties are type parameters.
- DatabaseExplorer:
  - `firePropertyChange` on a new selection, the database connection metadata and `getSelectedNode` (the field itself) are not modelled.
  - Node names are assumed non-null, as `getName().equals` requires.
  - The root node's own name and flags are never read.
  - `drillDown`'s iterator is modelled as a position in the parent node's child list.
- FileOpenSave:
  - `VFSFile` (the parent class with name, path, provider and the other fields), `Util.getName` and `VFSFileProvider.NAME` are not part of this model. `getName` and the provider name are passed in.
  - `create` is a named constructor rather than a static factory method.
- RepositoryUser:
  - Object ids are a type parameter.
  - `getRepositoryDirectory`, which builds a `RepositoryDirectory`, is not modelled.
  - The simple getters and setters other than name and enabled are not modelled.
- OlapMatrix: the Java `assert` in `set` runs only with assertions enabled. The model stores every cell and states what happens to `Valid` instead of requiring the bounds. `getMap` is the `cells` field itself.
