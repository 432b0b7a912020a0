# A verified model of smarthouse

This project models the state-keeping parts of the smarthouse repository and proves what they are for.
`dafny verify dfyconfig.toml` checks all of it.

| subject | files | main results |
|---|---|---|
| electricity meter firmware | `MeterReader.dfy`, `MeterTruth.dfy` | for any uptime every line printed about pulses and power is the truth in unwrapped time; exactly when an estimate exceeds 14937 W; otherwise it is the average power over the pulses reported last |
| serial framer of mlogger (and jeelogger) | `Text.dfy`, `Framer.dfy` | the log depends on the byte stream only, not on how reads chop it; exactly when the loop ends |
| hourly log files and counters | `LogFiles.dfy` | each line lands in the file of its hour exactly when the hours never go back; files hold exactly the stamped lines |
| half-hour table | `PowerDb.dfy` | rows tile time; one file per period suffices exactly under offsets of whole half hours |
| all of the above together | `Pipeline.dfy`, `Readers.dfy`, `MeterLines.dfy`, `EndToEnd.dfy` | every pulse the firmware accepts is counted once, in the right half hour, whatever the interleaving, the restarts and overlapping powerdb processes; exactly when mlogger and powerdb agree about a line |
| water relay commands | `WaterCommands.dfy`, `EndToEnd.dfy` | from the signals to the relay an off is never lost to a race; no on without a request; the flags drain in at most 7 statements |
| resumable log processor | `Sets.dfy`, `Reports.dfy`, `Updater.dfy`, `Resume.dfy`, `Accounting.dfy`, `Sending.dfy` | everything reported of a node is a function of the messages it has sent; stopping and resuming changes nothing; exactly when a line is lost; where every count comes from |
| rrd update queue | `UpdateQueue.dfy`, `ResumedWrites.dfy` | the writes are the maximal runs of equal timestamps, last value each; exactly what each flush writes; exactly when two runs write what one writes |
| OCPP central system | `Ocpp.dfy`, `OcppSafety.dfy`, `OcppRecords.dfy` | every field of every record is what the latest event about it says, crashes included; connector coherence, transaction/connector correspondence (exactly when), fresh ids, crash and restore |
| MQTT sensor hub | `AtomicAdd.dfy`, `SensorRegistry.dfy` | no lost update, and every call is done within 3n steps of its own; a spec is read as it was written; no panic exactly when no two sensors collide |
| socket bridge | `Signaller.dfy` | client table, watched set and bounds stay coherent |

Programs that change state are classes whose methods are proved against functions of the old state; what the
programs promise is proved of these functions over all runs.

## Conventions and assumptions

- A byte is a `char`. Times are whole seconds since the epoch, except in the log processor, whose timestamps are
  real numbers. Local time is UTC plus a fixed offset.
- A log file that is named by the UTC date and hour is named here by the number of that hour; files of the log
  processor are named by numbers in the order of their names.
- What the clock and `open()` answer during the k-th call of `process_line`, and the byte then left over on its
  stack, are the k-th `Tick` of an environment, which can be anything. A read returns any number of bytes up to what is asked for.
- OCPP callbacks, saves and restarts are atomic steps. The code takes no locks, so this is an assumption; so is
  that a stored snapshot decodes to what was encoded.
- powerdb reads the latest period and the clock in one step, and reads a file and inserts its row in one step; its
  processes may overlap, and mlogger may write between any two of these steps.
- `water_on` and `water_off` are taken to be read and written in memory one access at a time; they are not
  declared volatile.

## Where the code and its documentation, or its use, part

- The comment above the main loop of mlogger says lines of 1023 characters and more are ignored. Lines of 1023
  and 1024 bytes, newline included, are delivered, written to the log, and then fail the assertion in
  `process_line` (`Framer.AbortsIff`, `Framer.LongLineAborts`); only longer ones are ignored.
- The wrap handling in `CalculateStep` is dead for the counters meters send: a wrap always counts as a restart
  (`Reports.StepIsPlainIff`).
- A log file that is still empty when processed last leaves its name with an older file's line number, and the
  next run skips lines (`Resume.ExactlyOnceIff`, `Resume.LineIsLost`). The fetch script installs non-empty files only.
- Stopping an ended transaction again frees its connector under the transaction now running there
  (`OcppSafety.StopKeepsExactIff`, `OcppSafety.SecondStopBreaks`). After a crash an id can be given out again if
  and only if it exceeds every id in the snapshot (`OcppSafety.ComesBackIff`): one given out since the last save,
  or one whose charge point was gone by then (`OcppSafety.ForgottenIdComesBack`).
- The firmware measures a window of pulses modulo 2^32 ms. A wrap of the millisecond clock inside the window does
  no harm, but a window that stays open for 2^32 ms (a single pulse, then silence for almost 50 days) can give an
  estimate above the bound (`MeterReader.SilenceMisleads`); `MeterReader.PowerBoundIff` says exactly when.
- On lines the firmware does not print, mlogger and powerdb can disagree about what is a pulse
  (`MeterLines.ReadersCanDiffer`); `Readers.ReadersAgreeIff` says exactly when they agree.
- `process_line` terminates its copy of a line one byte too late, so a byte left over on the stack follows the
  newline. It matters exactly for an LDR line without a value (`LogFiles.LeftoverShowsIff`).
- The flush at the end of a run of the log processor writes what an undivided run would still have held back, if
  the runs meet within reports of one timestamp (`ResumedWrites.ResumedWritesIff`,
  `ResumedWrites.SplitTimestamp`).

## Model

| member | source | states |
|---|---|---|
| Text.SplitSound | common/mlogger.c:251-268 | cutting a stream at newlines loses nothing: every piece ends with its only newline, and pieces and tail make up the stream |
| Text.SplitUnique | common/mlogger.c:251-268 | it is the only such cut: a stream built from lines and an unfinished rest is cut back into them |
| Text.ParseItoa | analysis/powerdb.go:108-111 | powerdb parses back the decimal stamp mlogger prints, up to the 64-bit range, and fails beyond |
| Text.ParseSigned | analysis/powerdb.go:108-111 | so does it a stamp with a sign |
| Text.AtoiSigned | common/mlogger.c:157-157 | atoi reads a decimal number back, signs included |
| Text.TruncIs | common/update-rrd.py:97-98 | a float is cut towards zero |
| Framer.FindNewline | common/mlogger.c:252-255 | memchr: the first newline among the buffered bytes, or none |
| Framer.MoveDown | common/mlogger.c:263-264 | memmove of the unread bytes to the start of the buffer |
| Framer.ReadInto | common/mlogger.c:240-248 | read() appends its bytes to those in the buffer |
| Framer.NextLine | common/mlogger.c:252-268 | the first newline in the buffer ends the line the stream left open; that line is whole in the buffer, and short enough, exactly when nothing of it was dropped |
| Framer.Mlogger.MakeRoom | common/mlogger.c:230-239 | a full buffer is dropped, the rest of the line will be discarded, and the fill level is the tail length modulo 1024 |
| Framer.Mlogger.TakeLine | common/mlogger.c:251-268 | one pass of the inner loop: exactly the next line of the stream is handed over, if it was kept, and leaves the buffer |
| Framer.Mlogger.Drain | common/mlogger.c:251-268 | the inner loop ends with every complete line handed over and only the open line left, or on a failed call |
| Framer.Mlogger.Poll | common/mlogger.c:223-268 | after any read the log is that of the kept lines of the whole stream so far; the loop ends exactly on an empty read with a tail that is a multiple of 1024 bytes |
| Framer.Mlogger.ReadLoop | common/mlogger.c:223-286 | for any way of chopping an input into reads the log is that of the input; a run that outlasts it ends, within length + 1 reads, if and only if the bytes after the last newline are a multiple of 1024 |
| Framer.DeliveredOf | common/jeelogger.c:275-313 | of a stream made of lines exactly those of at most 1024 bytes are delivered, in order |
| Framer.AbortsIff | common/mlogger.c:126-131 | the length assertion fails exactly when the stream has a line of 1023 or 1024 bytes |
| Framer.LongLineAborts | common/mlogger.c:126-131 | a single line of 1023 bytes is delivered and ends the process |
| Framer.NextToLongLines | common/mlogger.c:230-239 | a line of 1022 bytes is delivered and survived, one of 1025 bytes is dropped |
| LogFiles.LogWriter.CreateLogfile | common/mlogger.c:48-67 | opens the file of the current UTC hour, keeping its content, and sets expiry to the last second of that hour |
| LogFiles.LogWriter.CheckLogfile | common/mlogger.c:70-79 | keeps the open file up to its expiry, otherwise rotates |
| LogFiles.LogWriter.ProcessLine | common/mlogger.c:115-165 | stamps and appends the line to the right file, fails on an open error or an overlong line, and updates the counter its second token selects |
| LogFiles.FailureIsFinal | common/mlogger.c:257-260 | once a call has failed nothing more is logged |
| LogFiles.OpenFileIsLatestHour | common/mlogger.c:70-79 | the open file is that of the latest hour seen, and expires with it, whatever the clock does |
| LogFiles.LandsInOwnHourIff | common/mlogger.c:48-79 | every line lands in the file of the hour it is stamped with if and only if the hours of the clock never go back |
| LogFiles.FilesHoldTheirHours | common/mlogger.c:119-124 | each hourly file holds its earlier content and then exactly the stamped lines of its hour, in order |
| LogFiles.FileExistsIff | common/mlogger.c:59-59 | a file exists exactly if it did before or its hour got a line |
| LogFiles.LeftoverShowsIff | common/mlogger.c:126-131 | the leftover byte behind the newline changes the value of an LDR line if and only if the value is the line end; the tags are found whatever it is |
| LogFiles.CountersCount | common/mlogger.c:148-160 | the two pulse counters are the numbers of matching lines, and watts is the value of the last LDR line, leftover byte included |
| LogFiles.RunningIff | common/mlogger.c:120-129 | the process outlives its lines exactly if every needed open succeeds and no line is too long |
| PowerDb.LastFullPeriodIs | analysis/powerdb.go:49-57 | the result is the half-hour boundary of local time at or before the given time |
| PowerDb.OneFileIff | analysis/powerdb.go:73-85 | every period lies within the one file read for it if and only if the UTC offset is a whole number of half hours |
| PowerDb.Database.GetLastUpdate | analysis/powerdb.go:25-47 | the latest period in the table, or the sentinel for an empty table |
| PowerDb.Database.CountPulses | analysis/powerdb.go:99-126 | the scan counts the lines whose timestamp is in the window and that hold PULSE at the second or, in lines of four fields and more, the third field |
| PowerDb.Database.InsertPeriodToDB | analysis/powerdb.go:87-135 | one row with the pulses of the period's window, 0 for a missing file; refused if the period is already there |
| PowerDb.Database.Aggregate | analysis/powerdb.go:137-159 | one run inserts the periods after the latest one up to the last full one, terminates, and on a tiled table never repeats a key |
| PowerDb.RunTiles | analysis/powerdb.go:147-158 | any run keeps the table a tiling of time by consecutive half hours; each new window was over at least half an hour before the time of the run |
| Pipeline.PulseTimeOfStamped | analysis/powerdb.go:103-125 | powerdb reads the stamp mlogger wrote and looks for the tag in the line itself |
| Pipeline.FileCounts | analysis/powerdb.go:99-126 | counting over a log file's bytes is counting the lines logged into it with stamps in the window |
| Pipeline.FilesHoldRecords | common/mlogger.c:48-79 | over any number of mlogger processes, failed or restarted, each hourly file holds exactly the records of its hour, in order |
| Pipeline.PeriodCounts | analysis/powerdb.go:87-127 | what powerdb counts for a period is all records of that period |
| Pipeline.RowsStayTrue | analysis/powerdb.go:137-159 | for every interleaving of logging, failures and restarts of mlogger and the single inserts of any number of overlapping powerdb processes on one clock the table tiles time and each row equals the pulses recorded in its half hour, for good |
| Pipeline.InTableIff | analysis/powerdb.go:129-134 | a process that has been overtaken finds its period in the table and fails; any other inserts the first one missing |
| Pipeline.AloneIsRunOnce | analysis/powerdb.go:147-158 | a process that is not disturbed adds the rows of a whole run one by one and never fails |
| Pipeline.AloneFinishes | analysis/powerdb.go:147-158 | after the last of them it is done |
| Pipeline.PulsesConserved | analysis/powerdb.go:129-131 | the total of the table is the number of counted records in the time it covers |
| Pipeline.CountersSeeRecords | common/mlogger.c:148-151 | the counters of all mlogger processes add up to the matching lines they recorded |
| Pipeline.LifeIsRun | common/mlogger.c:48-79 | the present process is a run of its own, over the files its predecessors left |
| Readers.ReadersAgreeIff | analysis/powerdb.go:99-126 | mlogger and powerdb agree whether a NUL-free line is a pulse if and only if: with three fields or more, the first two not empty, the second does not merely start with the tag; with two, the first is empty or is the tag exactly if the second starts with it; a single one is not the tag; with one stray space before or behind the first word, the second field is the tag exactly if the next word behind it starts with the tag; with two in front, the second word does not start with it |
| Readers.CountersMeetTable | analysis/powerdb.go:129-131 | on any lines that meet this condition the table's total, once it covers all stamps, is what mlogger's processes have counted |
| MeterLines.ReadWords | common/mlogger.c:134-147 | both tokenizers see the words of a line; mlogger's last token keeps the line end |
| MeterLines.LinesMean | MeterReader/MeterReader.ino:64-95 | on every line the firmware prints mlogger and powerdb agree whether it is a pulse, and atoi reads back the printed watts |
| MeterLines.WordsAgreeIff | analysis/powerdb.go:119-125 | the condition for lines of words with single spaces in between |
| MeterLines.ReadersCanDiffer | analysis/powerdb.go:119-125 | "7 PULSE" and "7 PULSEX 1" are pulses for mlogger only, "PULSE 7" for powerdb only |
| MeterLines.LinesPlain | MeterReader/MeterReader.ino:64-95 | every line of the firmware meets the condition and is short enough |
| EndToEnd.FramingGivesBack | common/mlogger.c:223-268 | framing the serial output gives back the firmware's lines one for one |
| EndToEnd.PulsesReachTheTable | analysis/powerdb.go:87-159 | from the firmware, however long it runs, to the table, across restarts of mlogger: its counters add up to the pulses accepted, and the table's total is those stamped in the time it covers |
| EndToEnd.AllPulsesReachTheTable | analysis/powerdb.go:129-131 | once the table covers all stamps its total is the number of pulses accepted |
| EndToEnd.WattsAreTold | common/mlogger.c:156-160 | once the present process has seen an LDR line, mlogger's watts are what the firmware's last report had to say |
| EndToEnd.MetricsAreOfFirmware | common/mlogger.c:148-165 | the metrics of the present process are the pulses accepted and refused and the latest estimate since it started |
| MeterReader.Firmware.Report | MeterReader/MeterReader.ino:57-68 | the report: the estimate when there is one, the count restarted, and the LDR line |
| MeterReader.Firmware.Debounce | MeterReader/MeterReader.ino:70-98 | a flagged pulse is refused within 240 ms of the last accepted one, otherwise counted and printed |
| MeterReader.Firmware.Commands | MeterReader/MeterReader.ino:100-122 | the relay follows the last w or W; one status line per S and one after any switch |
| MeterReader.Firmware.Loop | MeterReader/MeterReader.ino:49-123 | one pass: staleness, report, debouncing and commands, in this order, with what they print |
| MeterReader.Firmware.constructor | MeterReader/MeterReader.ino:30-38 | setup: all zero, the greeting printed, and the report clock started |
| MeterReader.Firmware.LdrIsr | MeterReader/MeterReader.ino:26-28 | the interrupt only flags a pulse |
| MeterReader.WindowMeasured | MeterReader/MeterReader.ino:58-58 | the divisor is the true time between the first and the last pulse of the window, modulo 2^32 ms |
| MeterReader.ReportCloses | MeterReader/MeterReader.ino:57-62 | a report closes a window of two pulses or more, and makes an estimate, exactly if its span is no multiple of 2^32 ms; otherwise it changes neither count nor watts |
| MeterReader.BriefWindowCloses | MeterReader/MeterReader.ino:57-62 | below 2^32 ms that divides by at least 241 ms per pulse, and the estimate is the average power over the window, rounded down |
| MeterReader.PulseAccepted | MeterReader/MeterReader.ino:70-98 | a pulse is accepted exactly when the time since the last accepted one is 241 ms or more modulo 2^32 ms |
| MeterReader.RunPrintable | MeterReader/MeterReader.ino:64-95 | on any run every number ever printed fits its type |
| MeterReader.WindowIsLastPulses | MeterReader/MeterReader.ino:87-95 | for any uptime an open window is the last `count` pulses printed, which are pairwise at least 241 ms apart |
| MeterReader.RelayFollows | MeterReader/MeterReader.ino:100-122 | over any run the relay is where the bytes read have put it, in however many pieces they came |
| MeterTruth.FirmwareTells | MeterReader/MeterReader.ino:49-98 | over any run, clock and counter wraps included, the lines about pulses and power are, one by one, those of a reference told in true time from the inputs alone |
| MeterTruth.LdrLineSays | MeterReader/MeterReader.ino:53-68 | a pass prints an LDR line exactly when a report is due: the estimate over the window if it has a span modulo 2^32 ms, else 0 after a quiet minute since the last report, else the value of the last LDR line |
| MeterTruth.ReadingIsPower | MeterReader/MeterReader.ino:57-62 | for a window of two pulses or more below 2^32 ms that is the average power over it, rounded down, and at most 14937 |
| MeterTruth.ShownIsLast | MeterReader/MeterReader.ino:53-55 | what is shown without a new estimate is the last LDR line, or 0 if the latest pulse was over a minute old at some pass since |
| MeterTruth.WaterLinesTell | MeterReader/MeterReader.ino:40-45 | after every pass the last WATER line says where the relay is; there is one per S and one per pass that switches |
| MeterReader.PowerBoundIff | MeterReader/MeterReader.ino:49-98 | over every run, clock wraps included, all estimates are within 14937 W if and only if no report meets a window of span s >= 2^32 ms with 0 < 14938 * (s mod 2^32) <= 3600000 * (pulses - 1) |
| MeterReader.PowerBound | MeterReader/MeterReader.ino:49-98 | then the variable and every printed estimate are within the bound |
| MeterReader.PacedRun | MeterReader/MeterReader.ino:49-98 | if no window and no gap between reports lasts 2^32 ms, that holds and the 16-bit count stays below 23 |
| MeterReader.LivelyIsPaced | MeterReader/MeterReader.ino:49-98 | it is enough that pulses never stay away, nor reports, for nearly 2^32 ms |
| MeterReader.SilenceMisleads | MeterReader/MeterReader.ino:57-62 | a run of loop() with a silence of almost 50 days ends with an estimate of 36000 W |
| WaterCommands.Relay.HandleCommands | common/mlogger.c:269-283 | one execution of the block with handlers before each statement is a pass of the state machine |
| WaterCommands.Relay.HandleSignals | common/mlogger.c:37-46 | the handler only sets the flag of its signal |
| WaterCommands.PassIsRun | common/mlogger.c:269-283 | every such pass is a stretch of a run of single statements and signals |
| WaterCommands.RunCoherent | common/mlogger.c:269-283 | at every statement of a branch its flag is still set, and after a write that write is the last |
| WaterCommands.Settles | common/mlogger.c:269-283 | without further signals the flags drain in at most 7 statements, and the command then in force is off if off was pending or under way, else on if requested, else unchanged |
| WaterCommands.OffPrevails | common/mlogger.c:37-46 | while SIGUSR2 is the last signal, off is what is or will be in force, wherever the loop was interrupted |
| WaterCommands.OffNeverLost | common/mlogger.c:269-283 | if the last signal was SIGUSR2, then with drained flags the last byte written is w |
| EndToEnd.RelayEndsOff | MeterReader/MeterReader.ino:100-122 | if the last signal was SIGUSR2, then with drained flags and all bytes read the relay is off |
| EndToEnd.RelayEndsOnIff | MeterReader/MeterReader.ino:100-122 | after a last SIGUSR1 the relay ends on exactly if no off was pending or being carried out when it came |
| WaterCommands.OnPrevailsIff | common/mlogger.c:274-278 | a last SIGUSR1 ends with W in force exactly if no off was pending or being carried out when it came |
| WaterCommands.OnIsAskedFor | common/mlogger.c:278-283 | the on flag is set exactly if a SIGUSR1 came since it was last cleared; so it is when W is written |
| WaterCommands.OnsBounded | common/mlogger.c:278-283 | W is never written more often than SIGUSR1 came |
| Reports.ParseLong | common/common.py:34-38 | the little-endian sum of four fields, or the exception |
| Reports.LongOfBytes | common/common.py:34-38 | reading the four bytes of a 32-bit counter gives the counter, wherever they stand |
| Reports.StepIsPlainIff | common/common.py:317-350 | CalculateStep is "1 after a restart, else the difference" except exactly for a 0 following a negative counter in consecutive reports |
| Reports.StepOfCounters | common/common.py:317-350 | for counters as meters send them the step is the plain one and never negative |
| Updater.LogUpdater.GetOrCreateNodeState | common/common.py:165-168 | the known state, or a fresh one that is entered |
| Updater.LogUpdater.UpdateNodeReport | common/common.py:170-181 | gap, missed reports and counts as the old state of the node demands; other nodes unchanged |
| Updater.LogUpdater.VisitAll | common/common.py:203-216 | the loop of the hourly report over the configured nodes |
| Updater.LogUpdater.PrintHourlyReport | common/common.py:183-219 | every configured node becomes known; with reset its statistics restart and each meter's usage is given out |
| Updater.LogUpdater.ProcessMeterReader | common/common.py:287-305 | counter state and reported metrics; nothing for a payload that does not parse |
| Updater.LogUpdater.ProcessTempSensor | common/common.py:269-280 | temperature and battery metrics; nothing for a payload that does not parse or is too hot |
| Updater.LogUpdater.ProcessLine | common/common.py:246-260 | one line: hour change, handler by node type, reliability |
| Updater.LogUpdater.ProcessFile | common/common.py:235-260 | one file from the saved mark on |
| Updater.LogUpdater.ProcessFiles | common/common.py:232-267 | one run from a saved history to the next, as a function of both |
| Updater.LogUpdater.FinishedProcessing | common/common.py:263-267 | the report at the end of a run makes configured nodes known and changes nothing else |
| Resume.AfterFilesIs | common/common.py:232-260 | a run is the fold over the lines its mark leaves, and keeps the place of the last of them |
| Resume.SecondRunLines | common/common.py:235-246 | a second run processes what is not passed over of the marked file, and all later files |
| Resume.ExactlyOnceIff | common/common.py:240-246 | two runs process every line exactly once, in order, if and only if the saved line number is not that of an older file |
| Resume.LineIsLost | common/common.py:240-246 | an empty second file at the time of the first run: the line it gets later is never processed |
| Resume.FoldAlike | common/common.py:263-268 | states that differ only in fresh configured nodes stay so and report the same over any lines |
| Resume.ResumeEqualsRerun | common/common.py:232-267 | resuming on the grown logs gives the same history, metrics and usages as one run over them |
| Resume.ManyRunsEqualOne | common/common.py:232-267 | any number of runs while the logs grow equals one run over the final logs |
| Resume.OldFilesNotNeeded | common/common.py:235-239 | a resumed run does not depend on files older than the current one |
| Accounting.RealCounterIsTotal | common/common.py:287-303 | over any run the real counter is the first reading plus one plain step for each later one, whatever other nodes and the hours do |
| Accounting.RevsAreRunningTotals | common/common.py:303-304 | the metric reported for each reading is the running total at its time |
| Accounting.TotalGrows | common/common.py:296-297 | the real counter never decreases |
| Accounting.TotalWithoutRestart | common/common.py:317-320 | without restarts it equals the raw counter |
| Accounting.UsageConserved | common/common.py:183-198 | hourly usages and the usage since the last report add up to real counter minus first count |
| Accounting.MeterAccountsOverRuns | common/common.py:232-267 | the same after any number of resumed runs over growing logs |
| Accounting.ReliabilityAccounts | common/common.py:170-181 | received reports are those since the reset, and reports minus received is the sum of the ping jumps, never negative |
| Accounting.GapsAccount | common/common.py:172-174 | for sorted logs the gaps of a configured node add up to last minus first report time of the hour, less than an hour |
| Sending.ParseLineOf | common/common.py:79-96 | decoding a line gives the stamp, node, ping number and payload that were sent |
| Sending.ParseMeter | common/common.py:307-315 | counter and battery of a meter are those sent, in the short and in the long form |
| Sending.ParseSensor | common/common.py:282-285 | so are temperature and battery of a sensor, unless the temperature is above 40 |
| Sending.CounterIsTold | common/common.py:287-303 | the real counter of a meter is the total of the counters it has sent |
| Sending.MetricsAreSent | common/common.py:269-305 | all metrics of a node, in order: of a meter its running totals and batteries, of a sensor its believable temperatures and batteries, of other nodes none |
| Sending.TempsAreSent | common/common.py:187-196 | the temperatures behind the hourly average are those sent since the hour last turned |
| Sending.SentOverRuns | common/common.py:232-267 | all this after any number of resumed runs over growing logs, noise lines included |
| UpdateQueue.RRDUpdater.LastUpdateFor | common/update-rrd.py:106-111 | the cached answer of rrdtool |
| UpdateQueue.RRDUpdater.FlushUpdateQueue | common/update-rrd.py:81-104 | everything queued is written at the queue's time except data sources with newer files; the queue is emptied |
| UpdateQueue.RRDUpdater.UpdateRRD | common/update-rrd.py:74-79 | a call at another time flushes first; then the value is queued under its time |
| UpdateQueue.RRDUpdater.FinishedProcessing | common/update-rrd.py:113-117 | the last report is flushed and nothing stays queued |
| UpdateQueue.RRDUpdater.ReportMetric | common/update-rrd.py:119-121 | a metric becomes one call for its data source |
| UpdateQueue.DataSourceUnique | common/update-rrd.py:120-120 | different nodes or metrics have different data sources |
| UpdateQueue.RunsAreMaximal | common/update-rrd.py:74-79 | the runs of equal time make up the calls, each has one time and neighbours differ |
| UpdateQueue.LastValuesAre | common/update-rrd.py:78-78 | of a run each data source gets the value of its last call |
| UpdateQueue.LastValuesOnly | common/update-rrd.py:78-78 | and no other data source gets a value |
| UpdateQueue.WritesAreRunsIff | common/update-rrd.py:74-117 | in the end nothing is pending; the flushes write the maximal runs in order, last value each, minus what the cached last update forbids, if and only if no call at time zero is followed by one at another time |
| UpdateQueue.GroupsAreRuns | common/update-rrd.py:75-76 | what is flushed together is the maximal runs, when no time zero is followed by another |
| UpdateQueue.GroupsJoined | common/update-rrd.py:74-79 | in any case the groups flushed together make up the calls |
| UpdateQueue.FlushSays | common/update-rrd.py:81-104 | for any calls: the k-th flush writes under the whole second of the k-th group exactly the data sources named in it whose file is not newer, each with the value of its last call |
| UpdateQueue.NothingLate | common/update-rrd.py:89-92 | nothing is ever written into a file that is newer |
| UpdateQueue.CallIsWritten | common/update-rrd.py:74-104 | a call that no later one for its data source and time supersedes is written with its time and value, unless the file is newer |
| ResumedWrites.MetricIsWritten | common/update-rrd.py:119-121 | so is every metric reported, into the file of its node and name |
| UpdateQueue.ZeroIsMisdated | common/update-rrd.py:75-76 | values at timestamp zero are written under the next timestamp |
| UpdateQueue.RRDUpdater.constructor | common/common.py:128-135 | a run starts with an empty queue and the cache of last updates that the saved history holds |
| ResumedWrites.JoinedWritesIff | common/update-rrd.py:74-117 | two runs write together what one run over all calls writes if and only if the last timestamp of the first is neither zero nor the first of the second (or one of them is empty) |
| ResumedWrites.SplitTimestamp | common/update-rrd.py:113-117 | two runs that meet within one timestamp write it twice, one run writes it once |
| ResumedWrites.ResumedWritesIff | common/common.py:232-267 | so a run of the log processor and one resumed from its saved history write to the rrd files what one run writes, exactly under that condition, late reports included |
| Ocpp.CentralSystemHandler.OnNewChargePoint | ocpp/main.go:91-99 | a new charge point gets an empty record, a known one keeps its own |
| Ocpp.CentralSystemHandler.OnDisconnected | ocpp/main.go:100-103 | the record is removed |
| Ocpp.CentralSystemHandler.FindConnector | ocpp/handler.go:70-77 | the connector, entered free if it was unknown |
| Ocpp.CentralSystemHandler.OnStartTransaction | ocpp/handler.go:178-199 | refused for unknown charge points and busy connectors, otherwise files the transaction under the next id |
| Ocpp.CentralSystemHandler.OnStopTransaction | ocpp/handler.go:201-219 | ends a known transaction and frees its connector; an unknown one is confirmed without effect |
| Ocpp.CentralSystemHandler.SumUp | ocpp/handler.go:122-139 | of each measurand the last sample that is a number, zero without one |
| Ocpp.CentralSystemHandler.ProcessMeterValues | ocpp/handler.go:115-150 | one meter value: ignored for an unknown charge point, otherwise noted at connector and transaction |
| Ocpp.CentralSystemHandler.OnMeterValues | ocpp/handler.go:152-159 | each value becomes the connector's last measurement and, if known, the transaction's; values without a transaction id panic before anything changes |
| Ocpp.CentralSystemHandler.OnStatusNotification | ocpp/handler.go:161-176 | notes the error code and the status of the connector or the charge point |
| Ocpp.Store.Save | ocpp/store.go:79-92 | the row becomes the current charge points, or stays on failure |
| Ocpp.Store.Restore | ocpp/store.go:94-120 | the charge points of the row, and the id counter raised just past all their ids, in whatever order the maps are walked |
| Ocpp.Store.RaisePast | ocpp/store.go:111-115 | the inner loop raises the counter past the ids of one charge point |
| OcppSafety.StepKeeps | ocpp/handler.go:178-219 | every callback, save and restart keeps connectors coherent and ids filed, below the counter and apart |
| OcppSafety.AlwaysInvariant | ocpp/handler.go:70-77 | so after any run, crashes and duplicate or unknown stops included |
| OcppSafety.BusyInjective | ocpp/handler.go:183-195 | two busy connectors never share a transaction |
| OcppSafety.ExactIsBijection | ocpp/handler.go:54-56 | when every open transaction is its connector's current one, busy connectors and open transactions correspond one to one and no connector has two |
| OcppSafety.StopKeepsExactIff | ocpp/handler.go:206-213 | a stop keeps that correspondence if and only if it has a timestamp and names an open transaction or one whose connector is free, or an unknown one |
| OcppSafety.ExactThroughoutIff | ocpp/handler.go:178-219 | over a run, across saves and restores, the correspondence holds at all times if and only if all its stops are such |
| OcppSafety.IdsFresh | ocpp/store.go:110-117 | ids of one process life strictly increase and exceed all ids in the restored snapshot |
| OcppSafety.StartIsFresh | ocpp/handler.go:192-195 | the id given out is used at no charge point and not in the stored row |
| OcppRecords.RecordsSay | ocpp/handler.go:115-219 | after any events a charge point is known exactly if it is connected, and its record says: error code and status of the latest notifications, who holds each connector, for each transaction the start that was given its id, its latest stop and meter value; after a crash all this as of the last save |
| OcppRecords.OthersUnchanged | ocpp/handler.go:115-219 | what happens at one charge point leaves every other record as it is |
| OcppRecords.ReconnectKeeps | ocpp/main.go:91-99 | connecting again changes nothing |
| OcppRecords.MeasuredSays | ocpp/handler.go:122-139 | a measurement has, under each name, the last number sampled for that measurand |
| OcppSafety.MeterLeavesBooks | ocpp/handler.go:141-149 | meter values set last measurements and leave transactions and connector occupation alone |
| OcppSafety.ComesBackIff | ocpp/store.go:110-117 | the process restarted after a crash can give out an id, in some continuation, if and only if it exceeds every id in the snapshot, whether it was given out before or not |
| OcppSafety.ForgottenIdComesBack | ocpp/main.go:100-103 | an id given out before the save comes back when its charge point was disconnected by then |
| OcppSafety.SecondStopBreaks | ocpp/handler.go:206-213 | a second stop of the first transaction leaves the second one open without its connector |
| OcppSafety.UnsavedIdComesBack | ocpp/handler.go:192-193 | without a save the first transaction of each process life has id 0 |
| OcppSafety.CrashRestoresLastSave | ocpp/store.go:79-120 | a crash brings back exactly the charge points of the last successful save |
| AtomicAdd.Cell.Add | common/smarthouse.go:198-206 | the retry loop under any interference before each swap: all interfering additions and then its own are in the counter |
| AtomicAdd.NoLostUpdate | common/smarthouse.go:198-206 | for any number of callers and any interleaving the counter is the sum of the increments in the order of successful swaps, each finished call once |
| AtomicAdd.FailureExplained | common/smarthouse.go:202-204 | a failed swap means another call swapped after this one loaded |
| AtomicAdd.RetryBound | common/smarthouse.go:199-205 | a call among n retries fewer than n times |
| AtomicAdd.AllDone | common/smarthouse.go:198-206 | once all are done, the counter is the sum of all increments, each once |
| AtomicAdd.DoneInTime | common/smarthouse.go:198-206 | among n callers a call is done after 3n steps of its own, however the others run in between |
| AtomicAdd.AllArrive | common/smarthouse.go:198-206 | so under any schedule that gives each caller as many, all increments arrive, each once |
| AtomicAdd.AloneInThree | common/smarthouse.go:198-206 | undisturbed a call takes three steps |
| SensorRegistry.SpecIsRead | common/smarthouse.go:277-288 | entries joined with semicolons give the names of those with three parts or more, in order; others are passed over |
| SensorRegistry.AllNamed | common/smarthouse.go:277-277 | NAME,TYPE,PIN[;NAME,TYPE,PIN]... gives all names |
| SensorRegistry.JoinSplit | common/smarthouse.go:278-279 | every spec is its entries joined, and so is every entry |
| SensorRegistry.NameForNodeIs | common/smarthouse.go:179-185 | the part of the name before the first dash |
| SensorRegistry.Registry.MustRegister | common/smarthouse.go:103-103 | registering a registered metric panics |
| SensorRegistry.Registry.NewFlowSensor | common/smarthouse.go:82-139 | registers the four metrics of a sensor, panicking exactly if one is registered already |
| SensorRegistry.Registry.Shutdown | common/smarthouse.go:212-219 | unregisters exactly these four |
| SensorRegistry.Registry.SetupSensors | common/smarthouse.go:270-289 | replaces the node's sensors and metrics by those of its spec, panicking exactly if they repeat or meet others' |
| SensorRegistry.Registry.RegisterNode | common/smarthouse.go:246-256 | a new node with the sensors of its spec |
| SensorRegistry.Registry.UpdateNode | common/smarthouse.go:258-268 | sensors are set up anew only if the spec changed |
| SensorRegistry.Registry.GotHello | common/smarthouse.go:231-244 | a hello panics exactly if the specs then in force collide; otherwise nodes and metrics mirror them |
| SensorRegistry.Registry.GotHellos | common/smarthouse.go:231-289 | a sequence of hellos never panics if and only if the latest specs are collision-free throughout; then each node's sensors are those of its spec and the metrics are those of all sensors |
| Signaller.Bridge.Accept | common/signaller.c:21-58 | a new client gets a slot unless none is free, and just it is added to what is watched; the table stays coherent |
| Signaller.Bridge.FindSlot | common/signaller.c:41-47 | the first free slot, or none |
| Signaller.Bridge.constructor | common/signaller.c:108-121 | an empty table that watches the serial port and the listener |
| Signaller.Bridge.Broadcast | common/signaller.c:138-153 | serial bytes reach every client in the table exactly once |
| Signaller.Bridge.ScanClients | common/signaller.c:154-179 | exactly the ready clients that closed leave the table and the watched set; what the others say goes to the serial port in slot order |
| Signaller.Bridge.Iterate | common/signaller.c:128-180 | one iteration keeps watched set, table and bounds coherent; serial bytes go once to every client, one accepted just now included; what ready clients say goes to the serial port, and a new one is not read yet |

## Left out

- Serial ports, termios, sockets, MQTT, HTTP pages, OTA and syslog: reads and writes are input and output sequences; writes to files succeed whole.
- The metrics file written by `write_metrics`: a copy of the three counters.
- Lines with NUL bytes in `Readers.ReadersAgreeIff`: mlogger sees the text before the first NUL, powerdb all of it.
- Widths of the 64-bit counters in mlogger and of transaction ids, and overflow in `atoi`: these numbers are unbounded.
- Calendar and daylight-saving rules; the textual order of RFC 3339 timestamps in the table is taken to be the order of time.
- A restart of mlogger in the middle of a line: `EndToEnd.PulsesReachTheTable` takes each process to start at the beginning of one. What any other line does is in `Pipeline.PulsesConserved` and `Readers.CountersMeetTable`.
- Rounding of floating point: the firmware's quotient is real and then truncated, gaps and temperatures are real numbers, and the addition in the sensor hub is any function on bit patterns.
- jeelogger's `process_line`: per-node display state; its framer and rotation are the ones modelled.
- Updater.LogUpdater.PrintHourlyReport: the percentages and averages it prints are not modelled, only its effect on the state and the usages.
- Node types other than MeterReader and TempSensor: an unknown type has no handler and ends the program.
- rrdtool, pickle, SQLite and JSON internals: write logs, maps and an invertible snapshot. The cached last update of the queue is the first answer per file, kept in the saved history; a lost history file is not modelled. A flush whose data sources are all passed over counts as a batch without values, and the update that rrdtool refuses is in the log like the others.
- Pointers of the OCPP handler: charge points, connectors and transactions are values in maps of the handler, so aliasing between callbacks running at once is not captured.
- Boot, firmware, diagnostics and configuration data of charge points: plain assignments. Whether a panic in a callback ends the process is left open; if it does, a crash follows.
- The web pages of the central system, solar and water firmware, tariffs, graphs and statistics scripts: wrappers around the parts modelled or one-step facts.
- Subscriptions of sensors, hello fields other than node and spec, and resubscription after a reconnect.
- Descriptors beyond the size of an fd_set, a failing `inet_ntoa`, and what clients say to each other in the same iteration.
