# Log pipeline, buffered files, atomic state, sharded maps, channels and config saves

A Dafny model of the stateful core of the crate, with proofs about every input, every run and every
reachable state. `dafny verify dfyconfig.toml` checks the whole project.

- **The log pipeline.** `LogFormat` is how a record is printed, with the cached second, and
  `ENTRY_START_PATTERN` written out on characters. `LogWorker.Worker` is the writer task: a queue that
  senders fill at any time, a byte buffer, a `BufWriter` that writes through when it likes, lazy opening,
  rotation by day, flush signals, and file operations that fail at will. Its reference is
  `FilesOf`, the events cut into daily files. `LineGrouping` and `TraceReader.Source` are the tracer: lines,
  multi-line records, the switch to the newest file, filters that other tasks replace between records.
  `LogFiles` is what the files hold at every moment.
  `RoundTrip` and `Pipeline` put printer and parser together; `FileNames` orders the generated names;
  `Following` is a tracer of growing files, and `LiveTrace` runs worker and tracer side by side.
- **The pattern reader.** `BufferedFile.File` is a file behind a `BufReader` that returns chunks of any
  size. `PatternSearch.Until` says what a read yields in terms of the rest of the file alone.
- **Copy-on-write state.** `StateGuards` has the operations of one guard; `StateRuns` interleaves any
  number of tasks step by step, with `set` storing after it has let the mutex go, and compares with the
  transactions run one after the other.
- **Sharded map and set.** `Shards` compares 64 shards with one map; `SharedMaps.SharedMap` runs each
  operation with other tasks' operations in between, wherever a lock is waited for;
  `SharedSets.SharedSet` does the same for 64 shards of elements that hash and compare by a key of their own
  while write guards change their contents.
- **Channel.** `Channels.Channel` is one channel over the unbounded, bounded or oneshot transport.
- **Config save.** `ConfigSave.Config` records every state the disk goes through, so a crash at any step is
  covered.

Properties that turned out to hold only under a condition are stated with that condition, in both
directions:

- Printing then tracing is the identity exactly when no event text has a line ending in `\r` or a later
  line that looks like the start of an entry (`RoundTrip.PrintThenTrace`, over several files
  `Pipeline.EventsToRecords` and `Following.Follow`).
- The printed timestamps are right exactly when the first event is not in second zero of the epoch, because
  the empty cache claims that second (`Pipeline.StampsExact`, `LogFormat.CacheExact`).
- `set` and `blocking_set` bind the lock to `_`, which releases it before the store
  (`src/state/mod.rs:65`, `src/state/mod.rs:72`). A held guard's pointer is always the published one exactly
  when no set stores while a guard is held (`StateRuns.PointersExactly`). A set is lost exactly when a guard
  that loaded or last published before it publishes after it (`StateRuns.SetsSurvive`,
  `StateRuns.SetUnderGuard`); every run is serial in the transactions that are not lost
  (`StateRuns.RunsAreSerial`). `StateRuns.SetIsLost` is a run whose result is that of no order of its two
  transactions.
- A config save is reported as an outside change by a clone, which shares the remembered time, exactly in
  the window between the rename and the new stamp (`ConfigSave.OwnSaveReported`).
- Grouping keeps every line for all inputs exactly when the pattern does not match the empty line, as the
  default one does not (`LineGrouping.GroupingKeepsLines`).

The tracer follows only the newest file. What it had not read of a file when a newer one appears is never
sent, nor are files that were not the newest at any poll. `LiveTrace.WorkerThenTracer` says what is sent of
the files of a running worker, and `Following.NothingMissed` exactly when that is everything.

Where code and documentation disagree the code is followed: an error sent through a channel comes out of
`recv` as `Err`, not as `None` as the repository's `README.md:87` says; `get_locked` is documented to wait
for the lock but only makes the future of it (`src/state/mod.rs:85`), so it is the same as `get`.

Functions of a library stand for themselves as parameters: the calendar, the hash, compiled regular
expressions, serialisation of the config, and the Unicode classes of characters outside ASCII.
Failures and the order of events are nondeterministic choices; clocks never go back.
`PatternSearch` and `BufferedFile` require a non-empty pattern because `windows(0)` panics.

## Model

| member | source | states |
|---|---|---|
| BufferedFile.File.ReadUntilPattern | src/file/file.rs:195-240 | for every chunking: when the pattern is in the rest of the file, piece, pattern and what is left to read are the rest, and the pattern does not match earlier; when it is not, the result is the whole rest with `capt_eof`, and else nothing, with the cursor and the rest where they were |
| BufferedFile.File.ReadUntil | src/file/file.rs:176-191 | for every refill size: up to the first stop byte, which is skipped, or all that is left, or nothing at the end; the same result and cursor as the pattern reader with `capt_eof` |
| BufferedFile.File.ReadLine | src/file/file.rs:243-245 | the rest of the file up to the first line end, and the cursor behind it |
| BufferedFile.File.ReadLines | src/file/file.rs:248-254 | the whole rest of the file split at line ends; nothing is left to read |
| BufferedFile.File.SeekCurrent | src/file/file.rs:121-141 | a relative seek moves the position the user sees, whatever the read buffer holds; a failed one does not |
| BufferedFile.File.PushBack | src/file/file.rs:231-234 | bytes read too far go back to the stream: the user's position moves back by their number |
| BufferedFile.File.RewriteAll | src/file/file.rs:283-289 | the contents are replaced, or after a failure are the old ones or a prefix of the new ones |
| BufferedFile.SearchTailIsFind | src/file/file.rs:222-229 | scanning the last `n + stop_len - 1` bytes finds exactly the first match of the whole buffer, ending in the new chunk |
| BufferedFile.CollectMore | src/file/file.rs:179-188 | taking a refill up to its first stop byte leaves that byte the only one collected, at the end |
| BufferedFile.UntilByte | src/file/file.rs:179-190 | bytes collected up to a stop byte or the end of the file, without a final stop byte, are the next piece |
| BufferedFile.NextPiece | src/file/file.rs:248-254 | a read that yields nothing is at the end of the file; any other takes exactly the first of the remaining lines and makes progress |
| BufferedFile.UntilByteIs | src/file/file.rs:176-191 | the same for one byte: no stop byte in the piece, and piece, byte and the new rest are the old rest |
| PatternSearch.FindIsFirst | src/file/file.rs:223-225 | a window search returns the first match, and nothing only when there is none |
| PatternSearch.MatchReachesChunk | src/file/file.rs:220-225 | a match of the grown buffer ends in the new chunk and starts in the re-scanned tail |
| PatternSearch.OverlapSuffices | src/file/file.rs:222-229 | re-scanning `stop_len - 1` old bytes with the new chunk never misses or reorders a match, and fewer bytes than the chunk are over-read |
| PatternSearch.UntilFound | src/file/file.rs:227-237 | a match in the bytes read so far is the first one of the rest of the file |
| PatternSearch.UntilIs | src/file/file.rs:195-240 | what a read yields by where the pattern is and whether the end is wanted, without a search |
| PatternSearch.SplitStep | src/file/file.rs:195-240 | one read cuts off a piece without the pattern and makes progress |
| PatternSearch.JoinSplit | src/file/file.rs:195-240 | repeated reads until nothing is left end, and joining their pieces rebuilds the file up to one trailing pattern |
| PatternSearch.PiecesAreFree | src/file/file.rs:195-240 | no piece of repeated reads contains the pattern |
| PatternSearch.SplitTerminate | src/file/file.rs:195-240 | pieces written with the pattern after each are read back as they were |
| PatternSearch.SingleSeparator | src/file/file.rs:243-254 | for one byte, that holds of every piece without the byte |
| PatternSearch.TerminatedSingle | src/file/file.rs:243-254 | for one byte, the trailing pattern is there exactly when the file ends in that byte |
| LogFormat.CacheExact | src/logger/mod.rs:300-307 | the printed timestamp is that of the event exactly when some event so far is outside second zero of the epoch |
| LogFormat.PadDigits | src/logger/mod.rs:305 | a number that fits its width prints in exactly that many digits |
| LogFormat.PadValue | src/logger/mod.rs:305 | padded digits read as the number that was printed |
| LogFormat.StampParts | src/logger/mod.rs:305 | a timestamp with a four-digit year has 20 characters, digits and separators where they belong |
| LogFormat.StampReads | src/logger/mod.rs:305 | which calendar field stands at which position of a timestamp, read as a number, and which separators stand between |
| LogFormat.YearReads | src/logger/mod.rs:305 | years outside four digits have a sign and read as the year |
| LogFormat.SameDate | src/logger/mod.rs:355-356 | two timestamps share a date exactly when year, month and day agree |
| LogFormat.RecordReads | src/logger/mod.rs:381-393 | a record slice by slice: timestamp, space, level in five characters, space, spans if there are any, message, one line end |
| LogFormat.LevelFits | src/trace/mod.rs:20 | a padded level and a space are a level word with a boundary behind it |
| LogFormat.HeaderStartsEntry | src/trace/mod.rs:20 | every printed header with a four-digit year is recognised as the start of an entry, whatever follows |
| LogFormat.EmptyStampNoEntry | src/logger/mod.rs:295-307 | a header printed from the empty cache is not recognised |
| LogFormat.EntryStartIs | src/trace/mod.rs:20 | a line is recognised if and only if it is a timestamp, perhaps a fraction, perhaps `Z`, white space, one of the eight level words and a rest that does not continue the word, one after the other |
| LogFormat.NoStampNoEntry | src/trace/mod.rs:20 | a line whose first 19 characters are not a timestamp is not recognised |
| LogFormat.NoLevelNoEntry | src/trace/mod.rs:20 | a line without a level word behind the place of the timestamp is not recognised |
| LogFormat.AsciiClasses | src/trace/mod.rs:20 | which ASCII characters are digits, white space and word characters |
| LineGrouping.Trim | src/trace/mod.rs:228 | a prefix of the line that ends in neither `\r` nor `\n`, all that is cut off being such characters |
| LineGrouping.BufferedRun | src/trace/mod.rs:226-247 | the buffer always shows the lines held so far without leading blank ones, and comes out as one record with exactly the lines that continue it |
| LineGrouping.RecordsAreGroups | src/trace/mod.rs:222-247 | for every pattern: the records are the lines cut before every matching line, each group without its leading blank lines, and no record for a group of blank lines |
| LineGrouping.RecordsKeepBlanks | src/trace/mod.rs:222-247 | with a pattern that does not match the empty line, the records are the groups of the lines after the leading blank ones, whole |
| LineGrouping.GroupsAreCuts | src/trace/mod.rs:230-240 | the groups hold every line once and in order, and only the first line of a group may match |
| LineGrouping.GroupingKeepsLines | src/trace/mod.rs:222-247 | the records of a poll, joined by line ends, are its trimmed lines without the leading blank ones, for all lines if and only if the pattern does not match the empty line |
| LineGrouping.BlankLineLost | src/trace/mod.rs:230-240 | every pattern that matches the empty line loses the second line of two, the first with text and the second blank |
| RoundTrip.SplitAppend | src/trace/mod.rs:226-228 | lines before and after a line end are read independently |
| RoundTrip.LinesOfFile | src/logger/mod.rs:381-393 | the lines of a log file are those of its records one after the other |
| RoundTrip.BodyIsJoin | src/logger/mod.rs:381-393 | the lines of one record, joined, are its printed text |
| RoundTrip.BlockStarts | src/trace/mod.rs:231 | the first line of every printed record starts an entry after trimming |
| RoundTrip.CleanIsSingle | src/trace/mod.rs:228-240 | an event is clean exactly when trimming changes no line of its record and only the first one starts an entry |
| RoundTrip.TracedExactly | src/trace/mod.rs:222-247 | for any pattern that recognises the headers: the records are the printed ones if and only if all events are clean |
| RoundTrip.PrintThenTrace | src/trace/mod.rs:222-247 | tracing a printed file yields exactly one record per event, the printed text without the final line end, if and only if all events are clean |
| FileNames.PadMonotone | src/logger/mod.rs:187 | of two zero-padded numbers the smaller sorts first whatever follows |
| FileNames.NamesSortLikeTime | src/logger/mod.rs:186-190 | the name of the instant that is earlier by year, month, day, hour, minute, second or microsecond sorts strictly first, for any process numbers |
| FileNames.NameReads | src/logger/mod.rs:186-190 | which field stands at which position of a generated name, read as a number, with separators, process number and `.log` |
| FileNames.NameAtReads | src/logger/mod.rs:186-190 | the same of a name generated at an instant in microseconds, its second read by the calendar |
| FileNames.EarlierIsBefore | src/logger/mod.rs:187 | the fields of a name, most significant first, are ordered as the calendar orders instants |
| FileNames.LexLessIs | src/trace/mod.rs:289 | one name sorts before another exactly when they agree up to a place where it ends or has the smaller character |
| FileNames.LatestIsGreatest | src/trace/mod.rs:288-290 | the chosen name is one of the directory's and none sorts after it |
| FileNames.LatestIsNewest | src/trace/mod.rs:276-291 | among generated logs the one generated last is chosen, in any listing order |
| FileNames.NamesIncrease | src/logger/mod.rs:186-190 | with a calendar in which later seconds are later by year, month, day, hour, minute or second, names generated at increasing microseconds sort strictly in that order |
| TraceReader.PassedAppend | src/trace/mod.rs:264-271 | filtering composes over a list of records cut anywhere |
| TraceReader.PassedEach | src/trace/mod.rs:264-271 | a record between others is sent exactly when the filters in force at its turn match it, in its place |
| TraceReader.MatchesIs | src/trace/mod.rs:67-91 | a text matches if and only if it contains every key with its value in one of the three spellings and satisfies every expression |
| TraceReader.PassAll | src/trace/mod.rs:67-71 | without filters every record passes |
| TraceReader.LinesStep | src/trace/mod.rs:226-228 | reading one line takes exactly one trimmed line off what is left |
| TraceReader.LineTaken | src/trace/mod.rs:226-243 | one line more leaves sent and outstanding records together as they were |
| TraceReader.Source.FlushBuffer | src/trace/mod.rs:254-273 | a non-empty buffer is sent if it passes the filters in force now, and the buffer is empty |
| TraceReader.Source.TakeLine | src/trace/mod.rs:231-240 | a matching line flushes and begins a record, any other line continues the buffer |
| TraceReader.Source.ReadLines | src/trace/mod.rs:222-247 | a poll sends the filter-passing records of the unread text, reads to its end and leaves no buffer |
| TraceReader.Source.Poll | src/trace/mod.rs:195-249 | the switch to the newest name, from its start or, first and with `only_new`, its end; a file that cannot be opened changes nothing; then the unread records are sent |
| TraceReader.RecordsAppend | src/trace/mod.rs:222-247 | two polls cut before a matching line emit what one poll emits |
| LogFiles.FilesKeepAll | src/logger/mod.rs:355-378 | the daily files hold every event once and in order |
| LogFiles.FilesAreDays | src/logger/mod.rs:355-378 | each daily file has one date, only the first may be empty, and a new file begins only when the date changes |
| LogFiles.EventsOf | src/logger/mod.rs:298-300 | the events of commands are those of the Log commands, one after the other; a Flush command has none and asks for its signal |
| LogFiles.SoundOpened | src/logger/mod.rs:344-353 | opening the current path, which never was on disk, keeps names fresh, one day per file and every file's text accounted for |
| LogFiles.SoundBegun | src/logger/mod.rs:365-377 | so does beginning a file with a new name, and failing to |
| LogFiles.SoundPutOut | src/logger/mod.rs:395-400 | so does writing the buffer out, as far as it goes |
| LogFiles.SoundPut | src/logger/mod.rs:381-393 | so does buffering a record of the date for the open file |
| LogFiles.ArrivingPart | src/logger/mod.rs:396-399 | a first part of the buffer, added to what was written, leaves a first part of every batch of records filed for the file |
| LogWorker.Worker.constructor | src/logger/mod.rs:291-296 | the state in which the task starts satisfies the invariant |
| LogWorker.Worker.TouchCache | src/logger/mod.rs:303-307 | the cached second after an event |
| LogWorker.Worker.OpenCurrent | src/logger/mod.rs:344-353 | a lazily opened path was not on disk and starts empty; an open file is kept; without a failure a file is open |
| LogWorker.Worker.CloseOut | src/logger/mod.rs:357-363 | the old file gets the whole buffer before it is replaced, or a first part of it when writing fails |
| LogWorker.Worker.Begin | src/logger/mod.rs:365-377 | the path is a new name even when opening fails; the date is the event's if the file was opened and else the old one; only a failed open leaves no file |
| LogWorker.Worker.Rotate | src/logger/mod.rs:355-378 | the old file is complete, a new empty one is open for the new date, and the path is a new name |
| LogWorker.Worker.PutText | src/logger/mod.rs:382-393 | what is appended to the buffer, slice by slice: timestamp, space, level in five characters, space, spans if there are any, message, one line end |
| LogWorker.Worker.WriteIfDue | src/logger/mod.rs:395-400 | the buffer stays when a command waits and it has no more than 48 * 1024 characters, and is empty else; disk and buffer together are unchanged |
| LogWorker.Worker.Write | src/logger/mod.rs:381-401 | the record goes to the end of the open file's text, on disk or in the buffer, while other commands arrive |
| LogWorker.Worker.Deliver | src/logger/mod.rs:339-401 | the event is filed once under the path that is open after opening and rotation, and is dropped only when opening a file failed |
| LogWorker.Worker.HandleLog | src/logger/mod.rs:300-402 | one Log command keeps every invariant and adds the event to the daily files |
| LogWorker.Worker.HandleFlush | src/logger/mod.rs:404-416 | after a Flush command the buffer is empty, the daily files of all events so far are on disk, and the signal is sent |
| LogWorker.Worker.Step | src/logger/mod.rs:298-418 | every round of the loop keeps the invariant, with senders interleaved; a Flush command records all that is filed then as flushed |
| LogWorker.Worker.Run | src/logger/mod.rs:291-419 | over a whole run every accepted command is handled in order, and the buffer is empty at the end |
| LogWorker.Worker.OnDisk | src/logger/mod.rs:298-418 | conservation: the files in order of creation hold the printed events, each once and in order, but for those in the buffer |
| LogWorker.Worker.FlushIsDurable | src/logger/mod.rs:146-154 | from the moment the signal of a flush is sent, in every state the disk goes through, also in the middle of later commands: while writing works, all that was filed before the flush is on disk; while opening works too, that is the daily files of all events accepted before it, across batching and rotation |
| LogWorker.Worker.FlushInOrder | src/logger/mod.rs:404-416 | the files in order of creation begin with the events before an acknowledged flush |
| LogWorker.Worker.FilesHoldOneDay | src/logger/mod.rs:344-378 | for any order of timestamps and any failures to open and to write, the entries filed for a file have one date, and at every moment the file is a prefix of one first part for each batch, the batches being consecutive runs of these entries; while writing works, it is the whole of them with the buffer after the open file |
| LogWorker.Worker.FilesComplete | src/logger/mod.rs:298-418 | with an empty buffer each file on disk is exactly the text of its daily file |
| LogFiles.DiskAndBuffer | src/logger/mod.rs:395-400 | the files and then the buffer are the text of all events |
| LogFiles.DurableLog | src/logger/mod.rs:395-400 | a Log command puts at most itself into the buffer, so earlier flushes stay durable |
| LogFiles.DurableFlush | src/logger/mod.rs:404-416 | an emptied buffer makes every earlier event durable |
| Pipeline.StampsExact | src/logger/mod.rs:300-307 | all timestamps of a run are right exactly when its first event is not in second zero of the epoch |
| Pipeline.OneDate | src/logger/mod.rs:355-356 | entries of one file's date are exactly those whose seconds have its year, month and day |
| Pipeline.EventsToRecords | src/trace/mod.rs:222-247 | events with four-digit years, printed into any number of daily files that are read whole one after the other, give one record each, in order and with its own timestamp, if and only if they are all clean |
| Pipeline.BodiesOwn | src/logger/mod.rs:300-307 | printed texts carry the timestamps of their own events, the level in five characters, the spans and the message |
| Pipeline.TraceFile | src/trace/mod.rs:175-251 | the first poll of an unfiltered tracer over a printed file sends exactly the printed records if and only if the events are clean |
| LiveTrace.WaitingFiles | src/logger/mod.rs:298-402 | whenever the worker waits for a command all its files but the last are complete and the last one ends at a record end |
| LiveTrace.CommandGrows | src/logger/mod.rs:355-378 | a command leaves all files as they are but for one entry more, at the end of the last file or alone in a new one |
| LiveTrace.PollFiles | src/trace/mod.rs:276-291 | a poll of the directory of such files, listed in any order, meets the whole of the newest file on disk |
| LiveTrace.StepBeside | src/logger/mod.rs:298-418 | the worker takes a command, and what the tracer has met and sent stays right for the files as they are then |
| Following.Follow | src/trace/mod.rs:195-251 | whatever polls at record ends meet, a tracer that begins with the newest file of the first one sends what one pass over the entries met gives, and that is their printed texts if and only if they are clean |
| Following.Look | src/trace/mod.rs:195-247 | one poll of the directory sends the records of what is new in the newest file, from its start if it is another than before |
| Following.MetIsThere | src/trace/mod.rs:195-220 | the polls meet all entries from the file begun with to the end of the last poll if and only if no file has an end, and no whole file is there, that no poll meets before a newer one |
| Following.NothingMissed | src/trace/mod.rs:195-220 | a tracer that began with the first file and polled at the end meets every entry if and only if there are no such gaps; one that began with the last file meets that file |
| Following.MetGrows | src/trace/mod.rs:195-247 | what was met stays the same while files grow |
| LiveTrace.WorkerThenTracer | src/trace/mod.rs:195-291 | the tracer polls the worker's own directory between any two commands and once more at the end: it has then sent one record for each entry met, in order and as printed, if and only if these are clean; the last poll ends with the last record |
| Pipeline.PollsCompose | src/trace/mod.rs:222-247 | polls at record ends emit together what one poll over the whole file emits |
| Pipeline.TracedFiles | src/trace/mod.rs:222-247 | the records of files read one by one are those of their joined text |
| StateGuards.SharedState.Lock | src/state/mod.rs:48-60 | a guard starts from the published value, unmodified, with counter zero, and the mutex is held |
| StateGuards.StateGuard.Change | src/state/guard.rs:65-72 | the first change copies the value; nothing is published |
| StateGuards.ReadsOwnChanges | src/state/guard.rs:52-73 | whatever was published, synced or cancelled before, the holder reads its own changes since the guard was made or last cancelled, on top of the value loaded or last published until then |
| StateGuards.StateGuard.Cancel | src/state/guard.rs:24-26 | the working value is discarded; pointer and counter stay |
| StateGuards.StateGuard.Sync | src/state/guard.rs:29-35 | a working value is published under a new pointer, which the guard keeps too |
| StateGuards.StateGuard.SyncN | src/state/guard.rs:38-43 | publishes when modified and the counter is a multiple of `n` or `n` is zero; counts every call |
| StateGuards.StateGuard.Drop | src/state/guard.rs:46-50 | dropping publishes the working value and then frees the mutex |
| StateGuards.PointerAgrees | src/state/guard.rs:29-35 | while only this guard stores, its pointer is the published one |
| StateGuards.CurrentIsPublished | src/state/guard.rs:24-43 | the guard's pointer holds the value of its last publishing call, computed without pointers |
| StateGuards.CancelRollsBack | src/state/guard.rs:24-26 | after any operations `cancel` returns to the value last published or first loaded, and the drop then publishes nothing |
| StateGuards.SyncSchedule | src/state/guard.rs:38-43 | from any counter, the number of publications of k calls is the number of multiples of `n` they meet |
| StateGuards.CountsCalls | src/state/guard.rs:38-43 | the counter counts every call, publishing or not, on a changed guard or not |
| StateGuards.FreshSchedule | src/state/guard.rs:38-43 | on a changed fresh guard k calls publish ceil(k / n) times, k times for n zero |
| StateGuards.PublishedLags | src/state/guard.rs:38-43 | the published value is the working value fewer than n calls ago |
| StateRuns.RunIsExclusive | src/state/mod.rs:48-60 | in every run at most one task is in a transaction, the one with the mutex |
| StateRuns.StepPointers | src/state/mod.rs:63-74 | every step keeps held pointers published, but for a store of `set` under a held guard, which never does |
| StateRuns.PointersExactly | src/state/mod.rs:48-74 | in any run held pointers are always the published ones if and only if every `set` stores with no guard held |
| StateRuns.RunsAreSerial | src/state/mod.rs:48-74 | in every run, sets included, the published value with no guard held is that of the surviving transactions one after the other, in the order in which guards load and sets store |
| StateRuns.SetsSurvive | src/state/mod.rs:63-74 | all transactions survive if and only if every guard that publishes does so with the published pointer, that is, no set stored since it loaded or last published |
| StateRuns.QuietKeepsSets | src/state/mod.rs:63-74 | sets that store with no guard held all survive |
| StateRuns.LocksAreSerial | src/state/mod.rs:48-60 | with guards as the only writers every run is serial with all its transactions |
| StateRuns.AloneIsChanges | src/state/guard.rs:46-50 | a guard that is not cancelled leaves all its changes, made one after the other |
| StateRuns.SetUnderGuard | src/state/mod.rs:63-74 | for any operations between the store of a set under a held guard and the guard's drop, the pointer that was set is still the published one if and only if the guard published nothing |
| StateRuns.SetIsLost | src/state/mod.rs:65-66 | a run whose result is that of neither order of its two transactions |
| StateRuns.ReadsSeePublished | src/state/mod.rs:78-88 | in every run a lock-free read sees the initial value or that of the last publication |
| StateRuns.Make | src/state/guard.rs:15-73 | every step of any task, made by the methods of the state and of its open guard, leaves them as the step says |
| StateRuns.Play | src/state/mod.rs:48-88 | over any interleaved run of the methods, lock-free reads and the holder's reads show at every moment what the steps say |
| StateRuns.BothFieldsKept | src/logger/mod.rs:80-92 | in every run of tasks that change level or path under a guard, however they interleave, the last level and the last path are both kept |
| Shards.LookupIsUnion | src/shared/map.rs:59-64 | a lookup in the key's own shard is a lookup in the one map |
| Shards.ShardIsRemainder | src/shared/map.rs:59-64 | the index of a key's shard is what its hash leaves after whole rounds of 64 |
| Shards.UpdateIsUnion | src/shared/map.rs:68-103 | a change of one key in its own shard changes that key in the one map and nothing else, and keys stay in their shards |
| Shards.CountIsSize | src/shared/map.rs:204-215 | the shard sizes add up to the number of keys of the one map |
| Shards.ShardsRefineMap | src/shared/map.rs:68-121 | insert, try_insert, remove and get act and answer as on one map, and every key stays in the shard of its hash |
| Shards.OpMeans | src/shared/map.rs:68-121 | what each operation leaves under its key, what it answers, and that all other keys stay |
| Shards.KeyStays | src/shared/map.rs:81-94 | a present key that is neither overwritten nor removed gives its item to every caller |
| Shards.OneWinner | src/shared/map.rs:81-94 | among interleaved `try_insert` calls for an absent key the first gets None and all others the winner's item |
| Shards.ScanPerKey | src/shared/map.rs:186-201 | for every key there is a moment of the scan at which collected and actual map agree on it |
| Shards.UntouchedIsCollected | src/shared/map.rs:186-201 | a key untouched during a scan is collected with its item |
| Shards.QuietScan | src/shared/map.rs:186-215 | with no writers a scan collects and counts exactly the map |
| Shards.CountBetween | src/shared/map.rs:204-215 | while others only insert during the scan, a count lies between the sizes at its start and at its end |
| Shards.InsertsGrow | src/shared/map.rs:68-94 | operations other than remove never take a key out of a shard |
| Shards.InsertsGrowFrom | src/shared/map.rs:68-94 | the same from any moment on, whatever was removed before it |
| SharedMaps.SharedMap.Run | src/shared/map.rs:68-121 | one operation under the lock of its shard acts and answers as on the one map |
| SharedMaps.SharedMap.NextShard | src/shared/map.rs:131-132 | a scan sees its next shard as it is when its lock is got, and what it saw before stays what it saw |
| SharedMaps.SharedMap.Insert | src/shared/map.rs:68-77 | the map is that at the moment the lock is got with the new item, made before waiting, under the key; returns the item that was there |
| SharedMaps.SharedMap.TryInsert | src/shared/map.rs:81-94 | inserts only when the key is absent at that moment and else changes nothing; returns the item found |
| SharedMaps.SharedMap.Remove | src/shared/map.rs:97-103 | the map is that at the moment without the key; returns the item that was there |
| SharedMaps.SharedMap.Get | src/shared/map.rs:116-121 | the item at that moment; the map stays |
| SharedMaps.SharedMap.Count | src/shared/map.rs:204-215 | the sizes of the shards as they were at non-decreasing moments of the scan, during which only the other tasks' operations happen; when these remove nothing, a number between the sizes at start and end |
| SharedMaps.SharedMap.ToHash | src/shared/map.rs:186-201 | the entries of the shards as they were at non-decreasing moments of the scan |
| SharedMaps.SharedMap.GetAll | src/shared/map.rs:124-137 | the items of the shards at such moments, one for each key |
| SharedMaps.SharedMap.Find | src/shared/map.rs:152-183 | an entry found was in the map at a moment of the scan and satisfies the predicate; in a quiet map None means that none does |
| SharedMaps.SharedMap.FindIn | src/shared/map.rs:159-179 | the same for one shard, entry by entry with the lock released in between |
| SharedMaps.ItemsOfMore | src/shared/map.rs:131-134 | the items of a further shard continue those collected, with no key twice |
| SharedSets.SetRefinesMap | src/shared/set.rs:107-172 | replace, get, insert and take on the elements of a shard, equal by key, are the map operations from keys to items |
| SharedSets.SetsRefineMap | src/shared/set.rs:98-172 | the operations on 64 shards act and answer as on one map, and every element stays in the shard of its key |
| SharedSets.WriteKeepsMap | src/shared/set.rs:28-49 | a write into an item keeps every element in its shard and the one map as it is |
| SharedSets.WritesAreInvisible | src/shared/set.rs:28-49 | after any interleaving of operations and writes every element is in the shard of its key, and the shards stand for the one map that the operations alone make |
| SharedSets.LastWord | src/shared/set.rs:107-172 | after the last insert of a value its item is there, after the last remove none is, whatever else was done and written |
| SharedSets.InsertChanges | src/shared/set.rs:107-152 | a new element has its key, its item and a clone of the key as content; remove leaves no element of the key; elements of other keys stay |
| SharedSets.WriteChanges | src/shared/set.rs:197-200 | a write makes the value the item's content and changes no other element |
| SharedSets.SharedSet.Run | src/shared/set.rs:107-172 | one operation under the lock of its shard answers as the one map after all steps so far |
| SharedSets.SharedSet.Insert | src/shared/set.rs:107-120 | the shards stand for the map at the moment the lock is got with the new item under the value; returns the item overwritten, whatever was written into items before |
| SharedSets.SharedSet.TryInsert | src/shared/set.rs:124-141 | inserts only a value that is absent at that moment and else changes nothing; returns its item |
| SharedSets.SharedSet.Remove | src/shared/set.rs:144-152 | the shards stand for the map at that moment without the value; returns its item |
| SharedSets.SharedSet.Get | src/shared/set.rs:165-172 | finds the item under its original value, whatever was written into it |
| Channels.Channel.SendSync | src/channel/sender.rs:23-44 | exactly when each transport accepts, refuses as full or refuses as closed, a oneshot also while another clone holds the inner lock; a refused message changes no queue, and the inner sender stays exactly when the lock was held |
| Channels.Channel.SendAsync | src/channel/sender.rs:47-53 | waits exactly when a bounded queue is full and open, and otherwise sends or reports closed |
| Channels.Channel.TryRecv | src/channel/receiver.rs:46-79 | takes the oldest message if there is one; an empty attempt leaves an open oneshot as it was |
| Channels.Channel.PollRecv | src/channel/receiver.rs:18-43 | pending exactly while the channel is open and empty; the oneshot's receiver moves into the future |
| Channels.Channel.CancelRecv | src/channel/receiver.rs:32-36 | giving up a `recv` in progress loses nothing from a queue but closes a oneshot |
| Channels.Channel.PollInner | src/channel/receiver.rs:133-147 | the inner receiver's precondition, not to be polled after completion, is met by every caller |
| Channels.Channel.Poll | src/channel/receiver.rs:112-150 | as `recv`, but the oneshot's receiver stays until it is ready, so giving up between polls loses nothing |
| Channels.Channel.CloneSender | src/channel/sender.rs:11-19 | clones share one channel and keep its invariant |
| Channels.Channel.Run | src/channel/receiver.rs:16-89 | over any interleaving: callers are told exactly the received messages, received then queued are the accepted ones in order, a bounded queue stays within capacity, a oneshot accepts at most one |
| ConfigSave.TmpDiffers | src/config/mod.rs:133-136 | the temporary file is another file than the target |
| ConfigSave.TmpIsBeside | src/config/mod.rs:133-136 | the temporary file is in the target's directory and has the target's name with `.tmp` behind it, after a further dot when there is no extension |
| ConfigSave.Config.WriteFile | src/config/mod.rs:139 | at every step of the write only the temporary file changes |
| ConfigSave.Config.Replace | src/config/mod.rs:106-152 | at every step the target is the complete old file, and from the rename on the complete new one; a failure leaves the old one, and no complete temporary file when removing works |
| ConfigSave.Config.Write | src/config/mod.rs:106-160 | the same for the whole save; the time is remembered only after the rename, and the check with it; checks by a clone during it report it exactly between rename and stamp, and after it none does, whatever their time and interval |
| ConfigSave.Config.Check | src/config/mod.rs:168-202 | false within the interval; after it an error when the file is absent, false when it is no newer than the remembered time, and true else; a settled save is never reported |
| ConfigSave.Config.ChangedOutside | src/config/mod.rs:188-201 | a later change by another program is reported by every check once the interval has passed |
| ConfigSave.OwnSaveReported | src/config/mod.rs:147-202 | over every step of a save that began with nothing to report: a check reports it if and only if the rename is done, the interval has passed and the file is newer than the time remembered before |
| ConfigSave.SaveIsReported | src/config/mod.rs:147-202 | one save that falls into the window: not reported before the rename, reported after it, and not any more with the stamp |

## Left out

- Logger::init and trace_file: the deletion of the oldest logs at start and the line filter over one file are single passes over a listing and a file, and no other property depends on them.
- on_event and on_new_span: how span names and fields are put into text; a record's spans and message are inputs here.
- Console output: the debug printing of the worker and `pretty_print` are user interface.
- LogWorker.Worker.Run: only commands that get into the queue are modelled; an event dropped because the queue is full is not one of them.
- LogWorker.Worker.FlushIsDurable: assumes that writing works, and for the events that could not be filed that opening does; what an operating system keeps after a power failure is not modelled.
- LogWorker.Worker.OnDisk: assumes that opening and writing work and that a path is set, as the code promises nothing otherwise.
- LogWorker.Worker.Begin: the clock gives a later name each time, so that names are fresh; the directory part of the path always exists.
- LogWorker.Worker.WriteIfDue: text is counted in characters and not in encoded bytes; only when the buffer is written depends on it, not what.
- RoundTrip.PrintThenTrace: timestamps have four-digit years, and the text has no encoding; invalid UTF-8 is not modelled.
- TraceReader.Source.Poll: text that is still unread when the tracer switches files is dropped as in the code; log files only grow, and a failed seek is not modelled.
- Following.Follow: polls that see part of a record are not covered, as the code makes two records of it; the tracer's own attempts to open a file succeed.
- LiveTrace.WorkerThenTracer: the tracer polls while the worker waits for a command and not in the middle of one; the directory holds only the files of this worker, the calendar library is taken to be increasing, and names are read until the years have five digits.
- BufferedFile.File.RewriteAll: `File::write` after a buffered read bypasses the read buffer and is not modelled; nor are `cut`, `read_exact` and the path operations.
- StateRuns.RunsAreSerial: lazy initialisation, `Clone` of a state and the wrap-around of the call counter are not modelled; all steps are atomic and sequentially consistent.
- StateRuns.BothFieldsKept: the logger state has its level and path; the queue's sender in it never changes, and the one `set` of it, at start, is not in the run.
- Shards.ShardsRefineMap: the lazily created cell with the shards is always there; before it exists the code answers as for an empty map.
- SharedMaps.SharedMap.Find: the predicate looks at key and item and not at a content that changes during the scan; a hash map's iteration order is any order, and stays the same until the map changes.
- SharedMaps.SharedMap.GetAll: the call of `count` that sizes the vector is left out.
- SharedSets.SharedSet.Run: the scans of the set are those of the map and are not repeated; a write guard changes a content in one step.
- Channels.Channel.SendSync: that another clone holds the inner lock, in `closed` or `is_closed`, is a free choice at each send; the two calls themselves are not modelled.
- Channels.Channel.SendAsync: a waiting sender is polled again by its caller; the fairness of the waiters' queue is not modelled.
- ConfigSave.Config.Replace: `sync_all` and what a power failure does to data that was renamed before it reached the disk; the file extension is valid text.
- ConfigSave.Config.Check: its two tests of the interval are one, as no other check runs between them.
- Fuzzy matching, directories, metadata, flags and the procedural macros: wrappers or other subjects.
