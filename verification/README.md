# Vaulkeeper core: a verified model

Vaulkeeper is a Windows disk-care tool. This project models the parts of its C++ core whose correctness
does not show in any single function, and proves what they promise:

- **The lock-free queue** (`MpscQueue`): every interleaving of any number of two-step pushes and one
  consumer, over an explicit heap of nodes that are allocated, linked and freed. An invariant ties the order
  of the `head` exchanges, the partly linked chain, the pushes in flight and the live nodes together.
- **The thread pool** (`ThreadPool`, `ThreadPoolProgress`, `JobQueue`): workers, submitters (clients, and jobs running inside a
  worker), `waitIdle` callers and the destructor as program counters around one mutex, two condition variables
  with spurious wakeups, and an atomic count that is lowered outside the lock; the priority queue as an array heap.
- **The quarantine** (`IndexCodec`, `IndexFile`, `IndexExample`, `FileSystem`, `Quarantine`, `QuarantineRestarts`, `QuarantineStore`):
  the JSON printer and the hand-written scanner, torn writes, and a state machine of captures, restores, discards,
  purges and restarts over a file system whose calls may fail, restarts from an index that is behind included.
- **IPC frames** (`IpcMessage`, `IpcKeys`, `IpcBytes`): header layout, round trip, the error detection of the
  four-lane checksum modulo 2^64, and which other keys it refuses.
- **The folder tree and the string interner** (`StringInterner`, `TreeModel`, `TreeBuilder`, `ScanEngine`): handles
  that stand for strings, a tree keyed by handles whose totals agree with the flat list of entries, and the walk that
  feeds it in whatever order it comes upon them.
- **Cron** (`Calendar`, `Cron`, `CronText`, `CronSearch`, `CronExample`): the field parser, the syntax it is meant to read, the
  calendar behind `localtime` and `mktime`, and the search for the next fire time.
- **The NTFS fixup** (`UpdateSequence`) and **duplicate grouping** (`Duplicates`).

Where the source changes state in place the model does too: classes whose methods update fields, loops over
arrays and cursors. Each such method is proved equal to a function of the old state, and the promises are
lemmas about those functions. What such a function computes is in turn tied to plain numbers, bytes and texts, so
that no definition stands for itself alone. Only the heap of `JobQueue.PriorityQueue` is specified by the multiset of its jobs.
`Integers`, `Sequences`, `Decimal` and `Wrappers` hold what several modules share. What the operating system decides (a rename that fails, what a removal leaves
behind, a clock, a random id, a file's size or digest, which sleeping thread a notification wakes) is a
parameter. Run `dafny verify dfyconfig.toml` to verify everything.

## What the proofs turned up

Each of these is a lemma below, with the exact condition under which the code does what is meant.

- Control characters other than `\b \f \n \r \t` are written as `\u00XX`, which the scanner reads back as the five
  characters `u00XX`; a size of 2^63 or more stops the load at its item, losing it and all after it. A reload is
  the identity exactly when neither occurs (`IndexCodec.ReloadIsIdentityExactly`, `IndexCodec.LostOnReload`).
- In the day-of-month and month fields the parser sets bit `v` while the search reads bit `v - 1`. What is written for
  15 June fires on 16 July; day 31 and month 12 have no bit; no expression, not even `* * * * *`, ever fires in
  January or on the first of a month (`CronSearch.FiresAsWritten`, `CronSearch.NeverInJanuaryOrOnTheFirst`,
  `CronSearch.JuneFiresInJuly`). An expression fires exactly when it is meant to if and only if it can never fire at
  all: a field is empty, or it names day 31 alone, of months that have none (`CronSearch.FiresAsMeantExactly`,
  `CronSearch.ScheduleFiresAsMeantExactly`). Minute, hour and weekday are right.
- The field parser ignores a failed `from_chars`: `x` is accepted as the least value of its field, and so is a number
  of 2^31 or more. An accepted part is read as it is written exactly when it follows the syntax with numbers that are
  `int`s (`CronText.ReadAsWrittenExactly`, `CronText.WordIsReadAsLeast`, `CronText.HugeIsReadAsLeast`,
  `CronText.XIsMinuteZero`). For the same reason `-5` and `5-` are spans that reach to the bound of the field
  (`CronExample.OpenSpans`).
- `nextFire` called in minute 59 first probes minute 60: if month, day, weekday and hour of the current hour are all
  set, `bitset::test` throws; otherwise minute 0 of the next hour is skipped. `* * * * *` asked at 00:59 throws, and
  `0 5 * * *` asked at 04:59 misses five o'clock. The answer is right from minute 59 exactly when the four fields
  do not all hit and the next minute does not hit either (`CronSearch.EveryMinuteThrows`,
  `CronSearch.FiveOClockIsSkipped`, `CronSearch.Minute59Exactly`).
- The search covers 366 days: what fires on 29 February is answered with "never" when asked on 1 March of a leap
  year (`CronSearch.LeapDayIsNotFound`).
- A payload of 2^32 bytes or more comes back cut to its length modulo 2^32, with ok as the answer
  (`IpcMessage.PayloadSurvivesExactly`, `IpcMessage.HugePayloadComesBackEmpty`).
- A frame opened under a key that differs in one byte from the sender's is accepted exactly when the difference times
  the uses of that byte is a multiple of 2^64, so never for a payload below 2^60 bytes
  (`IpcKeys.WrongKeyByteExactly`, `IpcKeys.WrongKeyIsRefused`).
- The 2^32-nd distinct string gets handle 0 and views as the empty string; with one more, two strings share a
  handle (`StringInterner.HandlesNameStringsExactly`, `StringInterner.ViewsLastExactly`,
  `StringInterner.NumeralsClash`).
- A consumer that pops while the oldest outstanding push stands between its exchange and its link sees an empty
  queue although later pushes may be complete (`MpscQueue.SeesNothingExactly`,
  `MpscQueue.HalfDonePushHidesLaterOnes`).
- A restore replaces a file that has come to stand at the original path, and loses nothing outside the store exactly
  when nothing stands there or only what the restore puts there (`Quarantine.RestoreLosesNothingExactly`,
  `Quarantine.RestoreReplacesAFile`).
- A capture whose index write is refused answers an error after the source was moved (`Quarantine.RefusedCapture`).
  If the next restart comes before another operation writes the index, no item names the source any more, and none
  ever will: a held item survives restarts exactly when the index named it or was written before the first of them
  (`QuarantineRestarts.RetainedExactly`, `QuarantineRestarts.RefusedCaptureIsLost`,
  `QuarantineRestarts.CaptureLosesTheSource`).

## Model

| member | source | states |
|---|---|---|
| MpscQueue.StepIsSafe | src/core/util/mpsc_queue.hpp:34-50 | From a good state no step of any thread touches a freed or foreign node, and the state stays good: exchange order, partly linked chain, pushes in flight and live nodes agree |
| MpscQueue.RunIsSafe | src/core/util/mpsc_queue.hpp:34-50 | The same over every interleaving of any length |
| MpscQueue.DeliversInExchangeOrder | src/core/util/mpsc_queue.hpp:34-50 | In every interleaving the values popped are exactly the first ones in the order of the exchanges of `head`, and each producer's exchanges are the first of its calls in call order |
| MpscQueue.ReturnedComesFirst | src/core/util/mpsc_queue.hpp:34-38 | Real-time order across producers: at any moment of any run every value whose push has returned has its place in the order, and what gets its place later belongs to a push then in progress or called later |
| MpscQueue.BegunIsCalls | src/core/util/mpsc_queue.hpp:34-37 | The recorded calls are the calls of the run, so nothing is invented |
| MpscQueue.SeesNothingExactly | src/core/util/mpsc_queue.hpp:40-54 | The consumer sees an empty queue exactly when all exchanged values were taken or the oldest outstanding push is half done |
| MpscQueue.EmptyExactly | src/core/util/mpsc_queue.hpp:52-54 | With no push half done, `empty()` holds exactly when pops equal pushes |
| MpscQueue.HalfDonePushHidesLaterOnes | src/core/util/mpsc_queue.hpp:34-43 | A run that ends with a complete push in the queue, nothing popped, and a consumer that sees nothing |
| MpscQueue.DrainsCompletely | src/core/util/mpsc_queue.hpp:40-50 | Once no push is half done, popping until empty yields every outstanding value, in order, and leaves the queue empty |
| MpscQueue.WholePush | src/core/util/mpsc_queue.hpp:34-38 | A push that runs to its end, while any other producers are stopped anywhere in theirs, keeps the invariant |
| MpscQueue.WholePop | src/core/util/mpsc_queue.hpp:40-50 | A pop that finds a linked node returns the next value in exchange order and keeps the invariant |
| MpscQueue.OnlyTheChainIsLive | src/core/util/mpsc_queue.hpp:22-29 | With no push in flight the live nodes are exactly those linked from `tail`, so the destructor's walk misses none |
| MpscQueue.Queue.constructor | src/core/util/mpsc_queue.hpp:16-20 | One stub node, both ends on it |
| MpscQueue.Queue.Push | src/core/util/mpsc_queue.hpp:34-38 | Heap, `head` and logs after the call are those of the three steps of a whole push, whatever other producers are stopped at |
| MpscQueue.Queue.TryPop | src/core/util/mpsc_queue.hpp:40-50 | Returns the next value in exchange order, moves `tail` on and frees the old stub, or returns nothing when no node is linked, and then changes nothing |
| MpscQueue.Queue.Empty | src/core/util/mpsc_queue.hpp:52-54 | Answers whether the consumer sees nothing |
| MpscQueue.Queue.Destroy | src/core/util/mpsc_queue.hpp:22-29 | Frees every node, each once |
| JobQueue.LessIsAStrictOrder | src/core/util/thread_pool.hpp:60-65 | A job with a smaller priority number, or the same and a smaller sequence number, is the greater one; the order is irreflexive, transitive and total up to equal numbers |
| JobQueue.TopIsGreatest | src/core/util/thread_pool.cpp:60 | No job in the heap comes before its root |
| JobQueue.PriorityQueue.Push | src/core/util/thread_pool.cpp:32 | Keeps the heap and adds exactly the job |
| JobQueue.PriorityQueue.TakeTop | src/core/util/thread_pool.cpp:60-61 | Moving `fn` out of the root before removing it leaves the heap in order and removes exactly the returned job, which has the smallest priority number, and the smallest sequence number among those, of all that were queued |
| JobQueue.PriorityQueue.RemoveTop | src/core/util/thread_pool.cpp:61 | Keeps the heap and removes exactly the root |
| JobQueue.Drain | src/core/util/thread_pool.cpp:52-62 | Taking jobs until the queue is empty starts every job once, by non-decreasing priority number and then sequence number |
| ThreadPool.StepKeepsInv | src/core/util/thread_pool.cpp:16-74 | Every step of every thread keeps the invariant on lock, count, queue, log, sleepers and pending notifications |
| ThreadPool.ReachableIsGood | src/core/util/thread_pool.cpp:16-74 | The invariant holds in every reachable state |
| ThreadPool.TopExists | src/core/util/thread_pool.cpp:60 | A non-empty queue has a job that no other comes before |
| ThreadPool.HeapRootIsTop | src/core/util/thread_pool.cpp:60 | That job is unique and stands at the root of the array heap, so the interleaved model and the heap take the same one |
| ThreadPool.RunsAtMostOnce | src/core/util/thread_pool.cpp:51-66 | In every reachable state a job finished at most as often as it started, started at most as often as it was pushed, and that at most once |
| ThreadPool.JoinDrains | src/core/util/thread_pool.cpp:16-27 | When the destructor's joins complete, the queue is empty and every job ever pushed has finished, once |
| ThreadPool.NoLostWorkWakeup | src/core/util/thread_pool.cpp:29-35 | While some worker sleeps, waiting jobs are matched by awake workers and notifications still to be sent: no queue is stranded |
| ThreadPool.NoLostIdleWakeup | src/core/util/thread_pool.cpp:46-73 | While a `waitIdle` caller sleeps with nothing outstanding, some worker is between its last `fetch_sub` and its notification |
| ThreadPool.WaitIdleSeesEverythingDone | src/core/util/thread_pool.cpp:46-49 | When `waitIdle` returns, every job pushed before its final test of the predicate has finished |
| ThreadPool.StartsInSubmitOrder | src/core/util/thread_pool.cpp:29-61 | Of two jobs with equal priority, the one submitted first starts first, in every interleaving |
| ThreadPool.MostUrgentStarts | src/core/util/thread_pool.cpp:60-61 | In every interleaving, the job a worker starts has the smallest priority number in the queue, and was submitted first among those |
| ThreadPool.PushedAreSubmitted | src/core/util/thread_pool.cpp:29-35 | For every task and priority, jobs pushed plus calls still on their way are the calls of `submit` made with them |
| ThreadPool.NeverStuck | src/core/util/thread_pool.cpp:16-74 | No reachable state is stuck: everything is done and every caller has returned, or the pool itself can take a step |
| ThreadPoolProgress.OwnStepLowers | src/core/util/thread_pool.cpp:16-74 | Every step inside calls that have begun, notifications and wakeups included, lowers a measure of the work left |
| ThreadPoolProgress.EveryStepIsPaid | src/core/util/thread_pool.cpp:16-74 | Any other step, a `submit` by a client or by a running job, a `waitIdle` call or a spurious wakeup, raises it by a fixed allowance at most |
| ThreadPoolProgress.EveryRunFinishes | src/core/util/thread_pool.cpp:16-74 | From any reachable state, every run of any steps in whatever order is at most as long as the measure and the allowances of the calls and spurious wakeups in it; and where the pool has no step of its own left, all jobs have run and all callers have returned |
| IndexCodec.FieldOfKeyOf | src/core/quarantine/quarantine.cpp:264-333 | The ten keys written are told apart when read |
| IndexCodec.TornTextLoadsAPrefix | src/core/quarantine/quarantine.cpp:297-342 | For arbitrary text, loading a prefix of it yields a prefix of the items of the whole text |
| IndexCodec.ReadEscaped | src/core/quarantine/quarantine.cpp:21-93 | Reading an escaped string gives it back, with each `\u` escape turned into the five characters after the backslash |
| IndexCodec.DecodedIsLonger | src/core/quarantine/quarantine.cpp:33-86 | What comes back is the string itself exactly when it has no such character, and longer otherwise |
| IndexCodec.ReadPrintedInt | src/core/quarantine/quarantine.cpp:95-106 | A printed number is read back exactly, or refused when it is 2^63 or more |
| IndexCodec.ReadPrintedFields | src/core/quarantine/quarantine.cpp:306-335 | The printed fields of an item are read back field by field; a size that does not fit stops short of the closing brace |
| IndexCodec.ReloadExactly | src/core/quarantine/quarantine.cpp:255-342 | For every list of items, exactly which items a load of the written text finds, and with which strings |
| IndexCodec.MangledIsSame | src/core/quarantine/quarantine.cpp:33-86 | A record is read back unchanged exactly when none of its strings has a lost character |
| IndexCodec.ReloadIsIdentityExactly | src/core/quarantine/quarantine.cpp:255-342 | `loadIndex` undoes `persistIndex` for a list if and only if every size is below 2^63 and no string has a control character other than the five with short escapes |
| IndexCodec.LostOnReload | src/core/quarantine/quarantine.cpp:33-106 | A reason of one control character comes back as five characters, and an item of 2^63 bytes is lost with all after it |
| IndexCodec.TornWriteKeepsAPrefix | src/core/quarantine/quarantine.cpp:255-342 | A write of such a list cut anywhere is read back as a prefix of the list |
| IndexExample.EscapesAre | src/core/quarantine/quarantine.cpp:25-39 | The seven short escapes and the unicode escape, character by character |
| IndexExample.FileIs | src/core/quarantine/quarantine.cpp:254-277 | An index file of two items in full: keys, order, punctuation, numbers, a true flag, and times in nanoseconds |
| IndexExample.UnescapesAre | src/core/quarantine/quarantine.cpp:76-86 | Five letters after a backslash stand for control characters, any other character for itself |
| IndexExample.ForeignEscapes | src/core/quarantine/quarantine.cpp:67-93 | An escaped slash is read as a slash, a unicode escape as its letters and digits |
| IndexExample.SpacesAre | src/core/quarantine/quarantine.cpp:48-54 | White space is the four characters listed |
| IndexExample.SignedNumber | src/core/quarantine/quarantine.cpp:95-106 | White space and either sign may stand before a number; a plus changes nothing and a minus negates |
| IndexExample.MinusOne | src/core/quarantine/quarantine.cpp:316-319 | A size of -1 is read as 2^64 - 1 |
| IndexExample.NoNumber | src/core/quarantine/quarantine.cpp:95-106 | Without a digit there is no number |
| IndexExample.OtherKeys | src/core/quarantine/quarantine.cpp:312-332 | A key is known exactly when it is one of the ten |
| IndexFile.EscapeJson | src/core/quarantine/quarantine.cpp:21-42 | The loop yields the specified escaping of the whole string |
| IndexFile.JsonScanner.SkipWhitespace | src/core/quarantine/quarantine.cpp:48-54 | Moves the cursor, in bounds, to the first character that is not white space |
| IndexFile.JsonScanner.TryConsume | src/core/quarantine/quarantine.cpp:56-60 | Takes the character if it comes next and otherwise only skips white space |
| IndexFile.JsonScanner.NextString | src/core/quarantine/quarantine.cpp:67-93 | Returns what the string reader specifies and leaves the cursor, in bounds, at the specified rest |
| IndexFile.JsonScanner.NextInt | src/core/quarantine/quarantine.cpp:95-106 | The same for numbers |
| IndexFile.JsonScanner.NextBool | src/core/quarantine/quarantine.cpp:108-113 | The same for booleans |
| IndexFile.JsonScanner.NextField | src/core/quarantine/quarantine.cpp:308-333 | The same for one key with its value, including every way to be refused |
| IndexFile.LoadFields | src/core/quarantine/quarantine.cpp:306-335 | The loop over the fields of one item reads what the specification reads |
| IndexFile.LoadList | src/core/quarantine/quarantine.cpp:302-342 | The loop over the items, with its three exits, reads what the specification reads |
| IndexFile.LoadIndex | src/core/quarantine/quarantine.cpp:297-344 | On arbitrary text the scanner terminates in bounds and yields exactly the specified list |
| IndexFile.KeysArePlain | src/core/quarantine/quarantine.cpp:264-273 | The keys are written unescaped, and escaping them would change nothing |
| IndexFile.PrintValue | src/core/quarantine/quarantine.cpp:264-273 | The value of each field is printed as specified, strings by the escaping loop |
| IndexFile.PrintItem | src/core/quarantine/quarantine.cpp:263-275 | One item is printed as specified, keys and punctuation included |
| IndexFile.PersistIndex | src/core/quarantine/quarantine.cpp:260-277 | The loop prints exactly the specified text |
| FileSystem.ThereAndBack | src/core/quarantine/quarantine.cpp:163-200 | A subtree moved away, left alone and moved back is as it was |
| FileSystem.CreateDirectories | src/core/quarantine/quarantine.cpp:129 | Afterwards the path and all above it are directories, and nothing that existed has changed |
| FileSystem.Rename | src/core/quarantine/quarantine.cpp:163 | The whole subtree moves, and nothing else changes |
| FileSystem.RemoveAll | src/core/quarantine/quarantine.cpp:204 | Only paths below the one removed can disappear |
| Quarantine.PathRoundTrips | src/core/quarantine/quarantine.cpp:265-316 | A path printed in generic form is parsed back to itself |
| Quarantine.RecordRoundTrips | src/core/util/time.cpp:10-17 | An item turned into a record and back is the same item, its two times included |
| Quarantine.GenericForm | src/core/quarantine/quarantine.cpp:265-266 | A path is printed with a slash before each further name |
| Quarantine.TicksFitExactly | src/core/util/time.cpp:10-17 | A tick is 100 ns; the ticks are exactly those whose nanoseconds fit 64 signed bits; an hour is 3600 seconds of them |
| Quarantine.TicksTruncate | src/core/util/time.cpp:10-17 | Nanoseconds between two ticks are rounded towards zero |
| Quarantine.TheMinNeverBites | src/core/quarantine/quarantine.cpp:206 | In a good state no item's size exceeds the total, so the `std::min` guards change nothing |
| Quarantine.CaptureKeeps | src/core/quarantine/quarantine.cpp:136-189 | A capture, successful or failed at any point, keeps totals, ids and layout, and every other item with its stored contents |
| Quarantine.RestoreKeeps | src/core/quarantine/quarantine.cpp:191-209 | The same for a restore, for every item but the one named |
| Quarantine.DiscardKeeps | src/core/quarantine/quarantine.cpp:211-221 | The same for a discard |
| Quarantine.PurgeFromItems | src/core/quarantine/quarantine.cpp:223-235 | The erase-while-iterating loop leaves exactly the items not yet expired, in order, and counts the others |
| Quarantine.PurgeKeeps | src/core/quarantine/quarantine.cpp:223-241 | A purge keeps the invariant and every item that has not expired, with its contents |
| Quarantine.ReloadedItemsExactly | src/core/quarantine/quarantine.cpp:255-345 | The items reloaded from what was written equal those written if and only if each of them round trips |
| Quarantine.RestartExactly | src/core/quarantine/quarantine.cpp:125-134 | Starting again from an up-to-date index gives the same items and total, if and only if each item round trips |
| Quarantine.TornRestart | src/core/quarantine/quarantine.cpp:281-345 | After a write of the index cut anywhere, a restart finds a prefix of the items and a total that is their sum |
| Quarantine.StepKeeps | src/core/quarantine/quarantine.cpp:136-241 | Every operation keeps the invariant and every item it does not release |
| Quarantine.StepKeepsOutside | src/core/quarantine/quarantine.cpp:136-241 | A file outside the store stays as it is under every operation but a capture of it or above it and a restore to its place or above that get as far as their move; a discard, a purge, and an operation refused before its move never reach it |
| Quarantine.RunKeepsOutside | src/core/quarantine/quarantine.cpp:136-241 | The same over whole runs |
| Quarantine.QuietRun | src/core/quarantine/quarantine.cpp:211-241 | Runs of discards, purges and clean restarts disturb no file outside the store |
| Quarantine.RefusedCapture | src/core/quarantine/quarantine.cpp:136-189 | A capture that answers an error has left the source in place if and only if it did not get as far as the move; otherwise only the write of the index was refused and the item is held. One that did not leaves nothing of the item's own directory, unless it cannot be removed |
| Quarantine.RetainedUntilReleased | src/core/quarantine/quarantine.cpp:136-241 | Over whole runs with clean restarts (the last index write went through and every item round trips) and foreign changes elsewhere on disk, an item leaves the index only by a restore or discard of it or a purge not before its expiry, and its stored contents stay untouched until then |
| Quarantine.KeptForTheRetention | README.md:23 | A captured item outlives every run with clean restarts within its retention period in which nobody releases it by name |
| Quarantine.TotalsAndIds | src/core/quarantine/quarantine.cpp:136-241 | In every state reached from an empty store by runs with clean restarts the total is the sum of the item sizes and ids are unique |
| Quarantine.CaptureStores | src/core/quarantine/quarantine.cpp:136-189 | A capture that answers ok has moved the source's whole subtree, under its own name, into the directory of the new item and left every other file outside the store unchanged; the item holds the sizes, times, reason and correlation of the call, and expires the retention after its second reading of the clock |
| Quarantine.DiscardRemoves | src/core/quarantine/quarantine.cpp:211-221 | A discard drops the item and removes all that is stored for it, but for what cannot be removed |
| Quarantine.RestoreRemoves | src/core/quarantine/quarantine.cpp:198-208 | So does a restore that has moved the contents back |
| Quarantine.PurgeRemoves | src/core/quarantine/quarantine.cpp:223-235 | So does a purge, for every item whose expiry is not after its time |
| Quarantine.CaptureAnswers | src/core/quarantine/quarantine.cpp:136-189 | Exactly when a capture answers ok, not found, or throws |
| Quarantine.UnknownIdIsNotFound | src/core/quarantine/quarantine.cpp:191-215 | An id no item has is not found, and nothing changes |
| Quarantine.ReleaseAnswers | src/core/quarantine/quarantine.cpp:191-221 | For a held item, a discard answers ok exactly when the index is written, a restore exactly when it moved as well |
| Quarantine.PurgeAnswers | src/core/quarantine/quarantine.cpp:223-241 | A purge answers the number of items dropped, exactly when the index is written |
| Quarantine.LoadAnswers | src/core/quarantine/quarantine.cpp:281-293 | A load is an error, with an empty list, exactly when there is an index that cannot be opened |
| Quarantine.FoldersAreNotReplaced | src/core/quarantine/quarantine.cpp:198-203 | A restore onto a folder, or of a folder onto a file, is refused and the item stays |
| Quarantine.RestorePutsBack | src/core/quarantine/quarantine.cpp:191-209 | A restore to a free path moves the subtree back and leaves every file outside the store unchanged |
| Quarantine.RestoreLosesNothingExactly | src/core/quarantine/quarantine.cpp:198-204 | A restore that is carried out loses no file outside the store if and only if nothing stands at the original path, or only what the restore puts there |
| Quarantine.RestoreReplacesAFile | src/core/quarantine/quarantine.cpp:198-204 | A restore that answers ok and replaces a new file at the original path |
| Quarantine.CaptureThenRestore | src/core/quarantine/quarantine.cpp:136-209 | A capture, any run with clean restarts that does not release the item, and a restore put the same contents back at the original path; every other file that stood outside the store before the capture and that the run did not touch is unchanged at the end |
| Quarantine.OkIsSynced | src/core/quarantine/quarantine.cpp:184-280 | After every operation that answers ok the file `index.json` in the root holds the items in memory, printed |
| Quarantine.OkSurvivesRestart | src/core/quarantine/quarantine.cpp:125-240 | Loading the index again after such an operation answers ok and gives the same items and total, for items that round trip |
| QuarantineRestarts.StepKeepsGood | src/core/quarantine/quarantine.cpp:136-241 | Every operation, whether or not it gets to write the index, and every restart from whatever list was last written, keeps totals, ids and layout of the items in memory and of those in the index |
| QuarantineRestarts.RunKeepsGood | src/core/quarantine/quarantine.cpp:136-241 | The same over whole runs with restarts at any time |
| QuarantineRestarts.RestartBringsBack | src/core/quarantine/quarantine.cpp:281-345 | What a restart finds is decided by the list last written to the index, for every such list |
| QuarantineRestarts.SurvivesRestartExactly | src/core/quarantine/quarantine.cpp:281-345 | When all of that list round trips, a restart brings back exactly that list and its total, whatever was in memory |
| QuarantineRestarts.RecordedIsRetained | src/core/quarantine/quarantine.cpp:136-345 | An item in memory and in the index stays in both, its contents untouched, over every run with restarts at any time, until it is released |
| QuarantineRestarts.LostStaysLost | src/core/quarantine/quarantine.cpp:136-345 | An item that is in neither is never listed again, though its contents stay where they are |
| QuarantineRestarts.RetainedExactly | src/core/quarantine/quarantine.cpp:136-345 | Over every such run that does not release it, an item's contents stay untouched, and it is still listed at the end if and only if the index named it at the start or was written before the first restart |
| QuarantineRestarts.OkHasWritten | src/core/quarantine/quarantine.cpp:184-240 | Every operation that answers ok has written the index |
| QuarantineRestarts.CapturedIsKept | README.md:23 | A capture that answered ok outlives every run within its retention period in which nobody releases it by name, wherever the restarts fall |
| QuarantineRestarts.CapturedComesBack | src/core/quarantine/quarantine.cpp:136-345 | A capture that answered ok, any run that does not release the item, wherever its restarts fall, and a restore to the free path put the same contents back, and the restore changes no other file outside the store |
| QuarantineRestarts.RefusedCaptureIsLost | src/core/quarantine/quarantine.cpp:163-187 | A capture whose index write is refused leaves the source in the store and out of every list after a restart |
| QuarantineRestarts.CaptureLosesTheSource | src/core/quarantine/quarantine.cpp:163-187 | Such a capture, on a store with one file beside it |
| QuarantineStore.Store.Initialize | src/core/quarantine/quarantine.cpp:125-134 | Sets the root and the retention, and loads what the disk holds; a directory that cannot be made changes nothing else, and an index that cannot be opened is an error with an empty list |
| QuarantineStore.Store.LoadIndex | src/core/quarantine/quarantine.cpp:281-345 | Items and total become those of the file, read by the scanner; none without a file; an error and none when it cannot be opened |
| QuarantineStore.Store.PersistIndex | src/core/quarantine/quarantine.cpp:255-279 | The index file alone changes, to the text of the items, or nothing does |
| QuarantineStore.Store.CaptureItem | src/core/quarantine/quarantine.cpp:136-189 | New state and answer are those of the specified capture, for every combination of failures, the exception of the clean-up included |
| QuarantineStore.Store.RestoreItem | src/core/quarantine/quarantine.cpp:191-209 | The same for restore |
| QuarantineStore.Store.DiscardItem | src/core/quarantine/quarantine.cpp:211-221 | The same for discard |
| QuarantineStore.Store.Purge | src/core/quarantine/quarantine.cpp:223-241 | The same for purge |
| IpcMessage.HeaderRoundTrips | src/core/ipc/message.hpp:29-36 | A header laid out in 56 bytes, padding included, is read back field by field |
| IpcMessage.DeserializeSerialized | src/core/ipc/message.cpp:23-68 | What deserializing a serialized message yields, for every magic, version and payload length |
| IpcMessage.PayloadSurvivesExactly | src/core/ipc/message.cpp:23-68 | With the standard magic and version the message comes back, and its payload is the one sent if and only if it is shorter than 2^32 bytes |
| IpcMessage.HugePayloadComesBackEmpty | src/core/ipc/message.cpp:23-68 | A payload of 2^32 bytes is accepted and comes back empty |
| IpcBytes.FrameIs | src/core/ipc/message.cpp:11-39 | One frame in full: every byte of header, checksum and payload for a given message and key |
| IpcBytes.RefusedExactly | src/core/ipc/message.cpp:41-68 | Each refusal, and acceptance, exactly when the bytes received say so, in the order of the tests |
| IpcKeys.AsEvenAsCount | src/core/ipc/message.cpp:11-19 | A multiple of the sum of the powers of a number that is 1 modulo 4 is divisible by a power of two exactly when that multiple of the number of its terms is |
| IpcKeys.LaneSeesKeyByte | src/core/ipc/message.cpp:11-19 | Two keys that differ in one byte of a lane give that lane the same value if and only if their difference times the uses of the byte is a multiple of 2^64 |
| IpcKeys.WrongKeyByteExactly | src/core/ipc/message.cpp:57-64 | A frame opened under a key that differs in one byte is accepted if and only if that holds, and otherwise refused for its tag, for payloads of any length |
| IpcKeys.WrongKeyIsRefused | src/core/ipc/message.cpp:57-64 | Below 2^60 bytes of payload, every key that differs in a single byte of some lane, whatever it does to the others, is refused |
| IpcKeys.OtherKeyIsRefused | src/core/ipc/message.cpp:57-64 | The empty message under two such keys |
| IpcMessage.LaneFactorIsAUnit | src/core/ipc/message.cpp:16 | The lane multiplier is invertible modulo 2^64: equal results mean equal inputs |
| IpcMessage.LaneSeesOneByte | src/core/ipc/message.cpp:11-19 | Two texts that differ at one position of a lane differ in that lane's value ever after |
| IpcMessage.OneByteOfALaneIsDetected | src/core/ipc/message.cpp:57-64 | A frame in which one lane differs at one position is rejected, whatever else arrived changed, if the tag bytes of that lane did not |
| IpcMessage.BurstIsDetected | src/core/ipc/message.cpp:41-68 | Every frame that differs from a serialized one within four consecutive bytes only (header, padding, tag or payload) is rejected, for payloads of any length |
| IpcMessage.ComputeTag | src/core/ipc/message.cpp:11-19 | The loop over four accumulators yields the specified lanes in order |
| IpcMessage.SerializeInto | src/core/ipc/message.cpp:23-39 | The buffer filled by copying is the specified frame |
| IpcMessage.DeserializeFrom | src/core/ipc/message.cpp:41-68 | Each refusal in its order, or the message; the received bytes are left alone |
| StringInterner.ResultLasts | src/core/util/string_intern.cpp:11-21 | A handle given out once is the one given out for that string ever after |
| StringInterner.HandlesNameStringsExactly | src/core/util/string_intern.cpp:11-21 | Over any history two handles are equal exactly when the strings are, if and only if at most 2^32 distinct strings were interned |
| StringInterner.ViewsLastExactly | src/core/util/string_intern.cpp:11-29 | Every handle still views its string at the end of the history, if and only if fewer than 2^32 distinct strings were interned (or that many, the last of them empty) |
| StringInterner.NumeralsClash | src/core/util/string_intern.cpp:11-29 | Of the printed numbers from 0 to 2^32 the first and the last get one handle, and the last but one views as the empty string |
| StringInterner.SizeCountsDistinct | src/core/util/string_intern.cpp:31-34 | The table holds as many strings as the history has distinct ones |
| StringInterner.FootprintCountsDistinct | src/core/util/string_intern.cpp:17-18 | A string adds its length to the footprint the first time it is interned, and nothing after that |
| StringInterner.Interner.constructor | src/core/util/string_intern.cpp:5-9 | Starts with no string but the placeholder of handle 0, which is not indexed |
| StringInterner.Interner.Intern | src/core/util/string_intern.cpp:11-21 | Appends a new string, finds a known one, and returns its handle; index, storage and byte count keep agreeing |
| StringInterner.Interner.Viewed | src/core/util/string_intern.cpp:23-29 | The string of a handle, or empty for one not given out |
| StringInterner.Interner.Size | src/core/util/string_intern.cpp:31-34 | The number of strings in the table |
| StringInterner.Interner.MemoryFootprint | src/core/util/string_intern.cpp:36-38 | The sum of their lengths |
| TreeModel.InsertedAt | src/core/scan/tree_model.cpp:15-35 | An insertion changes the nodes on its path, each as an insertion of the rest of the path, and no other node |
| TreeModel.InsertAddsWeight | src/core/scan/tree_model.cpp:56-74 | An insertion anywhere below a node adds exactly the entry's weight to the node's propagated totals, modulo 2^64 |
| TreeModel.InsertAddsDirectories | src/core/scan/tree_model.cpp:56-74 | And adds as many directories as nodes it creates |
| TreeModel.AtBuilt | src/core/scan/tree_model.cpp:15-35 | A path exists in the tree exactly when some entry's path has it as a prefix, and lists exactly the files added there, in order |
| TreeModel.PathsBelowIs | src/core/scan/tree_model.cpp:56-74 | The set counted by `totalDirectories` is the set of existing paths strictly below |
| TreeModel.TreeAgreesWithEntries | src/core/scan/tree_model.cpp:15-74 | For every list of entries and every path: existence, files, the number of entries below that are no folders, the sum of their logical sizes, the sum of their sizes on disk (the logical size where that is 0), and the count of strict descendants, all modulo 2^64 |
| TreeModel.BuiltSiblingsDiffer | src/core/scan/tree_model.cpp:42-54 | No node of the tree has two children of one name |
| TreeModel.OrderDoesNotMatter | src/core/scan/tree_model.cpp:15-74 | Any order of the same entries gives the same paths and the same totals at each |
| TreeBuilder.JoinedTakenApart | src/core/scan/tree_model.cpp:17-25 | A path written with separators is taken apart into the names it was put together from |
| TreeBuilder.SplitAtSlash | src/core/scan/tree_model.cpp:17-25 | A slash of either kind ends a name, and between two of them there is none |
| TreeBuilder.ViewedFind | src/core/scan/tree_model.cpp:45-46 | Comparing handles finds the same child as comparing the strings they name |
| TreeBuilder.StepViewed | src/core/scan/tree_model.cpp:21-25 | One turn of the loop of `add` leaves an insertion that is one name shorter, seen on strings |
| TreeBuilder.FindOrInsertChild | src/core/scan/tree_model.cpp:42-54 | The first child with the name's handle, or a new last child |
| TreeBuilder.PropagateTotals | src/core/scan/tree_model.cpp:56-74 | The recursive loops overwrite every node with its propagated totals |
| TreeBuilder.TreeBuilder.constructor | src/core/scan/tree_model.cpp:10-13 | The tree of no entries |
| TreeBuilder.TreeBuilder.Add | src/core/scan/tree_model.cpp:15-35 | The tree stays that of the entries' own strings with the new entry added, as long as handles have not run out; every name on the path is interned, in order |
| TreeBuilder.TreeBuilder.Build | src/core/scan/tree_model.cpp:37-40 | The tree handed out, seen on strings, is the propagated tree of all entries added |
| ScanEngine.ItemOfIsStable | src/core/scan/tree_model.cpp:15-35 | What an entry means does not change as more strings are interned, once its handles have been given out |
| ScanEngine.MeansWhatWasFound | src/core/scan/scan_engine.cpp:85-119 | With handles to spare, an entry means the folder names, kind and size that were found |
| ScanEngine.SameEffectsSameTotals | src/core/scan/tree_model.cpp:15-74 | Paths and totals of the tree depend on the paths and weights of its entries only, not on their handles |
| ScanEngine.FoundInAnyOrder | src/core/scan/scan_engine.cpp:77-138 | Whatever the order in which the same things are found, the tree has the same paths and totals |
| ScanEngine.Record | src/core/scan/scan_engine.cpp:85-119 | The two strings of a stop are interned and the entry made of their handles is added to the tree |
| ScanEngine.TotalsOfFound | src/core/scan/scan_engine.cpp:64-138 | In terms of what was found: which folders exist, how many things other than folders each has below, and the sum of the sizes of the regular files among them |
| ScanEngine.Walk | src/core/scan/scan_engine.cpp:64-138 | The tree handed out has these folders and totals at every path, and each entry recorded names its two strings, as long as handles have not run out |
| Calendar.YearStep | src/core/scheduler/cron.cpp:86-109 | Consecutive years differ by 365 or 366 days, as the Gregorian leap rule says |
| Calendar.LeapYears | src/core/scheduler/cron.cpp:86-109 | 2000 and 2024 are leap years, 1900 and 2023 are not |
| Calendar.MonthLengths | src/core/scheduler/cron.cpp:86-109 | The lengths of the twelve months |
| Calendar.NewYear1970 | src/core/scheduler/cron.cpp:86-88 | 1 January 1970 is a Thursday, 719162 days after 1 January of year 1 |
| Calendar.NextWeekday | src/core/scheduler/cron.cpp:86-109 | The same time a day later is on the next weekday |
| Calendar.MinutesOfBroken | src/core/scheduler/cron.cpp:86-109 | Every minute is broken down into a valid date and time, from which `mktime` gets it back |
| Calendar.BrokenMinutesOf | src/core/scheduler/cron.cpp:109 | Every valid date and time is the one of exactly its minute |
| Calendar.LaterMinute | src/core/scheduler/cron.cpp:108-109 | Adding to the minute field and normalising moves to that many minutes later, over hours, days, months and years |
| Calendar.EveryDateOnEveryWeekday | src/core/scheduler/cron.cpp:86-109 | Each date, 29 February included, falls on each weekday in some year |
| Cron.ListedAre | src/core/scheduler/cron.cpp:50 | The loop pushes exactly the values of the stepped range |
| Cron.FieldYields | src/core/scheduler/cron.cpp:13-53 | A field is accepted exactly when each of its parts is, and yields the union of what each yields, the star that is singled out included |
| CronText.PartIsReadExactly | src/core/scheduler/cron.cpp:25-49 | A star, number or span with an optional step is accepted as the stepped range it stands for if and only if that range is in bounds and the step is an `int` |
| CronText.ReadAsWrittenExactly | src/core/scheduler/cron.cpp:25-49 | An accepted text is read as what it is written as if and only if it follows that syntax with numbers that are `int`s |
| CronText.WordIsReadAsLeast | src/core/scheduler/cron.cpp:34-46 | Any word but a star that starts with no digit and holds no dash or slash is accepted as the least value of the field |
| CronText.HugeIsReadAsLeast | src/core/scheduler/cron.cpp:34-46 | So is any number of 2^31 or more |
| CronText.XIsMinuteZero | src/core/scheduler/cron.cpp:34-46 | The minutes field `x` is accepted as minute 0 |
| CronText.FieldDenotes | src/core/scheduler/cron.cpp:13-53 | A field written as parts is accepted, and yields the union of the stepped ranges they stand for, when all parts are in bounds with steps that are `int`s; it is accepted only then if its other numbers are `int`s too |
| CronText.PartsAreRead | src/core/scheduler/cron.cpp:20-24 | The same whatever blanks and commas stand between the parts |
| CronText.NumbersDenote | src/core/scheduler/cron.cpp:43-46 | A list of numbers stands for exactly the set of those numbers |
| Cron.ValuesInBounds | src/core/scheduler/cron.cpp:47-49 | Every accepted value lies within the field's bounds |
| CronText.ListParsesBack | src/core/scheduler/cron.cpp:13-53 | Any non-empty list of values within the bounds, written with commas, is parsed back to itself, in order |
| CronText.ParsedIs | src/core/scheduler/cron.cpp:55-83 | Every accepted text is parsed to bits at the values of its fields, minus day 31 and month 12 |
| CronText.WrittenParses | src/core/scheduler/cron.cpp:69-83 | A schedule written as five fields of parts is accepted and read as what its parts stand for |
| Cron.ParseField | src/core/scheduler/cron.cpp:13-53 | The loops yield the specified values, or the first part's error |
| Cron.FillField | src/core/scheduler/cron.cpp:55-65 | The bits set are the values that fit the bitset |
| Cron.ParseCron | src/core/scheduler/cron.cpp:69-83 | Five fields in order with the first error, or the expression |
| CronExample.TextsAre | src/core/scheduler/cron.cpp:69-83 | The texts of the schedules named below |
| CronExample.MixedIsRead | src/core/scheduler/cron.cpp:13-83 | A text with a step, a span, a list and numbers, and the five sets it is read as |
| CronExample.BlanksAre | src/core/scheduler/cron.cpp:70-73 | The white space between fields |
| CronExample.PartRefused | src/core/scheduler/cron.cpp:25-32 | A part is refused for its step exactly when no number stands after its slash |
| CronExample.OutOfBoundsAre | src/core/scheduler/cron.cpp:47-49 | A step of 0 and minute 60 are out of bounds, minute 59 is not |
| CronExample.OpenSpans | src/core/scheduler/cron.cpp:38-42 | A span with an end left out reaches to the bound of the field |
| CronSearch.EpochIs | src/core/scheduler/cron.cpp:86-93 | Time 0 is midnight of Thursday, 1 January 1970, a minute is 60 seconds, and the offset from UTC is added |
| CronSearch.NextFire | src/core/scheduler/cron.cpp:85-112 | From outside minute 59: the earliest minute strictly after the start that hits all five fields, and none only if no minute of the next 366 days does. From minute 59: throws exactly when the other four fields hit, and otherwise the earliest hit from the second minute on. What is answered is later than the start and the start of a local minute |
| CronSearch.FoundWithinAYear | src/core/scheduler/cron.cpp:96-111 | From outside minute 59, when any minute of the next 366 days hits, the answer is a time after the start and not after that minute |
| CronExample.MondayIsFound | src/core/scheduler/cron.cpp:85-112 | `0 9 * * 1` asked on Sunday, 2 June 2024, at eight is answered with Monday at nine |
| CronSearch.NextMinute | src/core/scheduler/cron.cpp:93-94 | The first probe, before any normalisation, is the next minute exactly outside minute 59 |
| CronSearch.Minute59Exactly | src/core/scheduler/cron.cpp:93-109 | From minute 59 the answer is the earliest hit after the start if and only if the fields of the current hour do not all hit and the first minute of the next hour does not either |
| CronSearch.FirstMinuteIsSkipped | src/core/scheduler/cron.cpp:93-109 | From minute 59 the first minute of the next hour is never the answer |
| CronSearch.EveryMinuteThrows | src/core/scheduler/cron.cpp:93-104 | `* * * * *` asked at 00:59 on 2 February, in any year and at any offset, throws |
| CronSearch.OneMinuteToFive | src/core/scheduler/cron.cpp:86-94 | In every year 04:59 on 2 February is such a start, one minute before five |
| CronSearch.FiveOClockIsSkipped | src/core/scheduler/cron.cpp:93-109 | `0 5 * * *` hits at five and, asked one minute earlier, neither throws nor answers five |
| CronSearch.FiresAsWritten | src/core/scheduler/cron.cpp:96-104 | Every accepted text fires at the minutes, hours and weekdays of its fields, on days and months one later than theirs |
| CronSearch.ScheduleFires | src/core/scheduler/cron.cpp:69-104 | The same for a written schedule, in terms of what its stars, numbers, spans and steps stand for |
| CronSearch.FiresAsMeantExactly | src/core/scheduler/cron.cpp:59-104 | An accepted text fires at exactly the minutes it is meant to if and only if a field of it is empty or it names day 31 alone, of months without one |
| CronSearch.ScheduleFiresAsMeantExactly | src/core/scheduler/cron.cpp:59-104 | A written schedule does if and only if its days are 31 alone and its months among 2, 4, 6, 9 and 11 |
| CronSearch.NeverInJanuaryOrOnTheFirst | src/core/scheduler/cron.cpp:59-101 | No accepted expression fires in January or on the first of a month |
| CronSearch.JuneFiresInJuly | src/core/scheduler/cron.cpp:59-101 | In every year the schedule for 15 June passes over it and fires on 16 July |
| CronSearch.LeapDayIsNotFound | src/core/scheduler/cron.cpp:94-111 | Midnight of 29 February, asked on 1 March of any leap year, is answered with "never", though the expression hits at most eight years later |
| UpdateSequence.NothingWraps | src/platform/windows/mft/ntfs_mft.cpp:102-104 | The 32-bit product and sum of the size checks cannot wrap, the factors being 16-bit fields |
| UpdateSequence.ApplyUpdateSequence | src/platform/windows/mft/ntfs_mft.cpp:94-119 | Stays within the record and leaves the answer and the bytes of the specified fixup, also when it stops at a torn sector |
| UpdateSequence.OnlyTailsChange | src/platform/windows/mft/ntfs_mft.cpp:109-117 | No byte outside the sector tails changes, whether it succeeds or not |
| UpdateSequence.FixedIs | src/platform/windows/mft/ntfs_mft.cpp:109-117 | With the array apart from the tails: the tails before the first torn sector come each from its own slot, the others stay |
| UpdateSequence.AcceptedExactly | src/platform/windows/mft/ntfs_mft.cpp:94-119 | Success if and only if the header fits and every sector ends in the signature |
| UpdateSequence.StampedIs | src/platform/windows/mft/ntfs_mft.cpp:109-117 | The protecting transform saves each tail in its own slot and stamps the signature over it |
| UpdateSequence.FixupUndoesProtection | src/platform/windows/mft/ntfs_mft.cpp:94-119 | The fixup accepts every protected record and gives back the record it was made from, outside the array itself |
| UpdateSequence.AcceptedInBytes | src/platform/windows/mft/ntfs_mft.cpp:94-104 | The checks on the header in terms of its bytes 4 to 7 |
| UpdateSequence.TwoSectorsFixed | src/platform/windows/mft/ntfs_mft.cpp:94-119 | A record of two sectors: accepted exactly when both tails are the two bytes of the signature, and then which byte goes where |
| Duplicates.TwoStages | src/core/duplicates/duplicate_finder.cpp:12-34 | Grouping by size and then by digest selects the same files, in the same order, as asking for both at once |
| Duplicates.GroupBySize | src/core/duplicates/duplicate_finder.cpp:11-19 | Each eligible candidate under its size, in candidate order, and no empty group |
| Duplicates.GroupByDigest | src/core/duplicates/duplicate_finder.cpp:27-34 | The same by digest within a group; unreadable files drop out |
| Duplicates.CollectSizes | src/core/duplicates/duplicate_finder.cpp:24-47 | In whatever order the maps are gone through, the clusters collected are the naive classes |
| Duplicates.SortClusters | src/core/duplicates/duplicate_finder.cpp:49-50 | The same clusters, by non-increasing recoverable bytes |
| Duplicates.FindDuplicates | src/core/duplicates/duplicate_finder.cpp:10-52 | The clusters are exactly the classes of at least two eligible candidates with equal size and digest, each once, files in candidate order, sorted by non-increasing recoverable bytes |
| Duplicates.ListedExactly | src/core/duplicates/duplicate_finder.cpp:10-52 | A file is listed exactly when a candidate at another position has its size and digest, and the size is at least the least one asked for, and not 0 unless empty files are asked for |
| Duplicates.ClusterFilesAre | src/core/duplicates/duplicate_finder.cpp:36-46 | Size and digest of a cluster are those of each of its files |
| Duplicates.ListedAsOftenAsGiven | src/core/duplicates/duplicate_finder.cpp:10-52 | A candidate with a partner is listed exactly as often as it was given, any other file never |
| Duplicates.RecoverableIsAllButOneEach | src/core/duplicates/duplicate_finder.hpp:22-25 | Total recoverable bytes are the clustered bytes less one file per cluster, modulo 2^64 |

## Left out

- Weak memory orders: the queue and the pool interleave sequentially consistent steps; acquire, release and relaxed are not told apart.
- The allocator of the queue: a node address that is in use is never handed out again, and a value is a plain value without constructors that throw.
- Jobs that throw, jobs that call `waitIdle`, a wrap of the 64-bit sequence number, and calls made while the destructor runs, other than by jobs.
- Fairness of the scheduler: `NeverStuck` and `EveryRunFinishes` say a step is possible until all is done, not that the operating system takes it; new calls and spurious wakeups may go on for ever.
- `pendingJobs`, `workerCount` and `submitWithResult`: each adds only an easy member.
- The file system is a map from paths to contents: no links, no case folding, no cross-device rename, and a `create_directories` that fails changes nothing.
- Captured sources lie apart from the store and random ids do not repeat (`Quarantine.MayCapture`, `QuarantineRestarts.Allowed`); size sums stay below 2^64.
- A write of the index that fails after the file was opened is covered only as a torn text (`TornRestart`), and newline translation by a text-mode stream is not modelled.
- The restarts of the runs in `Quarantine` are clean: the last write of the index went through and every item round trips. Those in `QuarantineRestarts` may find any list that was last written, all of whose items round trip. In both the index can be opened; `QuarantineStore.Store.LoadIndex` also says what happens when it cannot.
- Time points are whole ticks of 100 ns whose nanosecond count fits 64 bits.
- `absolute`, `exists` on unreadable parents, and the walk that measures a directory's size: the size measured is a parameter.
- Any cryptographic property of the IPC tag: it is treated as an error-detecting code only.
- TreeBuilder.TreeBuilder.Add: the pointer that walks down the tree is the list of child positions from the root, because nodes are values nested in vectors; drive letters without a separator and UNC names are not taken apart as the Windows path class does.
- TreeBuilder.TreeBuilder.Build: a second `build` adds the totals of the children again; the statements are about a tree built once, as its only caller does.
- The remaining fields of `FileEntry` (times, attributes, record numbers), which are carried along unread.
- StringInterner.Interner.Viewed: views are values, so a view that dangles after the storage grows is not modelled; the mutex makes each call one step.
- Cron.ParseField: `v += step` is on unbounded integers, so the overflow of a step near 2^31 is not modelled.
- CronSearch.NextFire: the offset from UTC is fixed, so daylight saving changes are not modelled, and times are whole seconds.
- The `Scheduler` thread around `nextFire`, which is timed waiting on a real clock.
- The rest of the MFT reader: volume reads and attribute parsing.
- UpdateSequence.ApplyUpdateSequence: a sector size of 0 or 1, for which the first tail lies outside the record, is excluded by its precondition.
- UpdateSequence.FixupUndoesProtection: claimed for records whose array overlaps no sector tail and neither of the two header words that describe it, as NTFS lays them out; of any other layout only `OnlyTailsChange` is claimed.
- The progress callback and the worker count of the duplicate search; files that change while it runs.
- The user interface, the command line, the journal, the scan cache, plugins, rules, cleaners, and everything that is a call into Windows.
