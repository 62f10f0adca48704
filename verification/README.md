# mikelibc in Dafny

A model of four parts of the C utility library mikelibc, and proofs about them:

- the growable queue `mqueue_t`, both as an object on the heap and as a monitor shared by threads;
- the Base64 codec;
- the logger registry over the linked-list macros;
- the tokenizer `msplit`.

`dafny verify dfyconfig.toml` checks everything.

## Layout

| file | contents |
|---|---|
| `Machine.dfy`, `Seqs.dfy` | 32- and 64-bit wrap-around, `void *` as a machine word, two facts about concatenation |
| `Doubling.dfy` | arrays that grow by doubling |
| `QueueModel.dfy` | one queue as a value: wrapping cursors, growth, compaction, the invariant |
| `QueueLedger.dfy` | the queue with its history; what every push, pop and vacuum keeps |
| `QueueRuns.dfy` | whole runs of the queue built without threads |
| `MQueue.dfy`, `MQueueRuns.dfy` | the class: heap array, doubling, overlapping move; the class under whole runs |
| `Threads.dfy`, `Monitor.dfy` | threads, mutex, two conditions, signals and spurious wakeups as a transition system |
| `MonitorSafety.dfy`, `MonitorRuns.dfy`, `MonitorProgress.dfy` | the invariant, safety over all interleavings, termination and freedom from deadlock |
| `MonitorAtomic.dfy` | the monitor against threads that put and get in single steps |
| `MonitorSchedule.dfy` | which runs there are: the freedom of the scheduler, and the item stolen from a thread just woken |
| `Base64Spec.dfy` | section 4 of RFC 4648 as bit streams, and the canonical texts of its section 3.5 |
| `Base64.dfy`, `Base64Laws.dfy` | the C loops, proved to compute the specification; inverses and concatenation |
| `LinkedList.dfy` | the list macros on mutable nodes |
| `RegistryModel.dfy`, `RegistryRuns.dfy`, `MLog.dfy`, `MLogRuns.dfy` | the registry as a value, over whole runs, as heap objects, and as heap objects over whole runs |
| `Tokens.dfy`, `MStr.dfy` | words of a string, and the scanner |

## How the model is built

Code that changes memory in place is a class or a method over arrays and nodes. Its contract ties the
new state to a function of the old one (`Push`, `Pop`, `Vacuum`, `Apply`, `Kept`, `Encode`, `Decode`,
`Split`), and the lemmas are about those functions. The monitor uses the same `Push` and `Pop`.

What the C code takes for granted is stated as follows.

- `realloc` in the queue succeeds and its byte count does not overflow. For a queue with a maximum size
  this is no assumption about the run: `Fits` asks that the array bound itself, times 16, be below 2^64,
  and every run then stays within it: sizes below 2^59 will do (`QueueRuns.RunFits`,
  `MonitorRuns.FittingIs`). For an unlimited queue the number of calls (or of items the programs put)
  takes the place of the maximum size.
- Base64 sizes and the length given to `msplit` fit in an `int`.
- Fewer than 2^31 loggers are created. `malloc` in `get_mlogger` may fail, and `fopen` may fail; both
  outcomes are parameters.
- A C string is the sequence of its characters before the NUL.
- `mlinked_list_remove` is given a `previous` that is NULL, the head, or not in the list, or else the
  head does not match. A `previous` further down the list and a match at the head tie the list into a
  loop, and the macro never ends.
- A wait on a condition releases the mutex and falls asleep in one step. A condition signal wakes one
  sleeping waiter if there is one, any one; a waiter may also wake unsignalled at any time. The step
  that changes the queue is taken under the mutex and is one step.

## Where the code and its documentation part

- `msplit`: the last character of the string is classed like the one before it. A final word of one
  character is dropped and a single final separator is glued to the last word. `Tokens.SplitIsTokens`
  gives the exact condition under which the result is the list of words. The result is promised a NULL
  at its end (`free_msplit` looks for it); `MStr.RoomForTerminator` says exactly when the array has a slot
  for it, and `MStr.EightWordsFillTheArray` gives inputs for which it has none.
- `mlinked_list_remove`: when the first two nodes both match, or the first one does and `previous` was
  not NULL, a matching node stays in the list. `LinkedList.RemovesEveryMatch` gives the exact condition.
  `freenode` is promised to be the removed node; `LinkedList.HandedBackButKept` says exactly when it is
  one that is still linked. In the registry handles are unique and `previous` is NULL, so every match goes.
- `setloggertype`: `mlog.h` promises type NONE after any error. Asked for a file with a NULL path, the
  code leaves type FILE (`RegistryRuns.RefusedType`), as it does when `get_mlogger` is asked for a file
  logger (`RegistryRuns.CreatedFileLoggerHasNoFile`).
- `g_handle` is set to 0 by the first creation and stays 0 while any logger is left, so it can name a
  logger that has been shut down (`RegistryRuns.DefaultIsLive`, `RegistryRuns.DefaultCanBeDead`).
- `mbase64_decode` does not reject characters outside the alphabet; they count as 0.

## Model

| member | source | states |
|---|---|---|
| Machine.WrapIsModulo | madt.h:133-137 | the cursors' arithmetic is arithmetic modulo 2^64 |
| Machine.Wrap32IsModulo | mlog.c:129-129 | the count of loggers is arithmetic modulo 2^32 |
| QueueModel.SizeIsLength | madt.c:42-44 | the wrapped difference of the cursors is the number of items held, including when `rear` stands at 2^64-1 |
| QueueModel.InitInv | madt.c:60-90 | a new queue is empty and consistent, whatever initial size is asked for |
| QueueModel.PushInv | madt.c:122-133 | storing an item keeps the counters in step, the slot written is inside the array, the array doubles exactly when the live slots reach its end, and the size answered is one more |
| QueueModel.PushFields | madt.c:123-132 | the counters after an enqueue without wrap-around: the item goes behind the last one, and the array doubles exactly when the live slots fill it to its end |
| QueueModel.PopInv | madt.c:154-165 | taking an item keeps the counters in step, with `front` and `gc_run` reset exactly on the hundredth take |
| QueueModel.VacuumInv | madt.c:174-194 | compaction ends with `front` 0 and `rear` one below the size, which is 2^64-1 for an empty queue |
| QueueLedger.PushSound | madt.c:122-133 | a push keeps FIFO order of the history, the peak, the allocation bound and the copy count, and never overflows the byte count of the `realloc` |
| QueueLedger.PopSound | madt.c:154-165 | a pop keeps FIFO order, `gc_run = 100 - served mod 100`, and the bound on slots moved, with or without a maximum size |
| QueueLedger.VacuumSound | madt.c:174-194 | a vacuum asked for by the caller keeps all of it, moving at most a full queue |
| QueueRuns.RunSound | madt.c:102-194 | every run of enqueues, dequeues and vacuums keeps the invariant; a queue with a maximum size needs no limit on the number of calls |
| QueueRuns.RunFits | madt.c:126-128 | the sizes for which no `realloc` can overflow, in numbers |
| QueueRuns.RunRefinesPlainSequence | madt.c:102-194 | over every run the answers are those of a plain sequence with a maximum length: the new length, 2^64-1 when full, the oldest item, NULL when empty |
| QueueRuns.PeakIsTheLargestSize | madt.c:102-172 | the recorded peak is the maximum over all moments of the run, and is reached |
| QueueRuns.MemoryIsBounded | madt.c:38-38 | `front + gc_run <= 100`, `gc_run >= 1`; the array is the initial one doubled some times, and never larger than the least such size that holds the peak and 99 slots more, hence at most max(initial, 2*(peak+98)); the same with `max_size` |
| QueueRuns.MemoryBoundIsReached | madt.c:124-131 | for every initial size, and every peak the maximum size allows, some run with that peak ends with exactly that many slots |
| QueueRuns.MostMemory | madt.c:124-131 | with a maximum size, the largest array any run can reach has initial*2^k slots, for the least k that gives max_size+99: nothing larger occurs, and that much does |
| Doubling.GrownIsLeast | madt.c:124-131 | among the sizes that doubling passes through, the one the bounds speak of is the least that suffices |
| Doubling.DoubledIsPower | madt.c:126-129 | those sizes are the initial one times the powers of two |
| QueueRuns.CopyWorkIsBounded | madt.c:158-165 | growth copies exactly `alloc_size` less the initial size in all; compaction moves at most the peak size less one per hundred items served, plus the peak per vacuum asked for, on any queue; hence the same with `max_size` |
| MQueue.Queue.constructor | madt.c:60-90 | the object starts as the empty value-level queue |
| MQueue.Queue.Size | madt.c:46-55 | the size is the length of the live part of the array |
| MQueue.Queue.Grow | madt.c:126-130 | growth doubles the array and keeps every old slot |
| MQueue.Queue.Place | madt.c:124-132 | the item lands in the slot behind the live ones, in an array grown only if it ended there |
| MQueue.Queue.Store | madt.c:122-133 | after the wait for room: the object moves as `Push` says, contents read off the array |
| MQueue.Queue.Enqueue | madt.c:102-140 | full: 0xffffffffffffffff and nothing changes; otherwise the item is appended and the new length returned |
| MQueue.Queue.Fetch | madt.c:158-160 | the oldest slot is read and `front` moves past it; the rest of the contents stays |
| MQueue.Queue.Take | madt.c:154-165 | after the wait for an item: the oldest item is returned and the object moves as `Pop` says |
| MQueue.Queue.Dequeue | madt.c:142-172 | empty: NULL and nothing changes; otherwise the oldest item, and only the rest is left |
| MQueue.Queue.MoveDown | madt.c:184-189 | the forward copy over overlapping ranges delivers the old values |
| MQueue.Queue.Compact | madt.c:174-194 | compaction is `Vacuum`: same contents, slid to the start |
| MQueue.Queue.VacuumNow | madt.h:185-194 | called directly, it leaves the contents alone and `front` at 0 |
| MQueueRuns.Perform | madt.c:102-194 | one call of the object is one step of the run, in contents, counters and slots copied |
| MQueueRuns.Drive | madt.c:60-194 | a new queue object driven through any calls answers and holds what a plain sequence would; with a maximum size there is no limit on the number of calls |
| MonitorSafety.StepNoLostWakeup | madt.c:104-172 | one step of any thread, spurious wakeups included, keeps sleepers outnumbered by those on the way |
| MonitorSafety.StepGood | madt.c:102-172 | one step of any thread keeps the whole invariant: exclusion, history, counts, no lost wakeup |
| MonitorRuns.ReachableGood | madt.c:102-172 | the invariant holds after every run of any number of threads with any programs |
| MonitorRuns.FittingIs | madt.c:126-128 | the same for threads: which maximum sizes and programs the theorems cover |
| MonitorSchedule.AnyoneMayEnter | madt.c:104-150 | at every point of every run a free mutex can go next to exactly the threads that want it, newcomers and woken ones alike, and nothing else changes |
| MonitorSchedule.HolderMayGoOn | madt.c:104-172 | at every point of every run the thread holding the mutex can take a step |
| MonitorSchedule.AnySleeperMayWake | madt.c:108-152 | at every point of every run every sleeper, on either condition, can wake without a signal, alone |
| MonitorSchedule.AnySleeperMayBeSignalled | madt.c:135-167 | a signal can reach each sleeper on its condition, and no other thread moves |
| MonitorSchedule.ItemCanBeStolen | madt.c:146-152 | wherever a consumer has been woken for the only item and another comes by, there is a run in which the newcomer gets the item and the one woken sleeps again |
| MonitorSchedule.ItemIsStolen | madt.c:146-152 | such a run from the start: two consumers, one producer; the second consumer has the item, the first is asleep |
| MonitorRuns.FifoOverAllInterleavings | madt.c:102-172 | accepted = served followed by held, size within the maximum, and the memory bound, at every reachable point |
| MonitorRuns.MutualExclusion | madt.c:106-137 | at most one thread is inside; past its wait loop a dequeue finds an item and an enqueue finds room |
| MonitorRuns.NoLostWakeupOnEmpty | madt.c:146-152 | while a consumer sleeps unsignalled, items held do not exceed the threads already on their way to them |
| MonitorRuns.NoLostWakeupOnFull | madt.c:108-113 | while a producer sleeps unsignalled, free places do not exceed the threads already on their way to them |
| MonitorRuns.NoMutualSleep | madt.c:108-152 | a producer and a consumer asleep together imply at least `max_size` threads awake on the way |
| MonitorRuns.ProgramOrderIsKept | madt.c:102-140 | for each thread, the items accepted from it followed by those it still has to put are its program, in order |
| MonitorRuns.SharesAreKept | madt.c:142-172 | what a thread has been given is its share of what was served, in order, one item for each dequeue it has done |
| MonitorRuns.SizesAreAnswered | madt.h:162-171 | each enqueue done has answered the length of the queue just after its own item went in; there is one answer for each, never 0, never above `max_size` |
| MonitorRuns.SingleProducerInOrder | t/test_mqueue.c:12-37 | with one producer, what has been served is at all times a prefix of what it sends |
| MonitorProgress.StepMeasure | madt.c:102-172 | every step but a spurious wakeup lowers the measure; a spurious wakeup raises it by 2 |
| MonitorProgress.EveryRunIsFinite | madt.c:102-172 | a run has at most 7 steps per operation, 2 per thread and 3 per spurious wakeup, and none of the last if there are none |
| MonitorProgress.StuckShape | madt.c:104-152 | when nothing can move, whoever is unfinished sleeps on a condition that truly does not hold |
| MonitorProgress.StuckIsFinished | madt.c:102-172 | producers and consumers that can go no further have all finished if and only if gets <= puts <= gets + max_size, and then the queue holds the surplus |
| MonitorProgress.EveryRunCanFinish | madt.c:102-172 | no deadlock: from every reachable state of balanced programs there is a way to finish |
| MonitorProgress.MixedRolesCanDeadlock | madt.c:149-152 | the role hypothesis is needed: a thread that waits for its own later item stays asleep |
| MonitorAtomic.RunIsPlay | madt.c:102-172 | the queue is atomic: whatever the interleaving, what every thread has been given and answered, and what is left, are those of single-step puts and gets done one at a time in the order of the changes |
| MonitorAtomic.PlayIsRun | madt.c:102-172 | conversely, whatever the single-step machine can do, some run of the monitor does, and ends with nobody inside or waiting |
| MonitorAtomic.StuckIsBlocked | madt.c:104-152 | when the monitor can go on only by spurious wakeups, no put has room and no get an item |
| MonitorAtomic.SameRests | madt.c:102-172 | for all programs, mixed or not, the final states of the monitor, answers included, are exactly those of the single-step machine |
| MonitorAtomic.DeadlockIsTheProgramsOwn | madt.c:102-172 | for all programs, some run of the monitor is stuck unfinished if and only if some run of the single-step machine is |
| Base64Spec.TableIsCharOf | mbase64.c:13-20 | the table, entry by entry, is the alphabet by ranges, with '=' (61) as its last entry |
| Base64Spec.TableIsValueOf | mbase64.c:22-36 | the 256-entry reverse table, entry by entry, is the value by ranges, 0 outside the alphabet |
| Base64Spec.OutsideIsZero | mbase64.c:22-36 | a character outside the alphabet, '=' among them, counts as 0 |
| Base64Spec.ValueOfCharOf | mbase64.c:13-36 | the reverse table undoes the table |
| Base64Spec.CharOfValueOf | mbase64.c:22-36 | table after reverse table gives a character back exactly when it is in the alphabet |
| Base64.ConvertFromB64 | mbase64.c:52-67 | the shifts join four six-bit values into the 24 bits they spell |
| Base64.ConvertToB64 | mbase64.c:69-80 | the shifts and masks cut 24 bits into four sixes |
| Base64.BlockOfData | mbase64.c:134-153 | block m is six-bit groups 4m to 4m+3 of the zero-extended bit stream |
| Base64.CharsOfBlock | mbase64.c:137-165 | which characters of a block are '=' (61) follows from the bytes that remain |
| Base64.BlockOfText | mbase64.c:100-114 | block m decodes to octets 3m to 3m+2 of the text's bit stream |
| Base64.WriteBlock | mbase64.c:155-165 | the four characters of a block with its padding, and no other byte of the buffer |
| Base64.ReadBlock | mbase64.c:102-110 | the loop over the fields looks up four characters in the reverse table |
| Base64.EncodeData | mbase64.c:124-172 | the output is the specified text and a NUL, in a buffer of exactly 4*ceil(n/3)+1 bytes |
| Base64.DecodeText | mbase64.c:82-122 | NULL exactly for lengths not a multiple of four; otherwise the specified octets, within a buffer of 3n/4 |
| Base64Laws.DecodeEncode | mbase64.c:82-172 | decoding an encoding gives the same bytes and the same size, for every byte string |
| Base64Laws.EncodingIsCanonical | mbase64.c:124-172 | every encoder output is canonical, unused bits zero |
| Base64Laws.EncodingIsCString | mbase64.c:85-85 | no encoder output holds a NUL, so `strlen` of it is its full length and the round trip goes through C strings |
| Base64Laws.PaddingIsEquals | mbase64.c:160-165 | a character of an encoding is '=' (61) if and only if it is one of the last (3 - n mod 3) mod 3 |
| Base64Laws.DecodedSize | mbase64.c:95-119 | the decoder answers 3n/4 bytes less one for each of the last two characters that is '=' (61) |
| Base64Laws.EncodeOneBlock | mbase64.c:137-165 | the text of one, two or three octets, bit by bit, with every '=' |
| Base64Laws.EncodingExamples | mbase64.c:124-172 | "f", "fo" and "foo" of section 10 of RFC 4648, and "+/8=" |
| Base64Laws.EncodeDecode | mbase64.c:82-172 | a text of a right length survives decode and encode if and only if it is canonical |
| Base64Laws.NormalisationIsIdempotent | mbase64.c:82-172 | decode and encode make any such text canonical, with the same meaning, once and for all |
| Base64Laws.EncodeConcatenation | mbase64.c:134-168 | encoding in pieces works if and only if the first piece is whole blocks or the second is empty |
| Base64Laws.DecodeConcatenation | mbase64.c:95-121 | decoding in pieces works if and only if the first piece has no '=' in its last two places or the second is empty |
| LinkedList.Add | madt.h:24-36 | the new node comes last, all other links stay |
| LinkedList.Find | madt.h:46-59 | the first node that passes the test, or NULL |
| LinkedList.Length | madt.h:93-100 | the number of nodes |
| LinkedList.Remove | madt.h:66-86 | for any number of matches and any `previous` for which the loop ends: what remains is `Kept`, a proper list in the old order; `freenode` is the last match; a node whose successor does not match keeps its link; a `previous` outside the list points behind the matches at the front |
| LinkedList.Unlink | madt.h:75-77 | the assignment through `previous` takes one node out, or does nothing to the list when `previous` is that node or not in the list |
| LinkedList.RemovesEveryMatch | madt.h:66-86 | all matches go if and only if the head does not match, or `previous` was NULL and the first two nodes do not both match |
| LinkedList.HandedBackButKept | madt.h:61-65 | the node handed back as removed is in truth still linked if and only if no node matches behind the matches at the front, and these are two or more (`previous` NULL), exactly one (`previous` the head) or any (`previous` outside) |
| LinkedList.RemovesTheMatch | madt.h:66-86 | a single match, at the head, in the middle or at the end, goes and is handed back, and nothing else does, unless it is the head and `previous` was not NULL |
| LinkedList.RemovesNothing | madt.h:66-86 | with no match the list and `freenode` are unchanged |
| RegistryModel.ApplyInv | mlog.c:127-249 | every call keeps handles increasing and below the next one, and the counters in agreement with the list |
| RegistryModel.CreateInTwoSteps | mlog.c:147-171 | creating is linking in a bare logger and then setting its type by handle |
| RegistryModel.SetFields | mlog.c:273-331 | each setter changes the field it is named for, in the logger named, and no other field, logger or counter |
| RegistryModel.SetTypeFields | mlog.c:282-312 | after a change of type: the type; stderr, the file opened, or stdout; and what a refused change leaves of both |
| RegistryModel.CreateFields | mlog.c:134-178 | a new logger has the type, severity and time asked for, the next handle, no callback, and the stream of its type, none for FILE |
| MLog.MLog.FindLogger | mlog.c:244-249 | the node of the first logger with the handle, or NULL |
| MLog.ChangeLogger | mlog.c:273-331 | the field assignments of the four setters, and whether the change of type is accepted |
| MLog.MLog.SetLogger | mlog.c:273-331 | a setter changes the logger named and nothing else; an unknown handle changes nothing |
| MLog.MLog.GetLogger | mlog.c:134-178 | the new logger is linked in last under the next handle; a failed allocation answers -1 and changes nothing |
| MLog.MLog.Delist | mlog.c:199-199 | the node with the handle is unlinked and handed back, wherever it stands |
| MLog.MLog.ShutdownLogger | mlog.c:189-215 | the logger is removed and its node freed once; counters follow; an unknown handle answers 0 |
| MLog.MLog.FreeNodes | mlog.c:226-233 | every node is read before it is freed and freed exactly once, and the count goes down to 0 |
| MLog.MLog.ShutdownAllLoggers | mlog.c:217-242 | the assertion that the count reaches 0 holds; the list is empty, the default unset, and the next handle unchanged |
| MLogRuns.Perform | mlog.c:134-331 | one call of the object is one step of the run |
| MLogRuns.Drive | mlog.c:124-331 | a new registry object driven through any calls answers and looks up as a finite map would |
| RegistryRuns.RunInv | mlog.c:124-249 | the invariant after every run, and the next handle is the number of loggers ever created |
| RegistryRuns.RunRefinesMap | mlog.c:134-331 | over every run, answers and lookups are those of a finite map from handles to loggers, which sets fields by name |
| RegistryRuns.HandlesAreNeverReused | mlog.c:126-129 | the n-th logger created gets handle n, whatever has been shut down |
| RegistryRuns.CountersAgree | mlog.c:160-240 | `nloggers` is the length of the list; `g_handle` is -1 exactly when it is empty and 0 otherwise |
| RegistryRuns.DefaultIsLive | mlog.c:165-168 | the default handle names a live logger if and only if the first one ever created is still there |
| RegistryRuns.DefaultCanBeDead | mlog.c:209-212 | a run after which the default handle names nobody |
| RegistryRuns.RefusedType | mlog.h:94-102 | for a known logger a change of type is refused exactly when a file is asked for without a path or does not open, and it then leaves NONE if and only if a path was given |
| RegistryRuns.CreatedFileLoggerHasNoFile | mlog.c:170-171 | creating a file logger makes such a refused call: it still answers a handle, with type FILE and no file |
| Tokens.TokensAreWords | mstr.c:44-97 | the tokenizer's words are not empty and free of separators |
| Tokens.TokensKeepLetters | mstr.c:44-97 | the tokenizer's words hold every character that is not a separator, in order |
| Tokens.TokensAtSeparator | mstr.c:44-97 | a separator always ends a word: the tokens of two parts are those of the whole |
| Tokens.SplitIsTokens | mstr.c:54-62 | the code's result is the tokenizer's if and only if the string is empty, a single separator, or ends in two characters of one class |
| Tokens.OneLetterIsDropped | mstr.c:54-62 | a final word of one character is missing from the result |
| Tokens.TrailingSeparatorIsKept | mstr.c:54-62 | a single final separator becomes part of the last word |
| Tokens.SplitUndoesJoin | mstr.c:13-104 | words joined by a separator come back if and only if the last has at least two characters |
| MStr.IsSeparator | mstr.c:46-52 | the inner loop decides membership in the separators |
| MStr.DefaultSplitUndoesJoin | mstr.c:16-32 | with NULL for separators, words joined by a space, tab, newline or carriage return come back if and only if the last has at least two characters |
| MStr.DefaultSeparators | mstr.c:16-32 | with NULL for separators, a character between two words parts them if and only if it is one of those four |
| MStr.TestInput | t/test_msplit.c:8-22 | the three words that the library's own test expects |
| MStr.ScanLast | mstr.c:53-80 | the step at the last character finishes the word under way or loses the character |
| MStr.RoomForTerminator | mstr.c:81-101 | there is room for the final NULL after n words if and only if n is not 8 times a power of two; fewer than 8 always leave room |
| MStr.EightWordsFillTheArray | mstr.c:99-101 | an input that has no room: any eight words of two equal letters, joined by a separator |
| MStr.MSplit | mstr.c:13-104 | the words returned are those of `Split`; each is stored below the array's length, which ends as the least 8*2^k that holds them; the final NULL follows them unless their number is 8, 16, 32 and so on, and exactly then it is written behind the array's end |

## Left out

- `mqueue_destroy`, the queue's description string and debug output: no state that the rest depends on.
- `mqueue_size` under threads: it takes the mutex and reads; it changes nothing.
- Direct calls of `mqueue_vacuum` in the threaded build: it takes no lock, and its comment says the caller holds the mutex; direct calls are in the single-threaded runs only.
- Storing, growth and compaction inside the mutex are one step of the monitor; what they do to the array is in the class.
- The contents of array slots outside the live part: after growth they hold anything.
- The values the list macros leave in the caller's `current` and `previous` after adding or removing.
- The int binary tree of madt.c: it allocates nodes and prints.
- `vmlogf`, `mlogf` and the formatting of messages, and the opening of log files beyond its outcome: file output.
- The `path` field of a logger: it is set to NULL and never used.
- Locking in mlog.c: only `mlogf` is promised to be thread-safe, so the registry is sequential.
- Freed memory is a set of live nodes; the bytes of a freed node are not modelled.
- `msplit`: byte sizes of the copied separators and words, and their terminators.
- MStr.MSplit: the NULL written behind the end of a full array is reported as `overrun`; what it overwrites there is not modelled.
- `mbase64_decode` of the empty string: `malloc(0)` is an empty buffer.
- mnet.c, muri.c, mutil.c, mdebug.c, mikelib.c and the command-line programs: sockets, processes, other libraries, printing.
