# Verification of the core library

This project models four parts of the core library in Dafny and proves what they are for.

* **Text conversion** (`Utf8`, `MalformedUtf8`, `Utf16`). Reading and writing one UTF-8 character of up to six bytes
  (section 2 of RFC 2279), testing a string, and converting to and from UTF-16 (sections 2.1, 2.2 and 3.2 of RFC 2781) and
  UCS-2. Methods follow the program byte by byte; they are proved against functions that state the format, and the theorems
  are about these functions: reading and writing are inverse both ways, the conversions are round trips, and of every
  malformed string it is said how many bytes count for one invalid character.
* **Event queue and timers** (`EventQueues`, `SimpleEventQueueBuffers`, `Timers`, `TimerRuns`, `PriorityQueues`,
  `Stopwatches`). Recycled ids, a table, a deque of ids and a list of pending events together behave as one plain list
  of events. A heap of remaining times that is counted down in place behaves as timers with absolute deadlines. Each
  method is one critical section, so an interleaving of threads is a sequence of calls. The two halves of the event
  queue share nothing but a mutex and are two classes here.
* **Server proxy** (`Modifiers`, `Coalescing`, `ServerProxies`, `Forwarding`, `ProxiedClients`). Motion that is held back and
  sent later shows what motion sent at once would show, exactly as long as moves keep their order; a modifier key and its
  mask bit are translated alike under every history of options, and every key is forwarded so; nothing acts on the screen
  before the handshake is complete; and what the calls of a run do to the connection of the client is followed to its end.
* **Client connection** (`ClientSpec`, `ClientLaws`, `Clients`). A class with the fields of the client and the table of
  registered handlers does, for every call, lookup result and event, what a small automaton does; the theorems are about
  all runs of the automaton and carry over to the class. Among them: what begins and what ends a connection, and exactly
  what is reported of it.

Classes keep the source's fields and methods. Their contracts say what the new state is, most often as a function of
the old one, and the lemmas are about these functions. `Run`, `Serve` and `Live` drive an object through any sequence of
inputs from its construction, so their contracts hold without any assumption about a state.

What comes from outside is a parameter: readings of the clock (only not going back), whether more input is waiting,
results of lookups, how far an attempt to connect gets, whether the body of a message can be read, whether the input
validator drops a key, and the outcomes of clipboard and file assembly.

## Findings

* Holding motion back is not invisible without a condition: a distance that is held back is sent after a place that
  arrives with nothing waiting behind it (`Coalescing.OrderMatters`). `Coalescing.KeepsOrder` is the exact condition, and
  a caller can check it before each move. With motion not ignored, a place finds another place held back, or more input
  waiting, or no distance held back, or one of zero; a distance finds another distance held back, or more input waiting,
  or no place held back, or is zero. While motion is ignored, motion that is already held back still takes up moves of
  its kind, so there such a move must not change where the cursor will come to.
* A client can be ready without a server proxy. When a message that sets options in the handshake ends too early, the
  proxy disconnects the client, which deletes the proxy, and then still calls `handshakeComplete`, through the deleted
  proxy (`src/lib/client/ServerProxy.cpp:205-216` and `src/lib/client/ServerProxy.cpp:931-934`). That sets the client
  ready and enables the screen without asking for a proxy (`src/lib/client/Client.cpp:209-214`;
  `ClientSpec.ReadyAloneInput`). No other message does that: `ProxiedClients.ServedThenReadyAlone` says that a run of the
  proxy leaves its client ready without a proxy exactly if such a message was the last one handled, and
  `ProxiedClients.CutRun` is a run. `ClientSpec.ReadyAloneExactly` says the same of the client whoever calls it: it is
  ready without a proxy exactly if the handshake was completed while there was none and no proxy has been set up since.
* Event ids are not aliased, and events come out in order, exactly as long as the events that wait fit the 2^32 ids. One
  more makes `saveEvent` overwrite a stored event (`EventQueues.ChosenIDIsFree`, `EventQueues.IDsAfter`), and there are
  runs that come to that (`EventQueues.Overflows`).
* A lookup is not made stale by a connection that was opened without it and lost in the meantime, for that does not
  advance the generation (`ClientSpec.LookupOutlivesConnection`; `ClientSpec.LookupActsExactly` says what does).
* `src/lib/base/IEventQueue.h:104` says that a one-shot timer always reports a count of 1. The code counts for one-shot
  timers as for all others: the count is 1 exactly as long as the timer is found less than one timeout late
  (`Timers.CountIsOne`; `Timers.OneShotCountsTwo` is an input where it is 2).
* `src/lib/base/Stopwatch.h:63-64` says that a triggered stopwatch reports zero. The code reports the time kept so far,
  which is zero exactly if it has not run since it was last reset (`Stopwatches.TriggeredReportsZero`;
  `Stopwatches.TriggeredReportsSecond` is a history where it is not).
* `src/lib/synergy/input/InputValidator.h:64` says that the defined modifier bits are exactly those of KeyTypes.h. The
  code leaves NumLock and ScrollLock out, and these two only (`Modifiers.SanitizeKeeps`, `Modifiers.NumLockIsCleared`).
* `Unicode::toUTF8` writes U+FFFE and U+FFFF, which `fromUTF8` refuses. So converting UTF-16 gives a string that `isUTF8`
  refuses, without an error, exactly when all surrogates are paired and such a unit comes after the mark
  (`Utf16.SilentlyMalformed`; `Utf16.SilentlyMalformedInput` is one).

## Model

| member | source | states |
|---|---|---|
| `Utf8.DecodeEncode` | src/lib/base/Unicode.cpp:244-443 | Reading the encoding of a code point below 2^31 that is no surrogate gives it back and takes exactly its bytes, whatever follows; U+FFFE and U+FFFF, which can be written, are refused |
| `Utf8.EncodeDecode` | src/lib/base/Unicode.cpp:244-443 | Whatever reading accepts is, byte for byte, what writing makes of the result: every accepted sequence is the shortest one |
| `Utf8.DecodeAllEncodeAll` | src/lib/base/Unicode.cpp:244-443 | Reading a whole written string gives its code points one for one, the two refused ones as invalid |
| `Utf8.EncodeAllDecodeAll` | src/lib/base/Unicode.cpp:244-443 | A string that is read without an invalid character is the encoding of what was read |
| `Utf8.WellFormedIff` | src/lib/base/Unicode.cpp:55-65 | A string is a concatenation of encodings of acceptable code points exactly when reading it meets no invalid character |
| `Utf8.EncodeAllWellFormed` | src/lib/base/Unicode.cpp:386-405 | Of writable code points, exactly those without U+FFFE and U+FFFF encode to a well-formed string |
| `Utf8.Extract` | src/lib/base/Unicode.cpp:291-327 | The masks and shifts spelled out for each length compute the payload of the format, six bits a byte |
| `Utf8.Truncate` | src/lib/base/Unicode.cpp:329-370 | The fall-through switch finds the first byte that does not continue the sequence |
| `Utf8.FromUTF8` | src/lib/base/Unicode.cpp:244-396 | One character is read and both the position and the count move past it, by at least one byte and never past the end; the result is that of the format, with overlong, cut, surrogate and refused forms invalid |
| `Utf8.EncodeFlat` | src/lib/base/Unicode.cpp:408-442 | The bytes written for one code point, spelled out for each length |
| `MalformedUtf8.EveryString` | src/lib/base/Unicode.cpp:244-396 | Every string begins with a stray byte, or with a lead byte and continuations that are all there, are cut by another byte, or are cut by the end |
| `MalformedUtf8.StrayByte` | src/lib/base/Unicode.cpp:253-281 | A continuation byte, 0xFE or 0xFF where a character should begin is one invalid character of one byte |
| `MalformedUtf8.CutSequence` | src/lib/base/Unicode.cpp:329-379 | A sequence that is cut by a byte that does not continue it, overlong or not, is one invalid character, and reading goes on with that byte |
| `MalformedUtf8.CutEncoding` | src/lib/base/Unicode.cpp:329-379 | In particular the encoding of any code point that is cut so |
| `MalformedUtf8.SequenceTooLong` | src/lib/base/Unicode.cpp:284-289 | A sequence that announces more bytes than are left is one invalid character and takes all that is left |
| `MalformedUtf8.WholeSequence` | src/lib/base/Unicode.cpp:381-395 | A whole sequence is one character that takes all its bytes: an invalid one exactly if it spells a surrogate, U+FFFE or U+FFFF, or is longer than it need be, with the bounds spelled out |
| `MalformedUtf8.Latin1Loses` | src/lib/base/Unicode.cpp:361-374 | Of a Latin-1 word that is taken for UTF-8, the accented letter is lost and the three letters behind it are not |
| `Utf8.ToUTF8` | src/lib/base/Unicode.cpp:398-443 | Appends the encoding of a code point, or of U+FFFD with the error reported, exactly when it cannot be written |
| `Utf8.IsUTF8` | src/lib/base/Unicode.cpp:55-65 | Ends on every input and is true exactly for well-formed strings |
| `Utf16.AppendUTF16` | src/lib/base/Unicode.cpp:114-123 | Appends one unit, or the surrogate pair of the code point |
| `Utf16.NextUTF8` | src/lib/base/Unicode.cpp:106-124 | Converts one character, malformed or unrepresentable ones as U+FFFD, and reports only the latter as an error |
| `Utf16.UTF8ToUTF16` | src/lib/base/Unicode.cpp:94-127 | Converts a whole string; there is an error exactly when some well-formed character is beyond U+10FFFF |
| `Utf16.SkipMark` | src/lib/base/Unicode.cpp:191-209 | Finds the units that are left after a byte order mark, in the order that the mark says |
| `Utf16.NextUTF16` | src/lib/base/Unicode.cpp:214-239 | Converts one character and takes one or two units, never more than are left; there is an error exactly when the character does not stand for the units it takes |
| `Utf16.DoUTF16ToUTF8` | src/lib/base/Unicode.cpp:185-242 | There is an error exactly when some surrogate after the mark is not in a pair |
| `Utf16.UTF16ToUTF8` | src/lib/base/Unicode.cpp:139-147 | The same for a string; an odd last byte is dropped |
| `Utf16.ScalarsOfUnits` | src/lib/base/Unicode.cpp:94-242 | Units made of code points read back as these code points, all in pairs |
| `Utf16.UnitsOfScalars` | src/lib/base/Unicode.cpp:94-242 | Paired units are the units of the code points read from them |
| `Utf16.EncodedRoundTrip` | src/lib/base/Unicode.cpp:94-147 | The encoding of any code points that UTF-16 can hold comes back without an error, but for a U+FEFF in front |
| `Utf16.Utf16RoundTrip` | src/lib/base/Unicode.cpp:94-147 | A well-formed string without characters beyond U+10FFFF comes back from UTF-16 as it was, or without its first character when that is U+FEFF, and neither way reports an error |
| `Utf16.Utf8RoundTrip` | src/lib/base/Unicode.cpp:94-147 | From well-paired UTF-16 to UTF-8 and back only the byte order mark is lost |
| `Utf16.Utf8OfUtf16WellFormed` | src/lib/base/Unicode.cpp:185-242 | The result of reading UTF-16 is well-formed UTF-8 exactly when no character of it is U+FFFE or U+FFFF, even if there was an error |
| `Utf16.Utf8OfUtf16Accepted` | src/lib/base/Unicode.cpp:185-242 | In particular when no unit after the mark is U+FFFE or U+FFFF |
| `Utf16.RefusedExactly` | src/lib/base/Unicode.cpp:185-242 | Well-paired units spell U+FFFE or U+FFFF exactly when one of them is that unit |
| `Utf16.SilentlyMalformed` | src/lib/base/Unicode.cpp:185-242 | Reading UTF-16 gives a string that is not well-formed UTF-8 without an error exactly when all surrogates are paired and some unit after the mark is U+FFFE or U+FFFF |
| `Utf16.SilentlyMalformedInput` | src/lib/base/Unicode.cpp:398-405 | The one unit U+FFFF is such an input |
| `Utf16.ByteOrderIrrelevant` | src/lib/base/Unicode.cpp:191-209 | With a mark in front, both byte orders convert to the same string with the same error |
| `Utf16.NextUTF8ToUCS2` | src/lib/base/Unicode.cpp:79-89 | Converts one character to a single unit, with an error exactly when it needs more |
| `Utf16.UTF8ToUCS2` | src/lib/base/Unicode.cpp:67-92 | Converts a whole string, with an error exactly when some character needs more than one unit |
| `Utf16.DoUCS2ToUTF8` | src/lib/base/Unicode.cpp:149-183 | Each unit is converted for itself, with an error exactly when one is a surrogate |
| `Utf16.UCS2ToUTF8` | src/lib/base/Unicode.cpp:129-137 | The same for a string; an odd last byte is dropped |
| `Utf16.Ucs2RoundTrip` | src/lib/base/Unicode.cpp:67-183 | From UTF-8 to UCS-2 and back, strings of characters of one unit are kept, but for a U+FEFF in front |
| `Utf16.Ucs2Agrees` | src/lib/base/Unicode.cpp:67-127 | UCS-2 and UTF-16 of a string are the same exactly when no character takes a surrogate pair |
| `Utf16.TakenExactly` | src/lib/base/Unicode.cpp:149-242 | UTF-16 sees at most as many characters as there are units, and fewer exactly when a high surrogate takes the next unit along; otherwise each unit is one character |
| `Utf16.Ucs2ReadingAgrees` | src/lib/base/Unicode.cpp:149-242 | Any units read as UCS-2 and as UTF-16 give the same string and error exactly when no high surrogate has a unit behind it; on well-paired units, exactly when there is no surrogate |
| `Utf16.LowByteFirst` | src/lib/base/Unicode.cpp:114-122 | A unit is written with its low byte first |
| `Utf16.UnitsReadBack` | src/lib/base/Unicode.cpp:106-124 | The units written for characters are read back as they were, and unwritable characters become U+FFFD |
| `Utf16.NarrowUnits` | src/lib/base/Unicode.cpp:79-89 | In UCS-2, characters up to U+FFFF are their own unit and all others U+FFFD |
| `Utf16.UnpairedReplaced` | src/lib/base/Unicode.cpp:215-236 | A surrogate that is not in a pair becomes U+FFFD |
| `Utf16.PairRead` | src/lib/base/Unicode.cpp:215-231 | A surrogate pair becomes the code point of its twenty bits |
| `Stopwatches.Stopwatch.constructor` | src/lib/base/Stopwatch.cpp:15-20 | A new stopwatch runs, or is triggered and stopped |
| `Stopwatches.Stopwatch.Reset` | src/lib/base/Stopwatch.cpp:22-34 | Reports the time spent running since the last reset, and keeps whether it runs |
| `Stopwatches.Stopwatch.Stop` | src/lib/base/Stopwatch.cpp:36-45 | From now on no time is counted; the time so far is kept |
| `Stopwatches.Stopwatch.Start` | src/lib/base/Stopwatch.cpp:47-57 | From now on time is counted again, on top of what was kept; the trigger is gone |
| `Stopwatches.Stopwatch.SetTrigger` | src/lib/base/Stopwatch.cpp:59-63 | Stops, and arms the trigger |
| `Stopwatches.Stopwatch.GetTime` | src/lib/base/Stopwatch.cpp:65-76 | Reports the time spent running since the last reset; a triggered stopwatch starts |
| `Stopwatches.Stopwatch.Peek` | src/lib/base/Stopwatch.cpp:83-90 | Reports the same and changes nothing |
| `Stopwatches.ArmedIsStopped` | src/lib/base/Stopwatch.cpp:22-76 | After any history of calls, a set trigger means a stopped clock |
| `Stopwatches.RanBounded` | src/lib/base/Stopwatch.cpp:22-90 | After any history of calls, the time reported is neither negative nor more than the age of the stopwatch |
| `Stopwatches.EachCall` | src/lib/base/Stopwatch.cpp:22-90 | What each call makes of the time reported from then on: a reset forgets, starting and reading a triggered stopwatch let it run on, stopping and triggering keep what has run; and which calls keep the trigger |
| `Stopwatches.TriggeredReportsZero` | src/lib/base/Stopwatch.cpp:65-70 | A triggered stopwatch reports zero exactly if it has not run since it was last reset |
| `Stopwatches.TriggeredReportsSecond` | src/lib/base/Stopwatch.cpp:59-70 | One that has run for a second and is then triggered reports that second |
| `PriorityQueues.PushHeap` | src/lib/base/PriorityQueue.h:46-50 | A heap of all elements is made of a heap and one more |
| `PriorityQueues.PopHeap` | src/lib/base/PriorityQueue.h:53-57 | The front goes to the end, the others are a heap |
| `PriorityQueues.MakeHeap` | src/lib/base/PriorityQueue.h:60-64 | Any elements are made a heap, none lost |
| `PriorityQueues.SiftDown` | src/lib/base/PriorityQueue.h:53-64 | An element sinks to a place where its children are no less |
| `PriorityQueues.FrontIsLeast` | src/lib/base/PriorityQueue.h:107-110 | The front of a heap is a least element |
| `PriorityQueues.ShiftedIsHeap` | src/lib/base/EventQueue.cpp:394-397 | Taking one amount from every element in place leaves a heap a heap |
| `PriorityQueues.PriorityQueue.Push` | src/lib/base/PriorityQueue.h:46-50 | The contents are the multiset with one element more, again a heap |
| `PriorityQueues.PriorityQueue.Pop` | src/lib/base/PriorityQueue.h:53-57 | The contents are the multiset without the front, again a heap |
| `PriorityQueues.PriorityQueue.Erase` | src/lib/base/PriorityQueue.h:60-64 | The contents are the multiset without the element at any place, again a heap |
| `PriorityQueues.PriorityQueue.Top` | src/lib/base/PriorityQueue.h:107-110 | Gives an element with the least key of all |
| `PriorityQueues.PriorityQueue.SubtractAt` | src/lib/base/EventQueue.cpp:479-483 | Changes one key in place and nothing else |
| `SimpleEventQueueBuffers.SimpleEventQueueBuffer.GetEvent` | src/lib/base/SimpleEventQueueBuffer.cpp:45-55 | Takes out the oldest id, or finds none |
| `SimpleEventQueueBuffers.SimpleEventQueueBuffer.AddEvent` | src/lib/base/SimpleEventQueueBuffer.cpp:57-66 | Puts an id behind all others |
| `SimpleEventQueueBuffers.SimpleEventQueueBuffer.IsEmpty` | src/lib/base/SimpleEventQueueBuffer.cpp:68-72 | The ready flag tells whether there is an id |
| `EventQueues.ChosenIDIsFree` | src/lib/base/EventQueue.cpp:343-359 | The id chosen for an event is not in use exactly as long as fewer than 2^32 are in use |
| `EventQueues.PartitionFits` | src/lib/base/EventQueue.cpp:343-377 | There are never more than 2^32 ids in use and set aside together |
| `EventQueues.SavePartition` | src/lib/base/EventQueue.cpp:343-359 | Saving any event, even over another one, keeps the ids in use and set aside a partition of all ids below some number |
| `EventQueues.RemovePartition` | src/lib/base/EventQueue.cpp:361-377 | So does removing one |
| `EventQueues.EventQueue.constructor` | src/lib/base/EventQueue.cpp:41 | A new queue holds nothing |
| `EventQueues.EventQueue.SaveEvent` | src/lib/base/EventQueue.cpp:343-359 | Stores an event under the chosen id; it overwrites a stored event exactly when all 2^32 ids are in use |
| `EventQueues.EventQueue.RemoveEvent` | src/lib/base/EventQueue.cpp:361-377 | Takes out the event of an id, or gives an event of unknown type for an id not in use |
| `EventQueues.EventQueue.AddEventToBuffer` | src/lib/base/EventQueue.cpp:236-249 | The event comes last of those in flight; every event in flight still has an id of its own exactly if not all ids were in use |
| `EventQueues.EventQueue.AddEvent` | src/lib/base/EventQueue.cpp:209-234 | Bogus events are discarded, immediate ones dispatched, all others are queued behind what was accepted before; the ids in flight are those in use, each once, exactly as long as the events that wait fit the ids |
| `EventQueues.EventQueue.BecomeReady` | src/lib/base/EventQueue.cpp:50-65 | Draining the pending events changes nothing about what waits and in what order, with the same exact condition on the ids |
| `EventQueues.EventQueue.TakeID` | src/lib/base/EventQueue.cpp:161-163 | The oldest id leaves the buffer while its event stays in the table |
| `EventQueues.EventQueue.DeliverTaken` | src/lib/base/EventQueue.cpp:178-182 | What is delivered is the oldest accepted event not yet delivered |
| `EventQueues.EventQueue.Perform` | src/lib/base/EventQueue.cpp:50-249 | One critical section of any thread does to ids, table, buffer and pending events what it does to one plain list, and each event keeps an id of its own exactly as long as those that wait fit the ids |
| `EventQueues.FifoKeepsOrder` | src/lib/base/EventQueue.cpp:209-249 | In any interleaving, what was delivered and what waits is all that was accepted, in order |
| `EventQueues.LoopDelivers` | src/lib/base/EventQueue.cpp:161-182 | Once the queue is ready, each turn of the loop brings out the next event, until all that waited has come out |
| `EventQueues.Run` | src/lib/base/EventQueue.cpp:50-249 | In any run, however long, in which the events that wait before each step fit the 2^32 ids, what comes out is what one plain list gives out, a prefix of what was accepted: each event at most once and in order |
| `EventQueues.IDsAfter` | src/lib/base/EventQueue.cpp:343-377 | After any run, the ids in use and set aside are all ids below some number, each once; up to the first step that leaves more events waiting than there are ids, and not after it, those in flight are those in use, each once, and their events and the pending ones are exactly those that wait |
| `EventQueues.Overflows` | src/lib/base/EventQueue.cpp:343-359 | Every event that is accepted gives a run whose last step is the first to leave more events waiting than there are ids |
| `Timers.CountBounds` | src/lib/base/EventQueue.cpp:505-512 | The count of an expired timer is at least one and the greatest that fits the delay |
| `Timers.CountFitsDelay` | src/lib/base/EventQueue.cpp:505-512 | The count fits the absolute delay, and all counts so far fit the time since the timer was created |
| `Timers.CountIsOne` | src/lib/base/EventQueue.cpp:505-512 | An expired timer, one-shot or not, reports a count of 1 exactly as long as it is found less than one timeout late |
| `Timers.OneShotCountsTwo` | src/lib/base/EventQueue.cpp:505-512 | A one-shot timer of one second that is found a second late reports a count of 2 |
| `Timers.DueShows` | src/lib/base/EventQueue.cpp:399-402 | A timer has nothing left exactly when its absolute deadline, put off by the time lost between two reads, has passed |
| `Timers.NeverEarly` | src/lib/base/EventQueue.cpp:390-402 | The remaining time is never less than deadline minus now, and equal to it exactly if no time was lost |
| `Timers.OnTimeShifted` | src/lib/base/EventQueue.cpp:390-397 | Counting all timers down and moving the mark keeps each at its deadline |
| `Timers.EventTimers.constructor` | src/lib/base/EventQueue.cpp:41 | There are no timers and the clock runs |
| `Timers.EventTimers.NewTimer` | src/lib/base/EventQueue.cpp:251-283 | A new timer has its deadline one duration from now, however long the queue was empty |
| `Timers.EventTimers.DeleteTimer` | src/lib/base/EventQueue.cpp:285-298 | Exactly the entry of the timer goes, and no other changes |
| `Timers.EventTimers.CountDown` | src/lib/base/EventQueue.cpp:394-397 | The loop takes the same amount from every timer |
| `Timers.EventTimers.Elapse` | src/lib/base/EventQueue.cpp:390-397 | Two reads of the clock keep every timer on time; the time between them is the only time lost |
| `Timers.EventTimers.Finish` | src/lib/base/EventQueue.cpp:399-418 | After counting down, the timer at the front is set off exactly if it is due; otherwise none is due |
| `Timers.EventTimers.SetOff` | src/lib/base/EventQueue.cpp:404-418 | The front timer is reported and, unless it is a one-shot, put back with its full timeout |
| `Timers.EventTimers.HasTimerExpired` | src/lib/base/EventQueue.cpp:379-419 | A timer goes off exactly if one is due; it is one with the least time left, its count fits the delay, and all others stay on time |
| `TimerRuns.AllKept` | src/lib/base/EventQueue.cpp:251-419 | In every run, the repeats that a timer has reported so far take no longer than from its creation to its last firing |
| `TimerRuns.NeverEarlyNorTooOften` | src/lib/base/EventQueue.cpp:379-419 | In every run, no timer goes off before its timeout has passed since it was created or last went off, it reports at least one repeat, and all its repeats fit the time since its creation |
| `TimerRuns.NoLagWithoutGaps` | src/lib/base/EventQueue.cpp:390-392 | If the two reads of the clock always coincide, the reading that sets a timer off is exactly its deadline |
| `TimerRuns.DueGoesOff` | src/lib/base/EventQueue.cpp:379-419 | In every run, while none is created or deleted, a timer that is due goes off within as many checks as there are timers due no later than it, so within as many as there are timers |
| `TimerRuns.WaitsSince` | src/lib/base/EventQueue.cpp:251-419 | In every run, a timer that was created and neither deleted since nor, as a one-shot, gone off waits as it was created; its deadline counts from the last step that set it, put off by what checks have lost since, and its repeats add up |
| `TimerRuns.WasCreated` | src/lib/base/EventQueue.cpp:251-419 | Only such timers wait |
| `TimerRuns.OneShotOnce` | src/lib/base/EventQueue.cpp:404-418 | A one-shot timer does not go off again unless its address is used for a new timer |
| `TimerRuns.StillDue` | src/lib/base/EventQueue.cpp:379-419 | Until it goes off, a due timer stays due, and each check leaves fewer timers ahead of it |
| `TimerRuns.FiredIsRight` | src/lib/base/EventQueue.cpp:399-416 | The timer that the heap gives is due, none is due before it, and its count is the rounded-down delay over its timeout |
| `TimerRuns.FiredReflects` | src/lib/base/EventQueue.cpp:379-419 | After a firing the heap holds the timers that the absolute reference has waiting |
| `TimerRuns.QuietReflects` | src/lib/base/EventQueue.cpp:390-402 | A check that finds nothing means that none is due, and the heap still holds the reference |
| `TimerRuns.Perform` | src/lib/base/EventQueue.cpp:251-419 | Creating, deleting and checking do to the heap what they do to timers with absolute deadlines |
| `TimerRuns.Run` | src/lib/base/EventQueue.cpp:251-419 | Any run of creations, deletions and checks at any readings of a clock that does not go back reports what timers with absolute deadlines report |
| `Modifiers.KeyFollowsTable` | src/lib/client/ServerProxy.cpp:463-537 | A modifier key becomes the key of the modifier in its place of the table, on the same side; other keys stay |
| `Modifiers.MaskFollowsTable` | src/lib/client/ServerProxy.cpp:539-566 | A single modifier bit becomes the bit of the modifier in its place of the table |
| `Modifiers.MaskOfTranslatedKey` | src/lib/client/ServerProxy.cpp:463-566 | The mask bit of a translated modifier key is the translated mask bit of the key |
| `Modifiers.MaskExactly` | src/lib/client/ServerProxy.cpp:539-566 | A translated mask has a modifier exactly when some modifier of the mask is mapped to it |
| `Modifiers.MaskDistributes` | src/lib/client/ServerProxy.cpp:539-566 | Translation distributes over the union of masks |
| `Modifiers.MaskKeepsOthers` | src/lib/client/ServerProxy.cpp:545-546 | Bits that are no modifiers stay |
| `Modifiers.IdentityTranslatesNothing` | src/lib/client/ServerProxy.cpp:922-925 | With the table of resetOptions both translations are the identity |
| `Modifiers.SanitizeKeeps` | src/lib/synergy/input/InputValidator.cpp:23-36 | A mask of declared bits is kept exactly if it has neither NumLock nor ScrollLock; bits that are not declared are cleared |
| `Modifiers.NumLockIsCleared` | src/lib/synergy/input/InputValidator.cpp:23-36 | NumLock alone is a declared mask that is cleared |
| `Modifiers.AfterOptions` | src/lib/client/ServerProxy.cpp:945-969 | Whatever the options, all entries of the table stay in range |
| `Modifiers.LastPairCounts` | src/lib/client/ServerProxy.cpp:945-969 | Working through the pairs in order, for each modifier the last pair that names it counts, and the place of no modifier never changes |
| `Modifiers.TableAfterUnique` | src/lib/client/ServerProxy.cpp:945-969 | That determines the table |
| `Modifiers.AfterBoth` | src/lib/client/ServerProxy.cpp:945-969 | Working through two option lists one after the other is working through both at once |
| `Coalescing.MoveAgrees` | src/lib/client/ServerProxy.cpp:814-879 | A move leaves the screen as sending it at once would exactly when it keeps order |
| `Coalescing.StepAgrees` | src/lib/client/ServerProxy.cpp:443-896 | Every step keeps the agreement of held-back and direct motion exactly when it keeps order |
| `Coalescing.CoalescingIsInvisible` | src/lib/client/ServerProxy.cpp:814-879 | In every run whose moves keep order, everything is seen at the cursor where it would be seen had each move been sent at once |
| `Coalescing.FirstBreakShows` | src/lib/client/ServerProxy.cpp:814-879 | In any run, the first move out of order puts the cursor elsewhere, as the next flush shows |
| `Coalescing.OrderMatters` | src/lib/client/ServerProxy.cpp:814-879 | A concrete run out of order: a distance held back, then a place with nothing waiting behind it |
| `Coalescing.HeldBack` | src/lib/client/ServerProxy.cpp:814-879 | While more input waits, moves that are not ignored are held back |
| `Coalescing.SentAtOnce` | src/lib/client/ServerProxy.cpp:814-879 | With nothing of its kind held back and no input behind it, a move is sent at once, or ignored |
| `Coalescing.NoneHeldAfter` | src/lib/client/ServerProxy.cpp:443-455 | A flush sends the place, then the distance, then what it was for; entering drops what was held back |
| `Coalescing.IgnoredExactly` | src/lib/client/ServerProxy.cpp:418-426 | In every run, motion is ignored exactly from a change of the screen on until it is acknowledged |
| `ServerProxies.ServerProxy.constructor` | src/lib/client/ServerProxy.cpp:36-89 | A new proxy parses the handshake, holds no motion back and translates nothing |
| `ServerProxies.ServerProxy.FlushCompressedMouse` | src/lib/client/ServerProxy.cpp:443-455 | Motion held back is sent, the place before the distance, and none is left over |
| `ServerProxies.ServerProxy.ReadOrDisconnect` | src/lib/client/ServerProxy.cpp:107-116 | A body that cannot be read ends the run with one disconnect |
| `ServerProxies.ServerProxy.MoveTo` | src/lib/client/ServerProxy.cpp:824-846 | A place to go to replaces all motion held back, is sent, or is ignored |
| `ServerProxies.ServerProxy.MoveBy` | src/lib/client/ServerProxy.cpp:859-878 | A distance is added to the one held back, starts one, is sent, or is ignored |
| `ServerProxies.ServerProxy.HandleMouseMove` | src/lib/client/ServerProxy.cpp:814-847 | The message does that only if its body can be read |
| `ServerProxies.ServerProxy.HandleMouseRelativeMove` | src/lib/client/ServerProxy.cpp:849-879 | Likewise for the relative move |
| `ServerProxies.ServerProxy.HandleEnter` | src/lib/client/ServerProxy.cpp:568-591 | Entering drops the motion held back and tells the client where |
| `ServerProxies.ServerProxy.HandleAtCursor` | src/lib/client/ServerProxy.cpp:768-812 | Buttons, the wheel and leaving find the cursor up to date, even if their body cannot be read |
| `ServerProxies.ServerProxy.HandleKeyDown` | src/lib/client/ServerProxy.cpp:653-688 | A key press is sent at an up-to-date cursor with cleaned mask and translated key and mask, or dropped |
| `ServerProxies.ServerProxy.HandleKeyRepeat` | src/lib/client/ServerProxy.cpp:690-735 | Likewise for a repeat |
| `ServerProxies.ServerProxy.HandleKeyUp` | src/lib/client/ServerProxy.cpp:737-766 | Likewise for a release, which is never dropped |
| `ServerProxies.ServerProxy.HandlePlain` | src/lib/client/ServerProxy.cpp:898-909 | The screen saver is switched without regard to the cursor |
| `ServerProxies.ServerProxy.HandleDragInfo` | src/lib/client/ServerProxy.cpp:995-1000 | Drag information changes nothing here unless it breaks the protocol, which disconnects the client |
| `ServerProxies.ServerProxy.HandleResetOptions` | src/lib/client/ServerProxy.cpp:911-926 | The client is told and the table translates nothing |
| `ServerProxies.ServerProxy.HandleSetOptions` | src/lib/client/ServerProxy.cpp:928-970 | An odd number of values is ignored; else the client is told and the table follows the pairs |
| `ServerProxies.ServerProxy.UpdateTable` | src/lib/client/ServerProxy.cpp:945-969 | The loop over the array makes the table that the pairs in order make |
| `ServerProxies.ServerProxy.OnInfoChanged` | src/lib/client/ServerProxy.cpp:418-426 | From now on motion is ignored |
| `ServerProxies.ServerProxy.InfoAcknowledgment` | src/lib/client/ServerProxy.cpp:980-984 | Motion is no longer ignored |
| `ServerProxies.ServerProxy.CompleteHandshake` | src/lib/client/ServerProxy.cpp:205-217 | The phase changes and the client is told once, even right after it was disconnected |
| `ServerProxies.ServerProxy.ParseHandshakeMessage` | src/lib/client/ServerProxy.cpp:192-274 | Each message of the handshake does what it asks for; only setting options ends the phase, and options that end too early disconnect the client and then complete the handshake all the same |
| `ServerProxies.ServerProxy.ParseMessage` | src/lib/client/ServerProxy.cpp:276-410 | Each message does what it asks for, in its place among the motion |
| `ServerProxies.ServerProxy.ParseOtherMessage` | src/lib/client/ServerProxy.cpp:284-403 | Likewise for messages that do not concern the cursor, but the screen saver, clipboards and files |
| `ServerProxies.ServerProxy.ParseControlMessage` | src/lib/client/ServerProxy.cpp:338-403 | Likewise for all other messages |
| `ServerProxies.ServerProxy.HandleData` | src/lib/client/ServerProxy.cpp:137-190 | A batch is worked through in order, a message that is not understood takes the rest with it, and at the end no motion is held back |
| `ServerProxies.FrameEffect` | src/lib/client/ServerProxy.cpp:192-410 | The phase changes only from handshake to messages, only on options, and with the client still connected only on options that can be read |
| `ServerProxies.NoWayBack` | src/lib/client/ServerProxy.cpp:192-274 | In any sequence of messages the phase changes at most once and not without options, which could be read if the client is still connected |
| `ServerProxies.CompletedAfterDisconnect` | src/lib/client/ServerProxy.cpp:205-217 | The proxy completes the handshake of a client that it has just disconnected exactly when a message that sets options ends too early |
| `ServerProxies.Serve` | src/lib/client/ServerProxy.cpp:137-410 | In any run of batches up to the disconnect, the handshake is completed at most once, no call acts on the screen before it, and the calls are those of the coalescing rules; if all moves keep order they show what direct motion shows |
| `Forwarding.KeyForwarded` | src/lib/client/ServerProxy.cpp:653-766 | A key message that can be read is forwarded at an up-to-date cursor with its button, count and language; its key becomes the key on its side of the modifier in the table, spelled out in key codes, and a mask bit is there exactly if some modifier of the mask is mapped to it; a release is never dropped |
| `Forwarding.KeyBecomesOne` | src/lib/client/ServerProxy.cpp:463-537 | What a key becomes is settled by the table |
| `Forwarding.KeyUnreadable` | src/lib/client/ServerProxy.cpp:653-766 | A key message that cannot be read disconnects the client; a repeat and a release bring the cursor up to date first |
| `Forwarding.PressAndRelease` | src/lib/client/ServerProxy.cpp:653-766 | Under one table, the press, the repeat and the release of a key name the same key |
| `Forwarding.MotionAsked` | src/lib/client/ServerProxy.cpp:814-879 | Motion is passed on with its place or distance and with whether more input waits |
| `Forwarding.EnteringAsked` | src/lib/client/ServerProxy.cpp:568-603 | Entering is passed on with place, number and mask as they came; leaving finds the cursor up to date |
| `Forwarding.ButtonsAsked` | src/lib/client/ServerProxy.cpp:768-896 | Buttons and the wheel are passed on as they came at an up-to-date cursor |
| `Forwarding.ScreenAsked` | src/lib/client/ServerProxy.cpp:634-651 | The screen saver is switched as the message says, and one of the two clipboards is grabbed, no other |
| `Forwarding.TransfersAsked` | src/lib/client/ServerProxy.cpp:605-632 | A whole clipboard is set and written files are offered; what breaks the protocol disconnects, and so does a broken clipboard |
| `Forwarding.MessageControls` | src/lib/client/ServerProxy.cpp:338-403 | Goodbyes, acknowledgments, resets, no-ops and protocol errors after the handshake, each with its call |
| `Forwarding.HandshakeControls` | src/lib/client/ServerProxy.cpp:192-274 | Those of the handshake |
| `Forwarding.OptionsAsked` | src/lib/client/ServerProxy.cpp:928-943 | Options are passed on as they came unless their number is odd, and complete the handshake even if they end too early |
| `Forwarding.Refusals` | src/lib/client/ServerProxy.cpp:240-266 | Each message of refusal refuses the client for its own reason, and one that cannot be read disconnects it |
| `Forwarding.NotUnderstood` | src/lib/client/ServerProxy.cpp:269-271 | A message that its phase does not know is not understood, and changes nothing |
| `Forwarding.BatchAsks` | src/lib/client/ServerProxy.cpp:137-190 | A batch asks for what its messages ask for up to the first that is not understood or ends the connection; a code cut short ends it, and otherwise the cursor is brought up to date |
| `Forwarding.RunAsks` | src/lib/client/ServerProxy.cpp:137-190 | In every run, each batch and each information change asks for just that, as long as the client is connected |
| `Forwarding.PhaseOf` | src/lib/client/ServerProxy.cpp:205-217 | The handshake ends exactly with a message that sets options and does not break the protocol |
| `Forwarding.OptionsMakeTable` | src/lib/client/ServerProxy.cpp:945-969 | Each modifier is mapped as the last option that names it says, with the option codes spelled out and values past AltGr cut, and to itself if there is none |
| `Forwarding.FrameTable` | src/lib/client/ServerProxy.cpp:911-970 | Only readable options of even number and resets change the table, in either phase |
| `Forwarding.TableFollowsOptions` | src/lib/client/ServerProxy.cpp:911-970 | After any messages, in either phase, the table is that of the options set since they were last reset |
| `Forwarding.ServeTable` | src/lib/client/ServerProxy.cpp:137-190 | A proxy that runs through any batches ends with that table, for the messages that it handled |
| `ProxiedClients.RunTells` | src/lib/client/ServerProxy.cpp:137-410 | Of the calls of a run, only goodbyes and the completed handshake touch the connection of the client, in the order in which they were asked for |
| `ProxiedClients.ServedThenReadyAlone` | src/lib/client/ServerProxy.cpp:137-217 | The calls of any run of the proxy leave the client that it serves ready without a proxy exactly if the last message handled was one of the handshake that sets options and ended too early |
| `ProxiedClients.CutRun` | src/lib/client/ServerProxy.cpp:205-217 | One such message makes such a run |
| `ClientSpec.RunIsSound` | src/lib/client/Client.cpp:83-714 | In every reachable state, a suspended client has no connection, only a suspended one waits to be resumed, the screen of a ready client is enabled, and no lookup under way is newer than the generation |
| `ClientSpec.StepAdvances` | src/lib/client/Client.cpp:64-714 | No step turns generation or object numbers back, revives a client, or starts a lookup with any but the new generation |
| `ClientSpec.GenerationsGrow` | src/lib/client/Client.cpp:104 | Over a run the generation only grows, and a client that is gone stays so |
| `ClientSpec.EveryLookupWasStarted` | src/lib/client/Client.cpp:99-128 | Every lookup under way was started by some step with its generation |
| `ClientSpec.StaleLookupOpensNothing` | src/lib/client/Client.cpp:99-128 | In any interleaving, a lookup that is done opens a connection or reports a failure only if since its own start no other was started and the client was neither disconnected nor refused nor suspended, and it is alive, idle and awake |
| `ClientSpec.LookupActsExactly` | src/lib/client/Client.cpp:99-128 | A lookup under way opens a connection or reports a failure exactly in that case |
| `ClientSpec.LookupOutlivesConnection` | src/lib/client/Client.cpp:78-129 | A connection can be opened directly and be lost while a lookup is under way, which then opens another one |
| `ClientSpec.RemembersExactly` | src/lib/client/Client.cpp:693-714 | A client waits to be resumed exactly if it was connected when suspended or was asked to connect since, and was not disconnected, refused or resumed after that |
| `ClientSpec.ResumeConnectsOnce` | src/lib/client/Client.cpp:704-714 | On resuming connect is called once exactly in that case, and otherwise the client only wakes up |
| `ClientSpec.NeverAwaitsAgain` | src/lib/client/Client.cpp:446-691 | A stream that does not wait for a hello any more never does so again |
| `ClientSpec.HelloOnce` | src/lib/client/Client.cpp:651-691 | No two steps of a run hand a hello on the same stream to the client, whether the first one was accepted or not |
| `ClientSpec.ReadyAloneExactly` | src/lib/client/Client.cpp:209-214 | A client is ready without a proxy exactly if it was told that the handshake is complete while it had none, and has had none since |
| `ClientSpec.ReadyAloneInput` | src/lib/client/Client.cpp:209-214 | A client that is served, disconnected with a message and then told that the handshake is complete is ready with its screen enabled and without a proxy |
| `ClientLaws.LookupDecides` | src/lib/client/Client.cpp:99-128 | In any run, a lookup that is done does something exactly if nothing since its start made it stale and the client is alive, idle and awake; then a failed one reports one failure and opens nothing, and a good one is an attempt to connect |
| `ClientLaws.LookupOutcome` | src/lib/client/Client.cpp:106-128 | The same for one step, by the generation |
| `ClientLaws.ConnectOutcome` | src/lib/client/Client.cpp:83-181 | Asked to connect, a client ignores it, remembers it, starts a lookup of a new generation, or attempts it: then it opens one stream and one timer, or reports one failure |
| `ClientLaws.HostnameIsLast` | src/lib/client/Client.cpp:78-81 | The server address names a host as the last one that was set does |
| `ClientLaws.StreamEvents` | src/lib/client/Client.cpp:568-691 | A connected stream waits for the hello, a failed one is reported, a known hello is served and an unknown one reported, with all else unchanged |
| `ClientLaws.BrokenStream` | src/lib/client/Client.cpp:604-620 | Each of the four kinds of breaking ends the connection, makes a served client unready, disables the screen of one that was ready, and is reported once |
| `ClientLaws.BrokenInRun` | src/lib/client/Client.cpp:604-620 | So it does in every reachable state |
| `ClientLaws.TimedOut` | src/lib/client/Client.cpp:594-602 | The timer ends a connection that connects or waits for the hello, with one report of failure |
| `ClientLaws.EndedByCall` | src/lib/client/Client.cpp:64-207 | What being disconnected, refused and destroyed leave of the state, and what each reports |
| `ClientLaws.SuspendedOutcome` | src/lib/client/Client.cpp:693-702 | Suspending ends the connection as a disconnect does and remembers whether the client was served |
| `ClientLaws.ResumedOutcome` | src/lib/client/Client.cpp:704-714 | Resuming wakes the client, and is being asked to connect if it remembers to |
| `ClientLaws.CompletedOutcome` | src/lib/client/Client.cpp:209-214 | A completed handshake makes the client ready, enables the screen and is reported once |
| `ClientLaws.NotHeard` | src/lib/client/Client.cpp:446-505 | Events of streams and timers of the past, or of a kind that the state does not wait for, change nothing |
| `ClientLaws.LostExactly` | src/lib/client/Client.cpp:64-714 | A connection ends exactly by the calls and events that are listed for its state, and keeps its stream until then |
| `ClientLaws.GainedExactly` | src/lib/client/Client.cpp:83-181 | An idle client gets a connection exactly by a call, a fresh good lookup or a resume whose attempt gets under way, and stream and timer are new |
| `ClientLaws.EveryConnectionEndsOnce` | src/lib/client/Client.cpp:64-714 | In any run, the connections that were begun are those that ended and the one there is |
| `Clients.TakenAway` | src/lib/client/Client.cpp:518-560 | Each order of removals that the clean-ups use takes away exactly the handlers of the connection |
| `Clients.TurnsGreeting` | src/lib/client/Client.cpp:568-572 | Exchanging the handlers of connecting for those of the connection gives exactly the handlers of a client that waits for the hello |
| `Clients.TurnsServing` | src/lib/client/Client.cpp:682-683 | The proxy replaces the hello handler, and with the screen handlers and without the timer the table is that of a served connection |
| `Clients.HandlerIsRight` | src/lib/client/Client.cpp:446-505 | In each state of the connection, the handler registered for an event is the one of that state |
| `Clients.Client.constructor` | src/lib/client/Client.cpp:42-62 | A new client has no connection and handles suspending and resuming |
| `Clients.Client.SetupConnecting` | src/lib/client/Client.cpp:446-462 | Registers the two handlers of a stream that is connecting |
| `Clients.Client.SetupConnection` | src/lib/client/Client.cpp:464-483 | Registers the five handlers of a connected stream |
| `Clients.Client.SetupScreen` | src/lib/client/Client.cpp:485-497 | There is a proxy, not yet ready, which takes over the input |
| `Clients.Client.SetupTimer` | src/lib/client/Client.cpp:499-505 | There is a timer with its handler |
| `Clients.Client.CleanupTimer` | src/lib/client/Client.cpp:553-560 | There is no timer and no handler of it |
| `Clients.Client.CleanupScreen` | src/lib/client/Client.cpp:539-551 | There is no proxy; if there was one and the client was ready, it is not ready any more and the screen is disabled |
| `Clients.Client.CleanupConnecting` | src/lib/client/Client.cpp:518-524 | The handlers of connecting are gone |
| `Clients.Client.CleanupConnection` | src/lib/client/Client.cpp:526-537 | The handlers of the connection are gone, and the stream |
| `Clients.Client.Cleanup` | src/lib/client/Client.cpp:507-516 | Everything of the connection is gone, lookups under way are stale |
| `Clients.Client.DoConnect` | src/lib/client/Client.cpp:83-129 | Connects, starts a lookup, remembers to connect on resuming, or does nothing |
| `Clients.Client.OnLookupDone` | src/lib/client/Client.cpp:106-128 | A stale result is dropped, a failed one reported, any other opens the connection |
| `Clients.Client.ContinueConnect` | src/lib/client/Client.cpp:131-181 | Opens a stream with its timer, or leaves nothing behind but a report |
| `Clients.Client.DoDisconnect` | src/lib/client/Client.cpp:183-192 | Nothing is left of the connection, and the reason is reported |
| `Clients.Client.DoRefuseConnection` | src/lib/client/Client.cpp:194-207 | Nothing is left of the connection, and a refusal is reported if there is a message |
| `Clients.Client.SetServerAddress` | src/lib/client/Client.cpp:78-81 | From now on connecting looks up a host or does not |
| `Clients.Client.DoHandshakeComplete` | src/lib/client/Client.cpp:209-214 | The client is ready and the screen enabled, whether or not there is a proxy |
| `Clients.Client.DoDestroy` | src/lib/client/Client.cpp:64-76 | Nothing is left of the connection, and no handler is registered any more |
| `Clients.Client.HandleConnected` | src/lib/client/Client.cpp:568-580 | The connection waits for the hello |
| `Clients.Client.HandleConnectionFailed` | src/lib/client/Client.cpp:582-592 | Nothing is left, and the failure is reported |
| `Clients.Client.HandleConnectTimeout` | src/lib/client/Client.cpp:594-602 | Likewise on a timeout, connected or not |
| `Clients.Client.HandleDisconnected` | src/lib/client/Client.cpp:604-620 | Nothing is left, and the client is reported disconnected |
| `Clients.Client.HandleHello` | src/lib/client/Client.cpp:651-691 | A known protocol gets a proxy and no timer, an unknown one leaves nothing; input behind the hello is announced |
| `Clients.Client.HandleSuspend` | src/lib/client/Client.cpp:693-702 | Nothing is left of the connection; the client waits to be resumed exactly if it had a proxy |
| `Clients.Client.HandleResume` | src/lib/client/Client.cpp:704-714 | Connects if it was waiting for that |
| `Clients.Client.Dispatch` | src/lib/client/Client.cpp:446-714 | Whatever event arrives for whatever target, the registered handler does what the automaton does, and its assertions hold |
| `Clients.Client.Perform` | src/lib/client/Client.cpp:64-714 | So does every call and every lookup result |
| `Clients.Live` | src/lib/client/Client.cpp:42-714 | In any life of a client, between two inputs: no stream means no timer and no proxy, a proxy means a stream and no timer, suspended means no stream, and the table holds exactly the handlers of the state; ready means a proxy exactly unless the client was told that the handshake is complete without one and has had none since |

## Left out

- Big-endian hosts: units are in little-endian host order.
- A null pointer for the error flag: the flag is always reported.
- Lengths of 2^32 bytes and more: the cut of the length to 32 bits is modelled, results that are themselves longer are
  excluded from the round trips.
- Utf16.Utf16RoundTrip: the intermediate and the final string are taken to be shorter than 2^32 bytes.
- Timers.EventTimers.HasTimerExpired: times are real numbers, so rounding of doubles is not modelled.
- Timers.CountBounds: the cast of the repeat count to 32 bits is not modelled, since a count of 2^32 takes as many timeouts.
- EventQueues.Run: what comes out after more events have waited than there are ids is not described. There is one thread
  that takes events out, as there is one that runs the loop.
- The waiting and Qt pumping in processEvent, dispatching, handler tables of the queue, adoptBuffer, waitForReady and
  getNextTimerTimeout: calls into the platform, or easy.
- The branch of addEventToBuffer for a buffer that refuses an event: SimpleEventQueueBuffer never does.
- Platform buffers other than SimpleEventQueueBuffer.
- PriorityQueues.SiftDown: the standard library does not fix how its heap functions arrange elements; one arrangement is
  modelled, and what is proved elsewhere uses only that they make heaps of the same elements.
- ServerProxies.Serve: a run ends with the message that disconnects or refuses the client. The source deletes the proxy
  and the stream at that point; that its running handler then reads on from the deleted stream is not modelled.
- The handlers of clipboards and files: Serve says where in a run they call the client, and no more is claimed of them.
- ServerProxies.ServerProxy.MoveBy: distances are unbounded integers, so overflow of their 32-bit sum is not modelled.
- Replies to the server (hello, no-ops, keep-alives, screen info), the keep-alive alarm, sequence numbers and keyboard
  layout synchronisation: output and user interface.
- Rate limits and blocked combinations of the input validator, and the assembly of clipboards and files: only their
  outcome is a parameter.
- Clients.Live: for connections in plain text. With TLS, cleanupConnecting does not remove the handler of
  DataSocketSecureConnected, so the table of handlers is not exact there.
- The handler for sending clipboards that a proxy registers, and clipboards, resolved addresses, the server address apart from
  whether it names a host, and notifications to the user interface.
- ClientSpec.GenerationsGrow: the generation is unbounded, not a 64-bit counter.
- Calls of a client that has been destroyed.
