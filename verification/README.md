# upmpdcli: stateful cores, modelled and proved

upmpdcli is a UPnP front end to the MPD music player. This project models the parts of it that keep state or translate
between a text and a structure, and proves what they are for.

**Configuration files** (`ConfStore`, `ConfTree`, `ConfInvariants`, `ConfLaws`, `ConfPlacing`, `ConfRoundTrip`,
`ConfKept`, `ConfReach`, `ConfHidden`). A `ConfSimple` keeps its data twice, as maps and as a list of presentation
lines, and regenerates the file from both. `ConfStore` specifies its operations on values; `ConfTree` has the classes,
whose methods are proved to compute that. The list always has a place for what the maps hold, and reading back what
was written gives the same maps: for every reachable store exactly when its entries are well formed. Comments and the
order of all lines survive too, and what a file means is said without the parser: the last definition of a name in a
section counts. The comment above the printer says that only line breaks in a value would hurt; the code also loses
untrimmed names and values, names starting with `#` or `[` or containing `=`, and values ending in a backslash. These
are the conditions of the equivalence. One more loss comes from the file: a comment that is not a # comment may hide a
backslash behind carriage returns and blanks, and joins the next line when the written file is read (`HiddenExactly`,
`HidingTextLoses`). Carriage returns at line ends are harmless.

**Framed pipes** (`Netcon`, `CmdTalk`, `CmdLaws`, `Tokens`, `Numbers`). Messages to and from plugin processes go
through a buffered reader over a pipe. `read()` is an oracle that returns any number of bytes, and the results are
proved not to depend on its choices.

**Queues between threads** (`WorkQueue`, `BufXChange`, `BufWakeups`, `BufExchange`, `NetFetch`, `Buffers`). State
machines whose steps are what a thread does under the mutex between two waits, with spurious wakeups; the classes
`Queue` and `Exchange` have the code of each step, proved to be that step. The results hold in every run. Findings:
`waitIdle` does not look at `ok()` and can wait in vain, exactly when a task is left and a worker asleep on a queue
that is not ok (`NeverReturnsExactly`). The buffer exchange leaves a consumer asleep beside a buffer that nobody else
has been woken for in four cases and no other (`NeverUncoveredExactly`): `untake` with two consumers, a notified
consumer that times out with two consumers, `reset` while some thread waits, and counters that have wrapped around.
The stream proxy, with one consumer and resets while nobody waits, has none of them.

**The playlist against MPD** (`MpdCli`, `Sources`, `MetaCache`, `MetaStore`, `StoreLaws`). MPD is a sequence of songs
with distinct positive ids and a version that grows with every change. An insertion takes a remembered position
instead of a scan; the sources of the renderer share, save and restore the queue; a cache of metadata follows the
queue and is kept in a file. Findings: an insertion after the id -1 can go wrong after a failed one
(`UnknownIdAfterFailure`); a script that carries the name of a built-in source leaves a service active
(`SwitchIsRight`, `ScriptKeepsRadioOn`); an insertion at the start (id 0) is refused while the playlist is not active,
against the comment on `insert` (`FoundAgain`).

**Parsers and printers** (`PicoXml`, `XmlSpec`, `XmlRoundTrip`, `XmlLaws`, `Escapes`, `Quoting`, `QuotingRoundTrip`,
`QuotingLaws`, `PathUt`, `Strings`). The XML parser of the configuration tools, the list-to-string functions, and path
normalization.

The specifications that methods are proved against are themselves described by laws over texts, in `ConfLaws`,
`CmdLaws`, `StoreLaws`, `XmlLaws`, `QuotingLaws` and beside the round trips: what each input means, errors included,
without naming how it is computed.

Assumptions that several results share: configuration values are trimmed, keys case-sensitive, and there is no tilde
expansion; reads neither time out nor fail nor are cancelled; MPD answers, its ids are distinct and positive, nobody
else changes the queue in the middle of a call, and whether it accepts an address depends on the address alone.
Integers are unbounded except where a limit is named in the code (the length of a header line, of a scanned number, of
a fetched chunk, of a line of the cache file). Characters stand for bytes.

## Model

| member | source | states |
|---|---|---|
| `ConfTree.ConfSimple.ParseInput` | src/conftree.cpp:112-215 | the parser loop, with its line being continued and its end-of-file case, computes the specification `Run` and ends on every text |
| `ConfTree.ConfSimple.DefineLine` | src/conftree.cpp:176-213 | a complete logical line is a section header, a comment, or a variable stored in the section in force |
| `ConfTree.ConfSimple.ISet` | src/conftree.cpp:442-556 | the store becomes the specified one, refused exactly for values with a line break; the search for the section line that aborts the program when it fails is proved never to fail |
| `ConfTree.ConfSimple.PlaceInOrder` | src/conftree.cpp:519-553 | the scan for the end of the zone, then for a variable line, then for a commented one, inserts at the specified place |
| `ConfTree.ConfSimple.Set` | src/conftree.cpp:422-432 | after a set the maps hold exactly the old entries and the new one; a store that is not writable is unchanged |
| `ConfTree.ConfSimple.Get` | src/conftree.cpp:356-375 | the value of the maps, nothing on an unusable store |
| `ConfTree.ConfSimple.Erase` | src/conftree.cpp:558-574 | removes one entry and no other, and the section with its last name; the presentation list stays as it is |
| `ConfTree.ConfSimple.EraseKey` | src/conftree.cpp:576-583 | the loop over the names of a section leaves every other section untouched |
| `ConfTree.ConfSimple.Clear` | src/conftree.cpp:585-590 | the empty store |
| `ConfTree.ConfSimple.Reparse` | src/conftree.cpp:236-241 | the store of the new text, whatever was there before |
| `ConfTree.ConfSimple.WriteTo` | src/conftree.cpp:647-695 | the text regenerated from the list and the maps together |
| `ConfTree.VarPrinter` | src/conftree.cpp:391-419 | the folding loop prints one variable as specified, broken into backslash-newline pieces |
| `ConfTree.ConfStack.Get` | src/conftree.h:470-481 | the value of the first file that has one, or of the top file alone |
| `ConfTree.FirstLayerShows` | src/conftree.h:470-481 | the first file from the top that has a value gives it |
| `ConfTree.ConfStack.Set` | src/conftree.h:497-526 | on a writable top: the value is visible afterwards, every other visible value is unchanged, and the top has no entry when the first lower file with the name already gives the value |
| `ConfTree.ConfStack.Erase` | src/conftree.h:528-530 | afterwards the lower files decide, and every other visible value is what it was |
| `ConfInvariants.PlaceVarCovers` | src/conftree.cpp:490-553 | a placed variable has a line in a zone of its section, and no other line changes section |
| `ConfInvariants.ISetKeepsSound` | src/conftree.cpp:442-556 | every stored (section, name) keeps a variable line in a zone of its section and every non-empty stored section a section line, repeated sections and erased-then-recreated ones included |
| `ConfInvariants.EraseKeepsSound` | src/conftree.cpp:558-574 | the same for erase, which does not touch the list |
| `ConfInvariants.EraseKeyKeepsSound` | src/conftree.cpp:576-583 | the same for eraseKey |
| `ConfInvariants.ParseIsSound` | src/conftree.cpp:112-215 | every text parses to a store with that invariant, and with entries that are well formed |
| `ConfInvariants.ParseKeepsComments` | src/conftree.cpp:136-210 | what any text leaves as comment lines: blank or # lines, or complete logical lines that define nothing; without a carriage return if the text has them at line ends only |
| `ConfInvariants.ReadAgainExactly` | src/conftree.cpp:136-210 | a comment that was read is a comment on the next reading too, if and only if it is a # comment or does not end in a backslash, blanks and carriage returns |
| `ConfLaws.RedefinitionWins` | src/conftree.cpp:186-213 | after a line with a definition the name has that value in the section in force, whatever it had before, and nothing else has changed |
| `ConfLaws.LastDefinitionCounts` | src/conftree.cpp:112-215 | for every file of definitions, headers and notes, with any blanks and line ends: the value stored for a name in a section is that of its last definition there |
| `ConfLaws.LastLineCounts` | src/conftree.cpp:112-215 | the same if the last line has no newline |
| `ConfLaws.BackslashJoins` | src/conftree.cpp:158-176 | a backslash, blanks and a newline join two lines as if they were one |
| `ConfLaws.BackslashAtTheEnd` | src/conftree.cpp:158-176 | at the end of the file a backslash joins nothing |
| `ConfLaws.FoldWhole` | src/conftree.cpp:391-419 | a value with no blank between 50 characters and the last 10 is printed in one piece |
| `ConfLaws.FoldBreaks` | src/conftree.cpp:391-419 | any other value is broken behind the first such blank, and then the rest of it in the same way |
| `ConfLaws.LongLine` | src/conftree.cpp:391-419 | a printed variable of 75 characters or more starts with its name and its value up to that break |
| `ConfPlacing.PlacedExactly` | src/conftree.cpp:490-553 | in the first zone of its section, a new variable goes right behind its commented-out line, else to the end; a zone that has a line for it stays as it is |
| `ConfPlacing.SetPlaces` | src/conftree.cpp:442-556 | set changes no line for a stored name, adds a header and the variable for a new section, and else places the variable in the list as it is |
| `ConfPlacing.CommentedVarFound` | src/conftree.cpp:110-110 | a # line with a name of letters and digits and an equal sign, blanks allowed between them, is a commented-out definition of that name |
| `ConfPlacing.CommentedVarOnly` | src/conftree.cpp:110-110 | no other line is |
| `ConfRoundTrip.FoldReads` | src/conftree.cpp:391-419 | a value printed in pieces is joined by the parser to the original value, wherever the pieces break |
| `ConfRoundTrip.PrintedVarReads` | src/conftree.cpp:391-419 | a printed variable is parsed as one definition of that name and value in the section in force |
| `ConfRoundTrip.WrittenReadsBack` | src/conftree.cpp:647-695 | for every sound store with well-formed entries, parsing the written text gives the same maps |
| `ConfRoundTrip.RoundTripExactly` | src/conftree.cpp:647-695 | for every sound store, parsing what is written gives the same maps if and only if all entries are well formed |
| `ConfKept.WrittenReadsExactly` | src/conftree.cpp:647-695 | the written text of a sound store is read back as the same values and the same list: all comments, the headers of living sections and the stored variables, in order |
| `ConfKept.StandsInFile` | src/conftree.cpp:647-695 | in the written text, comments, headers and stored variables stand one behind the other in list order, each with its own text |
| `ConfReach.ReachedIsSound` | src/conftree.cpp:112-590 | the invariant holds in every store reached from any file by any sequence of set, erase, eraseKey, clear and reparse, carriage returns included |
| `ConfReach.ReachedRoundTrip` | src/conftree.cpp:647-695 | the round trip, as an equivalence, for every store so reached in which no comment hides a backslash |
| `ConfReach.LineEndsNoneHidden` | src/conftree.cpp:136-139 | files with any line ends and no carriage return inside a line leave no such comment |
| `ConfReach.WfRunsRoundTrip` | src/conftree.cpp:647-695 | runs whose set arguments are well formed always round trip, if no comment hides a backslash |
| `ConfKept.CommentsSurvive` | src/conftree.cpp:647-695 | every reachable store without a hidden backslash keeps its comments when it is written and read: the same texts in the same order, but for carriage returns at their ends |
| `ConfReach.ContinuedCommentSwallowsRest` | src/conftree.cpp:158-176 | a # comment read while a backslash continuation is still pending is continued itself: nothing in the rest of the file defines anything |
| `ConfReach.BackslashThenComment` | src/conftree.cpp:136-175 | texts that get there: after a line with just a backslash and a # comment, any rest of the file is lost |
| `ConfHidden.HiddenLosesVariable` | src/conftree.cpp:136-210 | behind comments that hide a backslash, the stored variable with the shortest name is not in what reading the written file gives |
| `ConfHidden.HiddenExactly` | src/conftree.cpp:647-695 | where each comment that hides a backslash carries text over to the only line of a stored variable, the round trip holds if and only if all entries are well formed and there is no such comment |
| `ConfHidden.HidingTextLoses` | src/conftree.cpp:136-210 | texts that get there: any such comment in front of any definition; the file holds the definition, and the file written back does not |
| `ConfHidden.CarriageReturnBreaksRoundTrip` | src/conftree.cpp:136-210 | the shortest of them |
| `Strings.TrimAround` | src/smallut.cpp:447-471 | trimming takes off exactly the delimiters around a trimmed text |
| `Numbers.ScanPrinted` | src/mediaserver/cdplugins/cmdtalk.cpp:163-168 | a printed length is scanned back, when no digit follows |
| `Numbers.ScanReads` | src/mediaserver/cdplugins/cmdtalk.cpp:163-168 | blanks, a sign or none, and digits give their number whatever follows |
| `Numbers.ScanFails` | src/mediaserver/cdplugins/cmdtalk.cpp:163-168 | without a digit there is no number |
| `Numbers.DigitValue` | src/mediaserver/cdplugins/cmdtalk.cpp:163-168 | digits count by tens |
| `Tokens.StringToTokens` | src/smallut.cpp:377-407 | the tokenizer loop computes the specification for all four flag combinations |
| `Tokens.TwoTokens` | src/smallut.cpp:377-407 | two words with one delimiter between them are two tokens |
| `Tokens.WordsAreTokens` | src/smallut.cpp:377-407 | any number of words, with any delimiters around and between them, are the tokens |
| `Tokens.FieldsAreTokens` | src/smallut.cpp:377-407 | with empty tokens allowed, the fields between single delimiters are the tokens, but for an empty one at the end |
| `Tokens.OneEmptyInFront` | src/smallut.cpp:377-407 | with initial delimiters not skipped, one empty token stands for all of them |
| `Netcon.LineLengthIs` | src/netcon.cpp:819-877 | the length of a line is that of the first newline or the cap |
| `Netcon.NetconData.Receive` | src/netcon.cpp:716-787 | buffered bytes come first, then one read of any size; delivered, buffered and unread bytes still make up the stream |
| `Netcon.NetconData.DoReceive` | src/netcon.cpp:790-808 | exactly the wanted bytes, or all there are before the end |
| `Netcon.NetconData.GetLine` | src/netcon.cpp:819-877 | the bytes up to and including the first newline, capped, the same for every way read() cuts the stream |
| `Netcon.NetconData.Transfer` | src/netcon.cpp:837-853 | the copying loop with its two pointers and its count stops behind a newline and loses no byte |
| `Netcon.ExecCmd.Send` | src/execmd.cpp:840-860 | all the data goes out in order, in any pieces, and its length is returned; if the pipe fails first, just what it took has gone and -1 is returned |
| `Netcon.ExecCmd.Receive` | src/execmd.cpp:862-887 | appends exactly cnt bytes, or what is left of the stream |
| `Netcon.ExecCmd.GetLine` | src/execmd.cpp:889-923 | appends one line of at most 1023 bytes |
| `CmdTalk.ElementRoundTrip` | src/mediaserver/cdplugins/cmdtalk.cpp:128-179 | a header and its data decode to the element and consume exactly their bytes |
| `CmdTalk.MessageRoundTrip` | src/mediaserver/cdplugins/cmdtalk.cpp:197-244 | an encoded message decodes to its elements whatever follows it, data of any bytes |
| `CmdTalk.MapRoundTrip` | src/mediaserver/cdplugins/cmdtalk.cpp:197-244 | a map sent in any order of its keys comes back as the same map |
| `CmdTalk.StreamRoundTrip` | src/mediaserver/cdplugins/cmdtalk.cpp:197-244 | any number of messages in a row, each with exactly its own bytes |
| `CmdLaws.HeaderReads` | src/mediaserver/cdplugins/cmdtalk.cpp:128-179 | a header of two words, the second a number, with any blanks, names and sizes the data; any other line is an error, and just the line is consumed |
| `CmdLaws.DataReads` | src/mediaserver/cdplugins/cmdtalk.cpp:128-179 | the data is what follows, none for a length that is not positive; too little is an error |
| `CmdLaws.NoElement` | src/mediaserver/cdplugins/cmdtalk.cpp:128-179 | the end of the stream is an error |
| `CmdLaws.ColonsGo` | src/mediaserver/cdplugins/cmdtalk.cpp:197-244 | the colons around a name do not belong to it |
| `CmdLaws.OnTheWire` | src/mediaserver/cdplugins/cmdtalk.cpp:197-215 | the bytes of a message: name, colon, blank, length, newline, data, and an empty line at the end |
| `CmdLaws.RequestStarts` | src/mediaserver/cdplugins/cmdtalk.cpp:208-215 | the first argument of a call goes first, unless it has no name |
| `CmdTalk.Talker.ReadDataElement` | src/mediaserver/cdplugins/cmdtalk.cpp:128-179 | the element that the stream alone decides, however it arrives, with every error case |
| `CmdTalk.Talker.Talk` | src/mediaserver/cdplugins/cmdtalk.cpp:197-244 | sends the encoding of its arguments and returns the decoding of the stream; fails on a failed write, a bad element or a status entry, the command being stopped in the first two cases |
| `CmdTalk.Talker.EncodeArgs` | src/mediaserver/cdplugins/cmdtalk.cpp:208-215 | the output buffer loop writes the specified encoding |
| `WorkQueue.Queue.PutTask` | src/workqueue.h:121-160 | put up to its return or its wait is the step of the state machine; the task is accepted exactly when put returns true, and false means a queue that is not ok or closed |
| `WorkQueue.Queue.PutGoesOn` | src/workqueue.h:129-160 | put after its wait, with the same meaning of its result |
| `WorkQueue.Queue.TakeTask` | src/workqueue.h:252-287 | take up to its return or its wait is the step of the state machine; the oldest task is handed out, and the worker sleeps exactly on an empty queue that is ok |
| `WorkQueue.Queue.TakeGoesOn` | src/workqueue.h:259-287 | take after its wait, with the same result |
| `WorkQueue.Queue.IdleOrWait` | src/workqueue.h:178-194 | the rest of waitIdle from its test on: it waits exactly while tasks or working threads are left, else returns ok() |
| `WorkQueue.Queue.WaitIdleCall` | src/workqueue.h:178-194 | the call is the step of the state machine, with that result |
| `WorkQueue.Queue.WaitIdleGoesOn` | src/workqueue.h:183-194 | the same after its wait |
| `WorkQueue.Queue.TerminateOrWait` | src/workqueue.h:201-245 | the rest of setTerminateAndWait from its test on: everybody is woken until all workers have exited, then the queue is as new |
| `WorkQueue.Queue.SetTerminateAndWait` | src/workqueue.h:201-245 | the call is the step of the state machine; without workers it returns at once, else the queue is not ok from here on |
| `WorkQueue.Queue.TerminateGoesOn` | src/workqueue.h:213-245 | the same after its wait |
| `WorkQueue.Queue.Exits` | src/workqueue.h:319-325 | workerExit is the step of the state machine |
| `WorkQueue.StepKeeps` | src/workqueue.h:121-325 | every step, spurious wakeups included, keeps the counters equal to the threads they count, a notified worker for each queued task while one sleeps, and a cause for each client that waits |
| `WorkQueue.RunKeeps` | src/workqueue.h:121-325 | these hold in every reachable state |
| `WorkQueue.NoTaskIsForgotten` | src/workqueue.h:121-160 | on a queue that is ok, queued work always has a worker that is up |
| `WorkQueue.NoClientIsForgotten` | src/workqueue.h:178-245 | a client that waits un-notified has a worker that is up, unless it is in waitIdle and abandoned (a queue that is not ok, a task left, a worker asleep) |
| `WorkQueue.NeverReturnsExactly` | src/workqueue.h:178-194 | a client in waitIdle returns in no continuation without a spurious wakeup of a worker, if and only if it is abandoned |
| `WorkQueue.AbandonedBeforeTheCall` | src/workqueue.h:178-194 | the same three things, looked at before the call, decide whether waitIdle waits and never returns |
| `WorkQueue.IdleMeansIdle` | src/workqueue.h:162-194 | when waitIdle returns nobody works and the queue is empty, or all workers have exited |
| `WorkQueue.WaitIdleCanHang` | src/workqueue.h:178-194 | it happens: a run after which waitIdle has blocked, nobody can move but by spurious wakeups, and only one of a worker could ever free the client |
| `WorkQueue.NewestWins` | src/workqueue.h:141-151 | with flushing puts the queue holds at most the newest task, and once empty the last one taken is the last one put |
| `WorkQueue.FirstInFirstOut` | src/workqueue.h:121-287 | without flushing, what was taken and what is queued make up what was put, in order |
| `WorkQueue.QueueStaysShort` | src/workqueue.h:121-160 | with a limit, the queue is never longer than it, in any run |
| `WorkQueue.ClosedAcceptsNothing` | src/workqueue.h:121-125 | once closed, with no put under way, the queue accepts nothing in any continuation |
| `BufExchange.Exchange.Put` | src/mediaserver/cdplugins/bufxchange.h:87-119 | put, with its counter, its flush loop and its notification, is the step of the state machine with notifications |
| `BufExchange.Exchange.Take` | src/mediaserver/cdplugins/bufxchange.h:194-225 | the same for take with its two counters and both notifications; it returns the oldest buffer |
| `BufExchange.Exchange.WaitIdle` | src/mediaserver/cdplugins/bufxchange.h:151-175 | the same for waitIdle; it returns true only on an empty queue that is ok |
| `BufExchange.Exchange.TimesOut` | src/mediaserver/cdplugins/bufxchange.h:95-97 | a wait that times out returns false and leaves its count behind |
| `BufExchange.Exchange.Untake` | src/mediaserver/cdplugins/bufxchange.h:123-130 | untake is the step of the state machine: it notifies nobody |
| `BufExchange.Exchange.TakeRecycled` | src/mediaserver/cdplugins/bufxchange.h:135-148 | take_recycled is the step of the state machine and gives the oldest recycled buffer |
| `BufExchange.Exchange.RecycleNolock` | src/mediaserver/cdplugins/bufxchange.h:230-238 | the loop deletes just enough of the oldest recycled buffers |
| `BufExchange.Exchange.SetTerminate` | src/mediaserver/cdplugins/bufxchange.h:182-187 | setTerminate is the step of the state machine: everybody is notified |
| `BufExchange.Exchange.Reset` | src/mediaserver/cdplugins/bufxchange.h:288-300 | the loop over the queue, the zeroed counters and the notification of everybody are the step of the state machine |
| `BufXChange.StepPlaces` | src/mediaserver/cdplugins/bufxchange.h:87-300 | no step changes the number of places a buffer is in, and the recycle queue keeps its limit |
| `BufXChange.OnePlaceEach` | src/mediaserver/cdplugins/bufxchange.h:87-300 | in every run each buffer is in exactly one place: a hand, one of the two queues, or the deleted ones |
| `BufXChange.DeletedOnce` | src/mediaserver/cdplugins/bufxchange.h:87-300 | a deleted buffer was deleted once and is in no queue and no hand |
| `BufXChange.QueueBound` | src/mediaserver/cdplugins/bufxchange.h:87-130 | with k consumers holding at most one buffer each the queue never exceeds m_high + k |
| `BufXChange.RecycleAllKeepsNewest` | src/mediaserver/cdplugins/bufxchange.h:288-300 | reset keeps the newest four of the recycled and the queued buffers, in order, and deletes the others, oldest first |
| `BufWakeups.StillOwned` | src/mediaserver/cdplugins/bufxchange.h:87-300 | the state machine with counters and notifications keeps each buffer in one place, as the one without them |
| `BufWakeups.CountedStep` | src/mediaserver/cdplugins/bufxchange.h:87-225 | a counter is, as far as an unsigned int goes, the number of waiting threads and of waits that timed out since the last reset |
| `BufWakeups.RunKeeps` | src/mediaserver/cdplugins/bufxchange.h:87-225 | in every run by safe rules, a consumer sleeps un-notified only beside as many notified consumers as there are buffers in the queue, for any number of clients and consumers |
| `BufWakeups.NeverAllAsleep` | src/mediaserver/cdplugins/bufxchange.h:87-225 | in every such run, a client never sleeps un-notified while all consumers do |
| `BufWakeups.ClientNeverMissed` | src/mediaserver/cdplugins/bufxchange.h:87-225 | with one client, and consumers that untake and time out as they like, a client sleeps un-notified in put only on a full queue, in waitIdle only on one that is not empty |
| `BufWakeups.UntakeUncovers` | src/mediaserver/cdplugins/bufxchange.h:123-130 | untake notifies nobody: with two consumers, a run in which one gives a buffer back and leaves the other asleep |
| `BufWakeups.LateWakeupUncovers` | src/mediaserver/cdplugins/bufxchange.h:201-208 | a notified consumer whose wait times out loses the wakeup of the others: the run |
| `BufWakeups.BusyResetUncovers` | src/mediaserver/cdplugins/bufxchange.h:288-300 | reset zeroes the count of a consumer that waits, and its next wait brings the counter back to 0: the run after which put notifies nobody, with one consumer |
| `BufWakeups.ManyTimeoutsUncover` | src/mediaserver/cdplugins/bufxchange.h:197-209 | so does a counter that has wrapped around: the run of 2 to the 32 waits |
| `BufWakeups.NeverUncoveredExactly` | src/mediaserver/cdplugins/bufxchange.h:87-300 | a consumer is never left asleep un-notified beside a buffer that no notified consumer is for, in any run, if and only if no reset comes while a thread waits, the counters do not wrap around, and consumers are one or neither untake nor time out when notified |
| `NetFetch.NetRunKeeps` | src/mediaserver/cdplugins/netfetch.cpp:31-73 | hands, buffer contents, order of the stream and the counter agree after every step of every run |
| `NetFetch.NothingLostNothingTwice` | src/mediaserver/cdplugins/netfetch.cpp:31-73 | consumed bytes, then those left in the consumer's buffer, then the queued ones are the accepted chunks in order; the count is their length outside the call |
| `NetFetch.PutsPrepared` | src/mediaserver/cdplugins/netfetch.cpp:39-58 | in every run, whatever the consumer does meanwhile, the buffer that one call puts is the one that `PrepareBuffer` is proved to make: the recycled one if it was big enough, with the chunk in it |
| `NetFetch.CopiesFit` | src/mediaserver/cdplugins/netfetch.cpp:39-58 | when the copy is reached the buffer, recycled or new, has room for the chunk, and nobody else has that buffer |
| `Buffers.PrepareBuffer` | src/mediaserver/cdplugins/netfetch.cpp:39-58 | the recycled buffer if it is big enough, else a new one, holding the chunk and read from its start, as `PutsPrepared` has it; the copy stays inside |
| `Buffers.Buffer.Reserve` | src/mediaserver/cdplugins/abuffer.h:45-54 | the capacity grows to what is asked for and the contents stay |
| `Buffers.Buffer.Append` | src/mediaserver/cdplugins/abuffer.h:60-67 | the contents grow by the data, the capacity as the doubling rule says |
| `Buffers.Buffer.Dup` | src/mediaserver/cdplugins/abuffer.h:70-78 | a separate buffer with the same contents, just big enough and read from its start |
| `MpdCli.ScanPos` | src/mpdcli.cxx:1009-1034 | after the song with the id, at the end for an unknown one, at the start for 0 |
| `MpdCli.ShortcutIsScan` | src/mpdcli.cxx:1016-1034 | the remembered position is the position of the scan if and only if not: id -1 after a failed insertion that left a matching version and a position other than the end |
| `MpdCli.MpdCli.Insert` | src/mpdcli.cxx:983-1002 | the song is at the position asked for, or the queue is unchanged when MPD refuses the address or the position; what is remembered still describes the queue |
| `MpdCli.MpdCli.InsertAfterId` | src/mpdcli.cxx:1004-1036 | for every id but -1 the song goes where the full scan would put it, after any mix of own and foreign changes |
| `MpdCli.MpdCli.Scan` | src/mpdcli.cxx:1021-1033 | the search loop finds the specified position |
| `MpdCli.MpdCli.ForeignChange` | src/mpdcli.cxx:1016-1020 | another client's change cannot make a remembered position pass for valid |
| `MpdCli.MpdCli.DeleteId` | src/mpdcli.cxx:1050-1061 | removes that song only, fails exactly when there is none, and keeps what is remembered sound |
| `MpdCli.MpdCli.GetQueueData` | src/mpdcli.cxx:1119-1138 | the songs in order, with addresses as reported |
| `MpdCli.MpdCli.RestoreState` | src/mpdcli.cxx:576-590 | the queue becomes the saved one up to the first song refused, and success means all of it |
| `MpdCli.UnknownIdAfterFailure` | src/mpdcli.cxx:983-1036 | calls after which a song for an unknown id lands behind the last inserted one and not at the end |
| `MpdCli.ReportedTwice` | src/mpdcli.cxx:653-666 | the rewriting of local addresses changes nothing the second time, and nothing at all exactly for transport-style ones |
| `MpdCli.ReportedExactly` | src/mpdcli.cxx:47-47 | an address of letters, a colon, two slashes and something behind them is reported as it is, every other one behind http://127.0.0.1/ |
| `Sources.SwitchIsRight` | src/ohproduct.cxx:295-345 | after a switch exactly the services of the new source are active, if and only if the old source is not a script named like a built-in source whose service the new one does not use |
| `Sources.BranchesAgree` | src/ohproduct.cxx:295-345 | the leaving branch, by type and name, and the entering one, by name, agree exactly for well-named sources |
| `Sources.ServicesByName` | src/ohproduct.cxx:61-71 | the built-in sources by type and name, and the services that each of them uses |
| `Sources.ScriptKeepsRadioOn` | src/ohproduct.cxx:295-345 | a device with a script named Radio: selected and left again, it leaves radio and playlist both active |
| `Sources.Device.constructor` | src/ohproduct.cxx:74-107 | the sources in order, the playlist active, and all the results below available when the scripts are well named |
| `Sources.Device.Leave` | src/ohproduct.cxx:294-322 | the services of the source are off, the sender is stopped and the main MPD is back; an active playlist has been saved |
| `Sources.Device.Enter` | src/ohproduct.cxx:324-346 | the services of the source are on and a playlist source has the saved queue, also when its sender fails to start |
| `Sources.Device.SetSourceIndex` | src/ohproduct.cxx:279-354 | return codes, flags and index; the playlist shown survives, up to the first song that MPD does not take back |
| `Sources.Device.Select` | src/ohproduct.cxx:279-354 | every switch keeps the services those of the current source, whatever the senders do |
| `Sources.Device.SrcNameToIndex` | src/ohproduct.cxx:269-277 | the first source of that name, or -1 |
| `Sources.Device.PlSetActive` | src/ohplaylist.cxx:333-347 | saving and restoring the queue |
| `Sources.Device.RdSetActive` | src/ohradio.cxx:515-532 | turned off, the shared queue is saved and cleared; turned on, it is the saved one if a channel is set and a queue was saved, else it stays |
| `Sources.Device.RcvSetActive` | src/ohreceiver.cxx:137-142 | the receiver process is stopped with the service |
| `Sources.Device.SenderStart` | src/ohsndrcv.cxx:108-232 | for every outcome, which processes and clients there are: an own MPD for an internal source, the running one if there is one, and nothing left after a failure |
| `Sources.Device.SenderStop` | src/ohsndrcv.cxx:234-258 | no process and no second MPD is left, and the main MPD is in use |
| `Sources.Device.Clear` | src/ohsndrcv.cxx:54-65 | the same for the cleanup after a failure |
| `Sources.Device.IdFromOldId` | src/ohplaylist.cxx:279-304 | the id of the first song with the address that the old id had |
| `Sources.FoundAgain` | src/ohplaylist.cxx:279-304 | a saved song is found at its own place if and only if no earlier one has its address; the id 0 is never found |
| `Sources.Device.PlaylistInsert` | src/ohplaylist.cxx:715-786 | an insertion changes the shown playlist by just its song, at the place of the scan for every id but -1, also when the playlist has to be activated first; the new id is that song's, and -1 exactly when the address is not accepted or the id is not found again |
| `Sources.Device.PlaylistDelete` | src/ohplaylist.cxx:788-812 | a deletion removes just the song with the id, or while the playlist is not active the first song with its address; it reports failure exactly when there is none |
| `Sources.Device.DeleteAll` | src/ohplaylist.cxx:814-822 | an empty playlist, with its source selected |
| `Sources.Device.RadioPlay` | src/ohradio.cxx:498-513 | a channel replaces the queue and leaves the playlist alone |
| `Sources.Device.ReceiverPlay` | src/ohreceiver.cxx:246-254 | the receiver plays on its own source and leaves the playlist alone |
| `Sources.Device.ReceiverStop` | src/ohreceiver.cxx:281-297 | back to the playlist source, with no process left |
| `MetaCache.OHPlaylist.MakeIdArray` | src/ohplaylist.cxx:168-276 | on a new version the cache has exactly the addresses of the queue, old entries kept and new ones from their first song; with persistence the last saved map has the same keys and entries but for titles MPD changed; the song being played is always found |
| `MetaCache.OHPlaylist.Walk` | src/ohplaylist.cxx:238-260 | the loop moves known entries, adds unknown ones once, and leaves the stale ones behind |
| `MetaCache.OHPlaylist.CacheSet` | src/ohplaylist.cxx:590-597 | an entry replaced, and a save due |
| `MetaCache.FirstSong` | src/ohplaylist.cxx:249-257 | of several songs with an address the first one gives the entry |
| `MetaCache.IdArray` | src/ohplaylist.cxx:139-166 | the ids of the queue that are not 0: all of them in order if none is |
| `MetaCache.IdArrayConcat` | src/ohplaylist.cxx:139-166 | leaving out ids keeps the order of the others |
| `MetaCache.ContainsExactly` | src/ohplaylist.cxx:184-185 | the mark of an entry is found wherever it stands in the text, and nothing else is taken for it |
| `MetaStore.DecodeUndoesEncode` | src/ohmetacache.cxx:56-106 | decoding an encoded text gives the text, for all texts |
| `MetaStore.Encode` | src/ohmetacache.cxx:56-73 | the escaping loop computes the specification |
| `MetaStore.Decode` | src/ohmetacache.cxx:85-106 | the index loop computes the specification, its treatment of the last two characters and of bad escapes included |
| `MetaStore.Save` | src/ohmetacache.cxx:143-150 | one line for each entry, in any order of the map |
| `MetaStore.GetLine` | src/ohmetacache.cxx:190-198 | the next line, or end of file, or an error beyond 10238 characters |
| `MetaStore.Restore` | src/ohmetacache.cxx:173-208 | the reading loop computes the specification, error returns included |
| `MetaStore.LineReads` | src/ohmetacache.cxx:192-205 | one written line read back |
| `MetaStore.SaveRestores` | src/ohmetacache.cxx:56-208 | a saved map is restored if and only if every line fits the limit and no key or value has a NUL |
| `StoreLaws.EncodedTable` | src/ohmetacache.cxx:56-73 | percent and equal signs and line ends are escaped by their two hexadecimal digits, and nothing else |
| `StoreLaws.EscapesRead` | src/ohmetacache.cxx:75-106 | an escape is the character of its two digits; with anything else behind it the percent sign is lost with both characters |
| `StoreLaws.EntryReads` | src/ohmetacache.cxx:192-205 | key and value of any line, also one that was not written here, are what is in front of the first equal sign and what is behind it |
| `StoreLaws.BadLines` | src/ohmetacache.cxx:192-205 | a line without an equal sign or too long is an error |
| `StoreLaws.UnfinishedLine` | src/ohmetacache.cxx:190-198 | a last line without a newline is not read |
| `StoreLaws.FileFormat` | src/ohmetacache.cxx:143-150 | an entry in the file, byte for byte |
| `Escapes.UnquoteUndoesEscape` | cfgui/picoxml.h:397-439 | unQuote undoes escapeHtml, for all texts |
| `Escapes.EscapeHtml` | src/smallut.cpp:530-543 | the escaping loop computes the specification |
| `Escapes.UnQuote` | cfgui/picoxml.h:397-439 | the iterator loops compute the specification, unknown and unfinished entities included |
| `Escapes.EscapedHasNo` | src/smallut.cpp:530-543 | escaped text has no angle bracket and no double quote |
| `Escapes.EscapedTable` | src/smallut.cpp:530-543 | angle brackets, ampersands and double quotes have their escapes, and nothing else changes |
| `PicoXml.PicoXmlParser.ParseInput` | cfgui/picoxml.h:177-247 | the parser ends on every text, the cursor moving with each tag and comment and never leaving the text; its calls and its result are those specified; the two stacks agree and hold the open elements |
| `PicoXml.PicoXmlParser.OneTag` | cfgui/picoxml.h:204-244 | one tag, start, end or both, and the characters behind it |
| `PicoXml.PicoXmlParser.ReadTag` | cfgui/picoxml.h:204-225 | what delimits a tag, with all the error returns |
| `PicoXml.PicoXmlParser.CharData` | cfgui/picoxml.h:249-261 | the characters up to the next tag, unquoted; none at the end of the text |
| `PicoXml.PicoXmlParser.SkipDeclarations` | cfgui/picoxml.h:292-313 | blanks and declarations in front of the first tag |
| `PicoXml.PicoXmlParser.SkipComment` | cfgui/picoxml.h:315-335 | comments, which give no call of their own |
| `PicoXml.PicoXmlParser.StartElem` | cfgui/picoxml.h:154-168 | the calls and both stacks for a start tag |
| `PicoXml.PicoXmlParser.EndElem` | cfgui/picoxml.h:170-175 | the calls and both stacks for an end tag |
| `PicoXml.ParseAttrs` | cfgui/picoxml.h:337-395 | the attribute loop computes the specification and never looks behind the tag |
| `XmlSpec.EventsNest` | cfgui/picoxml.h:177-247 | for every text the calls are the beginning of a well-nested sequence, and a whole one if the parser returns true |
| `XmlSpec.StopsAtHalt` | cfgui/picoxml.h:177-247 | the calls have opened what is open where the parser stops; there the text ends or starts with an unfinished comment, an unreadable tag, or the end tag of another element |
| `XmlSpec.FailsCompleteExactly` | cfgui/picoxml.h:177-247 | for every text: the calls are complete and the parser fails if and only if it stops with nothing open in front of a text that is not empty |
| `XmlRoundTrip.TagReads` | cfgui/picoxml.h:337-395 | a printed tag gives its name and its attributes with their original values |
| `XmlRoundTrip.NodeReads` | cfgui/picoxml.h:54-54 | a printed element gives its calls in document order, whatever follows |
| `XmlRoundTrip.DocumentReads` | cfgui/picoxml.h:54-54 | every document of declarations, then comments, elements and texts between them in any order, with escaped strings, is accepted and gives back all its strings in order |
| `XmlRoundTrip.CompleteButRefused` | cfgui/picoxml.h:198-208 | a family of such texts: any element with the start of a tag behind it |
| `XmlLaws.EntitiesRead` | cfgui/picoxml.h:397-439 | the five entities are read wherever they stand, others disappear, one without end takes the rest with it |
| `XmlLaws.NothingToUnquote` | cfgui/picoxml.h:397-439 | a text without ampersands is itself, quotes included |
| `XmlLaws.TagWithAttributes` | cfgui/picoxml.h:337-395 | a tag with any blanks between its parts and values in single or double quotes gives its name and its attributes |
| `XmlLaws.StartTagReads` | cfgui/picoxml.h:204-244 | such a tag opens its element, or with a slash at its end closes it at once |
| `XmlLaws.EndTagReads` | cfgui/picoxml.h:204-244 | an end tag closes the innermost element if that has its name, else the parse fails |
| `XmlLaws.RawTextReads` | cfgui/picoxml.h:249-261 | the text in front of a tag is given with its entities read, with bare quotes as they are |
| `XmlLaws.BadPrologs` | cfgui/picoxml.h:292-313 | text in front of the first tag and a declaration without end are refused |
| `XmlLaws.BadMarkup` | cfgui/picoxml.h:186-225 | a comment or a tag without end, an empty tag, and an end with open elements are refused |
| `XmlLaws.BadAttributes` | cfgui/picoxml.h:337-395 | an attribute without a name, an equal sign, a quote or a second quote is refused |
| `XmlLaws.BadTagFails` | cfgui/picoxml.h:226-232 | and so is the document |
| `Quoting.StringsToString` | src/smallut.cpp:265-299 | the joining loop computes the specification |
| `Quoting.StringToStrings` | src/smallut.cpp:156-263 | the four-state loop computes the specification, extra separators included |
| `QuotingRoundTrip.GoodReads` | src/smallut.cpp:156-299 | a token without blanks, quotes and carriage returns, or with blanks and without backslashes, is read back |
| `QuotingRoundTrip.BadSpoils` | src/smallut.cpp:156-299 | any other token is never read back in its place, whatever follows |
| `QuotingRoundTrip.ListRoundTrip` | src/smallut.cpp:156-299 | a list is read back if and only if all its tokens are of the first kind |
| `QuotingLaws.TextReads` | src/smallut.cpp:156-263 | any text of words, quoted texts with escapes, separators and blanks of all four kinds is read as its words, quoted texts and separators, in order |
| `QuotingLaws.UnfinishedQuote` | src/smallut.cpp:252-261 | a quote that is not closed is an error |
| `PathUt.TokenizeWalks` | src/pathut.cpp:886-898 | the tokens lead where the segments between slashes lead |
| `PathUt.CanonicalComponents` | src/pathut.cpp:861-925 | no component is empty, dot or dot-dot, and the normalized path leads to the same components |
| `PathUt.CanonTwice` | src/pathut.cpp:861-925 | normalizing twice changes nothing, for every path and working directory |
| `PathUt.PathCanon` | src/pathut.cpp:861-925 | the two loops write the components that the path goes through |
| `PathUt.OneSegment` | src/pathut.cpp:886-898 | a name goes down, two dots go up and stay at the root, a dot or nothing goes nowhere, behind any path |
| `PathUt.UpUndoesDown` | src/pathut.cpp:886-898 | a name and two dots behind it cancel out, anywhere in a path |
| `PathUt.CanonUp` | src/pathut.cpp:861-925 | so the normalized path is the same without them |
| `PathUt.AboveRoot` | src/pathut.cpp:890-893 | there is nothing above the root |
| `PathUt.FromWhere` | src/pathut.cpp:879-885 | a relative path goes on from the working directory, one that starts with a slash does not |
| `PathUt.PathGetFather` | src/pathut.cpp:587-616 | the father as specified |
| `PathUt.FatherIsShorter` | src/pathut.cpp:587-616 | the father of a directory has one component less and a shorter text |
| `PathUt.FatherText` | src/pathut.cpp:587-616 | the father of any path with a name at its end is what is in front of the name, as a directory; of a lone name, the current directory |
| `PathUt.PathIsDesc` | src/pathut.cpp:806-829 | ends, and is true exactly when the components of the top path are a prefix of the other's |

## Left out

- ConfTree.ConfSimple.Set: values of the stores only; writing the file after each change, `holdWrites`, `m_subkeys_unsorted` and the file status are not modelled.
- ConfTree.ConfStack.Set: for a stack of ConfSimple files; ConfTree, where a section inherits from its parents, can shadow the lower value.
- ConfReach.ReachedRoundTrip: for stores in which no comment hides a backslash; `HiddenExactly` shows the condition needed where such a comment stands directly in front of the only line of a stored variable. A hidden backslash in front of a blank line, a comment or a section header, or with nothing before it, is not decided.
- Copies of a ConfSimple lose the list of lines, so no property is stated for them; untrimmed values, tilde expansion, case-insensitive keys and comments as XML are not modelled.
- Netcon.NetconData.Receive: the timeout, cancel and error returns, which drop bytes already moved, are not modelled.
- Netcon.ExecCmd.Send: the kill request, which ends the loop early, is not modelled.
- CmdTalk.Talker.ReadDataElement: an overflowing length is taken as `ScanInt` in `Numbers` states it, which the C standard leaves open.
- WorkQueue.NoTaskIsForgotten: for `m_low` = 1 and one client thread, without `waitminsz`; the statistics counters are left out.
- WorkQueue.Queue.TerminateOrWait: joining the threads and their return values are left out.
- BufXChange.OnePlaceEach: in this machine a blocked thread may test its condition again at any time, which covers every order of notifications; who is notified is in `BufWakeups`. The destructor is left out.
- BufWakeups.RunKeeps: `waitminsz`, which nothing calls, is left out; there are fewer threads than 2 to the 32.
- NetFetch.NetRunKeeps: a state machine on values, whose buffers are those that `Buffers` has as objects; the chunk size is below 2^32, and a failed allocation is not modelled.
- MpdCli.MpdCli.InsertAfterId: the 32-bit wrap-around of the version, a restart of MPD, and a failing read of the queue are not modelled.
- MpdCli.MpdCli.RestoreState: the queue only; play state, volume and options are left out.
- Sources.Device.SetSourceIndex: for a device with all the services and the ALSA receiver mode; playback state and volume events are left out, and an unknown saved state of the radio is `None`.
- Sources.Device.SenderStart: the address that a running sender is reused with is not modelled; that branch is never taken from a switch.
- Sources.Device.PlaylistInsert: content format checks and special addresses are left out.
- MetaCache.OHPlaylist.MakeIdArray: the title comparison and the DIDL text are functions given to the class; the base64 form of the ids and a change of the MPD client, whose versions are not comparable, are left out.
- MetaStore.SaveRestores: opening, renaming and writing of files succeed.
- PicoXml.PicoXmlParser.ParseInput: the messages of `getReason` and the empty-attribute variants of the handlers are left out; npos is the end of the text.
- XmlRoundTrip.DocumentReads: names without blanks, `=`, `/` and angle brackets, not starting with `!` or `?`; text behind the last tag gives no call.
- Quoting.StringToStrings: the container is a sequence.
- PathUt.PathCanon: the branches for Windows are left out; the working directory is a parameter.
- Sockets, processes, signals, SOAP actions, DIDL printing, playlist decoders, web pages and the graphical interface: calls into the system or into libraries that are not part of this model.
- Regular expressions, floating-point volume, date intervals, mute and play-mode tables: small functions on single values, about which there is little to say beyond their code.
