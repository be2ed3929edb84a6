# Verified model of the weather-station firmware

A Dafny model of the parts of the firmware that keep real state or do real arithmetic, with proofs
about every input, every run or every interleaving:

- **Shell** (`Memory`, `History`, `Completion`, `Tokenizer`, `LineEditor`, `Keys`, `Shell`). The command
  history is a circular byte buffer of length-prefixed lines; it refines a list of lines with a
  cursor. The line editor refines a decoder for escape sequences followed by a fold of editing
  actions. The in-place tokenizer refines a tokenizer on the line as typed. `shellThread` as a whole
  sees the commands of the abstract session on the same bytes.
- **Transmit pipeline** (`Msp`, `Pipeline`, `Radio`, `RadioCalls`). Frames and their decoder; any number of
  producers and one consumer sharing a buffer pool and a mailbox; the radio UART shared under a
  semaphore by the stream thread, shells and power threads, judged by a trace checker that knows
  nothing of the threads.
- **IRQ storm chain** (`IrqStorm`). Messages passed along a row of mailboxes: conservation, order,
  direction, draining, and the threshold search.
- **BMP280 compensation** (`Bmp280`, `Bmp280Reference`). 32-bit and 64-bit arithmetic with explicit
  wrap-around against the integer formulas of section 3.11.3 of the BMP280 datasheet
  (BST-BMP280-DS001), and these against its floating-point formulas over the reals.
- **Configuration store** (`Persistence`). The EEPROM driver with every wait either in time or timed
  out, the record saved in it, and the intervals after a reboot.

Code that changes things in place is modelled by methods and classes proved against functions on
values; threads that interleave are modelled as step machines over values. `hide` statements in
proofs only withhold definitions that a proof does not need.

## Modelling choices

- `char` is unsigned on this target, so a stored length is 0..255. The length byte is written as
  `length % 256`, which is what decides when a line is stored as itself.
- History, escape sequences and completion are compile-time switches; the model has them on. An
  empty table of names gives exactly the editor without completion. CTRL-D is a flag: the comment on
  `shellGetLine` promises it always, the code only with `SHELL_CMD_EXIT_ENABLED`.
- At src/shell/shell.c:147 and 286-287 the code tests a bound after reading; the model tests first.
- The comment at src/drivers/bmp280.c:308 says degrees Celsius; the value is in hundredths.
- Kernel debug assertions are compiled out (src/cfg/chconf.h:590), so the EEPROM code goes on after a
  failed wait, and so does the model.
- What the outside decides is a parameter or a free choice: input bytes, flash waits, replies of the
  radio, timeouts, which thread moves, what interrupts and workers do while the storm test sleeps.

## Findings

- A trimmed line of more than 255 bytes is not stored as itself (`Save`); with the shipped line
  length of 64 this cannot happen.
- The unchecked post to the mailbox is safe exactly when the mailbox has at least as many slots as
  the pool has buffers (`UncheckedPostSafeIff`); the firmware uses 5 and 5.
- Temperature compensation overflows 32 bits for legal readings far from T1 (`FarReadingOverflows`),
  exactly outside `Safe`.
- Pressure compensation overflows 64 bits for legal P4 (`LargeP4Overflows`), exactly outside `Safe64`
  (`PressureOverflowIff`); in operation exactly when one difference leaves its limit
  (`OperatingOverflowIff`).
- The unsigned pressure wraps to the top of its range where the formula passes below zero
  (`PressureWraps`), and only there does it rise with the raw reading (`PressureCrossing`).
- The fine temperature can fall while the raw reading rises (`TemperatureFalls`); over the readings
  with an offset within 32767 it never does exactly when `StepsRise` holds of the calibration
  (`TemperatureMonotoneIff`).
- Without the exit command, which the shipped configuration does not enable, a reset of the channel
  right after a command line runs that command once more without its arguments
  (`ResetRepeatsCommand`).
- A worker preempted between its failed post and the flag can hide the failure from the interval it
  belongs to; the threshold is right exactly when the failure is recorded in time
  (`SeenIffNoticed`).
- After a timed-out wait a write can lose bytes and still end in the ready state
  (`LostWriteEndsReady`); what is read back is what was written exactly under the condition of
  `ReadBackIff`, which `Eeprom.Write` and `Station.Save` promise.

## Model

| member | source | states |
|---|---|---|
| History.Trim | src/shell/shell.c:147-148 | the line without trailing spaces: a prefix, not ending in a space, only spaces cut off |
| History.EvictKeepsLongestSuffix | src/shell/shell.c:153-154 | evicting the oldest lines keeps the longest suffix that leaves room for the new line, and no shorter one |
| History.SavedKeepsAllIff | src/shell/shell.c:125-154 | no stored line is forgotten iff all of them, with one length byte each, and the new one leave a byte of the buffer free |
| History.UsedBytes | src/shell/shell.c:125-137 | the bytes in use follow from the two indices in either order, and the indices meet exactly when the history is empty |
| History.WalkStep | src/shell/shell.c:185-191 | walking by stored lengths from the beginning meets every entry in turn and stops exactly at the end index |
| History.TextOfEntry | src/shell/shell.c:216-227 | an entry's text is found circularly behind its length byte, split or not |
| History.RepresentedLinesUnique | src/shell/shell.c:185-191 | the bytes between the indices determine the stored lines |
| History.DropOldest | src/shell/shell.c:116-123 | moving the begin index past the first entry forgets the oldest line and nothing else |
| History.AppendEntry | src/shell/shell.c:156-174 | text, length byte and end mark written behind the end append one line to what the buffer represents |
| History.NotItsOwnLength | src/shell/shell.c:170 | a one-byte length cannot stand for more than 255 bytes |
| History.ShellHistory.constructor | src/shell/shell.c:349-358 | an empty history over the configured buffer |
| History.ShellHistory.DelEntry | src/shell/shell.c:116-123 | drops exactly the oldest line |
| History.ShellHistory.HasSpace | src/shell/shell.c:125-137 | both index orders test used + length + 1 < size |
| History.ShellHistory.StoreText | src/shell/shell.c:156-167 | the text lands circularly behind the end index, in one copy or two, and no other byte changes |
| History.ShellHistory.TrimmedLength | src/shell/shell.c:147-148 | the loop finds the length of the trimmed line |
| History.ShellHistory.MakeRoom | src/shell/shell.c:153-154 | the eviction loop ends, with the longest fitting suffix left |
| History.ShellHistory.Append | src/shell/shell.c:156-175 | the line is appended, the end marked, the cursor reset |
| History.ShellHistory.Save | src/shell/shell.c:139-176 | a kept line follows the longest fitting suffix of the old lines; blank or over-long lines change nothing; right exactly up to 255 bytes |
| History.ShellHistory.CountEntries | src/shell/shell.c:184-191 | the counting loop ends at the number of stored lines |
| History.ShellHistory.SeekEntry | src/shell/shell.c:200-210 | finds the entry the cursor asks for, or the end mark, also for cursor -1 |
| History.ShellHistory.ReadEntry | src/shell/shell.c:210-228 | copies a whole or split entry out exactly, zeros behind it |
| History.ShellHistory.Get | src/shell/shell.c:178-236 | refines the cursor: 0..count after every call, the right line, 0 at the newest end, -1 past the oldest |
| History.MoveTimesDistance | src/shell/shell.c:193-233 | k moves go k places, stopping at either end |
| History.ForwardUndoesBack | src/shell/shell.c:178-236 | k forward undo k back and show the line selected before |
| History.BackThenForwardShowsEmpty | src/shell/shell.c:178-236 | from the newest end, any k back then k forward show the empty line |
| Completion.Matches | src/shell/shell.c:246-262 | exactly the names that extend the typed text |
| Completion.GetCompletions | src/shell/shell.c:240-265 | the loop collects the matching names in table order |
| Completion.CommonPrefixIsLongest | src/shell/shell.c:284-300 | the common prefix is a prefix of all candidates, and every common prefix is a prefix of it |
| Completion.SkipAgreeing | src/shell/shell.c:286-289 | stops at the first candidate that differs at this position, or behind the last |
| Completion.CompleteOne | src/shell/shell.c:274-283 | a single candidate is written out with one space if it fits |
| Completion.CompleteMany | src/shell/shell.c:284-300 | several candidates leave their longest common prefix in the line |
| Completion.ProcessCompletions | src/shell/shell.c:267-306 | the line becomes the completion, terminated, and its length is returned; no candidates change nothing |
| Tokenizer.Span | src/shell/shell.c:73 | skips exactly the leading blanks |
| Tokenizer.Until | src/shell/shell.c:75-84 | the first delimiter, or the end |
| Tokenizer.TokensOfPrint | src/shell/shell.c:61-92 | words without bytes 32 and 9 and not starting with 34, or quoted words without 34, separated by blanks: tokenizing gives the words back |
| Tokenizer.SplitOfPrint | src/shell/shell.c:382-393 | a printed command of at most five words is split into exactly its words; with more no command is run |
| Tokenizer.EmptyQuotesEndTokens | src/shell/shell.c:75-91 | an empty pair of quotes ends the list, whatever follows |
| Tokenizer.SkipBlanks | src/shell/shell.c:73 | the in-place scan agrees with the line as typed |
| Tokenizer.FindDelimiter | src/shell/shell.c:79-83 | the in-place search agrees with the line as typed |
| Tokenizer.ParseArguments | src/shell/shell.c:61-92 | token and next position of the pure tokenizer; one byte changes at most, a delimiter |
| Tokenizer.NextToken | src/shell/shell.c:385 | one more token placed behind the others, the unread part untouched, nothing before it changed |
| Tokenizer.PlacedInOrder | src/shell/shell.c:385-392 | tokens are disjoint, at increasing offsets |
| Tokenizer.PlacedReadBack | src/shell/shell.c:382-393 | every placed token, read as a C string, is that token |
| Tokenizer.ReadArguments | src/shell/shell.c:384-393 | the argument loop ends, with the tokens of the typed line, four at most |
| Tokenizer.SplitLine | src/shell/shell.c:382-393 | the strings left in the buffer are those of the pure tokenizer; only delimiters have been overwritten; read from its start the buffer is the line up to its first cut |
| Tokenizer.KeptSplits | src/shell/shell.c:382-393 | splitting that rest again gives the first token as a command without arguments, and changes nothing |
| LineEditor.SavedKeepsSound | src/shell/shell.c:556-563 | every stored line stays short enough to be recalled into the line buffer |
| LineEditor.CompletingKeepsSound | src/shell/shell.c:564-578 | a completion never outgrows the line buffer |
| LineEditor.RecallKeepsSound | src/shell/shell.c:511-535 | a recalled line always fits |
| LineEditor.ApplyKeepsSound | src/shell/shell.c:491-612 | no key lets the text or a stored line outgrow the line buffer |
| LineEditor.RunIsFold | src/shell/shell.c:479-613 | a line is the fold of its decoded actions; decoding never looks at what is edited |
| LineEditor.RunKeepsSound | src/shell/shell.c:479-613 | over any input the write position stays within the buffer and every stored line recallable |
| LineEditor.TypingAppends | src/shell/shell.c:606-611 | typing a text that fits adds exactly that text |
| LineEditor.TypedLineReturned | src/shell/shell.c:479-613 | a typed line comes back as typed and goes to the history |
| LineEditor.ArrowRun | src/shell/shell.c:496-540 | an arrow sequence recalls once and leaves the decoder where it was |
| LineEditor.RecallResubmits | src/shell/shell.c:511-520 | submit, recall with either key, submit again: the line, then the line without trailing spaces |
| LineEditor.ArrowsRunLikeControlKeys | src/shell/shell.c:579-604 | writing arrow sequences for the control keys of any input without escapes changes nothing in the line, the history or what is left to read |
| LineEditor.ArrowsSessionLikeControlKeys | src/shell/shell.c:479-613 | the same over whole sessions: the submitted lines are equal |
| Keys.DeleteUndoesTyping | src/shell/shell.c:547-555 | byte 8 or 127 undoes one typed byte, whatever follows |
| Keys.DeletesUndoTyping | src/shell/shell.c:547-555 | as many deletes as bytes typed leave the line as it was |
| Keys.DeleteOnEmptyIgnored | src/shell/shell.c:547-555 | on an empty line a delete changes nothing |
| Keys.FullLineIgnores | src/shell/shell.c:606-611 | a full line takes no more bytes and no completion |
| Keys.ControlIgnored | src/shell/shell.c:604-605 | bytes below 32 other than 8, 9, 13, 14, 16, 27 change nothing, nor does 4 without the exit command |
| Keys.ControlDCloses | src/shell/shell.c:541-546 | with the exit command byte 4 closes the line as it is |
| Keys.EscapeSwallows | src/shell/shell.c:496-540 | escape sequences other than the arrows swallow their bytes |
| Keys.EscapeRepeats | src/shell/shell.c:496-510 | a second escape or bracket inside a sequence changes nothing |
| Keys.BackKey | src/shell/shell.c:511-520 | byte 16 or the up arrow shows the next older line, and nothing new at the oldest |
| Keys.ForwardKey | src/shell/shell.c:521-535 | byte 14 or the down arrow shows the next newer line, and the empty line at the newest end |
| Keys.BackTimes | src/shell/shell.c:511-520 | k times back show the k-th older line |
| Keys.KeptIff | src/shell/shell.c:143-151 | a line is kept iff it has a byte other than a space and leaves two bytes of the buffer |
| Keys.ReturnKey | src/shell/shell.c:556-563 | byte 13 returns the line as it stands; a kept one becomes the newest, another leaves history and cursor alone |
| Keys.TypedLinesReturned | src/shell/shell.c:479-613 | any number of typed lines come back in order, whatever the history holds |
| Keys.TabWithoutMatch | src/shell/shell.c:564-578 | byte 9 changes nothing when no name extends the text |
| Keys.TabCompletesName | src/shell/shell.c:564-578 | with exactly one such name it leaves the name and one space where one fits |
| Keys.TabCompletesPrefix | src/shell/shell.c:564-578 | with more it leaves the longest text all of them extend |
| LineEditor.RecallInto | src/shell/shell.c:511-535 | the buffer shows the recalled text, or is left alone |
| LineEditor.CompleteInto | src/shell/shell.c:564-578 | the buffer shows the completed text |
| LineEditor.SubmitFrom | src/shell/shell.c:556-563 | the line goes to the history and is terminated |
| LineEditor.EditText | src/shell/shell.c:547-555 | delete and insert keep the buffer equal to the text |
| LineEditor.PlainKey | src/shell/shell.c:541-611 | a byte outside escape sequences does its action and ends the line when it should |
| LineEditor.HandleByte | src/shell/shell.c:496-611 | one pass of the loop with its two flags is one decoded action |
| LineEditor.GetLine | src/shell/shell.c:479-613 | the method is the abstract run: end, bytes read, text as a terminated string, history, cursor |
| Shell.ReadCommand | src/shell/shell.c:394-411 | what a command handler reads from the buffer |
| Shell.NextCommand | src/shell/shell.c:370-393 | one pass of the thread's loop sees the split of the submitted line |
| Shell.ShellLoop | src/shell/shell.c:366-393 | up to a reset the loop sees the commands of the session; history, cursor and, where known, the string left in the buffer are those of the abstract session |
| Shell.SplitLeft | src/shell/shell.c:371-393 | without the exit command a reset brings up the split of the C string left in the buffer |
| Shell.NextRound | src/shell/shell.c:366-393 | a session and its reset, with the exit command and without |
| Shell.ShellThread | src/shell/shell.c:337-393 | from an empty history, over any number of resets: the commands of the abstract sessions on the same bytes, and after each reset that of the string left; with the exit command the first reset is the end |
| Shell.ResetRepeatsCommand | src/shell/shell.c:371-393 | a reset right after a submitted line brings its command up again without its arguments, and so does every reset that follows at once, even after a line with too many arguments |
| Shell.TypedCommandSeen | src/shell/shell.c:371-393 | a command line typed from its words is seen as that command |
| Msp.PayloadRoundTrip | src/drivers/msp.c:22-28 | the words are recovered from their big-endian bytes |
| Msp.XorDetectsChange | src/drivers/msp.c:17-30 | changing one byte changes the checksum |
| Msp.EncodeXorsToZero | src/drivers/msp.c:15-30 | from the length byte to the checksum a frame XORs to 0 |
| Msp.DecodeEncode | src/drivers/msp.c:11-31 | a decoder checking header, length and checksum recovers command and words |
| Msp.EncodeInjective | src/drivers/msp.c:11-31 | different messages give different frames |
| Msp.DamageRefused | src/drivers/msp.c:11-31 | a frame with any single byte changed is refused |
| Msp.FrameLayout | src/drivers/msp.c:11-31 | byte by byte: 36, 77, 60, the number of payload bytes, the command, the words most significant byte first, the XOR of all from the length on |
| Msp.PutWord | src/drivers/msp.c:23-26 | four big-endian bytes in place, the checksum carried over them |
| Msp.PutWords | src/drivers/msp.c:22-28 | the word loop writes the payload and its checksum, and nothing behind it |
| Msp.CreateMspFrame | src/drivers/msp.c:11-31 | the buffer's first `size` bytes are the frame; the rest keeps its values |
| Pipeline.StepKeepsPlace | src/threads/hc12Thread.c:51-66 | every step but a failed post leaves a buffer in exactly one place |
| Pipeline.RoomToPost | src/threads/bmp280Thread.c:83-87 | while a producer holds a buffer the mailbox has room for it |
| Pipeline.HeldNotQueued | src/threads/hc12Thread.c:51-62 | a buffer being filled or sent is not queued |
| Pipeline.ProducerStepFaithful | src/threads/bmp280Thread.c:83-87 | producers never disturb a frame once it is posted |
| Pipeline.SendFrameFaithful | src/threads/hc12Thread.c:56 | the frame sent is the next one posted, byte for byte |
| Pipeline.MarkStepFaithful | src/threads/hc12Thread.c:57-58 | the line end is written over a frame already sent only |
| Pipeline.StepKeepsSound | src/threads/hc12Thread.c:51-66 | every step keeps ownership and traffic right |
| Pipeline.EveryRunDelivers | src/threads/hc12Thread.c:48-66 | in every interleaving no post fails, no buffer leaks, and the radio gets the posted frames in post order, each with its line end |
| Pipeline.PostedAsDrafted | src/threads/bmp280Thread.c:83-87 | in every run, each post hands over what its producer filled in last since it allocated, whatever the others do meanwhile |
| Pipeline.EveryDraftDelivered | src/threads/hc12Thread.c:48-66 | the i-th write pair on the radio is, byte for byte, what the producer of the i-th post filled in, and the bytes 10 and 13 |
| Pipeline.DeliveredFramesDecode | src/threads/bmp280Thread.c:83-87 | a protocol frame that a producer fills in is decoded from the radio traffic as its command and words |
| Pipeline.ProducerPosts | src/threads/bmp280Thread.c:83-87 | while a buffer is free and the mailbox has room, a producer can post any content that fits |
| Pipeline.ConsumerSends | src/threads/hc12Thread.c:51-66 | the idle consumer can send the first queued buffer with its line end and free it, changing nothing else |
| Pipeline.ConsumerDrains | src/threads/hc12Thread.c:51-66 | the consumer alone takes exactly six steps for each queued buffer |
| Pipeline.ConsumerStuckOnlyWhenDrained | src/threads/hc12Thread.c:51-66 | it stops only with an empty mailbox and empty hands |
| Pipeline.SmallMailboxLeaks | src/threads/pools.c:6-10 | with fewer slots than buffers some run loses a buffer |
| Pipeline.UncheckedPostSafeIff | src/threads/pools.c:6-16 | the unchecked post is safe in every run exactly when the mailbox is as large as the pool |
| Radio.StreamHolderMovesWell | src/threads/hc12Thread.c:101-112 | the stream thread's steps under the semaphore keep the rules of the bus |
| Radio.StreamOutsideMovesWell | src/threads/hc12Thread.c:34-55 | its steps outside do nothing behind the holder's back, the boot-time SET excepted |
| Radio.ShellHolderMovesWell | src/threads/hc12Thread.c:140-257 | a reconfiguration keeps the rules on every path, timeouts included |
| Radio.ShellOutsideMovesWell | src/threads/hc12Thread.c:127-138 | nothing of a reconfiguration happens before the status is OK and the semaphore held |
| Radio.PowerHolderMovesWell | src/threads/hc12Thread.c:310-325 | the radio off/on pair keeps the rules |
| Radio.PowerOutsideMovesWell | src/threads/powerThread.c:72-74 | a failed wait in the power thread changes nothing |
| Radio.StepKeepsInv | src/threads/hc12Thread.c:34-325 | one step of any thread keeps the invariant for all threads |
| Radio.EveryRunObeysTheBus | src/threads/hc12Thread.c:34-325 | in every interleaving: data with SET high, AT text with SET low, both by the holder; commands in order, each after the reply to the one before; nothing but pings before the radio answered; success reported exactly for a complete session |
| Radio.AcquiresAreReleased | src/threads/hc12Thread.c:96-112 | on any trace within the rules releases match acquisitions |
| Radio.EveryAcquireReleasedOnce | src/threads/hc12Thread.c:93-325 | outside its critical section a thread has released exactly as often as it acquired |
| Radio.HolderMovesToRelease | src/threads/hc12Thread.c:93-258 | a holder is never blocked and each of its steps brings the release nearer |
| Radio.SuccessMeansAllReplied | src/threads/hc12Thread.c:127-258 | a return of success, in any interleaving, is preceded by one unreported session of that thread in which all four commands went out in order and each was replied to |
| RadioCalls.ReconfigurationCarriedOut | src/threads/hc12Thread.c:127-258 | from any state with the radio in order or asleep and the semaphore free, an answered call leaves exactly one session of four commands and returns success |
| RadioCalls.NotReadyRefused | src/threads/hc12Thread.c:132-134 | in another status the call returns failure and touches nothing |
| RadioCalls.TimedOutWaitRefused | src/threads/hc12Thread.c:136-138 | so does one whose wait for the semaphore times out |
| RadioCalls.NoReplyEndsSession | src/threads/hc12Thread.c:152-157 | a missing reply ends the session: SET high, semaphore back, failure |
| RadioCalls.AnsweredPingLeavesCheck | src/threads/hc12Thread.c:93-113 | an answered ping ends the checking and the radio is put to sleep |
| RadioCalls.UnansweredPingChecksAgain | src/threads/hc12Thread.c:93-113 | one that is not answered leads to the next check, the semaphore given back |
| RadioCalls.FetchedMessageSent | src/threads/hc12Thread.c:51-62 | a fetched message leaves exactly an acquisition, two writes and a release, the radio woken first if it slept |
| RadioCalls.IdleRadioSleeps | src/threads/hc12Thread.c:51-66 | without messages a radio in order is put to sleep |
| RadioCalls.OffAndOn | src/threads/hc12Thread.c:310-325 | turning off and on takes the semaphore once and leaves a radio that answered before in order |
| IrqStorm.TargetIsNextSeat | ChibiOS/testhal/common/irq_storm.c:118-126 | the unsigned target test means the next worker, or the exit exactly at the end of the row |
| IrqStorm.FlattenShift | ChibiOS/testhal/common/irq_storm.c:124-129 | forwarding a message keeps its place in the order of its direction |
| IrqStorm.StepOnLine | ChibiOS/testhal/common/irq_storm.c:95-167 | a step adds the next injection at the end of a line, loses one message, or leaves the line as it is |
| IrqStorm.StepKeepsInv | ChibiOS/testhal/common/irq_storm.c:84-167 | every step keeps conservation and order |
| IrqStorm.FlagIff | ChibiOS/testhal/common/irq_storm.c:127-129 | a worker's failed post and its raising of the flag being two steps: after any run the flag is up iff some post found its mailbox full and was recorded after the last reset |
| IrqStorm.FailureIsRecorded | ChibiOS/testhal/common/irq_storm.c:127-129 | every failed post is recorded by the worker's next step, or the worker is about to record it when the run ends |
| IrqStorm.EveryRunConserves | ChibiOS/testhal/common/irq_storm.c:84-167 | accepted = left + under way + dropped for both directions, exits in order of injection, flag up iff a failed post was recorded since the last reset |
| IrqStorm.PostFailsIffFull | ChibiOS/testhal/common/irq_storm.c:118-167 | in every run a post, to the mailbox next in its direction, fails iff that mailbox holds as many messages as it can, and none ever holds more |
| IrqStorm.QuietRunDelivers | ChibiOS/testhal/common/irq_storm.c:84-167 | a run without a failed post that leaves the chain empty has let out every accepted injection, in order |
| IrqStorm.OnePlace | ChibiOS/testhal/common/irq_storm.c:98-127 | a message is at one worker only |
| IrqStorm.StepMovesOneWay | ChibiOS/testhal/common/irq_storm.c:118-127 | with a step a message stays, or comes one worker nearer its exit |
| IrqStorm.GoneForGood | ChibiOS/testhal/common/irq_storm.c:118-138 | over any run, a message that has left the chain never comes back |
| IrqStorm.RunMovesOneWay | ChibiOS/testhal/common/irq_storm.c:84-167 | in every run, between any two moments at which a message is in the chain it has come no farther from its exit; a message in the chain was in it at every earlier moment since it was accepted |
| IrqStorm.WorkerStepLowersLoad | ChibiOS/testhal/common/irq_storm.c:95-138 | every worker step lowers the remaining hops, by exactly one unless its post fails |
| IrqStorm.WorkersDrain | ChibiOS/testhal/common/irq_storm.c:260-261 | with the timers stopped a run is no longer than the load, and exactly the difference in load when no post fails |
| IrqStorm.WorkersStuckOnlyWhenEmpty | ChibiOS/testhal/common/irq_storm.c:95-98 | as long as a message is in the chain some worker can step |
| IrqStorm.ScheduleFalls | ChibiOS/testhal/common/irq_storm.c:235-237 | the timer intervals fall strictly, without underflow |
| IrqStorm.ScheduleShape | ChibiOS/testhal/common/irq_storm.c:235-237 | they start at the first one, fall by a tenth rounded up each time and end at 2 |
| IrqStorm.FindThreshold | ChibiOS/testhal/common/irq_storm.c:232-259 | whatever interrupts and workers do: the first interval at whose end the flag is up; if no worker was about to raise it at the reset, never above the first interval in whose run a post fails, and equal to it iff that failure is recorded in time |
| IrqStorm.SeenIffNoticed | ChibiOS/testhal/common/irq_storm.c:243-258 | the same for every part of the schedule, and equality whenever no worker is about to raise the flag when the failing interval is judged |
| IrqStorm.FirstFailingIsLargest | ChibiOS/testhal/common/irq_storm.c:235-258 | that interval is the largest of the schedule in whose run a post fails, 0 when none does |
| IrqStorm.Execute | ChibiOS/testhal/common/irq_storm.c:228-265 | the worst case is the largest of the thresholds of all iterations, 0 or an interval of the schedule from 2000 down, the chain going on from one to the next |
| IrqStorm.FirstStormReported | ChibiOS/testhal/common/irq_storm.c:232-258 | a storm that raises the flag at 2000 is reported as 2000 |
| Bmp280.NoOverflowIff | src/drivers/bmp280.c:310-322 | for every calibration and reading: no 32-bit intermediate overflows iff two products fit and the offset is at most 46340 |
| Bmp280.SafeIsExact | src/drivers/bmp280.c:310-322 | then the driver returns the exact formula |
| Bmp280.TemperatureDoesNotOverflow | src/drivers/bmp280.c:310-322 | offset within 32767 and T3 within 8191 are enough |
| Bmp280.FarReadingOverflows | src/drivers/bmp280.c:316-318 | a legal reading far from T1 overflows |
| Bmp280.QuadraticStep | src/drivers/bmp280.c:316-318 | one count changes the quadratic term by no more than the linear one |
| Bmp280.TemperatureMonotoneIff | src/drivers/bmp280.c:310-322 | for every calibration: over all readings with an offset within 32767 the fine temperature never falls iff T2 is not negative and no step between neighbouring offsets falls, a test on the calibration alone |
| Bmp280.DriverMonotoneIff | src/drivers/bmp280.c:310-322 | the same iff for the values the driver computes in 32 bits, T3 being within 8191 |
| Bmp280.TemperatureMonotone | src/drivers/bmp280.c:310-322 | under that test the driver's fine temperature and its result never fall when the raw reading rises, floor shifts included |
| Bmp280.RisingIsEnough | src/drivers/bmp280.c:310-322 | T3 within 1024 * floor(T2 / 2048) passes the test whatever T1 is |
| Bmp280.SteepQuadraticFalls | src/drivers/bmp280.c:310-322 | at any offset some reading has: where T3 takes back more of the scaled square than T2 and the rounding add, the driver's fine temperature falls from one reading to the next |
| Bmp280.TemperatureFalls | src/drivers/bmp280.c:310-322 | a calibration and two neighbouring readings where it falls |
| Bmp280.NoOverflowIsExact | src/drivers/bmp280.c:329-352 | for every calibration: when no 64-bit intermediate overflows, the driver returns the formula cut to 32 bits |
| Bmp280.PressureOverflowIff | src/drivers/bmp280.c:333-350 | for every calibration, reading and fine temperature of a safe reading: no intermediate overflows iff the scaled divisor, the scaled difference and the three corrections fit |
| Bmp280.OperatingOverflowIff | src/drivers/bmp280.c:333-350 | from -40 to 85 degrees and for usual P1 to P3, whatever P4 to P9: no intermediate overflows iff one difference is within 2951479051793528 |
| Bmp280.PressureDoesNotOverflow | src/drivers/bmp280.c:329-352 | from -40 to 85 degrees, for the stated calibrations, every reading: the divisor is positive, no intermediate overflows, the result is the formula cut to 32 bits |
| Bmp280.LargeP4Overflows | src/drivers/bmp280.c:346 | a legal P4 puts the difference outside the limit, and the quotient changes its sign |
| Bmp280.PressureExactAntitone | src/drivers/bmp280.c:345-350 | for P9 within 16000, a higher raw reading never gives a higher formula value |
| Bmp280.PressureAntitoneIff | src/drivers/bmp280.c:329-352 | the returned pressure is ordered likewise exactly unless the formula passes below zero in between |
| Bmp280.PressureSign | src/drivers/bmp280.c:345-350 | the sign of the formula from numerator, divisor and P7 alone: surely positive, surely negative, and an exact test for P7 = 0 |
| Bmp280.PressureCrossing | src/drivers/bmp280.c:329-352 | calibration and temperature fix one crossing reading; the returned pressure rises between two readings iff it lies between them; the tests of `PressureSign` bound it from both sides |
| Bmp280.PressureWraps | src/drivers/bmp280.c:350-351 | with an ordinary calibration at 25 degrees the highest reading returns a higher pressure than the lowest |
| Bmp280.Raw | src/drivers/bmp280.c:397-398 | the 20 bits of a reading from its three registers |
| Bmp280.ReadFixedExact | src/drivers/bmp280.c:397-402 | whenever both computations are safe a measurement is the datasheet's, the pressure with the fine temperature of the same burst |
| Bmp280Reference.FineNearReference | src/drivers/bmp280.c:310-320 | the driver's fine temperature is within 24 counts of the datasheet's floating-point formula |
| Bmp280Reference.TemperatureNearReference | src/drivers/bmp280.c:310-322 | the driver's temperature is within 0.01 degree of that formula |
| Bmp280Reference.PascalRounding | src/drivers/bmp280.c:347-351 | the three roundings of the last lines lose less than 257 units of the scaled sum |
| Bmp280Reference.QuotientNearReference | src/drivers/bmp280.c:333-346 | the quotient by the rounded divisor is within 57 units of 1/65536 pascal of the real one |
| Bmp280Reference.PressureNearReference | src/drivers/bmp280.c:329-352 | in operation, for every P4 to P9 without overflow, the driver's pressure is within 0.1 pascal of the datasheet's floating-point formula |
| Bmp280Reference.MeasurementNearReference | src/drivers/bmp280.c:397-402 | both values of a measurement are that near, from the right registers, the pressure for the fine temperature of the burst |
| Persistence.WrittenAt | src/drivers/stm32L0/eeprom_lld.c:28-31 | a write touches only its own bytes, each only if its wait came back in time |
| Persistence.ReadBackIff | src/drivers/stm32L0/eeprom_lld.c:16-34 | what is read back is what was written iff every byte was there before, or was let through: lock opened or already open, and its wait in time |
| Persistence.LostWriteEndsReady | src/drivers/stm32L0/eeprom_lld.c:97-133 | a timed-out unlock, or a timed-out byte, loses the data and still ends ready |
| Persistence.Eeprom.Write | src/drivers/stm32L0/eeprom_lld.c:16-34 | for every pattern of timeouts: the memory, the exact condition for reading back what was written, the state, and ready only with the lock closed |
| Persistence.Eeprom.Read | src/drivers/stm32L0/eeprom_lld.c:42-57 | the bytes asked for, or none and a failed driver on a timeout |
| Persistence.ImageRoundTrip | src/main.h:27-30 | the record is recovered from its bytes |
| Persistence.ImageLayout | src/main.h:27-30 | the record byte by byte: version, padding, ten intervals low byte first |
| Persistence.BootIntervals | src/main.c:67-184 | from any EEPROM contents every task starts with 300 when the version is not 3 or its interval is 0, else with the stored interval |
| Persistence.ScheduleTakesEffectIff | src/shell/shellCmd.c:133-145 | a schedule command sets exactly its own task, iff that is a started task 1 to 4 and the interval is not 0 in 8 bits |
| Persistence.Station.constructor | src/main.c:67-120 | load, version check, default selection, for any contents and also after a timed-out read |
| Persistence.Station.RestoreDefaults | src/main.c:70-75 | the loop makes the whole record the default one |
| Persistence.Station.Schedule | src/shell/shellCmd.c:137-145 | id and interval cut to 8 bits; an accepted command sets thread and record alike, a refused one nothing |
| Persistence.Station.Save | src/shell/shellCmd.c:168-173 | the memory becomes the saved record iff every byte was taken; bytes behind it never change; ready implies locked |
| Persistence.SaveStores | src/main.c:67-120 | booting from a saved record gives every thread the interval it had |
| Persistence.StepAsExpected | src/shell/shellCmd.c:133-173 | each action does to the station what it does to a store of current and saved intervals |
| Persistence.EveryRunAsExpected | src/main.c:67-184 | and so does every run of schedule, save, start and reboot, from any EEPROM contents |
| Persistence.RebootKeepsSavedIntervals | src/main.c:83-184 | after save, any further schedule commands and a reboot, every enabled thread has the interval it had at save |

## Left out

- PressureDoesNotOverflow: the limits on P4 to P6 are one simple box inside the exact condition of `OperatingOverflowIff`.
- PressureSign: for P7 other than 0 a band of quotients between the two tests is left open, as rounding of the corrections decides there.
- PressureExactAntitone: the limit on P9, which scales the quadratic correction, is sufficient, not necessary.
- ReadFixedExact: humidity is not modelled.
- PressureNearReference: over the reals; the rounding of floating-point arithmetic itself is not modelled, which the firmware does not use here.
- ShellThread: a reset while a line is being typed leaves a mixture of that line and older bytes in the buffer; the model splits it but does not predict it, and does not follow a string that runs past the buffer.
- FindThreshold: when a worker was about to raise the flag at the reset, only the reading of the flag is stated.
- EveryRunDelivers: how much of a write the UART accepts before its timeout is not modelled; the traffic is what is handed to the driver.
- EveryRunObeysTheBus: the enable line and the contents of replies are not modelled.
- HolderMovesToRelease: a reply loop is one step that ends with a reply or a timeout; its 16-bit tick arithmetic is not modelled.
- GetCompletions: the bound on the number of candidates is not modelled; the three name tables are one list.
- The pool, the mailboxes, the semaphore and the chain are step machines over values, not objects updated in place; a step is what runs between two points where another thread can intervene.
- The contents a producer writes are arbitrary; `CreateMspFrame` is the one way the sensors fill a buffer, and text sent by the shell command is assumed to fit.
- ChibiOS kernel primitives (pool, mailbox, binary semaphore, synchronous message) appear by their documented effect only.
- Echo and printing, I2C and ADC transfers, GPIO, delays: input and output.
- Command lookup and the command handlers other than schedule and save.
- ML8511, BH1750, VEML7700, wind and rain conversions: floating point, or one short formula each.
- Rain and wind intervals: these sensors are disabled, and their intervals are scaled differently.
- AS3935 and ADS1X15 register handling, board and kernel configuration, ChibiOS demos.
