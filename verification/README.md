# Battery monitor: a verified model

The daemon patrols up to 60 battery cells over a serial line, keeps a crash-resumable text checkpoint of
their resistances, balances the cells, and shares one `battery_pack` between three kinds of threads. This
project models those parts in Dafny 4.11 and proves what every run of them keeps. `dafny verify
dfyconfig.toml` checks everything.

## The three cores

**Serial protocol.** `Checksum` is the XOR check, proved to be a linear code over byte strings of any
length. `MiniFloat` is the 15-bit reading format: the two-branch decoder over real arithmetic, shown equal to
one rounding formula, which is analysed for any mantissa width and scale and then instantiated.
`RetryMachine` characterises the retry loop, which resets its own counter and changes its command in
mid-loop, by a regular language, and says exactly when a query ends at all. `SerialPort` is the port itself: a
class whose methods poll a stream of chunks of arbitrary sizes into a four-byte buffer. Its contracts hold for
every device that falls silent in the end, after whatever behaviour for however long. `Balancer` and
`CurrentSensor` are the two users of the port besides the patrol.

**Patrol and checkpoint.** `Checkpoint` is the printer and the parser of the resistance file. `Patrol` is the
patrol thread as a state machine over its single steps (truncate, write the header, test a cell, append its
field, finish it, publish, tick, crash, restart); only the file survives a crash. `Patrol`, `PatrolCycle`,
`PatrolResults`, `Schedule`, `DailyTest` and `OnceADay` prove what holds after every sequence of steps: what is
on file, what is published, when patrols start, how often a cell is tested. `PatrolThread` is the thread in its
own form: a class with the thread's variables, the parser loop and the patrol loop, talking to a `Port`. Each of its
methods is proved to perform a run of the state machine, and the queries it sends are tied to the events of
that run, so the theorems about runs are theorems about this code.

**Sharing.** `Layout` lays the pack out as the 243 words in which threads touch it. `SharedPack` interleaves
the patrol thread, the balancing pass, the current thread, the database write (which takes no lock) and any
number of clients, one word at a time; `SharedSafety` proves the invariant and the consistency of every
answer. `Network` is the request dispatcher and its connection loop. `Publication` puts a run of the patrol
thread and an interleaving of all threads together.

## Conventions and assumptions

- Readings are integers in thousandths; `-1` and `-2` are -1000 and -2000. Resistances on file are in
  hundredths. Times are seconds; clock readings never decrease and stay a day below 2^31.
- `None` in a cell slot is memory that was never written.
- A read of the line returns at once with what has arrived (polling mode); it may be nothing.
- Each `write` to the checkpoint happens entirely or not at all, and each aligned word of the shared struct
  is read and written in one piece.
- The number of cells is between 1 and 60.

## Where the code does not do what its comments promise

- **One retransmission** (`OneRetransmissionIff`, `QueryEndsIff`, `StuckForEver`, `NoBoundOnExchanges`). Every
  valid "-2" to a resistance query sets the loop counter back. A query takes at most two exchanges exactly if
  its first reply is a plain valid one or its second is not "-2". It ends at all exactly if its first reply is
  a plain valid one or a later one is anything but "-2"; a cell that answers "-2" to every frame holds the
  patrol thread for ever, and with it patrols and balancing. In the same way the discarding of stale input ends
  only if some read finds nothing.
- **Balancing** (`FailedCellsSafeIff`, `OrdersAreIntendedIff`, `ErrorInCellOneDischargesAll`). The running
  minimum is seeded with cell 1 even if cell 1 failed. An error code there opens the discharge of every cell.
- **Daily resistance test, one process** (`TestsADayApartIff`, `AllOrNothingIff`, `RestoredNeverTestedAgain`).
  The restored count is never reset. Unless start-up found at least one field per cell, patrols test more often
  than once a day. If it found some cells but not all, some patrol tests the others only, every ten-minute
  patrol moves the deadline of all cells, and after the first patrol the restored cells are never tested again
  while the process lives and no turn of its loop takes nearly a day.
- **Daily resistance test, whole runs** (`OnceADayIff`, `DayOldCellIsTested`, `OnceADayFails`). Every patrol
  stamps the file with "a day from now", whether or not it tested. Over runs with crashes and restarts the
  deadline in force covers every cell exactly if two things never happen: a restart takes cells over, before
  the stored deadline, from a file whose own patrol had taken cells over ("on borrowed time"); and a process
  that restored some cells but not all completes a patrol that was not due. (That these always break it holds
  if every start and every turn of the loop takes at least a second.) Restarting once a day postpones the test
  forever.
- **Request format** (`FormatCheckRightIff`). The two conditions are joined with "and", so a message is
  rejected only if both the prefix and the length are wrong.

## Model

| member | source | states |
|---|---|---|
| Checksum.GenChecksum | batterySystem/s800serialDAO.c:259-264 | the accumulator loop computes the XOR of the first `len` bytes |
| Checksum.SumOfConcat | batterySystem/s800serialDAO.c:259-264 | the checksum of a concatenation is the XOR of the checksums |
| Checksum.ReplyVerifiesIff | batterySystem/s800serialDAO.c:111-112 | a four-byte reply is accepted iff its last byte is the XOR of the three before it |
| Checksum.CorruptionDetected | batterySystem/s800serialDAO.c:111-112 | a corrupted valid frame verifies iff the XOR of its error bytes is zero |
| Checksum.OneByteChangeRejected | batterySystem/s800serialDAO.c:176-177 | any change confined to one byte is rejected, at any frame length |
| MiniFloat.DecodeIsOneFormula | batterySystem/s800serialDAO.c:248-255 | both branches equal floor((sig * 2^max(exp,1) * 1000 + 2^17) / 2^18) |
| MiniFloat.DecodeAccuracy | batterySystem/s800serialDAO.c:246-254 | two data bytes with exponent e and mantissa m decode to within half a thousandth of 2m / 2^18 (e = 0) or (2048 + m) * 2^e / 2^18 |
| MiniFloat.DecodeMonotone | batterySystem/s800serialDAO.c:240-257 | the reading never decreases with the 15-bit code, across the subnormal seam and all exponent boundaries |
| MiniFloat.DecodeInjective | batterySystem/s800serialDAO.c:252-254 | from exponent 9 upwards different codes give different readings |
| MiniFloat.DecodeCollidesBelow | batterySystem/s800serialDAO.c:250-254 | every exponent below 9 has two neighbouring codes with the same reading, so 9 is the exact limit |
| MiniFloat.DecodeRange | batterySystem/s800serialDAO.c:242-249 | the result is "-2" iff the sign bit is set or the exponent is 15, and otherwise lies in 0..255.938 |
| RetryMachine.CompleteRunsAreLanguage | batterySystem/s800serialDAO.c:105-132 | the loop ends after exactly the outcome sequences V, N+(V or F), F N*(V or F) |
| RetryMachine.StillRunningIff | batterySystem/s800serialDAO.c:107-132 | the loop has not stopped after exactly the outcome sequences that open with F or N and go on with N only |
| RetryMachine.QueryEndsIff | batterySystem/s800serialDAO.c:104-132 | against a device that answers for ever, a query ends iff its first reply is a plain valid one or some later reply is not "-2"; other commands always end |
| RetryMachine.ExchangeBound | batterySystem/s800serialDAO.c:107-132 | a query takes at most two exchanges plus one per "-2" reply |
| RetryMachine.OneRetransmissionIff | batterySystem/s800serialDAO.c:104-132 | a query takes at most two exchanges iff its first reply is a plain valid one or it has a second that is not "-2" |
| RetryMachine.TwoExchangesSuffice | batterySystem/s800serialDAO.c:107-132 | any other command takes at most two exchanges, and a second one only after a bad reply |
| RetryMachine.ClassifyByBytes | batterySystem/s800serialDAO.c:111-128 | what the loop makes of a reply, by its bytes: wrong length or XOR, a first data byte from 0x78 up for command 0x62, or a plain valid reply |
| RetryMachine.ResultSoundness | batterySystem/s800serialDAO.c:105-133 | byte by byte: the result decodes the second and third byte of the last reply if that is usable and is -1 if not; a resistance query never returns -2; every frame is cell number, command, XOR, the command being 0x22 after the first "-2" |
| RetryMachine.QuerySentAtMostTwice | batterySystem/s800serialDAO.c:120-124 | the original command goes out at most twice, the second time only after a bad reply |
| SerialPort.ChunkingIsIrrelevant | batterySystem/s800serialDAO.c:209-221 | two lines with the same bytes, chunked and spread over the polls in any two ways, give the same reply and leave the same bytes unread iff equally many, up to four, arrive in time |
| SerialPort.BytesConserved | batterySystem/s800serialDAO.c:199-221 | over any conversation the replies are, in order, exactly the bytes that left the line |
| SerialPort.ReplyIs | batterySystem/s800serialDAO.c:209-221 | a reply is the first four bytes, or all there are, of what lies in the line and what the 25 polls deliver |
| SerialPort.RestIs | batterySystem/s800serialDAO.c:209-221 | what is left starts behind the fourth byte, at the first poll by which four have arrived |
| SerialPort.FirstAnswerIsResult | batterySystem/s800serialDAO.c:82-133 | from the wire to the result: a first reply with a correct XOR makes the query send one frame and return the reading its data bytes encode |
| SerialPort.StuckForEver | batterySystem/s800serialDAO.c:120-124 | a resistance query of a cell that answers "-2" to every frame never ends |
| SerialPort.NoBoundOnExchanges | batterySystem/s800serialDAO.c:120-124 | for every m > 0, a query of a cell that answers "-2" m times and then falls silent takes exactly m + 1 exchanges |
| SerialPort.Port.Receive | batterySystem/s800serialDAO.c:201-232 | the polling loop stores the first (up to four) bytes of its window in order, stops at the first poll by which four have arrived, and leaves every further byte in place |
| SerialPort.Port.SendAndRecv | batterySystem/s800serialDAO.c:196-233 | the frame goes out once and the reply is the window's |
| SerialPort.Port.Flush | batterySystem/s800serialDAO.c:77-79 | input is dropped up to the first read that finds nothing; whatever arrives after that read is kept, chunk by chunk |
| SerialPort.QuietIs | batterySystem/s800serialDAO.c:77-79 | every read of the discarding loop but the last finds a byte, the last finds none, and the chunks after it are kept |
| SerialPort.Port.RetryLoop | batterySystem/s800serialDAO.c:105-133 | on a line that falls silent in the end, the loop carries out a sound query; the k-th reply is the one its own window yields on the line as the exchanges before left it |
| SerialPort.Port.SendTextCommand | batterySystem/s800serialDAO.c:72-134 | exactly one sound query is recorded, or none with result -1 for an unsupported command |
| SerialPort.Port.SendControlCommand | batterySystem/s800serialDAO.c:142-187 | at most two frames; 0 iff the last reply acknowledges; stops at the first acknowledgement |
| SerialPort.ControlByBytes | batterySystem/s800serialDAO.c:151-186 | byte by byte: frames of cell number, command, XOR; a second one iff the first was not acknowledged; 0 iff the last reply repeats the command with a zero |
| SerialPort.Port.SendTextCurrent | batterySystem/s800serialDAO.c:19-63 | a second attempt iff the first gives no positive voltage; the result is that of the last reply |
| CurrentSensor.Sample | batterySystem/dis01thread.c:30-31 | the frame aa bb cc, sent again iff the first reply is unusable or zero; the current follows from the two data bytes of the last reply, high byte first |
| CurrentSensor.FailureIsRecognisable | batterySystem/dis01thread.c:30-31 | a failed reading is stored as -140 A and nothing else is |
| Balancer.SweepVoltages | batterySystem/bs01thread.c:17-38 | one voltage query per cell in order; clamped readings and the running minimum |
| Balancer.ControlVoltage | batterySystem/bs01thread.c:10-55 | then exactly one order per cell in order, to discharge iff the reading exceeds the running minimum by more than 0.03 V |
| Balancer.PassOnWire | batterySystem/bs01thread.c:17-48 | on the wire: the i-th query carries number i and command 0x60, the i-th order number i and 01 or 00; with cell 1 working, 01 iff the cell reads more than 0.03 V above some working cell |
| Balancer.RunningMinIs | batterySystem/bs01thread.c:22-37 | the running minimum is the least positive reading if cell 1 reads positive, and otherwise cell 1's reading |
| Balancer.SelectMini | batterySystem/s800serialDAO.c:266-272 | returns an element no other undercuts |
| Balancer.RunningMinIsMinimum | batterySystem/s800serialDAO.c:266-272 | with all readings positive the running minimum is the plain minimum |
| Balancer.DecisionRule | batterySystem/bs01thread.c:40-48 | with cell 1 positive: discharged iff more than 0.03 V above some working cell; never the lowest or a failed cell |
| Balancer.FailedCellsSafeIff | batterySystem/bs01thread.c:34-41 | no failed cell is discharged iff cell 1 did not answer with an error code |
| Balancer.ErrorInCellOneDischargesAll | batterySystem/bs01thread.c:34-41 | an error code from cell 1 orders every cell to discharge |
| Balancer.OrdersAreIntendedIff | batterySystem/bs01thread.c:34-48 | the orders are the intended ones iff cell 1 reads positive, or zero with no cell in the band that the wrong minimum misjudges |
| Checkpoint.AtoiOfDigits | batterySystem/bs01thread.c:97-108 | parsing a printed number returns it, saturated at the 32-bit limit |
| Checkpoint.AtofOfFixed2 | batterySystem/bs01thread.c:112-112 | parsing a two-decimal rendering returns the hundredths |
| Checkpoint.RoundTrip | batterySystem/bs01thread.c:94-115 | parsing a header and any number of fields returns the three numbers, the count and every value |
| Checkpoint.ParseStopsAtEmpty | batterySystem/bs01thread.c:110-113 | fields end at the first empty token, whatever follows |
| Checkpoint.SampleFile | batterySystem/bs01thread.c:142-169 | the text of a file, character by character |
| Checkpoint.CheckpointFits | batterySystem/bs01thread.c:89-90 | sixty cells of possible readings stay below the 1024-byte buffer |
| Patrol.RenderingIsStable | batterySystem/bs01thread.c:169-169 | a field is the nearest hundredth, and printing a parsed field changes nothing |
| Patrol.CheckpointFaithful | batterySystem/bs01thread.c:85-170 | after any patrols, crashes and restarts each field on file is the rendering of its cell's most recent result, and the file parses back exactly |
| PatrolCycle.PublicationIsSound | batterySystem/bs01thread.c:145-198 | at every publication: resistance was queried on all cells if due, else exactly beyond the restored count; nothing uninitialised; each resistance rounds to the latest result of its cell; the total is the sum |
| PatrolResults.PublishedIsMeasured | batterySystem/bs01thread.c:134-196 | every run up to a publication ends in one whole patrol; each published cell shows its own readings of that patrol, positive ones as they are and failures as 0, with its resistance queried iff due or beyond the restored count; deadlines are 600 s after its begin and 86400 s after its last test and its header |
| PatrolResults.FileShowsLastResults | batterySystem/bs01thread.c:156-170 | after any run with crashes each field on file lies within half a hundredth of the result carried by the last event that queried its cell |
| PatrolCycle.VoltageConserved | batterySystem/bs01thread.c:136-191 | the last published total is always the sum of the last published voltages |
| PatrolCycle.ResumesAtOnce | batterySystem/bs01thread.c:110-134 | after a crash with k < n fields, same total and unexpired deadline, the only possible next step is a patrol |
| PatrolCycle.ResumeCorrect | batterySystem/bs01thread.c:110-168 | that patrol queries exactly cells k+1..n for resistance and publishes the restored values of 1..k |
| Schedule.PatrolRateBound | batterySystem/bs01thread.c:134-221 | in any window of T seconds, by loop time or by the clock at which patrols begin, at most T/600 + T/86400 + 2 patrols, never two short gaps in a row, balancing passes a minute apart |
| DailyTest.TestsADayApartIff | batterySystem/bs01thread.c:156-167 | the patrols that send resistance queries stay a day apart in every run of a process iff start-up restored at least `total` fields |
| DailyTest.AllOrNothingIff | batterySystem/bs01thread.c:156-168 | in every run of a process each patrol tests all cells or none iff start-up found no field or at least `total` |
| DailyTest.RestoredNeverTestedAgain | batterySystem/bs01thread.c:122-167 | a process that restored some cells and not others never tests the restored ones again after its first publication, or from its start if that lies before the deadline, as long as each turn of its loop takes less than a day minus ten minutes |
| OnceADay.RetestAfterRestartIff | batterySystem/bs01thread.c:122-125 | restored cells are tested again at once iff there is no header, the total changed or the stored deadline passed |
| OnceADay.PatrolAfterRestartIff | batterySystem/bs01thread.c:118-134 | a restart waits iff the file is complete, the total unchanged and both stored deadlines lie ahead |
| OnceADay.PromptAfterRestartIff | batterySystem/bs01thread.c:122-142 | after a restart a cell on file is due at once or within a day of its last test iff it is not taken over, before the stored deadline, from a file whose patrol had taken it over itself ("only if": with a clock that moves every turn) |
| OnceADay.OnceADayIff | batterySystem/bs01thread.c:118-168 | over whole runs with crashes: the deadline in force is at every turn of the loop within a day of each cell's last round of tests, or the patrol due now tests it, iff no restart is on borrowed time and no process with 0 < restored < total completes a patrol that was not due ("only if": with a clock that moves every turn) |
| OnceADay.DayOldCellIsTested | batterySystem/bs01thread.c:134-168 | in such runs a cell whose last round is a day old, or that was never tested, makes a patrol due, and that patrol tests it before publishing |
| OnceADay.OnceADayFails | batterySystem/bs01thread.c:142-142 | for every m there is a run over m days with m restarts and as many completed patrols without one resistance test |
| PatrolThread.PatrolThread.ParseInto | batterySystem/bs01thread.c:109-113 | the token loop stores exactly the parsed fields and leaves the other slots unwritten |
| PatrolThread.PatrolThread.Boot | batterySystem/bs01thread.c:67-125 | start-up performs the machine's restart step |
| PatrolThread.PatrolThread.MeasureCell | batterySystem/bs01thread.c:146-168 | one test step; stores and adds up the reading it got, and asks for the resistance iff due |
| PatrolThread.PatrolThread.Patrol | batterySystem/bs01thread.c:134-198 | performs truncate, header, then test, append and finish of each cell in order, then publish, with exactly the queries those events record, and publishes the readings of those events |
| PatrolThread.PatrolOnWire | batterySystem/bs01thread.c:145-188 | on the wire: under its own number each cell is asked with 0x60, with 0x62 if due, with 0x61 and 0x70, and nothing else is sent; the results are what the last replies encode |
| PatrolThread.PatrolThread.BalanceOrRest | batterySystem/bs01thread.c:215-221 | performs one tick, with a whole balancing pass on the line iff its deadline passed |
| PatrolThread.PatrolThread.Turn | batterySystem/bs01thread.c:128-223 | one turn of the loop is a patrol if due, then one tick; the line sees exactly the queries of the patrol, then the queries and orders of the pass, if any |
| SharedSafety.SnapshotConsistent | batterySystem/networkCommunication.c:44-72 | under every interleaving an answer equals the struct between two critical sections: one published pack, one stored sweep, one stored sample, each as the event that made it ready brought it |
| SharedSafety.AnswersInOrder | batterySystem/networkCommunication.c:44-72 | successive answers never go back in publication, sweep or sample; the voltages are those the publication came with or of a balancing pass before the next publication |
| SharedSafety.AnswersAreCells | batterySystem/networkCommunication.c:43-72 | an answer is what its message asks for: the whole struct, the current, or voltage, temperature, resistance and capacity of the cell it names |
| SharedSafety.CurrentNeverLost | batterySystem/bs01thread.c:194-198 | at every moment the current in memory is the last one the current thread stored |
| SharedSafety.DatabaseReadCoherent | batterySystem/bs01thread.c:198-207 | the unlocked database write reads exactly the pack just published; only the current may be newer |
| SharedSafety.DatabaseReadsMemory | batterySystem/bs01thread.c:207-207 | each word the database write sees is the one the struct holds at that moment |
| SharedSafety.MutualExclusion | batterySystem/networkCommunication.c:45-47 | no two threads are in their critical sections together |
| SharedSafety.NoDeadlock | batterySystem/networkCommunication.c:45-70 | in every reachable state the holder of the lock can go on, a free lock can be taken by any waiting thread, and nothing else holds a thread up |
| SharedSafety.TotalIsThePatrols | batterySystem/bs01thread.c:49-53 | the total stays the sum of the last publication while balancing rewrites voltages, in memory and in every answer |
| Publication.PublishedPackBalanced | batterySystem/bs01thread.c:191-196 | every published pack has a total word equal to the sum of its non-negative voltage words |
| Publication.AnswersShowPatrols | batterySystem/bs01thread.c:136-198 | a patrol run and any interleaving that publishes its packs: each answer shows the temperatures, resistances, capacities and date of one publication of that run and the total of its voltages, or precedes the first |
| Network.CmdNetwork | batterySystem/networkCommunication.c:36-82 | one answer per message until the peer closes, each the right one by the bytes of its own message alone |

## Left out

- Database access (`manageData.c`) beyond the fact that the write reads the shared struct without a lock.
- Opening and configuring the line, log redirection, sockets, thread start-up.
- `serialToPC.c`, `s800bmSemaphore.c`, `mainoftest.c`, `maintest.c`, `temptest.c`: not part of the daemon.
- Floating-point rounding: thousandths and hundredths are exact. `%.2f` of a value ending in 5 thousandths is
  rounded up here, and a reading exactly 0.03 V above the minimum counts as not above it.
- Number parsing covers the text the printer produces: no signs, blanks or exponents.
- A file that cannot be opened is treated like an empty one.
- Delays: sleeping is the passage of polls or of clock time.
- `MaxValue` in the balancing pass and `selectMax`: computed or defined, never used.
- Slots beyond the number of cells: never initialised by the daemon, so nothing is claimed about them.
- `SharedPack` and `SharedSafety` describe the threads as interleaved steps on values, since Dafny methods run
  one at a time; the sequential code of the same threads is in `PatrolThread`, `Balancer`, `CurrentSensor` and
  `Network`.
- SerialPort.Port.RetryLoop: ends here because the modelled line falls silent in the end; for a device that
  never does, RetryMachine.QueryEndsIff states exactly when the loop ends.
- SerialPort.Port.Flush: likewise ends because some read finds nothing.
- SerialPort.Port.SendAndRecv: the six-second and 40 ms waits are not distinguished.
