# apcupsd: a verified model of its state machines and algorithms

This project models the parts of apcupsd whose behaviour spans many calls, and proves what each of
them is for: the UPS event state machine over every run, the two-thread shutdown handshake, GNU
getopt's argv permutation, streaming MD5, IPv6 address expansion, the HID report-descriptor parser
and its bit fields, NIS framing and the event list end to end, the linked list and its map, and
EEPROM cycling.

Code that changes state is a class or a method with the fields and branches of the C code; its
contract ties the new state to a function of the old one (a `...Reference` module) or states outright
what it computes. What that function means is then proved as lemmas over all inputs or all runs.

| file | what it holds |
|---|---|
| `GetoptReference`, `Getopt`, `GetoptTheorems`, `GetoptPrefix` | a command line read once from left to right; the resumable scanner that permutes argv; what the permutation is, when scanning it again is harmless, and when a mode prefix is |
| `StatusBits` | the 32-bit status word as a set of flags |
| `UpsReference`, `UpsMonitor` | one pass as a function of state and input; `do_action` on the C fields, proved equal to it |
| `UpsEvents`, `UpsPass`, `UpsHistory`, `UpsLimits`, `UpsAccounting` | what each step keeps, the law of a pass, safety and promptness over runs, the debounced limits, the on-battery accounts |
| `Handshake` | the two flags of the shutdown handshake, one shared access at a time |
| `Md5Reference`, `Md5`, `Md5Stream` | RFC 1321 as written; the unrolled rounds; messages in pieces |
| `HidReference`, `HidParse`, `HidLayout`, `HidTheorems`, `HidCollections`, `HidBits` | descriptors item by item; the resumable parser; a direct reading of section 6.2.2 of the USB HID 1.11 class definition; tiling, sizes, Push and Pop; what becomes of collections; bit fields |
| `NisFraming`, `NisEvents` | framing over a stream that transfers what a schedule says; events file to client buffer |
| `AList`, `AMap`, `SmartEeprom` | the containers and the EEPROM search |
| `InetPton`, `InetGrammar` | address parsing, and exactly which texts it accepts |

Premises of the state machine: once started, with whatever local flags of its own (the network driver
sets the slave flag), the driver leaves the local status bits alone (include/defines.h:97),
and `Status` does not change in the middle of a pass, because `PrevStatus` is copied only at its end.
Times are unbounded integers. A pass takes its four clock readings, the charge, the runtime and the
driver's self-test answer as inputs; what it does to the outside is an event log.

## Where the code and its documentation differ

The model follows the code. Each of these is a theorem below.

- The option string's `+` or `-` prefix is dropped on the first call of a scan only, so from the
  second call on the prefix character is itself a valid option (`PrefixMisread`). `PrefixExactly` says
  when that changes nothing.
- Scanning the permuted argv again gives the same results unless the last option lacked its argument
  and there are operands (`RescanningPartition`, `RescanDiffers`).
- `::` in a full IPv6 address is documented as silently ignored; the code zeroes every byte after it,
  which is harmless exactly when they are zero (`DoubleColonInFullAddress`). A stray colon at the end is accepted (`TrailingColonIff`).
- `select` interrupted inside `read_nbytes`, other than right after an interrupted `recv`, leaves the
  loop with the count of an earlier `recv`. Before the first byte that count is 0, and the answer
  announces the end of the stream; later more is claimed than was read. `TruthfulIff` says when the
  answer is right, and `RightMessageIff` when that of `net_recv` is.
- `md5_append` adds the offset in the block and the length of the piece as ints; its copy stays inside
  the block buffer if and only if the sum is an int (`CopyFits`).
- A variable field with report count zero leaves a report count of one (`CountRestored`,
  `ZeroCountReported`). An End Collection that finds a collection kept back reports that one and is
  itself swallowed (`EmptyCollection`, `CollectionsPairIff`).
- A stretch on battery that begins as a calibration is counted when it ends but not when it begins: it
  is recorded from an earlier beginning, or not at all (`CalibrationOvercounts`,
  `CalibrationUndercounts`). Nor is an edge counted at a pass cut short by a remote shutdown.
  `TimeAlwaysRightIff` says when the total is right, in any run on an advancing clock.
- The charge and runtime limits are debounced for 5 seconds, but only passes that reach them restart
  the timer; returning mains power does not (`StaleTimer`). `StartedInOutageIff` says when a timer
  belongs to the outage it acts in, and `LimitIsSoundInOutage` when 5 seconds of the outage itself lie
  behind the command.
- `device_thread_stopped` starts out true, so a signal during start-up passes the wait while the
  device is still being opened (`StartupRace`).

## Model

| member | source | states |
|---|---|---|
| Getopt.Scanner.Exchange | src/lib/getopt.c:226-279 | exchange terminates and rotates: the two segments change places, everything else stays, and first/last_nonopt bound the moved non-options, for any segment lengths |
| Getopt.ExchangeShortBottom | src/lib/getopt.c:241-256 | swapping the short bottom segment with the far end leaves a smaller exchange with the same result |
| Getopt.ExchangeShortTop | src/lib/getopt.c:257-272 | likewise for a short top segment |
| Getopt.FindLong | src/lib/getopt.c:485-507 | the table search returns the documented match: the first exact name, else a unique abbreviation, else ambiguous or none |
| GetoptReference.MatchIsUnique | src/lib/getopt.c:485-571 | at most one answer fits the documented rule for long-option names |
| Getopt.Scanner.Initialize | src/lib/getopt.c:283-314 | the ordering the prefix and POSIXLY_CORRECT select, and a scan that starts at element 1 |
| Getopt.Scanner.Gather | src/lib/getopt.c:388-405 | moving scanned options before skipped operands, and skipping more operands, keeps the half-built partition and loses no result still to come |
| Getopt.Scanner.FinishAtDashes | src/lib/getopt.c:412-435 | at "--" the scan ends with argv partitioned, "--" last of the options and everything after it an operand |
| Getopt.Scanner.FinishAtEnd | src/lib/getopt.c:428-435 | at the end of the line argv is partitioned and optind is the first operand |
| Getopt.Scanner.Advance | src/lib/getopt.c:384-453 | moving on finds the end, an operand or an option exactly as the left-to-right reading of the original line does |
| Getopt.Scanner.DecodeOption | src/lib/getopt.c:470-669 | one option of any kind gives the result, argument, longind, optopt and consumed elements of the reference decoding, in the permuted argv |
| Getopt.Scanner.DecodeShortOption | src/lib/getopt.c:599-669 | the same for short options, alone or in a cluster |
| Getopt.Scanner.Next | src/lib/getopt.c:372-670 | every call returns the next result of reading the ORIGINAL line, keeps the scan state, and makes progress; the call that returns EOF leaves argv and optind as documented, for all three orderings |
| Getopt.Scanner.ScanAll | src/lib/getopt.c:372-670 | calling until EOF terminates for every option string, returns exactly the left-to-right results, and in PERMUTE mode leaves argv partitioned with optind at the first operand |
| GetoptReference.ParseHead | src/lib/getopt.c:372-670 | the stream of results is the first one and the stream from where it leaves off |
| GetoptTheorems.StablePartition | src/lib/getopt.c:388-435 | the two halves argv is left in are cut out of the original line by one set of marks, each in its original order |
| GetoptTheorems.PartitionIsPermutation | src/lib/getopt.c:217-279 | the resulting argv is a permutation of the original |
| GetoptTheorems.RescanFrom | src/lib/getopt.c:372-670 | at any point of a scan: re-reading the permuted rest agrees with the original iff no option is left dangling before an operand |
| GetoptTheorems.RescanningPartition | src/lib/getopt.c:372-670 | the permuted argv means what the original meant if and only if it is not the case that the last option lacked its argument and there are operands |
| GetoptTheorems.RescanDiffers | src/lib/getopt.c:636-664 | a concrete line that is read differently once it has been permuted |
| GetoptPrefix.StreamWithoutPrefix | src/lib/getopt.c:378-382 | with no prefix all calls read one option string, so the scan is the documented one |
| GetoptPrefix.MisreadStep | src/lib/getopt.c:470-669 | an option decoded by the prefixed string gives the very step of the plain one, or another event, and which of the two is told by the characters of the strings |
| GetoptPrefix.PlainMisread | src/lib/getopt.c:599-669 | for a prefix not listed again, no ':' after it and no long-only options, exactly the prefix characters met as short options are misread |
| GetoptPrefix.ParseWithPrefix | src/lib/getopt.c:372-670 | from any position on, both strings read the line alike if and only if no option is misread |
| GetoptPrefix.PrefixExactly | src/lib/getopt.c:296-313 | for every prefixed option string and line: the scan is the documented one, by the string without its prefix, if and only if no option after the first result is misread; then it also stops at the same place |
| GetoptPrefix.PrefixHarmless | src/lib/getopt.c:296-313 | in particular for lines that do not use the prefix character |
| GetoptPrefix.PrefixMisread | src/lib/getopt.c:378-382 | a concrete line on which it is not: the later calls still see the prefix |
| StatusBits.SetAndClear | include/struct.h:144-199 | the setter and clearer patterns add and remove exactly one flag of the word |
| StatusBits.ChangedFlag | include/struct.h:223-226 | the xor-and-mask change detector says exactly whether one flag differs |
| StatusBits.OnlineOffline | include/struct.h:151-177 | set_online and clear_online keep the two supply flags opposite |
| StatusBits.DriverUpdate | include/defines.h:97-99 | a driver that keeps the local bits leaves every local flag and decides every other |
| UpsMonitor.UpsInfo.constructor | src/lib/newups.c:43-62 | a zeroed structure with the battery present, plus the flags the driver sets at its start: the state every run begins in |
| UpsMonitor.UpsInfo.GenerateEvent | src/action.c:85-131 | an event logs and runs its command, and the six causes bring the system down |
| UpsMonitor.UpsInfo.StartShutdown | src/action.c:201-237 | do_shutdown's effects in order, once only |
| UpsMonitor.UpsInfo.GetState | src/action.c:253-276 | the kind of pass, read off the status word and its predecessor |
| UpsMonitor.UpsInfo.CheckReplaceBattery | src/action.c:374-395 | when the complaint is made and when the flag is silenced |
| UpsMonitor.UpsInfo.HandlePowerFailure | src/action.c:440-460 | a power failure is announced as outage or self test, timed and counted |
| UpsMonitor.UpsInfo.HandleOnBattery | src/action.c:474-599 | the whole on-battery cascade: announcement, kill delay, maximum time, three debounced limits, dead battery, log-off and login policy |
| UpsMonitor.UpsInfo.HandleMainsBack | src/action.c:601-638 | the end of an outage or self test is announced, logins reopened and the interval added |
| UpsMonitor.UpsInfo.DoAction | src/action.c:348-663 | a pass over the 32-bit fields is the reference pass over flags |
| UpsMonitor.Monitor | src/device.c:234-286 | any sequence of passes reaches the state the reference run reaches, so every theorem about runs is about the C fields |
| UpsEvents.GenerateRuns | src/action.c:85-131 | an event runs its own command once and the shutdown command exactly when it is the one that brings the system down |
| UpsEvents.GenerateFrame | src/action.c:85-237 | an event changes nothing else, unless it brings the system down |
| UpsEvents.StayOnBatteryKeeps | src/action.c:474-599 | the on-battery step keeps the books and the accounts; CMDFAILING needs the expired timer, and the expired timer leaves the system down or just announced |
| UpsPass.RemotePassLaw | src/action.c:397-405 | a remote-shutdown pass: brings the system down on its edge, touches no account |
| UpsPass.LocalPassLaw | src/action.c:407-660 | any other pass: which accounts move, when the low-battery timer starts, when CMDFAILING runs, when the system may and must go down, all from the driver's flags |
| UpsHistory.AnnouncementsAndShutdown | src/action.c:85-237 | over every run CMDONBATTERY minus CMDOFFBATTERY equals the onbatt_msg bit; the shutdown command has run once if the shutdown bit is set and never otherwise; the bit is set iff one of the six causes was announced |
| UpsHistory.ShutdownIsFinal | src/action.c:201-207 | a shutdown once begun is never taken back, in any run |
| UpsHistory.NoShutdownOnMains | src/action.c:431-599 | a system that went down saw a remote request or two passes on battery in a row |
| UpsHistory.TimerAlwaysRight | src/action.c:415-429 | over every run the low-battery timer shows when the current unbroken stretch of low-battery reports began |
| UpsHistory.FailingIsSound | src/action.c:532-538 | CMDFAILING runs only if every pass of at least the last 5 seconds reported a low battery |
| UpsHistory.LowBatteryShutsDown | src/action.c:397-538 | once the battery has been low for 5 seconds any two consecutive on-battery passes without calibration leave the shutdown bit set, whatever the self test, delays, limits and remote requests |
| UpsAccounting.Counters | src/action.c:440-638 | over every run without remote shutdown num_xfers is the number of outages begun outside calibration, and the return events are the ends |
| UpsAccounting.EdgesAlternate | src/action.c:253-276 | beginnings and endings of stretches on battery alternate |
| UpsAccounting.FailuresMatchReturns | src/action.c:431-638 | failure and mains-back passes pair up, up to the outage in progress, if and only if no stretch began as a calibration |
| UpsAccounting.TimeOnBattery | src/action.c:628-637 | cum_time_on_batt is exactly the sum of the completed intervals, and with the open one never above the time since the first pass |
| UpsAccounting.StretchesCoverGaps | src/action.c:628-637 | completed intervals and the open one together are exactly the gaps between passes that began on battery |
| UpsAccounting.TimeNeverShrinks | src/action.c:628-637 | the accumulated time never decreases along a run |
| UpsAccounting.BookedExactly | src/action.c:397-405 | in every run, remote shutdowns and calibrations included, cum_time_on_batt and last_onbatt_time are what the flags and the clock alone say |
| UpsAccounting.EachStretch | src/action.c:628-637 | in every run, what is added when a stretch ends: its length, unless its first pass was calibrating or cut short by a remote shutdown; then the time since the beginning recorded before it, or nothing; and nothing if its end is cut short |
| UpsAccounting.StretchExactIff | src/action.c:628-637 | on an advancing clock, remote shutdowns or not, a stretch is recorded exactly if and only if it did not begin as a calibration and neither its first pass nor the one that ends it was cut short by a remote shutdown |
| UpsAccounting.TimeAlwaysRightIff | src/action.c:397-637 | the accumulated time is right after every pass of a run if and only if that holds of every stretch that has ended |
| UpsAccounting.CalibrationOvercounts | src/action.c:258-276 | a run of 30 seconds that records 40 |
| UpsAccounting.CalibrationUndercounts | src/action.c:258-276 | a stretch of 10 seconds that records none |
| UpsLimits.ExaminedLaw | src/action.c:504-546 | a pass that looks at charge and runtime sets, keeps or clears each flag and timer by the reading alone, runs a limit's command only when it is due, and goes down when it is |
| UpsLimits.NotExaminedLaw | src/action.c:432-502 | every other pass leaves both limits' flags and timers alone and runs neither command |
| UpsLimits.LimitTimerAlwaysRight | src/action.c:508-530 | over every run a set flag means every pass that looked since the timer was started found the reading below the limit |
| UpsLimits.LimitIsSound | src/action.c:532-546 | CMDLOADLIMIT and CMDRUNLIMIT run only if every pass that looked at the reading over at least the last 5 seconds found it below the limit |
| UpsLimits.LimitShutsDown | src/action.c:532-546 | and conversely, after 5 seconds of such readings a pass that looks leaves the shutdown bit set |
| UpsLimits.StaleTimer | src/action.c:432-438 | passes that do not look do not count: a run that goes down one second after the first low reading of an outage, since mains power does not clear the timer |
| UpsLimits.StartedTimer | src/action.c:508-530 | a running timer shows the pass that started it, and every pass that looked since found the reading below the limit |
| UpsLimits.StartedInOutageIff | src/action.c:508-530 | the timer in force was started in the outage that began at some pass if and only if none was running then, or a pass of the outage found the reading not below the limit |
| UpsLimits.LimitIsSoundInOutage | src/action.c:504-546 | when a limit's command runs, 5 seconds of low readings lie inside the outage if and only if no timer was carried over into it, or some pass of the outage had looked at the reading 5 seconds before |
| Handshake.InvHolds | src/apcupsd.c:70-78 | the protocol invariant in every reachable state of every interleaving |
| Handshake.NoDriverCallAfterWait | src/apcupsd.c:59-78 | if the wait was passed without timing out and the loop had been entered when the flag was first read, the loop makes no driver call from then on |
| Handshake.GuaranteeIffEntered | src/device.c:227-246 | at the step that passes the wait without timing out, the loop has been left if and only if it had been entered before |
| Handshake.StartupRace | src/device.c:227-232 | an interleaving that passes the wait while the device is being opened |
| Handshake.PollsBounded | src/apcupsd.c:71-78 | at most 300 polls, and giving up means 300 polls |
| Handshake.NoNewCycle | src/device.c:242-246 | once the request is visible no cycle of driver calls begins |
| Handshake.BoundedAfterRequest | src/device.c:234-286 | after the request the device thread makes at most seven moves before it has left the loop |
| Handshake.MainNeverWaits | src/apcupsd.c:290-292 | the main thread's own call of apcupsd_terminate never waits |
| Handshake.AwaitStopped | src/apcupsd.c:73-78 | the polling loop stops at the first test that sees the flag, or after 30000 ms |
| Md5Block.Round1 | src/lib/md5.c:199-223 | sixteen unrolled steps are sixteen operations of RFC 1321 section 3.4, for every state and block |
| Md5Block.Round2 | src/lib/md5.c:225-249 | the same for round 2 |
| Md5Block.Round3 | src/lib/md5.c:251-275 | the same for round 3 |
| Md5Block.Round4 | src/lib/md5.c:277-301 | the same for round 4 |
| Md5Block.ProcessBlock | src/lib/md5.c:131-310 | md5_process is the 64-operation loop with the RFC's functions, schedule, shifts and constants |
| Md5Reference.PaddingIsRight | src/lib/md5.c:360-377 | the padding is the least that brings the length to 56 modulo 64, and with the length a multiple of 64 |
| Md5Reference.BlocksAppend | src/lib/md5.c:351-353 | processing the blocks of a concatenation is processing one part after the other |
| Md5Stream.Md5State.Append | src/lib/md5.c:322-358 | for every piece whose length and the offset in the block add up to an int the state stays: registers folded over the full blocks, buffer the unprocessed tail, count eight times the length modulo 2^64 |
| Md5Stream.Md5State.UpdateLength | src/lib/md5.c:327-337 | two 32-bit words with a carry keep the 64-bit bit count |
| Md5Stream.Md5State.PadMessage | src/lib/md5.c:372-378 | the two appends of md5_finish add exactly the RFC's padding and length |
| Md5Stream.Md5State.Finish | src/lib/md5.c:360-381 | the digest is that of the whole message |
| Md5Stream.CopyFits | src/lib/md5.c:339-345 | the partial copy, with the int sum wrapping, stays inside the 64-byte buffer if and only if offset and length add up to an int |
| Md5Stream.DigestPieces | src/lib/md5.c:312-381 | however a message is cut into pieces md5_append can take, the digest is RFC 1321's of the whole |
| Md5Stream.CountsAdvance | src/lib/md5.c:333-337 | the carry test is right for every count and piece length |
| HidParse.HidData.GetItemRaw | src/libusbhid/parse.c:137-400 | each call returns the head of all the results the descriptor gives, and the calls to come return the rest |
| HidParse.HidData.GetItem | src/libusbhid/parse.c:112-125 | the results of other reports are skipped and none of the wanted ones is lost |
| HidParse.HidData.SpreadField | src/libusbhid/parse.c:152-179 | a variable field spread over calls returns its items one by one and then restores the item state |
| HidParse.HidData.AddRange | src/libusbhid/parse.c:244-255 | a usage range is appended as far as the usage array has room |
| HidParse.HidData.ReadItem | src/libusbhid/parse.c:185-225 | the prefix byte is split and the data assembled little-endian |
| HidParse.HidData.DoField | src/libusbhid/parse.c:230-268 | an input, output or feature item has the effect of its whole field, now or over the calls to come |
| HidParse.HidData.HandleItem | src/libusbhid/parse.c:180-399 | handling one descriptor item returns its result or passes on, keeping the results to come |
| HidTheorems.VariableFieldItem | src/libusbhid/parse.c:161-172 | a variable field of count n becomes n items side by side, the j-th taking usage min(j, nusage-1) |
| HidLayout.ResultsFollowLayout | src/libusbhid/parse.c:137-400 | the items reported for one kind lie, item for item, where a direct reading of the class definition puts them |
| HidTheorems.LayoutTiles | src/libusbhid/parse.c:169-170 | between two Report ID items the fields tile the report: each begins where the one before ends, the first at bit 0 |
| HidTheorems.SlotEndsAtSum | src/libusbhid/parse.c:169-170 | each field ends at the sum of report_size times report_count over all fields so far |
| HidTheorems.ResultsTile | src/libusbhid/parse.c:152-268 | what the parser returns for one kind tiles the report: each item lies right behind the one before, or at bit 0 after a Report ID, and ends at the sum of the sizes since then |
| HidCollections.InterpretItems | src/libusbhid/parse.c:180-399 | the results of a descriptor are those of its sequence of items |
| HidCollections.KeptBackStep | src/libusbhid/parse.c:272-303 | when a collection is kept back after an item |
| HidCollections.CollectionsConserved | src/libusbhid/parse.c:272-303 | every opened collection is reported once, sooner or later; End Collections are reported but for those that find one kept back |
| HidCollections.CollectionsPairIff | src/libusbhid/parse.c:272-303 | for a descriptor that ends what it opens, as many collections as End Collections are reported if and only if none was swallowed |
| HidCollections.EmptyCollection | src/libusbhid/parse.c:293-300 | a collection with nothing in it is reported and its end is not |
| HidCollections.ZeroCountReported | src/libusbhid/parse.c:240-256 | a field of report count zero declared twice is reported the second time |
| HidTheorems.CountRestored | src/libusbhid/parse.c:241-243 | a field leaves the report count as it was if and only if it is not a wanted variable field of count zero |
| HidTheorems.ReportSize | src/libusbhid/parse.c:402-418 | hid_report_size terminates with the end of the report's last field in whole bytes |
| HidTheorems.ReportSizeIsTotal | src/libusbhid/parse.c:402-418 | for a report whose fields are contiguous that is the total of its field sizes, rounded up to bytes |
| HidTheorems.NestedKeepsStack | src/libusbhid/parse.c:342-351 | any properly nested run of items leaves the stack of saved item states as it was |
| HidTheorems.PushPopRestores | src/libusbhid/parse.c:342-351 | Push, anything properly nested, Pop: the item state is that of the matching Push |
| HidBits.GetData | src/libusbhid/data.c:33-61 | bit k of the answer is bit pos+k of the buffer, with the sign bit above if negatives are allowed |
| HidBits.SetData | src/libusbhid/data.c:63-91 | exactly the field's bits change, to the value's low bits |
| HidBits.RoundTrip | src/libusbhid/data.c:33-91 | reading after writing gives the value modulo 2^size, as a two's complement number if negatives are allowed |
| HidBits.WriteApart | src/libusbhid/data.c:33-91 | writing one field leaves what is read from any disjoint field as it was |
| HidBits.LowBitsAreRemainder | src/libusbhid/data.c:54-59 | keeping the low n bits of a two's complement int is its remainder modulo 2^n |
| HidBits.FieldValue | src/libusbhid/data.c:53-60 | a word holding a field's bits, sign-extended, has the reduced value |
| NisFraming.Sender.WriteBytes | src/lib/apclibnis.c:103-125 | short sends and retries put exactly a prefix on the wire, the whole when it succeeds |
| NisFraming.Sender.NetSend | src/lib/apclibnis.c:171-192 | success means one frame, length first, is on the wire |
| NisFraming.Receiver.Receive | src/lib/apclibnis.c:65-85 | the inner loop: what recv left, an error, or the stale count of an interrupted select, all determined by the schedule and the stream |
| NisFraming.Receiver.ReadBytes | src/lib/apclibnis.c:55-97 | the answer, the bytes consumed and whether a stale count was used are determined by the schedule and the stream; a right answer comes with the bytes; an interruption before the first byte is announced as the end of the stream |
| NisFraming.StaleIff | src/lib/apclibnis.c:65-93 | a stale count is used exactly when select is interrupted other than after an interrupted recv |
| NisFraming.ClaimRightIff | src/lib/apclibnis.c:55-97 | a positive answer is never less than was consumed; it is what was consumed, and all that was wanted, if and only if that does not happen |
| NisFraming.LaterEnd | src/lib/apclibnis.c:87-97 | from the second round on the end of the stream is announced only where it is |
| NisFraming.TruthfulIff | src/lib/apclibnis.c:55-97 | the answer of read_nbytes is right, a count consumed or the true end of the stream, if and only if the first select is not interrupted (unless nothing was left) and, when a count is answered, no later one at a wrong moment; interrupted at first it announces the end and consumes nothing |
| NisFraming.RightMessageIff | src/lib/apclibnis.c:136-162 | for any schedule net_recv's answer is right, one whole frame, the empty frame or the true end of the stream, if and only if select is undisturbed before the length, before the message and within it |
| NisFraming.ClaimsTooMuch | src/lib/apclibnis.c:73-85 | a schedule on which two bytes are claimed and one was read, and one on which the interruption does no harm |
| NisFraming.Receiver.NetRecv | src/lib/apclibnis.c:136-162 | for any schedule the answer and the bytes consumed are told by schedule and stream, and a right message is in the buffer; on a smooth one a frame is consumed and returned, empty ones and those longer than the buffer told apart |
| NisFraming.FrameHead | src/lib/apclibnis.c:136-192 | a frame followed by anything decodes to its message and the rest |
| NisFraming.NextMessage | src/lib/apclibnis.c:136-192 | a stream of frames starts with its first message and goes on with the others |
| NisFraming.ReceiveAll | src/lib/apclibnis.c:136-162 | receiving up to the empty frame returns the messages in order and consumes exactly their bytes |
| NisFraming.Exchange | src/lib/apclibnis.c:55-192 | any messages, any schedule of short and retried transfers: what arrives is what was sent, in order, and nothing more is consumed |
| NisEvents.RecordsJoin | src/lib/apcevents.c:134-140 | the records are the file cut up, nothing more or less |
| NisEvents.FillRing | src/lib/apcevents.c:134-140 | the ring holds the last 50 records, each in the slot of its number |
| NisEvents.RingHolds | src/lib/apcevents.c:142-147 | walking the ring from the chosen slot meets the last records oldest first |
| NisEvents.SendRing | src/lib/apcevents.c:149-155 | those records are sent in that order |
| NisEvents.OutputEvents | src/lib/apcevents.c:120-171 | the reply is the last min(n, 50) records and one empty frame |
| NisEvents.PutInFront | src/cgi/upsfetch.c:174-186 | the overlapping in-place shift puts a message in front of the text held, cut to 4095 characters |
| NisEvents.FetchEvents | src/cgi/upsfetch.c:174-193 | after the reply the buffer holds its messages newest first, cut to 4095 characters |
| NisEvents.EventsEndToEnd | src/lib/apcevents.c:120-171 | ring, framing and client buffer together: the first 4095 characters of the last 50 records, newest first, for any file and schedule |
| AList.List.Append | include/alist.h:84-94 | a new node at the end, all links consistent |
| AList.List.Prepend | include/alist.h:96-106 | a new node at the front |
| AList.List.Remove | include/alist.h:177-184 | unlinking any node closes the gap in both directions and returns the next one |
| AList.List.Find | include/alist.h:186-191 | the first element that matches, or none does |
| AList.List.AppendAll | include/alist.h:108-120 | another list's elements are copied in order, and appending a list to itself does nothing |
| AList.List.ApplyAll | include/alist.h:84-184 | every sequence of append, prepend, remove and clear keeps head, tail, both links and size consistent and equals the same edits of a sequence |
| AMap.AsMapHas | include/amap.h:36-43 | with distinct keys the map has exactly the pairs of the list |
| AMap.AsMapUpdate | include/amap.h:50-54 | storing through the returned reference changes exactly one key |
| AMap.AppendKey | include/amap.h:53 | appending a new key keeps keys distinct and adds exactly that key |
| AMap.Map.Place | include/amap.h:50-54 | lookup-or-insert: the key's place, the map unchanged if it was there |
| AMap.Map.Put | include/amap.h:50-54 | assignment through operator[] is map update |
| AMap.Map.Get | include/amap.h:50-54 | reading through operator[] returns the key's value and inserts a missing key |
| AMap.Map.Contains | include/amap.h:56 | contains is membership in the map |
| SmartEeprom.ChangeItem | src/drivers/apcsmart/smarteeprom.c:323-419 | success iff the setting is reached within ten cycles before the old value comes back; success means the device holds it, failure that it holds the old value again or is ten cycles on |
| SmartEeprom.ReachesWhatTheRingHolds | src/drivers/apcsmart/smarteeprom.c:360-412 | on a ring of at most 11 values with the old value once or as one adjacent pair, the setting is reached if and only if the ring has it |
| InetPton.InetPton4 | src/lib/inet_pton.c:80-116 | dotted quads accepted exactly as the left-to-right reading has them; dst untouched otherwise |
| InetPton.ShiftToEnd | src/lib/inet_pton.c:195-208 | the overlapping shift by hand gives prefix, zeros, suffix; with all sixteen bytes written it zeroes the tail |
| InetPton.ScanText | src/lib/inet_pton.c:149-194 | the bytes read and the place of "::", for every text |
| InetPton.InetPton6 | src/lib/inet_pton.c:132-213 | accepted exactly when the reading succeeds; dst is the expanded address, or untouched |
| InetPton.FullFormRoundTrip | src/lib/inet_pton.c:132-213 | parsing the printed eight-group form gives the same bytes back |
| InetPton.CompressedForm | src/lib/inet_pton.c:132-213 | groups, "::" and groups give the bytes with zeros where "::" stands |
| InetGrammar.QuadReads | src/lib/inet_pton.c:80-116 | the character-by-character reading of a quad is the text split at its dots |
| InetGrammar.QuadAccepts | src/lib/inet_pton.c:80-116 | exactly the texts of four non-empty decimal numbers up to 255 with dots between them are accepted, with their values |
| InetGrammar.QuadRoundTrip | src/lib/inet_pton.c:80-116 | parsing a printed dotted quad gives its four bytes back |
| InetGrammar.ScanReads | src/lib/inet_pton.c:149-194 | the character-by-character reading of an IPv6 text is the text split at its colons |
| InetGrammar.AddressAccepted | src/lib/inet_pton.c:132-213 | every text of groups of any number of digits with at most one "::" and possibly a quad at the end has the value of its parts |
| InetGrammar.Parse6Accepts | src/lib/inet_pton.c:118-123 | and no other text is accepted |
| InetGrammar.DoubleColonInFullAddress | src/lib/inet_pton.c:118-130 | in any address text whose sixteen bytes are all written out, short groups and quads included, "::" clears the bytes after it, and is harmless if and only if they are zero |
| InetGrammar.TrailingColonIff | src/lib/inet_pton.c:165-194 | an accepted text keeps its meaning with a colon after it if and only if it has no quad and does not end in a colon, or ends in one and has no "::"; otherwise the colon makes it rejected |

## Left out

- MODBUS, USB, SNMP, PCNET and net drivers: a driver is an environment step that changes only non-local status bits.
- Sockets, serial ports, files, processes, syslog and sleeping are schedules, clock inputs and event logs; the texts of log messages, waiting for child processes and `device_wait_time` are not modelled.
- Windows tray and service code, CGI pages, apctest menus, configuration tables, `usage.c`, `hid_locate` and the collection stack of `HidUps::LocateItem` are not part of this model.
- Getopt.Scanner.Next: messages on stderr, writing through a long option's flag pointer, and calls after EOF are left out; a null `nextchar` and one at the terminator are one value.
- UpsMonitor.UpsInfo.StartShutdown: has no command parameter; the only caller of `do_shutdown` passes `CMDDOSHUTDOWN`, so its branch for `CMDREMOTEDOWN` is never taken.
- UpsMonitor.UpsInfo.DoAction: 64-bit time and counter overflow, the shell commands' exit and the write lock are left out.
- Md5Stream.Md5State.Append: pieces whose length and the offset add up to more than an int are excluded, since there the C code copies past its buffer; `nbytes << 3`, which C leaves undefined from 2^28 on, is taken modulo 2^32. Negative lengths, which the C code ignores, and the aligned and big-endian word loads are left out; one little-endian decoding stands for all of them.
- HidParse.HidData.GetItemRaw: long items, items cut off by the end of the descriptor, Pop without Push, a usage range that reaches 2^32-1 or starts on a full usage array, and a variable field without a usage are excluded by `WellFormed`, since there the C code reads or writes outside its memory or does not end; the chain of pushed items is a sequence, so its allocation and freeing are not captured.
- HidLayout.ResultsFollowLayout: report counts of wanted variable fields must not be zero; `CountRestored` and `ZeroCountReported` say why.
- HidTheorems.ReportSizeIsTotal: the total must fit in an int with room for rounding, and the report's fields must be one section of the descriptor, since every Report ID item restarts all positions.
- HidTheorems.ReportSize: descriptors with a reserved tag are excluded (`NoneBad`). There `hid_get_item` answers a negative number, and the C loop, which tests only for zero, goes on with whatever its item still holds.
- HidBits.GetData: fields with pos%8 + size above 31, or without the byte at (pos+size)/8 in the buffer, are excluded; there the C code shifts by 32 or more or reads past the field.
- NisFraming.Sender.NetSend: lengths above 65535 are cut to 16 bits in the header as in the C code; the theorems about whole exchanges are for messages of 1 to 65535 bytes.
- NisFraming.Receiver.NetRecv: when one of the two length bytes was claimed and never received (`LengthTorn`), nothing is promised of the call, since the C code decodes an uninitialised byte.
- NisEvents.EventsEndToEnd: files with NUL bytes and interrupted `select` calls are excluded; so are failing allocations.
- AList.List.Remove: removing at end(), and insertion in the middle, which no caller does, are left out; freed nodes are only unlinked.
- AMap.Map.Place: a new key's value, uninitialised in the C code, is a parameter.
- SmartEeprom.ChangeItem: the device answers every query and cycle correctly; buffer truncation, messages and delays are left out.
- Handshake.NoDriverCallAfterWait: is about the loop's driver calls; the main thread's own `device_close` after `do_device` returns is outside it.
