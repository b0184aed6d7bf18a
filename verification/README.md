# Time server model

A Dafny model of the time server's daemons: the NTP worker pool and its raw-socket packets, the string functions of
the HTTP server, the alarm, input-source and event-log logic of the other daemons, and the index tables they share.
Each module keeps the source's branches, constants and edge cases; what works in place on buffers, structures and
static variables is a method over arrays and class fields, proved against a specification that says what the code is
for. `dafny verify dfyconfig.toml` checks the whole project.

| Module | Subject |
|---|---|
| `WorkerPool`, `WorkerPoolProofs`, `WorkerPoolTheorems` | the pool as a system of interleaved single statements, its invariants, what it guarantees |
| `TailQueue` | the linked queue at pointer level, and the pool's two critical sections over it |
| `PathMeaning`, `PathResult`, `PathNormal` | where request paths lead, the string that normalising one gives, and the rewriting in place |
| `Match` | the backtracking wildcard matcher |
| `Base64`, `PercentCodec` | the two codecs |
| `CivilTime`, `NameTable` | seconds from a date, and the search for month and weekday names |
| `Checksum`, `Frame` | the Internet checksum, and Ethernet, IPv4 and UDP frames built and read |
| `TimestampTables`, `Timestamp` | microseconds to NTP fractions and back by tables |
| `Alarm`, `AlarmTheorems`, `AlarmTimes` | the current-alarm and upload lists |
| `EventRotation`, `EventRuns` | the event tables, by one daemon and by many interleaved |
| `Hysteresis` | the stability counters of the selected source |
| `SourceSelect`, `SourceTables` | free selection of the input source, for any tables and for the program's own |
| `IndexTable` | the alarm and event index tables |

## What the proofs brought out

- The dispatch loop reads a request before it checks the FPGA; when the check fails it leaves the loop with the
  request still allocated. Every buffer is freed exactly once if and only if that does not happen
  (`WorkerPoolTheorems.FreedExactlyOnce`, `LeakedIff`, `LeakExample`).
- Normalising a path may take its leading slash along: a ".." behind it makes the rest a relative name, and one behind
  a single relative name stays (`PathResult.UpFromSlash`, `UpFromOne`).
- `strencode` writes its NUL even when the buffer size is 0 (`PercentCodec.StrEncode`).
- The quarter-year leap count of `tm_to_time` is right from 1969 to 2100 and in some earlier years, and nowhere else
  (`CivilTime.CoveredIff`).
- A UDP checksum that comes out as 0 is sent as 0, where RFC 768 asks for 0xffff (`Frame.ZeroChecksumIff`); there is
  a two-byte payload that does it for any ports and addresses (`Frame.ZeroChecksumExample`).
- A UDP length field below 8 makes `receive_packet` copy outside its buffers, and so would one that leaves the
  packet; the model calls the outcome `Overrun` (`Frame.OverrunExample`). At its only call, with a size of 256
  (`d-ntp/dntp_server.c:528`), the first is the only way (`Frame.OnlyShortOverruns`). The source does not compare the
  length field with the number of bytes received: nothing behind those matters when the datagram ends among them, and
  otherwise what the buffer held before can be handed over (`Frame.OnlyReceivedMatters`, `StaleExample`).
- The comment in `d-ntp/dntp_tv2ts.h` promises fractions within 1.5 units. The literals keep that exactly where the
  entries of the two lower tables together are not too far off (`Timestamp.PromiseIff`): for every count below 6160,
  for none above 25060, and for neither all nor none in between; 6160 is the first to break it and 25060 the last to
  keep it (`Timestamp.PromiseRange`). The bound that all keep is 101.75 below to 0.87 above (`FractionBound`).
- A comment in `d-input/din_ctrl.c` says a change of source restarts the stability count. The count restarts exactly
  when the selection mode or the alarm changes (`Hysteresis.RestartsIff`); a source selected one tick ago is declared
  valid for the ticks of the one before it (`NewSourceValid`).
- A board that is missing from the board table is taken for the last one that was found
  (`SourceSelect.EnabledIff`, `UnknownBoardTakenForAnother`).
- With an alarm table that has every input alarm for every slot and port the selection never gives up on a look-up
  (`SourceTables.NeverGivesUp`).
- The list of current alarms drops an alarm silently when it is full, which may happen in the middle of a comparison
  (`AlarmTheorems.AgreesIff`).
- A comparison that fails half-way leaves the old vector, and its caller in `d-alarm/dalm_ctrl.c:218` repeats it. Each
  failed call enters an alarm that it raises once more, up to the whole list, and a cleared alarm stays out. After the
  next successful call the list agrees again exactly when no failed one raised an alarm, and what they cleared is
  still off (`AlarmTheorems.RetriedAgreesIff`, `RetriedShows`, `PileUp`, `DoubleEntry`).
- The ids of current alarms are unique for the first 2^32 - 1 new alarms of every run, and not for one more
  (`AlarmTheorems.IdsUnique`, `WrapRepeatsId`).
- Rows of the event tables are moved by a copy and a deletion without a transaction. Conservation holds exactly in the
  runs where no call fails between the two (`EventRuns.ConservedIff`, `HalfMovedExample`).
- An event whose write fails is never retried: its entry is marked as done before (`EventRotation.Database.WriteAll`).
- The index tables are allocated by 8-bit counts, which are too small as soon as a class has 256 ids
  (`IndexTable.AllocatedIff`).

## Model

| member | source | states |
|---|---|---|
| WorkerPoolProofs.InitInv | d-ntp/dntp_threadpool.c:268-315 | a pool of 1 to 32 workers and 1 to 2048 places starts in a state that satisfies the invariant |
| WorkerPoolProofs.InvStep | d-ntp/dntp_threadpool.c:212-255 | every statement of every thread keeps the whole invariant: lock ownership, counters, wakeups, order, ownership |
| WorkerPoolProofs.InvRun | d-ntp/dntp_threadpool.c:212-440 | so does every run of any interleaving, spurious wakeups included |
| WorkerPoolTheorems.PoolAsAsked | d-ntp/dntp_threadpool.c:268-315 | in every run from tpCreate(threads, tasks) the pool has that many workers and places, the queue is within the places, and from the end of tpCreate until bExit all workers are counted |
| WorkerPoolTheorems.RefusedIff | d-ntp/dntp_threadpool.c:340-349 | at the first test a dispatcher is refused exactly when as many tasks are queued as tpCreate was asked for |
| WorkerPoolTheorems.SizesStay | d-ntp/dntp_threadpool.c:283-308 | no run changes the number of workers, dispatchers or places |
| WorkerPoolTheorems.NoLostWakeup | d-ntp/dntp_threadpool.c:217-244 | while some worker sleeps unsignalled, there are at most as many queued tasks as workers that are awake and uncommitted, one more while a dispatcher is about to signal |
| WorkerPoolTheorems.QueuedTaskProgress | d-ntp/dntp_threadpool.c:228-250 | with a task queued some thread inside the pool can always take a step |
| WorkerPoolTheorems.DispatchBound | d-ntp/dntp_threadpool.c:219-244 | with a task queued, a run that takes none holds at most ten worker steps and wakeups for each worker |
| WorkerPoolTheorems.FifoDispatch | d-ntp/dntp_threadpool.c:339-372 | accepted tasks are the taken ones followed by the queue; the queue is within its limit; with the lock free the counters are the queue length and the number of live workers; no task is accepted, taken or run twice |
| WorkerPoolTheorems.BufferOwnership | d-ntp/dntp_server.c:1140-1167 | at every moment a received request is in exactly one place: with one thread, queued, freed or leaked |
| WorkerPoolTheorems.FreedExactlyOnce | d-ntp/dntp_server.c:1152-1166 | at rest every buffer was freed exactly once, by worker or refused caller, if and only if none was leaked; none is ever freed twice |
| WorkerPoolTheorems.LeakedIff | d-ntp/dntp_server.c:1142-1150 | a request leaks exactly in the runs where a dispatcher leaves its loop on an FPGA fault while holding one |
| WorkerPoolTheorems.LeakExample | d-ntp/dntp_server.c:1142-1150 | such a run, of two steps |
| WorkerPoolTheorems.NothingAcceptedAfterExit | d-ntp/dntp_threadpool.c:350-358 | once bExit is set no run accepts another task |
| WorkerPoolTheorems.WorkerLeavesEmptyQueue | d-ntp/dntp_threadpool.c:221-238 | a worker leaves only after bExit with the queue empty, and the queue stays empty in every later run |
| WorkerPoolTheorems.DestroyDrains | d-ntp/dntp_threadpool.c:401-440 | when tpDestroy returns no worker is left and every accepted task was taken, run once and freed |
| WorkerPoolTheorems.DrainBound | d-ntp/dntp_threadpool.c:219-250 | after bExit a run holds at most a fixed number of worker steps, by the number of workers and queued tasks |
| WorkerPoolTheorems.ShutdownProgress | d-ntp/dntp_threadpool.c:401-440 | from the call of tpDestroy until it returns some thread inside the pool can always take a step |
| WorkerPoolTheorems.WorkersProgress | d-ntp/dntp_threadpool.c:420-430 | after each broadcast, while a worker lives, that thread is not only the owner |
| TailQueue.Queue.constructor | d-ntp/dntp_queue.h:69-72 | an empty queue whose tail pointer designates the head field |
| TailQueue.Queue.InsertTail | d-ntp/dntp_queue.h:107-111 | the chain gains the element at its end and the tail pointer designates its next field; nothing but next fields changes |
| TailQueue.Queue.RemoveHead | d-ntp/dntp_queue.h:154-157 | the chain loses its first element, which is returned; the tail pointer goes back to the head field when that empties it |
| TailQueue.PoolData.constructor | d-ntp/dntp_threadpool.c:278-290 | an empty pool with the places asked for |
| TailQueue.Create | d-ntp/dntp_threadpool.c:263-290 | gives a pool exactly for 1 to 32 threads and 1 to 2048 tasks, with those places |
| TailQueue.PoolData.AddLocked | d-ntp/dntp_threadpool.c:339-372 | the locked part of tpAddTask: accepts exactly when there is room, no exit and memory, and then only appends and counts |
| TailQueue.PoolData.TakeLocked | d-ntp/dntp_threadpool.c:240-250 | the locked part of the worker loop: takes the oldest task and counts it off |
| TailQueue.SectionsAre | d-ntp/dntp_threadpool.c:240-250 | what adding and taking change, written out: the two ends of the queue and the 32-bit counter |
| TailQueue.AddRefines | d-ntp/dntp_threadpool.c:339-372 | the linked form of adding does to the pool what the statements of the step system do |
| TailQueue.TakeRefines | d-ntp/dntp_threadpool.c:240-250 | so does the linked form of taking |
| PathNormal.DeDotDot | d-http/mini_httpd.c:1487-1531 | for every string the in-place rewriting ends and leaves exactly the result that one pass over its components gives; that names the same location from the root, ends with a slash exactly if the string did, and has no "//", "/./", "/../", no leading "./" or "../", and "/.." at the end only after a single component |
| PathResult.NormalIsResult | d-http/mini_httpd.c:1487-1531 | a string in that form is its own result |
| PathResult.CutKeepsResult | d-http/mini_httpd.c:1496-1518 | cutting out components that lead back to where they start keeps the result |
| PathResult.TailResult | d-http/mini_httpd.c:1521-1530 | a last ".." goes with the name before it and the slash before that |
| PathResult.EndsAlike | d-http/mini_httpd.c:1487-1531 | a result ends with a slash exactly if the path does, starts with one only if it does, and if it has no ".." then exactly if it does |
| PathResult.SlashesStay | d-http/mini_httpd.c:1487-1531 | "x/" and "/x" stay, for every name |
| PathResult.UpFromOne | d-http/mini_httpd.c:1521-1530 | "x/.." stays |
| PathResult.UpFromRooted | d-http/mini_httpd.c:1521-1530 | "/x/.." becomes the empty string |
| PathResult.UpFromSlash | d-http/mini_httpd.c:1509-1518 | "/../x" becomes "x" |
| PathResult.UpFromTwo | d-http/mini_httpd.c:1521-1530 | "x/y/.." becomes "x" |
| PathResult.BetweenNames | d-http/mini_httpd.c:1501-1518 | "x/../y" becomes "y", and "x/./y" becomes "x/y" |
| PathMeaning.CutKeepsLocation | d-http/mini_httpd.c:1496-1518 | cutting out whole components that lead nowhere keeps the location of the path |
| PathNormal.RejectedIff | d-http/mini_httpd.c:1388-1391 | a normalised name is refused exactly when it is ".." or starts with a slash |
| PathNormal.AcceptedStaysInside | d-http/mini_httpd.c:1385-1391 | an accepted name never climbs above the root: its components have no ".." and spell its location, or it is "x/.." and is the root |
| Match.MatchOne | d-http/match.c:65-99 | the search says yes exactly when the string falls into pieces that the pattern's tokens accept, whatever run length it tries first |
| Match.MatchPattern | d-http/match.c:50-62 | yes exactly when some alternative fits |
| Match.CharLaw | d-http/match.c:72-77 | the meaning by itself: "?" takes any one character, any other but a star takes itself |
| Match.RunLaw | d-http/match.c:78-94 | "*" takes any part of the string without a slash |
| Match.AnyRunLaw | d-http/match.c:80-92 | "**" takes any part |
| Match.BarLaw | d-http/match.c:50-62 | a bar between two patterns matches what either matches |
| Match.PlainLaw | d-http/match.c:65-99 | a pattern without wildcards matches itself only |
| Base64.TableIs | d-http/mini_httpd.c:3983-4000 | the table is the alphabet of RFC 4648, section 4, and -1 elsewhere |
| Base64.AlphabetIs | d-http/mini_httpd.c:3983-4000 | the characters for 0 to 63 are the letters, digits, plus and slash of the standard, in its order |
| Base64.WholeVectors | d-http/mini_httpd.c:4007-4050 | the whole groups of the standard's test vectors |
| Base64.LastVectors | d-http/mini_httpd.c:4007-4050 | its padded ones |
| Base64.Decode | d-http/mini_httpd.c:4007-4050 | a buffer gets the bytes that the alphabet characters mean, as many as fit, and is untouched behind them |
| Base64.SameBits | d-http/mini_httpd.c:4024-4044 | the three bytes of a group are its 24 bits in order; groups left incomplete give their whole bytes |
| Base64.RoundTrip | d-http/mini_httpd.c:4007-4050 | decoding the RFC 4648 encoding of any bytes gives them back |
| Base64.DecodeEncoded | d-http/mini_httpd.c:4007-4050 | so does the program, from encoded text with foreign characters anywhere |
| Base64.NoiseIgnored | d-http/mini_httpd.c:4020-4021 | a character outside the alphabet never changes the result, wherever it stands |
| Base64.DecodedLength | d-http/mini_httpd.c:4003-4006 | n values give three bytes for each whole group and one less than is left over |
| PercentCodec.StrEncode | d-http/mini_httpd.c:1773-1795 | the buffer holds the encoding of the characters taken until fewer than five places are left, written below its size; with size 0 the NUL still is |
| PercentCodec.StrDecode | d-http/mini_httpd.c:3942-3957 | the buffer holds what the string means and a NUL, and nothing else changes, also when source and target are one buffer |
| PercentCodec.HexitIsPosition | d-http/mini_httpd.c:3959-3969 | hexit gives the position of a digit in "0123456789abcdef" and in "0123456789ABCDEF" |
| PercentCodec.XdigitIff | d-http/mini_httpd.c:3947-3949 | there are no other digits, and both cases mean the same |
| PercentCodec.AnySpelling | d-http/mini_httpd.c:3942-3957 | decoding gives back any text however it was escaped: any characters at all escaped, and digits in any mix of cases |
| PercentCodec.EncodedSpells | d-http/mini_httpd.c:1773-1795 | the encoder's text is one of those |
| PercentCodec.DecodeInPlace | d-http/mini_httpd.c:3942-3957 | decoding a string onto itself always has room, and leaves what it means |
| PercentCodec.RoundTrip | d-http/mini_httpd.c:1773-1795 | decoding an encoding gives the bytes back |
| PercentCodec.ThereAndBack | d-http/mini_httpd.c:1773-1795 | encoding and decoding in place gives a prefix of the string, and all of it exactly when five places are left before its last character |
| PercentCodec.TakesIsUnique | d-http/mini_httpd.c:1779-1793 | the rule for where encoding stops determines the place |
| PercentCodec.OnlySafe | d-http/mini_httpd.c:1781-1791 | encoded text holds letters, digits, "/", "_", ".", "-", "~" and "%" only, and a text of the others is left as it is |
| PercentCodec.HexDigit | d-http/mini_httpd.c:1789-1791 | hexit undoes the digits that the encoder prints |
| CivilTime.TmToTime | d-http/tdate_parse.c:163-188 | the seconds by the Gregorian calendar exactly in the covered years, whatever the other fields, and otherwise off by whole days |
| CivilTime.CoveredIff | d-http/tdate_parse.c:171-174 | the leap count equals the calendar's for 1969 to 2100, for 1901 to 1968 if the year is 1 modulo 4, for 1801 to 1900 if it is not, and for no other year |
| CivilTime.Uncovered | d-http/tdate_parse.c:171-174 | the years 1968 and 2101 are a day off |
| CivilTime.IsLeap | d-http/tdate_parse.c:156-160 | the conditionals are the Gregorian rule |
| CivilTime.MonthTable | d-http/tdate_parse.c:168-180 | the month table and the leap day give the days before a month |
| CivilTime.SecondsIncrease | d-http/tdate_parse.c:163-188 | earlier dates have smaller times, in every year |
| CivilTime.Compare | d-http/tdate_parse.c:163-188 | in covered years the two results are the calendar's seconds, and order exactly as the dates do |
| CivilTime.TickIsOne | d-http/tdate_parse.c:163-188 | the seconds count from the start of 1970, one for each second of the calendar |
| CivilTime.MonthLengths | d-http/tdate_parse.c:156-170 | the twelve lengths, and leap years on both sides of the centuries |
| CivilTime.KnownDate | d-http/tdate_parse.c:163-188 | 6 November 1994, 08:49:37, is second 784111777 |
| CivilTime.LeapDay | d-http/tdate_parse.c:163-188 | 29 February 2000 is second 951782400, and the day after it a day later |
| NameTable.Search | d-http/tdate_parse.c:71-94 | bisection finds a name exactly when the sorted table has it, with its value |
| NameTable.FirstDecides | d-http/tdate_parse.c:71-94 | the order of the names: the first differing character decides, and a beginning comes first |
| Checksum.ChecksumSum | d-ntp/dntp_socket.c:32-51 | the 32-bit sum of the words so far and those of the buffer, an odd last byte included |
| Checksum.ChecksumCheck | d-ntp/dntp_socket.c:53-59 | two folds give the ones'-complement residue of any 32-bit sum, and the result is its complement |
| Checksum.ChecksumOf | d-ntp/dntp_socket.c:6-28 | a buffer whose word sum fits 32 bits gets the complement of its ones'-complement sum |
| Checksum.SumIsResidue | d-ntp/dntp_socket.c:13-25 | the plain sum has the residue that end-around addition, word by word, gives |
| Checksum.Fits | d-ntp/dntp_socket.c:9-17 | every buffer of at most 131074 bytes fits |
| Checksum.TooLong | d-ntp/dntp_socket.c:9-17 | two bytes more and a carry is lost |
| Checksum.FieldVerifies | d-ntp/dntp_socket.c:336-340 | the checksum stored in the zeroed field makes the sum of the whole 0xffff, so recomputing gives 0 |
| Checksum.Chained | d-ntp/dntp_socket.c:354-356 | summing an even-length piece and then another is one checksum of both |
| Checksum.OneWordChange | d-ntp/dntp_socket.c:6-28 | a changed word is noticed unless it went from 0 to 0xffff or back |
| Checksum.AnyOrder | d-ntp/dntp_socket.c:6-28 | the bytes stored are the Internet checksum on little-endian and big-endian hosts |
| Checksum.Rfc1071Example | d-ntp/dntp_socket.c:6-28 | the example of RFC 1071, section 3, in both byte orders |
| Frame.SendPacket | d-ntp/dntp_socket.c:307-361 | sends, padded to 60 bytes with what the buffer held, a frame whose bytes are named one by one and whose two checksums verify at a receiver that sees only those bytes |
| Frame.WireFields | d-ntp/dntp_socket.c:319-352 | where every byte of a frame but its checksums comes from: version, service, lengths, identification, no fragments, 64 hops, protocol 17, addresses, port 123, payload |
| Frame.WireSums | d-ntp/dntp_socket.c:336-356 | its header sums to 0xffff, and so does its datagram behind the addresses, protocol and length that it shows |
| Frame.IpVerifies | d-ntp/dntp_socket.c:328-340 | the header checksum of a built frame verifies |
| Frame.UdpVerifies | d-ntp/dntp_socket.c:342-356 | the datagram of a built frame verifies behind its pseudo header |
| Frame.ReceivePacket | d-ntp/dntp_socket.c:207-288 | a UDP packet for our address and port 123 whose length fits gives its payload, length and sender; anything else leaves buffer and address alone |
| Frame.ForUsIff | d-ntp/dntp_socket.c:207-272 | which bytes make a packet one for us |
| Frame.OptionsSkipped | d-ntp/dntp_socket.c:216-285 | with any number of option words in the header the datagram behind them is handed over |
| Frame.BuiltIsForUs | d-ntp/dntp_socket.c:207-286 | a built frame is read as addressed to a port exactly when it was built for its IP and port 123, with the builder as sender |
| Frame.Transfer | d-ntp/dntp_socket.c:207-361 | round trip: the owner of the destination gets exactly the payload, its length and the sender, whatever the buffers held; everyone else, and a reader with too small a buffer, nothing |
| Frame.ReplyGoesBack | d-ntp/dntp_socket.c:270-343 | a frame built for the sender of a received packet carries that sender's MAC, IP and port as destination and our own as source |
| Frame.ZeroChecksumIff | d-ntp/dntp_socket.c:356-356 | the UDP checksum field is zero exactly when the covered sum is a multiple of 0xffff |
| Frame.ZeroChecksumExample | d-ntp/dntp_socket.c:356-356 | for any ports and addresses a two-byte payload makes the checksum field zero |
| Frame.OverrunExample | d-ntp/dntp_socket.c:272-285 | for any port there is a packet for it with a length field of 4 |
| Frame.OnlyShortOverruns | d-ntp/dntp_socket.c:272-285 | with the size of the only call the copy leaves its buffers exactly when the length field is below 8 |
| Frame.OnlyReceivedMatters | d-ntp/dntp_socket.c:207-285 | when the datagram ends within the bytes received, acceptance, sender and payload depend on those only |
| Frame.StaleExample | d-ntp/dntp_socket.c:272-285 | two packets alike in 60 bytes received, with a length of 100, hand over different payloads |
| TimestampTables.LoNear | d-ntp/dntp_tv2ts.h:25-90 | every entry is within 0.511 units of its multiple |
| TimestampTables.MidNear | d-ntp/dntp_tv2ts.h:96-161 | how far the entries drift, by rows |
| TimestampTables.HiNear | d-ntp/dntp_tv2ts.h:167-172 | how far the entries drift, up to 94.66 units |
| TimestampTables.BackHiNear | d-ntp/dntp_ts2tv.h:21-86 | the entries are exact |
| TimestampTables.BackMidNear | d-ntp/dntp_ts2tv.h:93-126 | the entries are rounded to the nearest |
| TimestampTables.BackLoNear | d-ntp/dntp_ts2tv.h:132-149 | the entries are within 0.507 of an eighth |
| Timestamp.FractionBound | d-ntp/dntp_timestamp.h:50-53 | for every microsecond count below a million the sum does not overflow 32 bits and is within 102 units of the exact fraction |
| Timestamp.PromiseIff | d-ntp/dntp_tv2ts.h:20-22 | the promised 1.5 units hold exactly for the counts below 65536 whose two table entries drift by at most that |
| Timestamp.PromiseRange | d-ntp/dntp_tv2ts.h:20-22 | they hold for every count below 6160 and for none above 25060, fail at 6160 and hold at 25060 |
| Timestamp.FractionIncreases | d-ntp/dntp_timestamp.h:50-53 | more microseconds give a larger fraction |
| Timestamp.MicrosBound | d-ntp/dntp_timestamp.h:88-92 | every fraction gives 0 to 1000000 microseconds, within five eighths of the exact value |
| Timestamp.MicrosUndoesFraction | d-ntp/dntp_timestamp.h:88-92 | every microsecond count comes back |
| Timestamp.RoundTrip | d-ntp/dntp_timestamp.h:62-110 | to a stamp and back is the identity on every normalised 32-bit time |
| Timestamp.StampsIncrease | d-ntp/dntp_timestamp.h:62-66 | the 64-bit stamps of two normalised times order as the times do exactly when both are before 1970 or neither is |
| Timestamp.OneCarry | d-ntp/dntp_timestamp.h:102-110 | every stamp gives a normalised time within five eighths of a microsecond: one carry suffices |
| Timestamp.CarryExample | d-ntp/dntp_timestamp.h:105-108 | the largest fraction is carried to the next second |
| Timestamp.TsToTv | d-ntp/dntp_timestamp.h:102-110 | the assignments and the carry compute that time |
| Alarm.Context.CompareAlarm | d-alarm/dalm_alarm.c:923-1096 | a comparison applies the changes of the alarms it reached to both lists in order, and tells where clock, sharing or log ended it; the old vector follows the new one exactly when it succeeds |
| Alarm.Context.SetCur | d-alarm/dalm_alarm.c:803-827 | the alarm takes the first free place; a full list stays as it is |
| Alarm.Context.DelCur | d-alarm/dalm_alarm.c:834-854 | the first entry of the alarm is cleared |
| Alarm.Context.SetUpload | d-alarm/dalm_alarm.c:863-916 | the record takes the first free place or that of the least id, in any case; the last id asks for clearing |
| AlarmTheorems.AgreesIff | d-alarm/dalm_alarm.c:923-1096 | after a successful comparison the list shows each active alarm once and nothing else if and only if at every alarm on the way at most 50 were active |
| AlarmTheorems.RoomForUnion | d-alarm/dalm_alarm.c:803-827 | that is so when old and new alarms together are at most 50 |
| AlarmTheorems.CurrentAgrees | d-alarm/dalm_alarm.c:923-1096 | so in every run of comparisons with room the list agrees with the newest vector |
| AlarmTheorems.RetriedShows | d-alarm/dalm_alarm.c:932-1096 | after any number of failed calls, each behind any number of alarms, and a successful one, with room for all, how often the list shows each alarm |
| AlarmTheorems.RetriedAgreesIff | d-alarm/dalm_alarm.c:932-1096 | it agrees again if and only if no failed call raised an alarm, and the alarms they cleared are still off |
| AlarmTheorems.PileUp | d-alarm/dalm_alarm.c:932-1006 | an alarm raised by k failed calls, k up to 50, is in an empty list k times, and stays when it has gone off |
| AlarmTheorems.DoubleEntry | d-alarm/dalm_alarm.c:932-1006 | one that is still on is in it once more |
| AlarmTheorems.OwnIdsIff | d-alarm/dalm_alarm.c:803-827 | a new current alarm gets an id of its own exactly when no alarm that is on has the next one |
| AlarmTheorems.IdsUnique | d-alarm/dalm_alarm.c:803-827 | in every run of at most 2^32 - 1 new alarms the ids in the list are unique and positive, as the record asks |
| AlarmTheorems.FlappingLeaves | d-alarm/dalm_alarm.c:803-854 | what the list and its counter are after an alarm came and went any number of times beside one that stayed on |
| AlarmTheorems.WrapRepeatsId | d-alarm/dalm_alarm.c:812-822 | in such a run of one new alarm more the lasting alarm shares its id with the newest |
| AlarmTheorems.RingAfter | d-alarm/dalm_alarm.c:863-916 | after any log of changes the upload list is a ring of those since the ids last wrapped |
| AlarmTheorems.NewestExactly | d-alarm/dalm_alarm.c:863-916 | such a ring holds exactly the latest twenty changes or as many as there are, each under an id of its own |
| AlarmTheorems.UploadIsNewest | d-alarm/dalm_alarm.c:923-1096 | in every run of comparisons the upload list is that ring |
| AlarmTheorems.ChangesAre | d-alarm/dalm_alarm.c:923-1096 | the changes of a comparison: one for each alarm that changed, with its new state and its time |
| AlarmTheorems.ChangesAscend | d-alarm/dalm_alarm.c:923-930 | in the order of the vector |
| AlarmTimes.TimesKept | d-alarm/dalm_alarm.c:803-854 | in every run, with room or without, an alarm has at most one entry, it is on, and the entry's time is that of the comparison that raised it |
| EventRotation.PrunedIs | alloc/common_event.c:198-231 | pruning drops oldest rows of a history of 10000 or more only, and leaves half of it |
| EventRotation.SpilledIs | alloc/common_event.c:90-104 | a full table loses its oldest row to the newest end of history; the log stays the same |
| EventRotation.RenewedIs | alloc/common_event.c:60-74 | using up the ids, at 0x7FFFFFFF, moves every row in order, loses none and starts again from 0 |
| EventRotation.EmptiedIs | alloc/common_event.c:150-186 | start-up moves every row in order and loses none |
| EventRotation.Database.MoveAll | alloc/common_event.c:122-190 | the start-up section does that move |
| EventRotation.Database.WriteOne | alloc/common_event.c:17-118 | both sections in turn, and so one event more at the end of the log and no other change to it; a failing statement ends the call with the log as it was |
| EventRotation.Database.WriteAll | alloc/common_event.c:237-265 | every reported entry is logged once in order, only oldest events are lost, and every entry is cleared and copied; after a failing write the entries before it are done, its own event is lost, and the later ones are untouched |
| EventRuns.InvStep | alloc/common_event.c:37-118 | every section of any daemon, succeeding or failing anywhere, keeps the tables in order and within their limits, and changes the events there are only by a success or half a move |
| EventRuns.Limits | alloc/common_event.c:37-118 | in every reachable state of any interleaving, whatever fails, the current table holds at most 20 rows, and the history what it held or 9999 and 21 more for each daemon |
| EventRuns.ConservedIff | alloc/common_event.c:37-118 | what was pruned, the history and the current table are, in order, the log at the start and the events of the successful writes if and only if no move of rows fails between its copy and its deletion |
| EventRuns.HalfMovedExample | alloc/common_event.c:174-186 | a run in which one does, and its event is in both tables |
| Hysteresis.Daemon.Refresh | d-input/din_ctrl.c:403-482 | a tick fails only at the counts that need a call, and then at most marks the source invalid; otherwise it changes counters, state and register as the run functions say, and sets the time exactly at a count of 60 |
| Hysteresis.CountersAreStreaks | d-input/din_ctrl.c:403-482 | after any run the counters are the lengths of the longest steady runs that end now, and at most one is not zero |
| Hysteresis.EventsIff | d-input/din_ctrl.c:412-470 | valid is set exactly at the 51st steady tick without alarm, invalid at the 61st with it, the time at the 61st without |
| Hysteresis.FreshenedIff | d-input/din_ctrl.c:438-449 | the ticks at which the method sets the time are those of the run |
| Hysteresis.CallsIff | d-input/din_ctrl.c:412-470 | the hardware or the clock is called exactly at the ticks of those three events |
| Hysteresis.RestartsIff | d-input/din_ctrl.c:403-412 | the counting starts again exactly when the mode or the alarm changes |
| Hysteresis.NewSourceValid | d-input/din_ctrl.c:403-425 | a source first selected at the 51st clean tick is declared valid there |
| Hysteresis.ValidIff | d-input/din_ctrl.c:412-470 | the source is valid exactly when some tick set it so and no later one set it invalid |
| Hysteresis.RegisterIff | d-input/din_ctrl.c:43-50 | the hardware register is 0 exactly while the state is valid |
| Hysteresis.FlipsApart | d-input/din_ctrl.c:408-482 | from valid to invalid at least 61 ticks pass, back at least 51 |
| Hysteresis.TimeSetOnce | d-input/din_ctrl.c:440-451 | the time is set once in a steady run |
| SourceSelect.BisFree | d-input/din_source.c:106-425 | the answer over what the loops found: the lowest index among the eligible sources of least priority, none when there is none or a look-up fails |
| SourceSelect.Select | d-input/din_source.c:175-425 | with known boards and listed alarms, in terms of the configuration: the first usable source of least priority digit, and none exactly when none is usable |
| SourceSelect.Choose | d-input/din_source.c:364-425 | the scores and the scan find that answer, the sentinel colliding with no score |
| SourceSelect.Score | d-input/din_source.c:364-396 | the sentinel marks exactly the ineligible sources, every other score being 1 to 208 |
| SourceSelect.SetAlarms | d-input/din_source.c:219-358 | the loops over slots and sources set every alarm, or give up exactly when a look-up fails |
| SourceSelect.DisablePort | d-input/din_source.c:106-425 | for every configuration: of the two choices of bis_free, before and after the priority of any port becomes "-", the second is the first exactly when the chosen source does not read that port |
| SourceSelect.DisableAnother | d-input/din_source.c:106-425 | so disabling a source at the port its board has for it keeps the choice exactly when it is not the chosen one |
| SourceSelect.AlarmAnother | d-input/din_source.c:219-425 | with every look-up listed, one more alarm keeps the choice exactly when the chosen source does not look at it |
| SourceSelect.OwnPortReaders | d-input/din_source.c:183-196 | the port that a board has for a source is read by the rows for the same input only |
| SourceSelect.EnabledIff | d-input/din_source.c:175-206 | a source is enabled exactly when its own board has a port for it, unless its board is unknown and an earlier one is taken for it |
| SourceSelect.UnknownBoardTakenForAnother | d-input/din_source.c:183-192 | a configuration where that happens |
| SourceSelect.PortsSeenIs | d-input/din_source.c:183-187 | the port table in use is that of the last source so far with a known board |
| SourceTables.AlarmsOfTable | d-input/din_source.c:226-344 | with the board table of alloc.c:512-594, what is looked at for an input is exactly the alarms against it by name, at the number of the port that its board has for it |
| SourceTables.CheckIs | d-input/din_source.c:226-354 | the look-ups pass a source exactly when every alarm against it is listed for its port and off; else one is on or unlisted |
| SourceTables.FitIff | d-input/din_source.c:175-396 | so with that table a source is usable exactly when its board has a port for it, those alarms are off, its priority is "0" or above, and, if it is a frequency source, the clock is a rubidium one and its level none of 8, 11 and 15, or the clock is a crystal and its level not 15 |
| SourceTables.SelectByTable | d-input/din_source.c:175-425 | and the choice is the first such source of least priority |
| SourceTables.NeverGivesUp | d-input/din_source.c:226-344 | no look-up fails when the table has the satellite alarms at port 1 and the others at ports 1 to 5 of every slot |
| IndexTable.Build | alloc/alloc.c:843-880 | the loops fill the allocation to its last entry with the table that is meant |
| IndexTable.AlarmTable | alloc/alloc.c:793-880 | so for the alarm classes and the port maxima of any board table |
| IndexTable.EventTable | alloc/alloc.c:1038-1122 | so for the event classes |
| IndexTable.AlarmTableHas | alloc/alloc.c:793-880 | which slots and ports an id of each class has in the alarm table, each once |
| IndexTable.EventTableHas | alloc/alloc.c:1038-1122 | and in the event table |
| IndexTable.AllocatedIff | alloc/alloc.c:827-848 | the allocation has the size of the table exactly when each class that takes entries has fewer than 256 ids, and is too small otherwise |
| IndexTable.LayoutSize | alloc/alloc.c:843-845 | the table has slots times ports times types entries, summed over the classes |
| IndexTable.Holds | alloc/alloc.c:860-880 | the table holds exactly the entries in range |
| IndexTable.Bijection | alloc/alloc.c:860-880 | every id, slot and port in range is at exactly one index |
| IndexTable.MaxPorts | alloc/alloc.c:806-825 | the largest number of ports among the boards of a type |

## Left out

- Errors of the lock and condition-variable calls in the pool: locking, signalling and unlocking succeed, and a failed start of a thread in `tpCreate` is not modelled.
- Destruction of the mutex and the condition variable at the end of `tpDestroy`.
- The queue macros the pool does not use: insertion at the head or after an element, removal from the middle, iteration.
- What a task does: the NTP reply itself, its clock readings and its identification field.
- ARP and ICMP replies in `receive_packet`: single-branch answers from the same buffer; the packet is ignored in the model.
- UDP checksums on reception: the source does not check them.
- Frames longer than the 1536-byte buffer: `send_packet` takes at most 1494 bytes of payload from its callers.
- The date formats and the choice of century in `tdate_parse`, the sorting of its tables by the C library, and the width of time_t.
- HTTP requests, authentication, CGI, TLS and file serving; the virtual-host prefix that is added after the path check.
- Characters above 127 as negative array indices: bytes are unsigned, as they are on the ARM target; letters and digits are those of the C locale.
- Alarm.Context.CompareAlarm: log messages, SNMP events, pauses and the contents of the alarm history are left out.
- AlarmTheorems.RetriedAgreesIff: lists with room for what all the calls raise; a list that is full on the way drops alarms as `AgreesIff` describes.
- EventRotation.Database.WriteAll: calls that fail between a copy and its deletion are steps of `EventRuns` only.
- The text of the SQL statements and the database itself: statements act on rows, each single statement takes effect whole or not at all, history rowids are consecutive, and ids do not reach 64 bits.
- Other programs that delete from the event history.
- Hysteresis.Daemon.Refresh: the leap-second and clock-state branches after the counters, which may set the time too, and the width of the counters (68 years of equal ticks).
- The finding of the alarm index of the selected source before the counters: a tick sees only whether its port has an alarm.
- SourceSelect.Choose: the build option that weighs quality levels into the score, which is off.
- Forced selection and the writing of the selected source to the hardware.
- The configuration files, parsers, menus, LEDs, logging and start-up of the daemons.
