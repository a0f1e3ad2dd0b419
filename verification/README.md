# Models of the RDK target layer, with proofs

This project models four parts of the OpenSync RDK vendor layer and proves what they keep over whole runs.
Check it with `dafny verify dfyconfig.toml` (Dafny 4.11).

**The log protocol** (`Wire`, `Pl2rl`, `Pl2rlFacts`, `LogSize`, `Pl2rld`, `Pl2rldRuns`, `Pl2rldStreams`,
`LogProtocol`, `LogRefines`, `LogDelivery`, `LogService`, `LogTear`, `LogTearRun`). Client processes frame log
messages onto non-blocking stream sockets, with at most three attempts a frame, a REGISTER frame on every new
connection and a limit on connection attempts. A daemon takes a frame in with two reads, refuses records from
clients that have not registered, and drops clients that do not keep to the format. Every system call is an oracle and a step of its own, so sends stop
after any number of bytes, reads return any part of what is there, and all processes interleave freely. The
central argument is that a byte stream splits into self-delimited frames in one way only (`Wire.UniqueParse`).
`LogTear` says, for every tear, exactly when the ignored result of a send makes the daemon log a line that nobody
sent, and `LogTearRun` gives a run in which it does. `LogRefines` ties the steps of the system to the calls.

**The connector** (`Text`, `DmTable`, `DmScan`, `PortForward`, `Reservation`, `Connector`). NAT port mappings and
DHCP reservations live in two tables of the device data model (the objects `Device.NAT.PortMapping.{i}.` and
`Device.DHCPv4.Server.Pool.{i}.StaticAddress.{i}.` of Broadband Forum TR-181 Issue 2), readable only as flat
lists of names and values. The scans over those lists, which carry the positions of the last seen fields along,
are proved to do what record-level operations do, and the tables are proved to track the history of events.

**The DHCP lease cache** (`Ere`, `LeaseLine`, `LeaseShape`, `LeaseParse`, `LeaseCache`, `LeaseFile`, `DhcpRange`). The
line pattern is modelled as a POSIX extended regular expression (IEEE Std 1003.1-2017, Base Definitions, sections 9.1
and 9.4) whose matches are derivation trees; which of several matches a matcher reports is left open, and proved not to
matter. `LeaseShape` says character by character which texts the parts of the pattern derive. The cache of leases, the server list with the life of its file watcher and the range tree are classes.

**The band-steering commands** (`BsCmd`, `BsTestd`, `BsRoundTrip`). `bs_cmd` writes a command into a fixed buffer with
snprintf; `bs_testd` takes it apart with strsep. Both are modelled as they are, and then joined.

Code that changes state in place is a class or a method over an array, with a contract that ties its new state
to a function of the old one; the theorems are lemmas about those functions and about runs of them.

## Model

| member | source | states |
|---|---|---|
| `Wire.FrameShape` | src/lib/pl2rl/inc/pl2rl.h:53-83 | a frame the client sends is delimited by its own length field, and its regions hold the pid, the name field, the severity, the module, the text length and the text |
| `Wire.FrameBytes` | src/lib/pl2rl/inc/pl2rl.h:53-83 | every byte of a frame: type, length and numbers with the low byte first, the name cut at 30 bytes and padded with zeros, or severity, module, text length and text |
| `Wire.Le32RoundTrip` | src/lib/pl2rl/inc/pl2rl.h:61-65 | a 32-bit field reads back as written, wherever it lies |
| `Wire.UptoNulStops` | src/pl2rld/pl2rld.c:265-275 | a C string copied out of a zero-padded field is the text put in |
| `Wire.ConcatGrows` | src/lib/pl2rl/inc/pl2rl.h:53-83 | more frames make a strictly longer stream that starts with the shorter one |
| `Wire.UniqueParse` | src/pl2rld/pl2rld.c:199-240 | two splittings of prefixes of one stream into self-delimited frames agree as far as the shorter one goes |
| `Pl2rl.Logger.Send` | src/lib/pl2rl/pl2rl.c:79-115 | the send loop with its three attempts does what the attempt-by-attempt specification does to stream, connection and result |
| `Pl2rl.Logger.Disconnect` | src/lib/pl2rl/pl2rl.c:64-77 | an open connection is closed and the last attempt time cleared; otherwise nothing changes |
| `Pl2rl.Logger.Connect` | src/lib/pl2rl/pl2rl.c:117-209 | rate limit, connection and registration leave the specified state and result on every path |
| `Pl2rl.Logger.Init` | src/lib/pl2rl/pl2rl.c:213-220 | initialisation is one connection attempt |
| `Pl2rl.Logger.Log` | src/lib/pl2rl/pl2rl.c:222-257 | a message connects if needed, is dropped if too long, and is otherwise sent with the result ignored |
| `Pl2rlFacts.SendLoopKeepsOk` | src/lib/pl2rl/pl2rl.c:79-115 | a send appends exactly one prefix of its frame, in order, and reports success exactly when that prefix is the whole frame |
| `Pl2rlFacts.SendSucceedsIff` | src/lib/pl2rl/pl2rl.c:79-115 | a send succeeds exactly when some of its first attempts, none of them failing, together had room for the frame |
| `Pl2rlFacts.SendOkIff` | src/lib/pl2rl/pl2rl.c:79-115 | the call reports success exactly when a connection is open and this is so of its first three attempts |
| `Pl2rlFacts.SendClosesIff` | src/lib/pl2rl/pl2rl.c:92-104 | a send closes its connection, and clears the last attempt time, exactly when one of its first three attempts is an error before the frame is out; otherwise both stay |
| `Pl2rlFacts.NoErrorKeepsOpen` | src/lib/pl2rl/pl2rl.c:95-98 | attempts that would block, or that write a part, never close a connection |
| `Pl2rlFacts.SendKeepsOk` | src/lib/pl2rl/pl2rl.c:79-115 | a send touches only its own connection, and closes it exactly when the stream is broken |
| `Pl2rlFacts.ReachableClientOk` | src/lib/pl2rl/pl2rl.c:117-257 | after any calls and any system call outcomes every connection is well shaped |
| `Pl2rlFacts.OpenStreamShape` | src/lib/pl2rl/pl2rl.c:185-254 | in every reachable state the stream of the open connection is one whole 40-byte REGISTER frame, then one prefix of a LOG frame per send, proper exactly when that send gave up |
| `Pl2rlFacts.LastAttemptAfter` | src/lib/pl2rl/pl2rl.c:128-187 | only an attempt that fails before connecting sets the last attempt time; a connection clears it |
| `Pl2rlFacts.TriesAgainIff` | src/lib/pl2rl/pl2rl.c:128-187 | a closed client attempts to connect exactly when its last early failure, if there is one, is not of the current second |
| `Pl2rlFacts.FailuresStrictlyIncrease` | src/lib/pl2rl/pl2rl.c:128-187 | with a positive clock that never runs backwards, attempts that fail before connecting have strictly increasing times in every run |
| `Pl2rlFacts.FailuresPerWindow` | src/lib/pl2rl/pl2rl.c:128-187 | any window from s to t of any run holds at most t-s+1 of them |
| `Pl2rlFacts.RegistrationFailuresAreNotLimited` | src/lib/pl2rl/pl2rl.c:53-60 | against the comment there: one second can hold any number of attempts that connect and then fail to register |
| `Pl2rlFacts.SameSecondConnected` | src/lib/pl2rl/pl2rl.c:128-187 | of two attempts of a run in one second, whatever they come to, the earlier one connected |
| `Pl2rlFacts.OncePerSecondIff` | src/lib/pl2rl/pl2rl.c:128-209 | a run keeps to one attempt a second exactly when no attempt that connects is followed by another in its second |
| `Pl2rlFacts.AgainInSecondIff` | src/lib/pl2rl/pl2rl.c:64-209 | after a call that attempts to connect, the next call of the second attempts again exactly when the connection came up and is gone by the end of the first |
| `LogSize.LogEmitsIff` | src/lib/pl2rl/pl2rl.c:228-254 | a call puts a LOG frame on the connection exactly when it is connected and the text has at most 4088 bytes; the 16-bit length then is 8 plus the text length and at most 4096 |
| `LogSize.LogDecodes` | src/pl2rld/pl2rld.c:199-258 | such a frame fits the daemon's buffer in two reads and decodes to the same fields |
| `Pl2rld.Daemon.ClientAdd` | src/pl2rld/pl2rld.c:110-127 | the list grows by an unregistered entry and stays free of duplicates |
| `Pl2rld.Daemon.ClientRemove` | src/pl2rld/pl2rld.c:129-144 | exactly that client leaves the list |
| `Pl2rld.Daemon.ClientCleanup` | src/pl2rld/pl2rld.c:146-157 | cleaning terminates with the list empty |
| `Pl2rld.Daemon.ClientByEvio` | src/pl2rld/pl2rld.c:159-170 | the entry of the connection is found exactly when it is on the list |
| `Pl2rld.Daemon.ClientEvio` | src/pl2rld/pl2rld.c:172-193 | a callback affects the entry of its connection only, as the specification of one wakeup says |
| `Pl2rld.Daemon.ClientRecv` | src/pl2rld/pl2rld.c:195-263 | a wakeup with any header and body read keeps, updates or removes the client and logs as specified |
| `Pl2rld.Daemon.ClientRecvReg` | src/pl2rld/pl2rld.c:265-275 | a REGISTER frame sets pid, name and registration and logs nothing |
| `Pl2rld.Daemon.ClientRecvLog` | src/pl2rld/pl2rld.c:277-347 | a LOG frame of an unregistered client removes it; of a registered one it logs one record |
| `Pl2rld.GoneIff` | src/pl2rld/pl2rld.c:195-288 | a wakeup removes its client exactly on a read error, a header of other than 4 bytes, a type of 2 or more, a body that is not all there, or a LOG frame before any REGISTER |
| `Pl2rld.KeptIs` | src/pl2rld/pl2rld.c:265-347 | what a frame does to a client that stays: the pid and up to 31 bytes of name up to a zero, or one record with severity, module and text up to a zero, the text length and the buffer |
| `Pl2rld.WithoutRemovesExactlyOne` | src/pl2rld/pl2rld.c:129-144 | taking a connection out of a duplicate-free list keeps all others, in order |
| `Pl2rldRuns.NextKeepsOk` | src/pl2rld/pl2rld.c:110-347 | every daemon step, with any read outcome, keeps: the frames handled are the front of the stream, the records are their replay, listed clients are in step |
| `Pl2rldRuns.TakeBodyOk` | src/pl2rld/pl2rld.c:236-263 | a body read that keeps its client handles exactly the next frame of the stream |
| `Pl2rldRuns.RecordsNeedRegister` | src/pl2rld/pl2rld.c:265-288 | for any frames in any order, a client is registered exactly when a REGISTER was handled, and no record comes before one |
| `Pl2rldRuns.RecordsAreGated` | src/pl2rld/pl2rld.c:277-288 | a step emits at most one record, only for a listed and registered client |
| `Pl2rldStreams.RecordsAreGatedInRuns` | src/pl2rld/pl2rld.c:110-347 | over every run on any streams: the client list is duplicate-free, and a connection has records only after a REGISTER was handled on it |
| `Pl2rldRuns.StepTouchesOne` | src/pl2rld/pl2rld.c:172-263 | a step leaves every connection it is not about alone: entry, frames and records |
| `Pl2rldRuns.RemovalIsFinal` | src/pl2rld/pl2rld.c:129-144 | a step after its removal neither lists a client again nor reads or logs anything for it |
| `Pl2rldStreams.RemovedForGood` | src/pl2rld/pl2rld.c:129-144 | however a run on any streams goes on after its removal, a client stays off the list and nothing more is logged for it |
| `Pl2rldStreams.AcceptLists` | src/pl2rld/pl2rld.c:418-452 | in any run an accepted connection is listed at the tail, unregistered, and stays listed until it is removed |
| `Pl2rldStreams.HangupRemoves` | src/pl2rld/pl2rld.c:146-193 | an error event removes the client, and the end of the daemon removes all of them |
| `Pl2rldStreams.WakeupRemovesIff` | src/pl2rld/pl2rld.c:195-288 | in any run the two reads of a wakeup take the client off the list exactly under the conditions of `Pl2rld.GoneIff` |
| `Pl2rldStreams.EndOfStreamRemoves` | src/pl2rld/pl2rld.c:216-220 | in any run a wakeup of a listed client at the end of its stream takes it off the list for good |
| `Pl2rldRuns.GrowthKeepsOk` | src/pl2rld/pl2rld.c:195-263 | bytes that arrive later do not disturb what the daemon keeps |
| `LogProtocol.NextKeepsOk` | src/lib/pl2rl/pl2rl.c:79-257 | every interleaved step of any process or the daemon keeps the invariant of the whole system |
| `LogRefines.SendSteps` | src/lib/pl2rl/pl2rl.c:79-115 | the attempts of a send, as steps of the system, amount to the whole send |
| `LogRefines.LogCallRefines` | src/lib/pl2rl/pl2rl.c:222-257 | a call of pl2rl_log that nothing interrupts does in steps exactly what the specification of `Logger.Log` does at once |
| `LogRefines.InitCallRefines` | src/lib/pl2rl/pl2rl.c:117-220 | the same for a connection attempt |
| `Pl2rldRuns.WakeupIsRecv` | src/pl2rld/pl2rld.c:195-263 | the two read steps of a wakeup do to list and log what the specification of `Daemon.ClientRecv` does, whatever the reads return |
| `LogDelivery.ReactToRegister` | src/pl2rld/pl2rld.c:265-275 | the daemon reads a REGISTER frame back as its pid and the first 30 characters of its name |
| `LogDelivery.ReactToLog` | src/pl2rld/pl2rld.c:277-347 | the daemon reads a LOG frame back as its severity, module and text |
| `LogDelivery.ReplayIsRecords` | src/pl2rld/pl2rld.c:195-347 | handling the frames of a history logs exactly the records of that history |
| `LogDelivery.RecordsAgreeUptoTear` | src/lib/pl2rl/pl2rl.c:79-257 | in every run, up to the first send that stopped inside its frame, records and messages sent whole agree in order and in every field |
| `LogDelivery.RecordsArePrefix` | src/lib/pl2rl/pl2rl.c:79-257 | in every run in which no send gives up inside a frame on a connection, its records are a prefix of the messages sent whole on it |
| `LogDelivery.CaughtUpIsComplete` | src/pl2rld/pl2rld.c:195-347 | once all bytes are read, they are all of those messages |
| `LogService.WakeServes` | src/pl2rld/pl2rld.c:195-234 | a wakeup on a wholly readable frame gets past its header |
| `LogService.BodyTakesOne` | src/pl2rld/pl2rld.c:236-263 | its second read takes in exactly one frame and keeps the client |
| `LogService.NeverRemoved` | src/pl2rld/pl2rld.c:172-347 | over any run whose frames are wholly readable at their wakeups, an accepted client is never removed |
| `LogService.EachWakeupCounts` | src/pl2rld/pl2rld.c:172-263 | over such a run every completed wakeup takes in exactly one frame |
| `LogService.AllAreEmitted` | src/pl2rld/pl2rld.c:172-347 | after as many completed wakeups as frames were sent whole, every message is emitted |
| `LogTear.FrameAtTear` | src/pl2rld/pl2rld.c:199-240 | beyond the frames sent whole before a tear, the daemon can only have handled what the stream from the tear on says is a frame |
| `LogTear.RecordsAtTear` | src/pl2rld/pl2rld.c:195-347 | for every connection on which a send gave up inside its frame: until that point records and messages agree; the next frame handled is the torn one made up with what was sent next, and its record is emitted |
| `LogTear.MadeUpIff` | src/lib/pl2rl/pl2rl.c:79-115 | for a tear after any number of bytes, exactly when what follows makes up a frame: at the torn length behind the header, at the mixed length inside the length field, never after one byte or in a REGISTER frame |
| `LogTear.NotBeforeMadeUp` | src/pl2rld/pl2rld.c:195-263 | before that threshold the prefix property still holds |
| `LogTear.TearEmits` | src/pl2rld/pl2rld.c:195-347 | from the threshold on, the next full wakeup emits that record |
| `LogTear.TornText` | src/pl2rld/pl2rld.c:277-347 | a tear inside a text: the record has what was sent of the text, and behind it the first bytes of the next frame up to a zero, the byte 1 at least |
| `LogTear.PrefixIff` | src/lib/pl2rl/pl2rl.c:254 | the records are a prefix of the messages sent whole exactly while only frames before the tear are handled, or if the mixed record equals the next message by chance |
| `LogTear.OrdinaryTextIff` | src/lib/pl2rl/pl2rl.c:254 | for a tear inside a text and texts without the byte 1: exactly while only frames before the tear are handled |
| `LogTear.TearInRuns` | src/lib/pl2rl/pl2rl.c:79-257 | the same over every run of the whole system |
| `LogTearRun.ClientTears` | src/lib/pl2rl/pl2rl.c:185-257 | in steps of the whole system: a registration, a send that stops 8 bytes into its frame, and a message sent whole |
| `LogTearRun.PrefixFails` | src/lib/pl2rl/pl2rl.c:254 | in that run the daemon logs a line that nobody sent, and its records are no prefix of those of the messages sent whole |
| `Text.AtoiOfDecimal` | src/lib/connector/src/connector_dm.c:284-297 | a printed number reads back with atoi, for every sign and size |
| `Text.StrtokOf` | src/lib/connector/src/connector_dm.c:376-390 | strtok takes a token off and leaves the rest |
| `Text.SplitOfJoin` | src/tools/band_steering_test/bs_testd/bs_testd.c:912-928 | joined tokens come apart again under repeated strsep |
| `Text.StrtolOfDigits` | src/tools/band_steering_test/bs_testd/bs_testd.c:463-488 | a printed number reads back with strtol in base 0, which does not take it for octal or hexadecimal |
| `Text.StrtolOf` | src/tools/band_steering_test/bs_testd/bs_testd.c:463-488 | strtol in base 0 reads every numeral, hexadecimal after 0x or 0X with digits of either case, octal after 0, or decimal, behind white space and a sign and up to what cannot go on with it |
| `Text.AtoiOf` | src/lib/connector/src/connector_dm.c:376-396 | atoi, and strtol in base 10, read every decimal numeral in the same way, zeros in front or not |
| `Text.LowerAllEqualIff` | src/lib/connector/src/connector_dm.c:392 | comparing without case finds two strings equal exactly when they have one length and at every place the same character or one letter in its two cases |
| `Text.DigitsLength` | src/lib/connector/src/connector_dm.c:268-272 | a number prints in at most k digits exactly when it is below the k-th power of ten |
| `DmTable.TokensOfName` | src/lib/connector/src/connector_dm.c:376-390 | tokenising a full parameter name gives its row number and its field |
| `DmTable.NamesInjective` | src/lib/connector/src/connector_dm.c:268-278 | two fields with one full name are one field of one row |
| `DmTable.RemovePathAt` | src/lib/connector/src/connector_dm.c:400-412 | deleting the printed path of a row removes exactly that row |
| `DmScan.AtEntry` | src/lib/connector/src/connector_dm.c:376-390 | entry i of the flat list is the field the scan stands at, and the list ends with the last row |
| `DmScan.CleanDm` | src/lib/connector/src/connector_dm.c:418-467 | cleaning asks for each row once, in order, and leaves exactly the rows whose deletion fails |
| `DmScan.RefusedAre` | src/lib/connector/src/connector_dm.c:603-652 | what is left are exactly the refused rows, unchanged and in order; all may go and then none is left |
| `PortForward.CompareIsMatch` | src/lib/connector/src/connector_dm.c:384-400 | at a client field, the comparison through carried positions is true exactly when the row's own four fields are the rule's |
| `PortForward.WantedIff` | src/lib/connector/src/connector_dm.c:391-395 | a row has the rule that a delete looks for exactly when its client is equal, its protocol equal up to case, and its two ports read as those numbers |
| `PortForward.DeletesFirst` | src/lib/connector/src/connector_dm.c:385-412 | of several rows with the rule the first one goes, and with none nothing changes |
| `PortForward.PortforwardDel` | src/lib/connector/src/connector_dm.c:346-416 | the flat scan deletes the first row with the rule, or nothing, and leaves all other rows alone |
| `PortForward.PortforwardAdd` | src/lib/connector/src/connector_dm.c:230-336 | an add that succeeds appends one row that holds the stored rule; one that fails to set values leaves the created row |
| `PortForward.NewRowHoldsRule` | src/lib/connector/src/connector_dm.c:261-332 | the seven values set through printed names make the row hold the rule that is stored |
| `PortForward.NewRowValues` | src/lib/connector/src/connector_dm.c:261-332 | each of the seven fields of the added row has the value for it, the end of the port range, the description and Enable among them, and every other field is untouched |
| `PortForward.NamesFit` | src/lib/connector/src/connector_dm.c:237-272 | all printed names fit their buffers exactly when the row number has at most six digits |
| `PortForward.StoredIsWantedIff` | src/lib/connector/src/connector_dm.c:291-293 | an add stores the rule a delete looks for exactly when the protocol is "tcp" as it stands, or the letters u, d and p each in either case |
| `PortForward.RuleSetDelete` | src/lib/connector/src/connector_dm.c:376-412 | a delete takes one copy of the rule out of the multiset of rules |
| `PortForward.AddThenDelete` | src/lib/connector/src/connector_dm.c:230-416 | add then delete restores the rules exactly for those protocols, and the table itself when no equal rule was there |
| `Reservation.CompareIsMatch` | src/lib/connector/src/connector_dm.c:569-596 | at an IP field, the comparison through the carried position is the comparison with the row's own two fields |
| `Reservation.ReservationDel` | src/lib/connector/src/connector_dm.c:540-601 | the two-field scan deletes the first row with both addresses, or nothing |
| `Reservation.DeletesFirst` | src/lib/connector/src/connector_dm.c:569-596 | of several rows with both addresses the first one goes, and with none nothing changes |
| `Reservation.ReservationAdd` | src/lib/connector/src/connector_dm.c:473-529 | an add that succeeds appends one row that holds the reservation |
| `Reservation.NamesFit` | src/lib/connector/src/connector_dm.c:480-498 | all printed names fit their buffers exactly when the row number has one digit |
| `Reservation.NewRowHoldsLease` | src/lib/connector/src/connector_dm.c:490-529 | the two values set through printed names make the row hold the reservation |
| `Reservation.NewRowValues` | src/lib/connector/src/connector_dm.c:490-529 | the hardware address is in Chaddr, the IP address in Yiaddr, and every other field is untouched |
| `Reservation.LeaseSetDelete` | src/lib/connector/src/connector_dm.c:569-596 | a delete takes one copy of the reservation out of the multiset |
| `Connector.Connector.Init` | src/lib/connector/src/connector_main.c:49-85 | initialisation leaves in each table exactly the rows whose deletion failed |
| `Connector.Connector.PortforwardAdd` | src/lib/connector/src/connector_main.c:144-148 | an add event steps the tables as specified and reports success whatever happened |
| `Connector.Connector.PortforwardDel` | src/lib/connector/src/connector_main.c:150-154 | a delete event steps the tables as specified and reports success whatever happened |
| `Connector.Connector.DhcpReservationAdd` | src/lib/connector/src/connector_main.c:132-136 | the same for a reservation to add |
| `Connector.Connector.DhcpReservationDel` | src/lib/connector/src/connector_main.c:138-142 | the same for a reservation to delete |
| `Connector.RunKeepsOk` | src/lib/connector/src/connector_main.c:132-154 | every run keeps both tables well laid out with unique row numbers |
| `Connector.TablesTrackHistory` | src/lib/connector/src/connector_main.c:132-154 | over every run, whatever bus calls fail in it, the multisets of rules and reservations are what the history of events leaves |
| `Connector.CleanStartTracksHistory` | src/lib/connector/src/connector_main.c:75-79 | from any initial tables, after a cleaning initialisation and events that succeed, they are exactly the adds minus the matched deletes |
| `Ere.SpanInOrder` | src/lib/osn/src/osn_dhcps.c:347-354 | a match covers a stretch inside the subject |
| `Ere.AvoidsIsFree` | src/lib/osn/src/osn_dhcps.c:347-354 | what a pattern without a character derives does not hold it |
| `Ere.InContext` | src/lib/osn/src/osn_dhcps.c:347-354 | a match on its own is a match inside a longer subject |
| `Ere.OutOfContext` | src/lib/osn/src/osn_dhcps.c:347-354 | a match inside a subject is a match of that piece on its own |
| `LeaseLine.CapturesAreMarked` | src/lib/osn/src/osn_dhcps.c:347-417 | every match of a line gives the groups read the spans that looking for the delimiters gives |
| `LeaseLine.Unambiguous` | src/lib/osn/src/osn_dhcps.c:347-417 | any two matches of a line agree on groups 1, 2, 4, 6, 7 and 9 |
| `LeaseShape.MacLang` | src/lib/osn/src/osn_dhcps.c:349 | the address part derives exactly six pairs of hexadecimal digits of either case, with or without a colon behind each |
| `LeaseShape.IpLang` | src/lib/osn/src/osn_dhcps.c:350 | the IP part derives exactly four runs of digits, with or without a dot behind each |
| `LeaseShape.HostLang` | src/lib/osn/src/osn_dhcps.c:351 | the name part derives exactly a star, or letters, digits, underscores and hyphens |
| `LeaseShape.FingerprintLang` | src/lib/osn/src/osn_dhcps.c:352 | the fingerprint part derives exactly a star, or runs of digits with or without a comma behind each |
| `LeaseShape.VendorLang` | src/lib/osn/src/osn_dhcps.c:353 | the vendor part derives exactly the texts that are not empty and hold no quote |
| `LeaseShape.CidLang` | src/lib/osn/src/osn_dhcps.c:354 | the identifier part derives exactly the texts that are not empty and hold no space |
| `LeaseParse.InnerGroupIsAmbiguous` | src/lib/osn/src/osn_dhcps.c:347-354 | group 5, which is not read, is ambiguous: every line whose address is a run of five or more digits has two matches that give it different spans |
| `LeaseParse.ParseIsDetermined` | src/lib/osn/src/osn_dhcps.c:339-432 | the lease parsed from a line does not depend on the match reported |
| `LeaseParse.LineMatches` | src/lib/osn/src/osn_dhcps.c:347-381 | every line of seven fields of those forms, with their delimiters, matches |
| `LeaseParse.MatchesIff` | src/lib/osn/src/osn_dhcps.c:347-381 | and no other line does |
| `LeaseParse.ReadOfLine` | src/lib/osn/src/osn_dhcps.c:383-417 | whatever match of a printed line is reported, its groups are the printed texts |
| `LeaseParse.ParseLineIff` | src/lib/osn/src/osn_dhcps.c:339-432 | what parsing gives for every line, whichever match is reported: for a line of seven such fields whose addresses can be parsed the lease of its texts, each cut to its buffer, and no lease for any other line |
| `LeaseParse.ParseOfPrint` | src/lib/osn/src/osn_dhcps.c:339-432 | parsing any printed lease whose fields have those forms and fit their buffers gives exactly that lease, also with spaces in the vendor class |
| `LeaseCache.Server.LeaseClear` | src/lib/osn/src/osn_dhcps.c:308-317 | the cache is empty and its array gone |
| `LeaseCache.Server.LeaseExists` | src/lib/osn/src/osn_dhcps.c:434-456 | true exactly when a cached lease has the same addresses |
| `LeaseCache.Server.LeaseAdd` | src/lib/osn/src/osn_dhcps.c:461-484 | a lease with new addresses is appended within bounds, earlier ones surviving each growth of the array; a known one changes nothing |
| `LeaseCache.ArrayFits` | src/lib/osn/src/osn_dhcps.c:461-484 | after any adds and clears the array has the least multiple of 16 that holds the leases, an append has room, and no two leases share their addresses |
| `LeaseCache.AddAllIsFirsts` | src/lib/osn/src/osn_dhcps.c:434-484 | adding leases one by one to an empty cache keeps exactly the first of each pair of addresses |
| `LeaseCache.FirstsAre` | src/lib/osn/src/osn_dhcps.c:434-484 | those are, in order, the leases at the places `Places` |
| `LeaseCache.PlacesAre` | src/lib/osn/src/osn_dhcps.c:434-456 | which are, rising, exactly the places of leases that no lease before them shares both IP and hardware address with |
| `LeaseCache.FirstsHaveAllKeys` | src/lib/osn/src/osn_dhcps.c:434-456 | those have every pair of addresses, each once |
| `LeaseCache.Server.Dispatch` | src/lib/osn/src/osn_dhcps.c:322-337 | a server with a callback is told its leases once |
| `LeaseCache.DhcpServers.ServerNew` | src/lib/osn/src/osn_dhcps.c:126-302 | a new server with that name, no callback and no leases goes to the tail, and the watcher is active; a name that is too long changes nothing |
| `LeaseCache.DhcpServers.ServerDel` | src/lib/osn/src/osn_dhcps.c:139-164 | exactly the server at that place leaves the list, and the watcher stops with the last one |
| `LeaseCache.DhcpServers.StatusNotify` | src/lib/osn/src/osn_dhcps.c:247-250 | that server's callback is set as asked, and nothing else changes |
| `LeaseCache.DhcpServers.LeaseParse` | src/lib/osn/src/osn_dhcps.c:507-562 | the parseable lines of the file are added to the first server in order |
| `LeaseCache.DhcpServers.AddLine` | src/lib/osn/src/osn_dhcps.c:486-552 | a line that parses adds its lease to the first server, and to no other |
| `LeaseCache.LinesAre` | src/lib/osn/src/osn_dhcps.c:535-552 | the lines read from a file are its text, cut behind every newline and where 1023 characters have come without one |
| `LeaseCache.ParseAllAt` | src/lib/osn/src/osn_dhcps.c:535-552 | every line gives its lease in its place, or nothing if it does not parse |
| `LeaseCache.DhcpServers.StatusDispatch` | src/lib/osn/src/osn_dhcps.c:322-337 | every server with a callback is notified once with its cache |
| `LeaseCache.DhcpServers.LeaseOnchange` | src/lib/osn/src/osn_dhcps.c:567-592 | a change of the file rebuilds the caches as a function of the file alone; after that, and once, each server with a callback is told its rebuilt cache |
| `LeaseCache.DhcpServers.LeaseInit` | src/lib/osn/src/osn_dhcps.c:595-615 | the initial load does the same |
| `LeaseCache.RebuildForgets` | src/lib/osn/src/osn_dhcps.c:567-592 | the rebuilt caches do not depend on what was cached before |
| `LeaseCache.ReachableStates` | src/lib/osn/src/osn_dhcps.c:126-302 | in every reachable state the watcher is active exactly when there is a server, and only the head holds leases |
| `LeaseFile.PrintedFileIsCached` | src/lib/osn/src/osn_dhcps.c:339-615 | after loading a file of any printed leases and of lines that are none, whichever matches the matcher reports, the first server caches the first lease of each pair of addresses among them, and the others nothing |
| `DhcpRange.RangeCmpIsOrder` | src/lib/osn/src/osn_dhcps.c:90-101 | the range comparison is a total order if the address comparison is |
| `DhcpRange.RangeList.RangeAdd` | src/lib/osn/src/osn_dhcps.c:190-209 | the pair is in the tree, once, and the others stay |
| `DhcpRange.RangeList.RangeDel` | src/lib/osn/src/osn_dhcps.c:211-225 | the pair is out of the tree, and the others stay |
| `DhcpRange.TreeHoldsLive` | src/lib/osn/src/osn_dhcps.c:190-225 | after any adds and deletes the tree holds exactly the pairs added and not deleted since |
| `DhcpRange.NoDuplicates` | src/lib/osn/src/osn_dhcps.c:190-225 | an ordered tree lists its ranges by start, and by stop where they start together, each once |
| `BsCmd.Emit` | src/tools/band_steering_test/bs_cmd/bs_cmd.c:211-213 | one snprintf appends its piece, cut at the buffer, and bytes left plus bytes emitted stay the buffer size less one |
| `BsCmd.WriteValues` | src/tools/band_steering_test/bs_cmd/bs_cmd.c:172-216 | the values of a file's lines are appended in order, and the file is refused exactly when a key is unknown |
| `BsCmd.SerializeCfg` | src/tools/band_steering_test/bs_cmd/bs_cmd.c:218-232 | an argument appends NULL or its values |
| `BsCmd.HandleSetBtmRequest` | src/tools/band_steering_test/bs_cmd/bs_cmd.c:260-323 | the command is name, index, address and all values joined by separators, cut at two bytes less than the buffer, and refused exactly when the file cannot be opened or a key is unknown |
| `BsCmd.HandleSetGroup` | src/tools/band_steering_test/bs_cmd/bs_cmd.c:234-258 | the same for a list of configurations, refused exactly when the file of one of them is |
| `BsCmd.WrittenIsCString` | src/tools/band_steering_test/bs_cmd/bs_cmd.c:237-246 | the buffer holds as a C string what was written, or its front that fits |
| `BsTestd.HandleCmd` | src/tools/band_steering_test/bs_testd/bs_testd.c:912-928 | the first token is the command's name and the others are its parameters |
| `BsTestd.HandleSetBtmRequest` | src/tools/band_steering_test/bs_testd/bs_testd.c:444-519 | the request is read off the tokens in order, with as many candidates as the count says |
| `BsTestd.SetCfg` | src/tools/band_steering_test/bs_testd/bs_testd.c:273-295 | five tokens make a configuration |
| `BsTestd.CastsWrap` | src/tools/band_steering_test/bs_testd/bs_testd.c:460-518 | each cast gives the one value of its type that differs by a multiple of the type's size |
| `BsTestd.HandleSetGroup` | src/tools/band_steering_test/bs_testd/bs_testd.c:297-332 | the list ends at the last token or at its limit of 20, with zeros for NULL |
| `BsRoundTrip.LinesParts` | src/tools/band_steering_test/bs_cmd/bs_cmd.c:288-319 | lines of the form key=value in known keys are accepted, and their values are the texts |
| `BsRoundTrip.LineIsCut` | src/tools/band_steering_test/bs_cmd/bs_cmd.c:182-206 | the value of a line is what stands between the first = and its last character, whatever that character is |
| `BsRoundTrip.MacReadsBack` | src/tools/band_steering_test/bs_testd/bs_testd.c:375-379 | an address of any number of bytes in hexadecimal, with digits of either case, scans back as far as six bytes go; the bytes it does not have keep what was in the target |
| `BsRoundTrip.SplitCommand` | src/tools/band_steering_test/bs_testd/bs_testd.c:912-928 | the pieces the encoder writes are the tokens the decoder takes |
| `BsRoundTrip.DecodeRequest` | src/tools/band_steering_test/bs_testd/bs_testd.c:444-519 | decoding the tokens of a request with any number of candidates, each number written in decimal, octal or hexadecimal and each address in either case, gives its 9 scalars and all candidates in order |
| `BsRoundTrip.BtmRoundTrip` | src/tools/band_steering_test/bs_cmd/bs_cmd.c:260-323 | every request whose command fits the buffer, and whose candidates fit the HAL array, survives encoding and decoding, however its file writes the numbers and addresses |
| `BsRoundTrip.PrintedIsFile` | src/tools/band_steering_test/bs_cmd/bs_cmd.c:260-323 | every request has such a file |
| `BsRoundTrip.ShippedIsFile` | rootfs/common/usr/opensync/tools/band_steering_test/inputs/BTM_REQUEST.in:1-19 | the lines that the tools come with are the file of the request with token 16, validity interval 255 and two candidates |
| `BsRoundTrip.DecodeEntries` | src/tools/band_steering_test/bs_testd/bs_testd.c:311-322 | the decoder's loop recovers every entry but a NULL at the end, as far as its limit goes |
| `BsRoundTrip.LastNullIsLost` | src/tools/band_steering_test/bs_testd/bs_testd.c:311-322 | what the decoder reads is the whole list as far as its limit goes exactly when the last entry is not NULL or beyond the limit, and otherwise all but that entry |
| `BsRoundTrip.GroupRoundTrip` | src/tools/band_steering_test/bs_cmd/bs_cmd.c:511-522 | every list of 2 to 18 entries comes back in order with NULL zeroed, but for a NULL at the end, and the limit of 20 is never reached |

## Left out

- Socket set-up, libev, file locking, the message bus, the Wi-Fi HAL and the RDK logger: foreign; what their calls return is a parameter.
- Log texts above 65527 bytes: the client writes past its buffer, which has no defined result; the type `Text` excludes them.
- Frames whose length field is below 4 or above 4096: the second read goes past the buffer or asks for a negative size, which has no defined result. The daemon of the runs stops there, and `Pl2rld.Daemon.ClientRecv` requires that the header is no such one.
- The mapping of severities and the printed form of a log line: tables with one branch each; a record holds the fields.
- The daemon's listener and its acceptance of connections beyond adding a client.
- Byte order: both ends run on one machine; little-endian is taken.
- `PortForward.PortforwardAdd`: requires a row number below 1 000 000, because a longer name runs past its buffer, which has no defined result; `PortForward.NamesFit` gives the exact bound.
- `Reservation.ReservationAdd`: requires a row number below 10, for the same reason; `Reservation.NamesFit` gives the exact bound.
- The order of a row's fields in the flat list is a promise of the other side: one `Enable`; ports and protocol before the internal client; hardware address before IP address.
- LAN and DHCP pool settings pushed and pulled by the connector: straight copies.
- The address parsers and printers, the address comparison, `strscpy` and the group copy function of the platform library are not part of this model; the parsers and the comparison are parameters, and the buffer sizes too.
- The platform's balanced tree is not part of this model; an ordered search tree stands for it.
- The lease time is read as an integer; the rounding of the original's conversion through a floating number is not modelled.
- Callbacks that re-enter the server list, and all freeing of memory.
- `BsCmd.HandleSetBtmRequest`: requires that every piece but the last ends inside the buffer, because the count of bytes left goes negative otherwise and the next write has no bound.
- `BsCmd.HandleSetGroup`: requires the same.
- `BsTestd.HandleSetBtmRequest`: requires as many tokens as the count says and room for them in the HAL structure; with fewer tokens the original passes NULL to strtol.
- `BsTestd.HandleSetGroup`: the variant for two fixed configurations is left out; each configuration must have its five tokens.
- Numbers are taken to fit a `long` of 64 bits: the saturation of strtol is not modelled, nor white space, signs and prefixes that sscanf accepts in an address.
- The reassembly of a command from several reads in `bs_testd`: one command arrives in one read.
- The other commands of the band-steering tools: the same codec with fixed numbers of tokens.
- `wifi_hal_tool`, the device manager, `dmcli`, the platform layer, scripts and templates: thin wrappers and formatting.
