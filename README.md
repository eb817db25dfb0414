# CMPUT379 assignments: SDN simulator and job shells, modelled in Dafny

This project models two parts of the CMPUT379 assignments.

**The software-defined network simulator** (`a3sdn`, with its earlier FIFO version `a2sdn`).
One controller and up to seven switches exchange packets.

- A switch joins with OPEN. The controller places it in an ordered chain of switches and ACKs it. Once every expected switch has joined, the controller checks the chain and answers every query it held back.
- A switch matches each RELAY or ADMIT packet against its flow table. On a miss it queues the packet and asks the controller for a rule (QUERY), at most once per pending key.
- When the rule arrives (ADD), the switch installs it and replays its queue.

The model covers:

- the packet kinds and payloads, and the packet constructors;
- the printed endpoint labels;
- the switch-name check and the FIFO names;
- chain placement (`addSwitch`), chain verification (`verifyNetwork`) and switch removal (`removeSwitch`);
- the query resolver (`processQueryPacket`, in both versions);
- the flow-table match and rule deduplication (`processRelayPacket`, `ruleExists`);
- `processPacket` and `processPacketQueue` on both kinds of node.

Sending a packet appends it, with its receiver, to the node's outbox. A packet delivered on port 3 is only printed, so it leaves no trace in the state. `exit(0)` is the outcome `Exited`.

Each node's state is a datatype, and a function gives the effect of one packet on that state (`SwitchNode.SwitchStep`, `ControllerNode.ControllerStep`). The classes `SwitchNode.Switch` and `ControllerNode.Controller` hold the same state in fields. Their methods update those fields in place and are proved to agree with the functions. The lemmas of `SwitchLemmas` and `ControllerLemmas` state what the protocol promises across packets.

The two versions differ in a few places: the resolver's range, ADD deduplication, and the return value of a duplicate OPEN and of a deferred QUERY. A `Variant` (`A2` or `A3`) in each node's configuration selects the version.

**The job shells.**

- `a1jobs` (a1/) keeps a 32-slot table of admitted jobs. It appears twice, as free procedures (`JobTable`) and as the class `JobSpawner` with its seven `Command` kinds (`Spawner`, `Commands`).
- The second shell (A1-Unix-Creating-And-Monitoring-Processes-master/) keeps its jobs in a linked list. It never unlinks a node: removal only marks the node terminated (`JobList`). Its command loop routes each input line (`Shell`), and a whitespace tokenizer splits the lines (`Tokenizer`).

`fork` is a parameter: `forkPid` is the value it returned in this process. Signals are not sent; the procedures return the pids they would signal.

## Model

| member | source | states |
|---|---|---|
| Packets.Ordinal | a3/packets.h:12-13 | every packet kind has one of the eleven enumerator values 0..10 |
| Packets.KindOfOrdinal | a3/packets.h:12-13 | each of the values 0..10 names a packet kind with that value |
| Packets.OrdinalBijective | a3/packets.h:12-13 | kinds and enumerator values correspond one to one, in the declared order |
| Packets.PacketNamesDistinct | a3/packets.h:12-13 | no two kinds share a display name, and ADD displays as "ADDRULE" |
| Packets.ShownPayloadIsCarried | a3/packets.cpp:80-99 | the payload printed for a kind is the payload that kind carries: none for ACK and EXIT, the rule for ADD, the open message for OPEN, the query/relay message otherwise |
| Packets.CreateAMessagePacket | a3/packets.cpp:105-119 | the packet has the given kind and all eight rule fields as given; it is well formed exactly for ADD |
| Packets.CreateQRMessagePacket | a3/packets.cpp:122-130 | kind, source and destination as given, with the sending switch number left unset |
| Packets.CreateOMessagePacket | a3/packets.cpp:133-144 | kind and the five open-message fields as given; well formed exactly for OPEN |
| Packets.SourceLabel | a3/packets.cpp:38-50 | 0 is "cont", FILEPORT is "file", any other source n is "sw" followed by n |
| Packets.DestinationLabel | a3/packets.cpp:52-66 | 0 is "cont", NETPORT is "net", any other destination n is "sw" followed by n |
| Packets.SourceLabelInjective | a3/packets.cpp:38-50 | different sources never print the same label |
| Packets.DestinationLabelInjective | a3/packets.cpp:52-66 | different destinations never print the same label |
| Decimal.DigitChar | a3/a3sdn.cpp:411-426 | the digit character of a value 0..9 is a digit that reads back as that value |
| Decimal.NatToString | a3/a3sdn.cpp:411-426 | the decimal text of a natural number is nonempty digits, and two or more digits exactly from 10 on |
| Decimal.DigitsValueOfNatToString | a3/a3sdn.cpp:411-426 | reading the decimal text of n gives back n |
| Decimal.SignMark | a3/packets.cpp:38-66 | the text of an integer starts with '-' exactly when it is negative |
| Decimal.ReadBack | a3/packets.cpp:38-66 | after the optional sign, the text of n is digits that read back as the magnitude of n |
| Decimal.IntToStringInjective | a3/packets.cpp:38-66 | different integers have different decimal texts |
| Decimal.SingleDigitString | a2/a2sdn.cpp:492-505 | 0..9 print as one digit character |
| Names.CheckSwitchName | a3/a3sdn.cpp:891-918 | accepted exactly for "null" (number -1) or a three-character name whose third character is 1..7, which is the number |
| Names.SwitchPrefixNotChecked | a3/a3sdn.cpp:891-918 | the "sw" prefix is not checked: "xy5" is switch 5, while "sw0" and "sw8" are refused |
| Names.Insert | a3/a3sdn.cpp:411-426 | inserting text at a position keeps what was before and after it around the inserted text |
| Names.DetermineFIFOName | a3/a3sdn.cpp:411-426 | the name starts with "fifo-" and is six characters longer than the decimal texts of the two numbers together |
| Names.FIFONameShape | a2/a2sdn.cpp:492-505 | for a single-digit sender the name is "fifo-", sender, "-", receiver |
| Names.FIFONamesDistinct | a2/a2sdn.cpp:492-505 | with single-digit senders, different sender/receiver pairs get different FIFO names |
| Names.FIFONameTwoDigitSender | a3/a3sdn.cpp:411-426 | a two-digit sender gets a malformed name: sender 10, receiver 1 gives "fifo-101-" |
| Nodes.AddCount | a3/packets.h:16-20 | adding to one counter changes that counter by the amount and no other |
| FlowTable.LastMatch | a3/a3sdn.cpp:524-553 | the rule chosen is the last one whose two ranges hold the packet and whose priority is at least MINPRI, or -1 for none |
| FlowTable.FindRule | a3/a3sdn.cpp:524-553 | the scan returns the last selectable rule, and -1 exactly when no rule is selectable |
| FlowTable.Hit | a3/a3sdn.cpp:524-553 | counting a hit raises that rule's count by one and leaves every other entry as it was |
| FlowTable.HitKeepsRules | a3/a3sdn.cpp:524-553 | a hit changes no rule, only a count |
| FlowTable.LastMatchIgnoresCounts | a3/a3sdn.cpp:524-553 | hit counts never change which rule a packet matches |
| FlowTable.MatchIsStable | a2/a2sdn.cpp:630-658 | the same packet matches the same rule again, and that rule's count has grown by one |
| FlowTable.RuleExists | a3/a3sdn.cpp:557-573 | true exactly when some entry agrees with the candidate on the seven fields other than the hit count |
| FlowTable.RuleExistsIgnoresCounts | a3/a3sdn.cpp:557-573 | hit counts never change whether a rule exists |
| FlowTable.AppendedRuleExists | a3/a3sdn.cpp:663-680 | once an ADD appends a rule, that rule exists, so the same ADD is not appended again |
| Topology.FirstSlot | a3/a3sdn.cpp:296-348 | the first record next to which a newcomer with both ports set may go; no earlier record offers a slot |
| Topology.PlaceBetween | a3/a3sdn.cpp:296-348 | placing a newcomer with both ports set leaves the chain as it was or makes it one record longer; the read past the end can happen only in a chain of two or more |
| Topology.Place | a3/a3sdn.cpp:250-350 | any placement leaves the chain as it was or makes it one record longer; the read past the end can happen only in a chain of two or more |
| Topology.PlaceSwitch | a3/a3sdn.cpp:250-350 | the placement loop of `addSwitch` computes the placement `Place` defines, without breaking after a conflict |
| Topology.PlaceInsertsOnce | a3/a3sdn.cpp:250-350 | a placement leaves the chain as it was or inserts the newcomer once, with every other record kept in order |
| Topology.PlaceAtFront | a3/a3sdn.cpp:268-281 | a newcomer with port 1 null goes to the front, failing exactly when the front record's port 1 is null |
| Topology.PlaceAtBack | a3/a3sdn.cpp:282-295 | a newcomer with port 2 null goes to the back, failing exactly when the last record's port 2 is null |
| Topology.PlaceLinksNeighbour | a3/a3sdn.cpp:296-348 | a newcomer with both ports set that is inserted sits next to a record it is linked with |
| Topology.PlaceFails | a3/a3sdn.cpp:255-349 | both ports null into a nonempty chain fails; with both ports set, placement fails exactly when a record before the slot conflicts |
| Topology.PlaceKeepsNumbersDistinct | a3/a3sdn.cpp:250-350 | placing a switch whose number is free keeps the chain's numbers distinct |
| Topology.VerifyNetwork | a3/a3sdn.cpp:372-408 | the chain is reported valid exactly when every record passes the check for its position |
| Topology.VerifyNetworkCorrect | a3/a3sdn.cpp:372-408 | `verifyNetwork` reports a valid chain exactly when the last port 2 is null, the first port 1 is null (two or more records), and each neighbouring pair is linked both ways |
| Topology.IndexOfNumber | a3/a3sdn.cpp:850-870 | the position of the first record with the number, or the chain's length when there is none |
| Topology.EraseNumber | a3/a3sdn.cpp:850-870 | the chain loses one record exactly when the number is in use, and is unchanged otherwise |
| Topology.EraseFreesNumber | a3/a3sdn.cpp:850-870 | after removal the number is free again, the numbers stay distinct, and every other number stays in use or out of use |
| QueryResolver.ProcessQueryPacket | a3/a3sdn.cpp:472-521 | the answer is always a well-formed ADD packet |
| QueryResolver.LastHolder | a3/a3sdn.cpp:472-521 | the last switch other than the querier whose range holds the destination, or -1 |
| QueryResolver.ScanClosedForm | a3/a3sdn.cpp:472-521 | the scan's result stated without the scan: the last holder's range, and whether the querier comes after it |
| QueryResolver.ResolveA3 | a3/a3sdn.cpp:472-521 | the three answers: DROP for a source above MAXIP; else FORWARD over the last holder's range, on port 1 exactly when the querier comes later; else DROP of the destination |
| QueryResolver.ResolveA2 | a2/a2sdn.cpp:580-626 | the same three answers, with FORWARD over the single destination address |
| QueryResolver.ResolversAgreeButForRange | a2/a2sdn.cpp:580-626 | the two resolvers differ only in the destination range of a FORWARD |
| QueryResolver.TwoSwitchExample | a3/a3sdn.cpp:472-521 | in a chain sw1 (0-499), sw2 (500-999), sw1's query for 600 is answered with FORWARD on port 2 over 500-999 |
| SwitchNode.ForwardByRule | a3/a3sdn.cpp:712-733 | rules, queue and pending keys are kept; ports 1 and 2 send exactly one packet, as RELAY; any other port, delivery on 3 included, changes nothing |
| SwitchNode.AdmitStep | a3/a3sdn.cpp:681-788 | after a RELAY or ADMIT the queue is unchanged, or has the packet appended as QUEUEDRELAY |
| SwitchNode.ReplayStep | a3/a3sdn.cpp:789-831 | a replayed packet that matches a rule leaves the queue, and its pending key is settled |
| SwitchNode.DrainN | a3/a3sdn.cpp:874-888 | replaying n queued packets consumes them, and puts back at most those n |
| SwitchNode.SwitchStep | a3/a3sdn.cpp:576-846 | every packet a switch handles keeps its queue made of queued relays |
| SwitchNode.Switch.constructor | a3/a3sdn.cpp:1076-1083 | a switch starts with one rule delivering its own range, an empty queue, nothing pending and nothing sent |
| SwitchNode.Switch.SendPacket | a3/a3sdn.cpp:429-468 | sending appends the packet and its receiver to the outbox, and succeeds |
| SwitchNode.Switch.ProcessRelayPacket | a3/a3sdn.cpp:524-553 | on a match: true, the rule's port, and that rule's count raised by one; else false, port 0 and the table unchanged |
| SwitchNode.Switch.FollowRule | a3/a3sdn.cpp:712-733 | acting on a matched port relays the packet, as RELAY, to neighbour 1 or 2 and counts it; delivery on port 3 is only printed, so it changes nothing, like a drop |
| SwitchNode.Switch.RelayOrAdmit | a3/a3sdn.cpp:681-788 | the RELAY/ADMIT handling updates the fields as `AdmitStep` says |
| SwitchNode.Switch.ProcessPacket | a3/a3sdn.cpp:576-846 | the fields and result after a packet are those `SwitchStep` gives |
| SwitchNode.Switch.ProcessPacketQueue | a3/a3sdn.cpp:874-888 | exactly the packets queued on entry are replayed, each once |
| SwitchNode.Switch.ReplayFront | a3/a3sdn.cpp:874-888 | one turn: the front packet is taken off and processed again |
| SwitchLemmas.ForwardAsksNothing | a3/a3sdn.cpp:712-733 | following a rule asks the controller nothing and leaves the table, queue and pending keys alone |
| SwitchLemmas.DrainAsksNothing | a3/a3sdn.cpp:874-888 | replaying the queue asks nothing and only settles pending keys |
| SwitchLemmas.AdmitAsksOnce | a3/a3sdn.cpp:684-710 | a miss asks about its key exactly when the key is not pending already, and leaves it pending |
| SwitchLemmas.StepAsks | a3/a3sdn.cpp:576-846 | no packet takes a question back; a key left pending was pending or has been asked |
| SwitchLemmas.SwitchStepKeepsAsked | a3/a3sdn.cpp:576-846 | invariant: every pending key has been asked about at least once |
| SwitchLemmas.ReplayKeepsMisses | a3/a3sdn.cpp:789-831 | a replayed packet goes back to the queue exactly when no rule matches it, and the rules stay |
| SwitchLemmas.DrainKeepsMisses | a3/a3sdn.cpp:874-888 | after n replays the rules are the same, the untaken packets lead the queue, and exactly the taken ones still unmatched follow, in order |
| SwitchLemmas.AddReplaysQueue | a3/a3sdn.cpp:663-680 | after an installing ADD the queue holds exactly the queued packets, in order, that the enlarged table does not match |
| SwitchLemmas.AddInstallsRule | a3/a3sdn.cpp:663-680 | after an ADD the rule exists; version 3 appends it only when absent, version 2 every time |
| SwitchLemmas.RepeatedAddIsIgnored | a3/a3sdn.cpp:663-680 | in version 3 a second identical ADD changes nothing but the received count |
| ControllerNode.ExitsTo | a3/a3sdn.cpp:351-367 | one EXIT for each switch of the chain, in chain order |
| ControllerNode.DrainN | a3/a3sdn.cpp:874-888 | answering n held queries removes exactly those from the front of the queue |
| ControllerNode.Added | a3/a3sdn.cpp:250-368 | `addSwitch` leaves the held queries and the skew flag alone |
| ControllerNode.Welcome | a3/a3sdn.cpp:612-622 | held queries stay well formed; when the chain is complete every held query is answered, leaving none; otherwise the held queries and the skew flag are unchanged |
| ControllerNode.Join | a3/a3sdn.cpp:598-622 | held queries stay well formed; the outcome is success, a forced exit of every switch, or the undefined read; only a success touches the held queries |
| ControllerNode.OpenStep | a3/a3sdn.cpp:593-628 | held queries stay well formed; an OPEN with a taken number or into a full network changes neither the chain nor the held queries |
| ControllerNode.ControllerStep | a3/a3sdn.cpp:576-846 | every packet the controller handles keeps its queue made of held queries |
| ControllerNode.Controller.constructor | a3/a3sdn.cpp:921-926 | the controller starts with an empty chain, nothing held and nothing sent |
| ControllerNode.Controller.SendPacket | a3/a3sdn.cpp:429-468 | sending appends the packet and its receiver to the outbox, and succeeds |
| ControllerNode.Controller.SwitchNumberNotInUse | a3/a3sdn.cpp:225-247 | true exactly when the number is not in the chain; a taken number is sent EXIT |
| ControllerNode.Controller.AddSwitch | a3/a3sdn.cpp:250-368 | the chain, outbox and counters change as `Added` says |
| ControllerNode.Controller.ShutDown | a3/a3sdn.cpp:351-367 | EXIT goes to every switch of the chain in order, then to the newcomer, and is counted that many times |
| ControllerNode.Controller.ProcessPacket | a3/a3sdn.cpp:576-846 | the fields and result after a packet are those `ControllerStep` gives |
| ControllerNode.Controller.ProcessOpen | a3/a3sdn.cpp:593-628 | the OPEN handling updates the fields as `OpenStep` says |
| ControllerNode.Controller.AcceptSwitch | a3/a3sdn.cpp:612-622 | a placed switch is ACKed; the one that completes the chain sets the skew flag and releases the held queries |
| ControllerNode.Controller.AnswerQuery | a3/a3sdn.cpp:629-647 | the asking switch is sent the rule the resolver computes |
| ControllerNode.Controller.ProcessPacketQueue | a3/a3sdn.cpp:874-888 | exactly the queries held on entry are answered |
| ControllerNode.Controller.AnswerFront | a3/a3sdn.cpp:874-888 | one turn: the front query is taken off and answered to the switch that asked it |
| ControllerNode.Controller.RemoveSwitch | a3/a3sdn.cpp:850-870 | the lost switch's number leaves the chain, and both socket tables close the gap at its index |
| ControllerNode.CloseGap | a3/a3sdn.cpp:850-870 | the entries after the index, up to the count, move one place down; the last of them also stays in place |
| ControllerLemmas.Answers | a3/a3sdn.cpp:874-888 | one answer per held query, in order, each to the switch that asked it |
| ControllerLemmas.DrainAnswersAll | a3/a3sdn.cpp:874-888 | answering n held queries sends exactly their answers, counts n ADDs and leaves the chain alone |
| ControllerLemmas.DrainOne | a3/a3sdn.cpp:874-888 | answering the n-th held query adds its answer and one ADD to the count |
| ControllerLemmas.ControllerStepKeepsChainOk | a3/a3sdn.cpp:576-846 | invariant: distinct switch numbers, no more switches than expected, queries held only while switches are missing |
| ControllerLemmas.OpenRefused | a3/a3sdn.cpp:593-628 | an OPEN with a taken number, or into a full network, gets EXIT and changes neither chain nor queue; only a taken number under version 2 reports success |
| ControllerLemmas.FatalOpenShutsDown | a3/a3sdn.cpp:351-367 | a newcomer that cannot be placed ends the controller after EXIT to every switch of the chain and to the newcomer |
| ControllerLemmas.QueryHeldUntilComplete | a3/a3sdn.cpp:629-647 | a QUERY is held, remembering who asked, exactly while switches are missing; otherwise it is answered at once |
| ControllerLemmas.LastJoinAnswersHeldQueries | a3/a3sdn.cpp:593-628 | the OPEN completing the network ACKs the newcomer, records the skew, answers every held query to its asker in order, and holds nothing |
| ControllerLemmas.RejoinAfterRemove | a3/a3sdn.cpp:850-870 | once a lost switch is removed, an OPEN with its number goes to placement again |
| Text.SkipSpaces | a1/a1jobs.cpp:127-131 | `atoi` skips exactly the leading white space |
| Text.LeadingDigits | a1/a1jobs.cpp:127-131 | `atoi` reads the longest run of digits at the front |
| Text.AtoiInvertsIntToString | a1/a1jobs.cpp:141-153 | `atoi` reads the decimal text of any integer back as that integer |
| Text.AtoiOfWord | a1/a1jobs.cpp:209-219 | a line starting with a letter reads as 0, as the argument text of a line with no space does |
| Text.Atoi | a1/a1jobs.cpp:141-153 | the value is negative only after a minus sign, and a string of digits reads as its decimal value |
| JobTable.Find | a1/a1jobs.cpp:25-45 | the position of a space at or after the start, or -1 |
| JobTable.FindIsFirst | a1/a1jobs.cpp:25-45 | no space comes between the start and the position found, and -1 means no space at all |
| JobTable.FieldsJoin | a1/a1jobs.cpp:25-45 | the fields joined with single spaces give back the input exactly |
| JobTable.FieldsHaveNoSpace | a1/a1jobs.cpp:25-45 | no field holds a space; empty fields are possible |
| JobTable.FieldsCount | a1/a1jobs.cpp:25-45 | there is one more field than there are spaces |
| JobTable.Fields | a1/a1jobs.cpp:25-45 | a line has at least one field, and the fields joined with single spaces give the line back |
| JobTable.ParseInput | a1/a1jobs.cpp:25-45 | with at most four spaces, all the fields are stored and counted; with five or more, the first five are stored and -1 is returned |
| JobTable.RunAdmits | a1/a1jobs.cpp:61-124 | a job is admitted exactly when there is room, there are at most five fields and the fork gave a child; it goes to the next slot with that index, and earlier jobs stay |
| JobTable.RunEffect | a1/a1jobs.cpp:61-124 | the table keeps its 32 slots; the count grows by at most one and never past 32; only the next free slot may change; a child or a failed fork changes nothing |
| JobTable.Run | a1/a1jobs.cpp:61-124 | the table and the job count change as `RunEffect` says |
| JobTable.TerminateIdempotent | a1/a1jobs.cpp:141-153 | terminating a job twice is the same as once, and the job ends terminated |
| JobTable.TerminateEffect | a1/a1jobs.cpp:141-153 | only the named job changes, and only its flag, which ends set |
| JobTable.Terminate | a1/a1jobs.cpp:141-153 | the named job ends terminated; it is killed only if it was live |
| JobTable.LivePids | a1/a1jobs.cpp:156-170 | the pids of live jobs, in table order |
| JobTable.TerminateAllEffect | a1/a1jobs.cpp:156-170 | every admitted job is terminated and the slots beyond are unchanged |
| JobTable.NothingLiveAfterExit | a1/a1jobs.cpp:156-170 | after `exitFunction` no admitted job is live, so a second call kills nothing |
| JobTable.ExitFunction | a1/a1jobs.cpp:156-170 | every admitted job ends terminated, and the live ones are killed in table order |
| JobTable.SplitCommand | a1/a1jobs.cpp:209-219 | with a space: the command word has no space, and word, space and argument text give back the line; without one: the line is both |
| Spawner.JobSpawner.constructor | a1/JobSpawner.cpp:3-6 | a new spawner has no jobs admitted |
| Spawner.JobSpawner.AddJob | a1/JobSpawner.cpp:8-11 | one more job is counted and no entry is written |
| Spawner.JobSpawner.ListJobs | a1/JobSpawner.cpp:13-23 | one row per admitted job, in order, terminated ones included |
| Spawner.JobSpawner.RunJob | a1/JobSpawner.cpp:25-88 | the job is stored exactly as `run` of a1/a1jobs.cpp stores it |
| Spawner.JobSpawner.SuspendJob | a1/JobSpawner.cpp:90-94 | SIGSTOP goes to the pid stored at the index the argument names |
| Spawner.JobSpawner.ResumeJob | a1/JobSpawner.cpp:96-100 | SIGCONT goes to the pid stored at the index the argument names |
| Spawner.JobSpawner.TerminateJob | a1/JobSpawner.cpp:102-114 | the job ends terminated; it is killed only if it was live |
| Spawner.JobSpawner.TerminateAllJobs | a1/JobSpawner.cpp:116-130 | every admitted job ends terminated, and the live ones are killed in order |
| Commands.KindOf | a1/CommandFactory.cpp:7-43 | exactly the seven command words are recognised, compared exactly, each giving its own kind |
| Commands.KindOfWord | a1/CommandFactory.cpp:7-43 | each kind is built from its own word, so words and kinds correspond one to one |
| Commands.ExecuteEffect | a1/Command.cpp:11-65 | every command keeps a table of 32 slots |
| Commands.ExecuteKeepsTable | a1/Command.cpp:11-74 | only run changes the job count, by at most one; every command keeps each job at its index; list, suspend, resume and quit leave the table alone |
| Commands.Command.constructor | a1/Command.cpp:3-5 | a command keeps its spawner and its argument text unchanged |
| Commands.Command.Execute | a1/Command.cpp:11-74 | the result is false exactly for exit and quit; the table changes as the one spawner procedure for the kind says, and quit touches nothing; run and quit signal nothing, suspend and resume signal the job's head pid, terminate signals it only when the job is not already terminated, list shows the admitted jobs and exit signals every live one |
| Commands.CreateCommand | a1/CommandFactory.cpp:7-43 | true exactly for the seven words, with a fresh command of that kind carrying the arguments unchanged; otherwise the command is left as it was |
| JobList.LiveCount | A1-Unix-Creating-And-Monitoring-Processes-master/linked_list.cpp:79-90 | the number of live entries, never more than the entries |
| JobList.Listing | A1-Unix-Creating-And-Monitoring-Processes-master/linked_list.cpp:58-76 | one row per live entry, numbered by its position among all entries, terminated ones included, in order |
| JobList.ListingCount | A1-Unix-Creating-And-Monitoring-Processes-master/linked_list.cpp:58-90 | the listing has as many rows as `getsize` counts, so "Empty List" means no live job |
| JobList.FindPid | A1-Unix-Creating-And-Monitoring-Processes-master/linked_list.cpp:28-39 | the first entry with the pid, or -1 when none has it |
| JobList.FindPidIgnoresFlags | A1-Unix-Creating-And-Monitoring-Processes-master/linked_list.cpp:28-39 | the search depends on the pids only, not on the terminated flags |
| JobList.Removed | A1-Unix-Creating-And-Monitoring-Processes-master/linked_list.cpp:28-39 | positions, pids and commands are kept; the first entry with the pid ends terminated; nothing changes when no entry has it |
| JobList.RemoveAgain | A1-Unix-Creating-And-Monitoring-Processes-master/linked_list.cpp:28-39 | removal keeps every position, pid and command; removing the same pid again succeeds again and changes nothing more |
| JobList.LiveCountUpdate | A1-Unix-Creating-And-Monitoring-Processes-master/linked_list.cpp:79-90 | changing one entry changes the live count by the change in that entry's liveness |
| JobList.RemoveLowersSize | A1-Unix-Creating-And-Monitoring-Processes-master/linked_list.cpp:28-39 | `remove` lowers `getsize` by one exactly when it finds a live job |
| JobList.AddedIsLive | A1-Unix-Creating-And-Monitoring-Processes-master/linked_list.cpp:17-25 | an added job is live at the new last position, raises `getsize` by one and is listed last |
| JobList.ListedPositionGivesPid | A1-Unix-Creating-And-Monitoring-Processes-master/linked_list.cpp:42-76 | the position printed for a job is the index `getpid` takes to find it |
| JobList.Node.constructor | A1-Unix-Creating-And-Monitoring-Processes-master/linked_list.cpp:4-9 | a node holds its four fields as given |
| JobList.LinkedList.constructor | A1-Unix-Creating-And-Monitoring-Processes-master/linked_list.cpp:12-14 | a new list holds only its head, so it has no entries |
| JobList.LinkedList.Add | A1-Unix-Creating-And-Monitoring-Processes-master/linked_list.cpp:17-25 | one live entry is appended at the tail, and the others are unchanged |
| JobList.LinkedList.Remove | A1-Unix-Creating-And-Monitoring-Processes-master/linked_list.cpp:28-39 | true exactly when some entry has the pid; the first such entry is marked terminated, and nothing is unlinked |
| JobList.LinkedList.MarkTerminated | A1-Unix-Creating-And-Monitoring-Processes-master/a1jobs.cpp:83-93 | the node at the position is marked terminated in place, and the rest stay |
| JobList.PidAt | A1-Unix-Creating-And-Monitoring-Processes-master/linked_list.cpp:42-55 | a pid other than -1 is the one `print` lists at that position |
| JobList.LinkedList.GetPid | A1-Unix-Creating-And-Monitoring-Processes-master/linked_list.cpp:42-55 | -1 for a negative index, an index past the end or a terminated node; otherwise that node's pid |
| JobList.LinkedList.Print | A1-Unix-Creating-And-Monitoring-Processes-master/linked_list.cpp:58-76 | the rows printed, and "Empty List" exactly when no job is live |
| JobList.LinkedList.GetSize | A1-Unix-Creating-And-Monitoring-Processes-master/linked_list.cpp:79-90 | the number of live entries |
| Tokenizer.SkipFrom | A1-Unix-Creating-And-Monitoring-Processes-master/shared_functions.cpp:13-17 | the first position from the start that is not white space, with only white space before it |
| Tokenizer.WordEnd | A1-Unix-Creating-And-Monitoring-Processes-master/shared_functions.cpp:13-17 | the end of the word: the first white space from the start, with none before it |
| Tokenizer.TokensFrom | A1-Unix-Creating-And-Monitoring-Processes-master/shared_functions.cpp:13-17 | every word extracted is nonempty and holds no white space |
| Tokenizer.Tokens | A1-Unix-Creating-And-Monitoring-Processes-master/shared_functions.cpp:13-17 | every word of a line is nonempty and holds no white space |
| Tokenizer.TokensCover | A1-Unix-Creating-And-Monitoring-Processes-master/shared_functions.cpp:13-17 | nothing is lost or reordered: the words put together are the line without its white space |
| Tokenizer.NoTokensIffBlank | A1-Unix-Creating-And-Monitoring-Processes-master/shared_functions.cpp:13-17 | a line yields no word exactly when it is empty or all white space |
| Tokenizer.GetVectorInput | A1-Unix-Creating-And-Monitoring-Processes-master/shared_functions.cpp:13-17 | the words are appended in order, and what the vector held stays its prefix |
| Shell.IsNumber | A1-Unix-Creating-And-Monitoring-Processes-master/a1jobs.cpp:46-58 | true exactly for a nonempty string of digits, so signs are refused |
| Shell.ReadIndex | A1-Unix-Creating-And-Monitoring-Processes-master/a1jobs.cpp:61-79 | the index read from digits is between 0 and INT_MAX, and is their value when that fits |
| Shell.ReadIndexOfNatToString | A1-Unix-Creating-And-Monitoring-Processes-master/a1jobs.cpp:61-79 | every index the listing shows is a number that reads back as itself |
| Shell.SignalTarget | A1-Unix-Creating-And-Monitoring-Processes-master/a1jobs.cpp:61-79 | a pid other than -1 is the pid of a live job |
| Shell.SendSignal | A1-Unix-Creating-And-Monitoring-Processes-master/a1jobs.cpp:61-79 | -1 unless there are two words and the second is a number naming a live job, whose pid it is |
| Shell.AllTerminated | A1-Unix-Creating-And-Monitoring-Processes-master/a1jobs.cpp:83-93 | every entry marked terminated, all else kept |
| Shell.LivePidsOf | A1-Unix-Creating-And-Monitoring-Processes-master/a1jobs.cpp:83-93 | one pid per live entry, as many as `getsize` counts |
| Shell.NoneLiveWhenAllTerminated | A1-Unix-Creating-And-Monitoring-Processes-master/a1jobs.cpp:83-93 | after the shutdown `getsize` is 0 |
| Shell.TerminateAllProcesses | A1-Unix-Creating-And-Monitoring-Processes-master/a1jobs.cpp:83-93 | every node ends terminated, no node is added or unlinked, and the live pids are killed in list order |
| Shell.TerminateNode | A1-Unix-Creating-And-Monitoring-Processes-master/a1jobs.cpp:83-93 | one node of the walk ends terminated; its pid is killed when it was live |
| Shell.RunEffect | A1-Unix-Creating-And-Monitoring-Processes-master/a1jobs.cpp:9-43 | existing entries are kept and at most one is appended; with 32 live jobs nothing changes |
| Shell.Run | A1-Unix-Creating-And-Monitoring-Processes-master/a1jobs.cpp:9-43 | with fewer than 32 live jobs, the parent appends the forked pid, or -1 for a failed fork, under the whole line; otherwise nothing changes |
| Shell.Handled | A1-Unix-Creating-And-Monitoring-Processes-master/a1jobs.cpp:96-152 | the loop ends exactly on the lines "quit" and "exit" |
| Shell.HandleInput | A1-Unix-Creating-And-Monitoring-Processes-master/a1jobs.cpp:96-152 | the list and the quit result after one line are those `Handled` gives |
| Shell.Dispatched | A1-Unix-Creating-And-Monitoring-Processes-master/a1jobs.cpp:117-148 | the list grows by at most one, and every entry keeps its position, pid and command |
| Shell.Dispatch | A1-Unix-Creating-And-Monitoring-Processes-master/a1jobs.cpp:117-148 | run with 2..6 words and terminate with 2 words change the list; every other word or word count changes nothing |
| Shell.QuitOnlyOnQuitOrExit | A1-Unix-Creating-And-Monitoring-Processes-master/a1jobs.cpp:96-152 | the loop ends exactly on "quit" and "exit", and after "exit" no job is live |
| Shell.LiveJobsBounded | A1-Unix-Creating-And-Monitoring-Processes-master/a1jobs.cpp:9-43 | no line brings the list above 32 live jobs |
| Shell.PositionsKept | A1-Unix-Creating-And-Monitoring-Processes-master/a1jobs.cpp:96-152 | no line unlinks a job: each keeps its position, pid and command, and the list grows by at most one |
| Shell.TerminateUnknownIndexHitsFailedFork | A1-Unix-Creating-And-Monitoring-Processes-master/a1jobs.cpp:139-143 | "terminate 9" with no job 9 calls `remove(-1)`, which marks terminated a job whose fork failed |

## Left out

- Sockets, FIFOs, `poll`, the controller and switch main loops, `pollUserInput` and the SDN `exitFunction` are I/O. A sent packet is a `Send` record in the node's outbox, and a received packet is a `processPacket` argument.
- `exit(0)` is the outcome `Exited`. The process does not end in the model; the state it leaves is the last one reached.
- The SIGUSR1 listing, `printMessage`, `list*` and the text `printPacketMessage` prints are display code. Only the label and payload choices are modelled.
- Reading the traffic file and the delay timing depend on a file and the wall clock.
- The raw struct bytes written to the wire are not modelled. A packet is a datatype whose payload shape `WellFormed` ties to its kind.
- The socket bookkeeping of `removeSwitch` is modelled as two integer arrays. The `pollfd` structures and closing the socket are left out.
- ControllerNode.Controller.RemoveSwitch: requires the two arrays to be distinct objects, as they are in the source.
- `fork`, `execlp`, `kill`, `waitpid`, `setrlimit` and the `times()` CPU report are process control. `forkPid` is a parameter, and procedures return the pids they would signal.
- The child branch of each `run` (the `execlp` call) is not modelled: there `forkPid` is 0 and this process's table does not change. The words handed to `execlp` are not modelled either.
- `JobSpawner::parseInput` is the same code as `parseInput` of a1/a1jobs.cpp, so `JobTable.ParseInput` models both.
- `list`, `suspend` and `resume` of a1/a1jobs.cpp are the same as the `JobSpawner` methods that model them.
- The seven-way dispatch in `main` of a1/a1jobs.cpp is the same word choice as `Commands.KindOf`.
- The printed rows are returned as a sequence instead.
- `run_main_loop` and `cleanup` of the second shell read lines and free the list. They add nothing beyond `Shell.HandleInput`.
- Spawner.JobSpawner.ListJobs: requires at most 32 admitted jobs. `addJob` does not check this, and the source would then read past the table.
- Spawner.JobSpawner.TerminateAllJobs: requires at most 32 admitted jobs, for the same reason.
- Spawner.JobSpawner.SuspendJob: requires the index to name a slot, 0..31. The source does not check, and reads out of bounds otherwise. The same holds for ResumeJob, TerminateJob, `JobTable.Terminate` and `Commands.Command.Execute`.
- Text.Atoi: does not model overflow of the C `int` that `atoi` returns; indices past 31 are refused before any large value matters.
- Shell.HandleInput: requires the line to be empty or to hold a word. A line of white space only makes the source index an empty word list.
- SwitchNode.Switch.SendPacket: every send succeeds and reports true. A failed FIFO `open` or `write` makes the source's `sendPacket` return false, and `processPacket` passes that false on (the a2 miss path does so); neither is modelled, because both depend on I/O.
- ControllerNode.Controller.SendPacket: every send succeeds and reports true, for the same reason. A false status from a failed send, and the main loop's rollback of a switch's socket bookkeeping after an OPEN that returned false, are not modelled.
- SwitchNode.Switch.ProcessPacket: the mutual recursion between `processPacket` and `processPacketQueue` is shown to end by a measure on packet kinds. The recursion depth is not a concern in the model.

## Behaviour as written

The model follows the code, including the following behaviour, which the descriptions of the programs do not mention.

- **Priority is not compared.** `processRelayPacket` declares its priority variable again inside the loop. So the rule chosen is the last matching one with priority at least MINPRI (`FlowTable.LastMatch`).
- **Out-of-range read in `addSwitch`.** The fallback step reads the record after the last one. The model gives that case the outcome `Undefined` (`Topology.Placement.ReadPastEnd`) and says nothing about the state it leaves.
- **The placement loop does not stop after a conflict.** A later record can still receive the newcomer while the failure stands (`Topology.PlaceSwitch`).
- **Unplaced newcomers can be ACKed.** A newcomer with both ports set that is linked with no record, in a nonempty chain, is ACKed but not added when the chain has one record, or when its number is not above the last record's.
- **The "sw" prefix is not checked.** `name.find("sw") >= 0` is always true for an unsigned result (`Names.SwitchPrefixNotChecked`).
- **Two-digit senders.** `determineFIFOName` inserts the receiver at a fixed position, so a two-digit sender gives a malformed name (`Names.FIFONameTwoDigitSender`).
- **Blank lines.** `handle_input` indexes the first word of a line of white space only, which has no words. The model excludes that line.
- **`terminate` with no argument.** With no space in the line, `main` of a1/a1jobs.cpp hands the whole line to `terminate`, whose `atoi` reads 0, so job 0 is terminated (`Text.AtoiOfWord`).
- **Unknown index hits a failed fork.** In the second shell, `terminate` with an index naming no live job calls `remove(-1)`. That marks terminated the first job whose fork failed (`Shell.TerminateUnknownIndexHitsFailedFork`).
- **`addJob` has no bound.** `JobSpawner::addJob` counts past the 32 slots.
