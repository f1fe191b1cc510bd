# dvbServe: a verified model of its core

dvbServe drives up to eight DVB tuners, lets clients ask for programs by network
id and service id, and forwards the transport packets of each program to files,
UDP and multicast addresses and HTTP clients. This project models six pieces of
it and proves what they are for.

* **Tuner and session allocator.** `TunerModel.dfy` and `AllocatorModel.dfy`
  describe the tuners, the live sessions and every step that changes them (load,
  start, scan tick, table arrival, add, program map, stop, reap, expire, retire)
  on values. `AllocatorSafety.dfy` carries one invariant through every step and
  every run; `AllocatorTheorems.dfy` says what it means to a user and
  `AllocatorOutcomes.dfy` what each request does for one; `TunerTables.dfy` says
  what the tables of a tuner hold after each update;
  `FrontendHistory.dfy` compares what the program believes of its frontends with
  what the hardware accepted.
  `TunerDevice.dfy` and `SessionServer.dfy` are the same program as objects
  updated in place by loops; `ServerRun.dfy` proves that any sequence of calls on
  those objects is a run of the step machine.
* **Doubly linked list** with a removing iterator: `LinkedList.dfy`.
* **Stream pipeline**: `Streams.dfy` (ghost histories of the two buffers),
  `StreamBuffers.dfy` (the byte arrays).
* **Dictionary**: `Dictionary.dfy`, a slot table that refines a finite map.
* **INI files**: `IniText.dfy` (what lines and files mean), `IniRoundTrip.dfy`
  (printing then loading), `IniLines.dfy` (hand-written text, line by line),
  `IniParser.dfy` (the loops), over the dictionary.
* **Calendar, URLs, tokens**: `Calendar.dfy`, `Url.dfy`, `Tokenizer.dfy`. The
  calendar implements annex C and section 5.2.4 of ETSI EN 300 468, the URL syntax
  is section 3 of RFC 3986.
* **Lock order**: `Locks.dfy`, all threads and all nested mutexes.

Steps of the allocator are atomic, the tuner start includes its first tune, and
each session has one drain thread whose turn drains and distributes in one step.
A destination is never null, a session lists at most 32 PIDs, all demultiplexer
handles are open, terrestrial frequencies are positive and fit in 32 bits,
satellite frequencies lie between 10700000 and 12750000 kHz, and satellite
delivery descriptors reach satellite tuners only. Input from hardware, clock and
random numbers is a parameter of the step it arrives in.

Where the code departs from its comments, or from what one would expect of it, the
model follows the code:

* `DVB/dictionary.c` says a key without a value is not possible; a null value is
  stored like any other, and the INI loader relies on it for section names.
* `DVB/utils.c` says a scheme has at least one character; an empty one is
  accepted. Digits, which RFC 3986 allows in a scheme, are refused.
* `linkedList_remove` returns 0 whatever happened (`DVB/linkedlist.c:66-74`), so
  only what it does to the list is stated.
* `destination_processFILE` computes when it is time to write and then assigns 1
  to the flag it tests, so it writes at every call (`DVB/destination.c:277-287`).
* The MJD decoder is exact for every MJD up to 88128 and wrong for every later
  one (`Calendar.MjdRoundTrip`). MJD 88127 is 28 February 2100, where the standard
  ends the formula's validity; 88128 is decoded as a 29 February that year does not
  have, which converts back to the right day, and from then on a day is lost.
* `dvbt_tune` stores the wanted frequency before it asks the hardware, keeps it
  when the hardware refuses, and its callers ignore the answer
  (`DVB/dvbhardware.c:930-956`). The next tune to that entry is skipped as "already
  on the frequency", so a session can run on a tuner whose hardware is elsewhere
  (`FrontendHistory.SessionWithoutHardware` is a run that gets there). In every
  reachable state the program's records agree with each other; the hardware is there
  if and only if the last call it accepted was for that frequency
  (`FrontendHistory.HardwareServesExactly`).
* The "already on the frequency" test of the satellite tuner compares a broadcast
  frequency with an intermediate frequency. It is fooled exactly by a list in which
  an entry's frequency is the intermediate frequency of another entry
  (`TunerModel.ShortcutExactForList`), which no list in the satellite band is.
* The lookups of channels and entries truncate to 16 bits and the count of matches
  does not. They agree on every list of 16-bit identifiers if and only if the
  request is 16 bits wide (`TunerDevices.LookupsExact`). The telnet command
  `session.check` hands unchecked integers to the count (`DVB/session.c:88-96`), so
  its answer can differ from what `session.start` would find, whose arguments
  `session_addNew` truncates to 16 bits (`DVB/session.c:334`).

## Model

| member | source | states |
|---|---|---|
| AllocatorTheorems.SessionsStayOnFrequency | DVB/session.c:406-465 | in every reachable state a live session's channel, with the service id it was asked for, is in the channel list of the entry its tuner is set to, the tuner is busy, and the frequency last asked of its frontend is that entry's (intermediate) frequency; whether the hardware is there is `HardwareServesExactly` |
| FrontendHistory.HardwareServesExactly | DVB/session.c:423-431 | in every reachable state the hardware under a live session is on the session's frequency if and only if it accepted a call for that frequency and has refused every call since |
| FrontendHistory.HardwareStandsExactly | DVB/dvbhardware.c:930-956 | in every reachable state, for every tuner: the same about its current entry; so the hardware is there whenever the last retune was accepted |
| FrontendHistory.RefusalSticks | DVB/dvbhardware.c:930-956 | after a refused terrestrial scan turn a session that claims the tuner for that entry asks nothing of the hardware, which stays where it was |
| FrontendHistory.SessionWithoutHardware | DVB/dvbhardware.c:755-770 | a concrete reachable state with a live session whose frontend hardware is on another entry's frequency |
| FrontendHistory.OutOfStep | DVB/dvbhardware.c:825-829 | until the reader notices, the sequence number it last saw equals the tuner's exactly when the number of retunes since is a multiple of 2^32 |
| FrontendHistory.StaleTablesIgnored | DVB/channels.c:23-24 | over any run in which the reader does not notice between 1 and 2^32-1 retunes, no program, service or network table changes anything |
| FrontendHistory.SyncCatchesUp | DVB/dvbhardware.c:825-829 | reading the stream brings the reader in step with the tuner and changes nothing else |
| AllocatorTheorems.ScanSparesSessions | DVB/dvbhardware.c:752-790 | in every reachable state a turn of the scan changes nothing if the tuner serves a session |
| AllocatorTheorems.ReferencesConserved | DVB/session.c:284-331 | in every reachable state a tuner's reference count is the number of live sessions bound to it and it is busy exactly while there is one |
| AllocatorTheorems.OneSessionPerProgram | DVB/session.c:394-404 | in every reachable state no two live sessions serve the same (onid, channel id) |
| AllocatorTheorems.FiltersAreOwned | DVB/session.c:650-673 | in every reachable state the 32-slot filter table holds no PID twice, and only base PIDs and PIDs of live sessions on that tuner |
| AllocatorTheorems.FrequenciesAreKeyed | DVB/dvbhardware.c:524-544 | in every reachable state the entries of a tuner have pairwise distinct keys, each entry's id is its position, and services are nonzero and distinct within an entry |
| AllocatorTheorems.RepeatOnlyAddsDestination | DVB/session.c:394-404 | asking again for a served program returns the running session's id and appends the destination to that session; tuners and other sessions stay as they are, except that live output of the requested kind is closed |
| AllocatorTheorems.NewSessionPlaced | DVB/session.c:404-498 | a new session goes to exactly one tuner and adds one reference there, a shared tuner stays where it is, all other tuners are untouched; the request fails only if every tuner that knows the program is busy on another frequency |
| AllocatorOutcomes.UnknownRefused | DVB/session.c:348-358 | a program that no tuner has in its channel lists is refused with 0 and nothing changes |
| AllocatorOutcomes.ServedExtended | DVB/session.c:348-404 | a program with a live session and found on any tuner gives that session's id and puts the destination at the end of that session's list |
| AllocatorOutcomes.NewProgramStarted | DVB/session.c:348-498 | a program without a session is started, with the new id and one session more, exactly if some tuner that has found it is unreferenced or set to the entry that carries it; otherwise 0 is returned and no tuner changes |
| AllocatorOutcomes.NewSessionTuned | DVB/session.c:406-465 | the session started is on the first such tuner, which is set to its channel's entry; the channel has the ids asked for; its program map PID is filtered unless the table is full, and joining takes no filter away |
| AllocatorOutcomes.StopExact | DVB/session.c:284-331 | stopping an id ends the first session that has it, wherever it stands; its tuner loses one reference and exactly that session's PIDs and is idle exactly if it has no other user; other tuners and sessions stay as they are |
| AllocatorOutcomes.StopUnknown | DVB/session.c:284-331 | stopping an id that no session has changes nothing |
| AllocatorOutcomes.ReapFilters | DVB/session.c:647-675 | a reaping pass takes from each tuner exactly the PIDs of the sessions it ends there and retunes nothing |
| AllocatorOutcomes.CloseTypeExact | DVB/destination.c:306-335 | closing a kind of output leaves all destinations of other kinds, in order, and none of that kind |
| AllocatorOutcomes.SparedExact | DVB/session.c:360-370 | a request for live output does this for its own kind, any other request for none |
| AllocatorOutcomes.RetireExact | DVB/destination.c:85-91 | a delivery drops exactly the expired destinations of its session and keeps the others in order |
| AllocatorOutcomes.NewPidsSingle | DVB/session.c:52-60 | a session never lists a PID twice |
| AllocatorTheorems.OnlyLiveOutput | DVB/session.c:360-370 | after a served request for live output, its destination is the only one of that kind in any session |
| AllocatorTheorems.ExpiredLeaves | DVB/destination.c:85-91 | a destination marked expired is gone after the next delivery, and the destinations that have not expired keep their order |
| AllocatorTheorems.ClaimFilters | DVB/session.c:423-437 | when claiming a tuner moved its frontend, exactly the four table PIDs and the session's program map PID are filtered |
| AllocatorTheorems.MapFiltersStreams | DVB/session.c:52-69 | after a program map the session lists all its streams behind those it listed before, and while the table has room exactly the new ones join the tuner's filters |
| AllocatorTheorems.StopUndoesAdd | DVB/session.c:284-331 | stopping the session a request started restores the session list (but for closed live output), all reference counts and all busy states |
| AllocatorTheorems.ReapKeepsTheServed | DVB/session.c:647-687 | a pass of the session thread keeps exactly the sessions that still have a destination, in order |
| AllocatorTheorems.ScanTunesTo | DVB/dvbhardware.c:755-789 | a scan turn that finds an entry leaves the tuner set to that entry, and its frequency last asked for |
| AllocatorTheorems.ScanAscends | DVB/dvbhardware.c:755-789 | over any run without a wrap-around the entries a tuner is set to by its scan are consecutive and ascending, however the list grows and whatever else happens |
| AllocatorTheorems.ScanCoversTheList | DVB/dvbhardware.c:1044-1078 | from the start of the list to the turn that wraps around, the scan stands on every entry exactly once, in order |
| AllocatorSafety.StepKeepsInv | DVB/session.c:334-498 | every step keeps the whole invariant: tuners consistent, sessions on frequency, references counted, no program served twice, no leftover PIDs |
| AllocatorSafety.ReachableInv | DVB/dvbhardware.c:696-798 | whatever the sequence of steps from power on, the invariant holds |
| AllocatorSafety.TunerAfterKeeps | DVB/dvbhardware.c:752-790 | a tuner's own thread never moves a busy tuner, never drops or reorders entries or channels, and filters nothing new but base PIDs |
| AllocatorSafety.AddKeepsInv | DVB/session.c:334-498 | adding a session keeps the invariant on every outcome: refused, extended, claimed, shared, no tuner left |
| AllocatorSafety.RemovalKeepsInv | DVB/session.c:294-316 | ending a session keeps the invariant, although a removed PID may have been shared |
| AllocatorSafety.ReapKeepsInv | DVB/session.c:647-687 | so does a whole reaping pass that removes while it walks |
| AllocatorSafety.MapKeepsInv | DVB/session.c:52-69 | so does a program map arriving |
| AllocatorSafety.PickSound | DVB/session.c:406-465 | the tuner picked knows the program and is unreferenced, or is referenced and stands on the program's own entry |
| AllocatorSafety.PickComplete | DVB/session.c:406-473 | no tuner is picked only if each one that knows the program is referenced and stands elsewhere |
| TunerModel.TuneReaches | DVB/dvbhardware.c:1005-1035 | whatever the frontend answers, a tune always ends with the tuner set to its entry and that entry's frequency the one last asked for: the shortcut never leaves the program's view behind; satellite frontends are asked for 950 to 2150 MHz |
| TunerModel.WhenTuneCalls | DVB/dvbhardware.c:1005-1035 | a satellite tune asks the hardware every time; a terrestrial one exactly when the wanted frequency differs from the recorded one, so never again for the entry it is set to, refused or not |
| TunerModel.TuneMovesHardware | DVB/dvbhardware.c:930-956 | a tune leaves the hardware on its entry's frequency exactly when it asks and is accepted, or the hardware was there before |
| TunerModel.LastAcceptedExact | DVB/dvbhardware.c:951 | the frequency the hardware is on is the one it accepted and has refused all others since |
| TunerModel.ShortcutExact | DVB/dvbhardware.c:1005-1035 | a satellite tune reaches its entry if and only if the tuner is on none or on that entry, or the entry's frequency is not the intermediate frequency of the one it is on |
| TunerModel.ShortcutExactForList | DVB/dvbhardware.c:1005-1035 | every tune in every order, whatever the answers, reaches its entry if and only if no entry's frequency is another's intermediate frequency |
| TunerModel.BandHasNoImages | DVB/dvbhardware.c:1014-1022 | a list of frequencies in the satellite band has no such pair |
| TunerModel.IntermediateOutOfBand | DVB/dvbhardware.c:1014-1022 | the converter's intermediate frequency for a satellite frequency is never itself a satellite frequency |
| TunerTables.ConverterExact | DVB/dvbhardware.c:1014-1022 | below 11.7 GHz the intermediate frequency is 9.75 GHz less than the broadcast one, from there on 10.6 GHz less |
| TunerModel.ShortcutNeedsTheBand | DVB/dvbhardware.c:1005-1035 | a list outside the satellite band on which the condition fails and the shortcut leaves the tuner on the wrong entry |
| TunerModel.AddPidRefines | DVB/dvbhardware.c:1163-1219 | adding a PID inserts it into a set of bounded size and keeps it single; the set is unchanged exactly when the PID is there or the table is full |
| TunerModel.RemovePidRefines | DVB/dvbhardware.c:1145-1161 | removing a PID deletes it from the set and keeps PIDs single |
| TunerModel.AddPidsExact | DVB/dvbhardware.c:1163-1219 | a series of additions is set union as long as the union fits the table |
| TunerModel.RemovePidsExact | DVB/session.c:295-299 | the removals at a session's end are set difference |
| TunerModel.FullTable | DVB/dvbhardware.c:1177-1193 | no free slot is left exactly when the set has as many members as the table has slots |
| TunerModel.ScanFilters | DVB/dvbhardware.c:755-785 | after the scan moved the frontend exactly the base PIDs are filtered, or none after a failed satellite retune |
| TunerTables.ScanFiltersTables | DVB/dvbhardware.c:755-785 | after a scan turn that was not refused each of the five table PIDs is filtered unless the filter table is full, retuned or not |
| TunerTables.StartExact | DVB/dvbhardware.c:171-189 | a tuner starts on its first entry, idle or failed as its thread runs, with exactly the five table PIDs filtered |
| TunerModel.ServicesStayDistinct | DVB/channels.c:12-61 | program and service tables keep service ids nonzero and distinct within an entry and never move or drop a channel |
| TunerTables.EntryAddedExactly | DVB/dvbhardware.c:592-612 | a frequency is appended, numbered by its place, exactly if no entry has it, for satellites with the same polarity |
| TunerTables.NetworkTableExactly | DVB/dvbhardware.c:491-547 | the same for network tables, ignored out of step |
| TunerTables.ServiceAddedExactly | DVB/channels.c:12-61 | a program table appends a channel exactly if its service id is nonzero and new |
| TunerTables.ServiceDescribedExactly | DVB/channels.c:103-119 | a service table gives the network id to the channel with that service id and to no other |
| TunerTables.TablesTouchCurrent | DVB/channels.c:12-122 | table data goes to the channel list of the current entry only |
| TunerModel.TablesMakeServable | DVB/channels.c:12-122 | once its program table and then its service table have arrived a program can be found on that tuner; tables from before a retune change nothing |
| TunerModel.CountedIffFound | DVB/channels.c:184-289 | a program is counted at least once exactly when both lookups find it, and the channel found belongs to the entry found |
| TunerModel.ScanKeeps | DVB/dvbhardware.c:752-790 | a scan turn keeps a tuner consistent and does nothing to a busy one |
| TunerDevices.TunerDevice.AddPidToDemux | DVB/dvbhardware.c:1163-1219 | the two scanning loops perform the table insertion; -1 exactly when the PID is absent and no slot is free |
| TunerDevices.TunerDevice.RemovePidFromDemux | DVB/dvbhardware.c:1145-1161 | the scanning loop performs the table deletion |
| TunerDevices.TunerDevice.DvbtTune | DVB/dvbhardware.c:916-961 | the in-place terrestrial tune is the tuning step, the parameter block changing even if the frontend refuses; it fails only if it retuned and the frontend refused |
| TunerDevices.TunerDevice.DvbsTune | DVB/dvbhardware.c:987-1042 | the in-place satellite tune is the tuning step; it fails only if it retuned and the frontend refused |
| TunerDevices.TunerDevice.GetInitialTuning | DVB/dvbhardware.c:1044-1060 | the entry at the scan's place, or none past the end |
| TunerDevices.TunerDevice.ScanTick | DVB/dvbhardware.c:752-790 | the scan part of the hardware thread is the scan step |
| TunerDevices.TunerDevice.AddInitialData | DVB/dvbhardware.c:592-612 | the search-and-append loop adds an entry exactly if no entry has its key, numbered by its position |
| TunerDevices.TunerDevice.AddSatelliteFrequency | DVB/dvbhardware.c:491-547 | the same for discovered frequencies, ignored before the tuner has noticed a retune |
| TunerDevices.TunerDevice.AddPAT | DVB/channels.c:12-61 | the in-place channel append is the table step |
| TunerDevices.TunerDevice.AddSDT | DVB/channels.c:88-122 | the in-place description of the first channel with the service id is the table step |
| TunerDevices.TunerDevice.IsProgramValid | DVB/channels.c:220-252 | the nested loops return one less than the number of matches in all channel lists |
| TunerTables.MatchesArePlaces | DVB/channels.c:220-252 | the count of matches is the number of places, over all entries and positions, that hold the program |
| TunerDevices.TunerDevice.GetChannelByNumber | DVB/channels.c:184-217 | the first channel, over entries then positions, that agrees in the low 16 bits; on 16-bit identifiers the program's own channel |
| TunerDevices.TunerDevice.GetFrequencyForTuner | DVB/channels.c:255-289 | the entry of that same first channel, or none |
| TunerDevices.LookupsTruncate | DVB/channels.c:205-241 | an identifier beyond 16 bits for which the count is zero and the lookup succeeds |
| TunerDevices.LookupsExact | DVB/channels.c:184-289 | in all lists of 16-bit identifiers a request is counted exactly when it is found, if and only if both its identifiers are 16 bits wide |
| SessionServers.SessionServer.Allocate | DVB/session.c:406-465 | the loop over the tuners claims or joins the tuner picked and leaves all others alone |
| SessionServers.SessionServer.AddSession | DVB/session.c:334-498 | the whole request is the add step, with the same number returned |
| SessionServers.SessionServer.StopSession | DVB/session.c:284-331 | stopping is the stop step; 0 exactly if a session has that id |
| SessionServers.SessionServer.StopType | DVB/session.c:265-282 | closes every destination of the kind in every session |
| SessionServers.SessionServer.ReapPass | DVB/session.c:647-687 | the removing walk is the reap step |
| SessionServers.SessionServer.AddSessionPid | DVB/session.c:52-69 | a PID the session lists is ignored, any other is listed and filtered |
| SessionServers.SessionServer.ProcessPmt | DVB/session.c:544-588 | reading a program map entry by entry is the program-map step |
| SessionServers.SessionServer.IsPidMine | DVB/session.c:743-777 | a session takes exactly the four table PIDs, its program map PID and its listed PIDs |
| ServerRuns.WantsExact | DVB/session.c:743-777 | with 16-bit PIDs a session takes PIDs 0, 16, 17 and 18, its program map PID and its listed PIDs, and nothing else |
| SessionServers.SessionServer.Recipients | DVB/session.c:501-541 | a packet is handed to exactly the sessions of its tuner that want its PID, each once |
| ServerRuns.FilteredIsWanted | DVB/session.c:743-777 | in every reachable state each filtered PID other than a base PID is wanted by a live session on that tuner |
| SessionServers.Release | DVB/session.c:295-310 | the removal loop and the dropped reference are the release step |
| SessionServers.Prune | DVB/destination.c:306-335 | removing while walking leaves exactly the destinations that should stay, in order |
| SessionServers.AddMapStep | DVB/session.c:544-564 | reading a program map entry by entry is reading it at once |
| ServerRuns.StepKeepsNarrow | DVB/channels.c:184-289 | with 16-bit tables and requests every identifier stays 16 bits wide, so truncation never matters |
| ServerRuns.Step | DVB/session.c:284-498 | every call on the running server is the corresponding step and keeps the invariant |
| ServerRuns.RunAll | DVB/session.c:284-693 | any sequence of calls on the objects is a run of the step machine |
| ServerRuns.Serve | DVB/dvbhardware.c:91-195 | from power on, the objects are always in a reachable state |
| LinkedLists.LinkedList.RemoveInternal | DVB/linkedlist.c:76-97 | one pass visits every node exactly once in order and leaves exactly the items that do not compare equal, in order; links, ends and count stay consistent |
| LinkedLists.LinkedList.IteratorRemove | DVB/linkedlist.c:323-390 | unlinks the node under the iterator, moves the iterator to its successor with correct cached neighbours, and keeps the list consistent |
| LinkedLists.LinkedList.Iterate | DVB/linkedlist.c:273-291 | moves to the next node with correct cached neighbours; at the end `current` stays on the last node |
| LinkedLists.LinkedList.CreateIterator | DVB/linkedlist.c:250-271 | stands on the first item, or nowhere in an empty list |
| LinkedLists.LinkedList.AppendInternal | DVB/linkedlist.c:130-170 | adds at the end, or refuses an item that compares equal to a present one and changes nothing |
| LinkedLists.LinkedList.InsertInternal | DVB/linkedlist.c:172-214 | the same at the front |
| LinkedLists.LinkedList.FindInternal | DVB/linkedlist.c:100-120 | the first item that compares equal, or none |
| LinkedLists.LinkedList.ScanInternal | DVB/linkedlist.c:218-235 | 0 exactly if some item compares equal |
| Dictionaries.Dictionary.Set | DVB/dictionary.c:221-275 | map update; keys stay distinct, hashes agree with keys and `n` counts the occupied slots, through growth as well |
| Dictionaries.Dictionary.Unset | DVB/dictionary.c:288-323 | map removal under the same invariant |
| Dictionaries.Dictionary.Get | DVB/dictionary.c:175-193 | the mapped value, or the default for an absent key; the hash filter never hides a key |
| Dictionaries.Dictionary.FindSlot | DVB/dictionary.c:181-190 | the hash-filtered search equals a plain key search |
| Dictionaries.Dictionary.FreeSlot | DVB/dictionary.c:263-268 | the cyclic search terminates on a free slot whenever one exists |
| Dictionaries.Dictionary.Grow | DVB/dictionary.c:247-259 | doubling the arrays preserves the map |
| Dictionaries.MapOfInserted | DVB/dictionary.c:263-274 | filling a free slot with a new key extends the map by that key and keeps keys distinct |
| Dictionaries.MapOfReplaced | DVB/dictionary.c:236-245 | overwriting a key's value slot updates the map at that key |
| Dictionaries.MapOfEmptied | DVB/dictionary.c:312-322 | emptying a slot removes exactly its key |
| Dictionaries.MapOfPadded | DVB/dictionary.c:38-49 | appended empty slots do not change the map |
| Dictionaries.FreeSlotExists | DVB/dictionary.c:263-268 | a table with fewer occupied slots than slots has a free one |
| Dictionaries.ComputeHash | DVB/dictionary.c:88-104 | the accumulating loop computes the 32-bit hash that the table's invariant is about |
| Dictionaries.HashKnown | DVB/dictionary.c:88-104 | the hash is Jenkins' one-at-a-time hash, on a known value |
| IniRoundTrip.PrintThenLoad | DVB/iniparser.c:663-717 | printing any well-formed configuration and loading the text gives back exactly its map, whatever slots the entries were in |
| IniRoundTrip.ParsePair | DVB/iniparser.c:555-613 | a printed pair, padded to 30 columns, parses back to the pair, empty values included |
| IniRoundTrip.PadBlanks | DVB/iniparser.c:260-263 | a printed key is padded with blanks to thirty columns |
| IniRoundTrip.ParseSection | DVB/iniparser.c:573-580 | a printed section header parses back to the name |
| IniRoundTrip.LoadSections | DVB/iniparser.c:206-268 | loading the printed sections adds exactly their pairs to what was loaded before |
| IniRoundTrip.SectionsMapIsAll | DVB/iniparser.c:244-268 | section by section, every entry is printed: none is missed and none is misplaced |
| IniParser.Load | DVB/iniparser.c:629-730 | the reading loop fills the dictionary with what the text means, and leaves none for a text it gives up on |
| IniLines.KindExact | DVB/iniparser.c:566-612 | which stripped lines are empty, comments, headers and syntax errors: an error is a line that is none of these and has no '=', or nothing in front of it |
| IniLines.CommentLine | DVB/iniparser.c:572-574 | a line whose first character behind blanks is '#' or ';' is a comment |
| IniLines.CommentIgnored | DVB/iniparser.c:693-696 | a comment line inserted anywhere among the lines of a file does not change what is loaded |
| IniLines.HeaderLine | DVB/iniparser.c:575-580 | a header gives its name in small letters, blanks around it dropped |
| IniLines.NamelessHeader | DVB/iniparser.c:575-580 | a header without a name keeps the section there is |
| IniLines.QuotedLine | DVB/iniparser.c:581-597 | a quoted value of either kind is what stands between the quotes, whatever follows the closing one, which may be missing |
| IniLines.PlainLine | DVB/iniparser.c:583-597 | a plain value ends at ';' or '#', blanks in front of it dropped |
| IniLines.EmptyLine | DVB/iniparser.c:598-608 | a key with nothing or only a comment behind it has the empty value |
| IniLines.EmptyQuotes | DVB/iniparser.c:589-595 | so has a key with an empty pair of quotes |
| IniLines.StripExact | DVB/iniparser.c:74-92 | stripping takes the blanks off both ends and nothing else |
| IniLines.LineStored | DVB/iniparser.c:692-714 | what each kind of line does: a pair is stored under its section, a header opens one and stores it without a value, both clear earlier errors |
| IniLines.LastErrorRejects | DVB/iniparser.c:709-728 | a file that ends with a syntax error is not loaded |
| IniLines.ErrorForgiven | DVB/iniparser.c:698-711 | a syntax error in front of a pair or a header is forgotten |
| IniLines.LinesJoin | DVB/iniparser.c:685-691 | a line that ends with a backslash is read as one with the next |
| IniLines.UnfinishedRejects | DVB/iniparser.c:668-678 | a last line without a newline, or a line too long for the buffer, spoils the whole file |
| IniLines.BlankLineOutOfBounds | DVB/iniparser.c:680-685 | a line of blanks is the case in which the source reads in front of its buffer |
| IniLines.BareReloads | DVB/iniparser.c:214-221 | a configuration without sections comes back with every key in a section without a name and missing values as "(null)" |
| IniParser.DumpIni | DVB/iniparser.c:206-230 | the two printing loops produce the printed form of the slots, the sectionless form included |
| IniParser.DumpThenLoad | DVB/iniparser.c:206-230 | writing a dictionary of well-formed slots out and loading the text gives a dictionary with the same contents |
| IniParser.DumpSectionIni | DVB/iniparser.c:244-268 | prints a header and, in slot order, the pairs whose key starts with the section and a colon |
| IniLines.PairsInOrder | DVB/iniparser.c:256-265 | of two entries of a section the one in the lower slot is printed first, each on its own line |
| IniParser.GetNSec | DVB/iniparser.c:112-127 | counts the keys without a colon |
| IniParser.SectionsCounted | DVB/iniparser.c:112-127 | the number of sections is the number of keys without a colon |
| IniParser.GetSecName | DVB/iniparser.c:143-163 | the section with that number in slot order, or none |
| IniParser.NthOrder | DVB/iniparser.c:206-230 | printing sections by number is printing them in slot order |
| IniParser.StrStrip | DVB/iniparser.c:74-92 | removes blanks at both ends |
| IniParser.StrLwc | DVB/iniparser.c:44-58 | lowers a text, cut to what the buffer holds |
| Common.LowerExact | DVB/iniparser.c:44-58 | capital letters become the small ones 32 places on, every other character and the length stay |
| Urls.RenderThenParse | DVB/utils.c:320-571 | every well-formed record is returned unchanged by parsing its rendering, absent and empty components kept apart |
| Urls.ParseThenRender | DVB/utils.c:320-571 | every accepted string is the rendering of its record up to lowercasing the scheme, and the record is well-formed |
| Urls.AcceptedExactly | DVB/utils.c:320-571 | the records the parser can return are exactly the well-formed ones |
| Urls.ParseUrl | DVB/utils.c:320-571 | the pointer-advancing parser accepts and fills in exactly what the grammar says |
| Urls.SchemeIsLower | DVB/utils.c:382-384 | the scheme of an accepted record holds small letters, '+', '-' and '.' only |
| Urls.SchemeExact | DVB/utils.c:308-314 | a scheme is accepted exactly if it is made of letters of either case, '+', '-' and '.'; it may be empty |
| Urls.AcceptedStrings | DVB/utils.c:320-571 | a string is accepted exactly when, its scheme in small letters, it is the rendering of a well-formed record |
| Urls.ReadUser | DVB/utils.c:397-450 | the user and password scans split the text as the grammar does and leave the rest |
| Urls.ReadServer | DVB/utils.c:454-528 | so do the host and port scans, brackets included |
| Tokenizer.Tokenize | DVB/utils.c:17-40 | never stores more than `reslen` results; they are the first nonempty maximal delimiter-free runs after leading spaces, each terminated in the modified buffer, all of them if they fit |
| Tokenizer.SkipSpaces | DVB/utils.c:22-24 | what is left behind the leading spaces: only spaces are skipped, and all of them |
| Tokenizer.LoneRun | DVB/utils.c:25-38 | a nonempty text without a delimiter is one run |
| Tokenizer.RunsCoverText | DVB/utils.c:17-40 | the runs are nonempty, delimiter-free and together are the text without its delimiters |
| Tokenizer.RunsSplit | DVB/utils.c:25-33 | runs never cross a delimiter: a text cut at one has the runs of both parts |
| Calendar.StampCountsSeconds | DVB/utils.c:240-261 | from 1970 on, with unbounded years, the stamp of the next second is one greater |
| Calendar.StampOrder | DVB/utils.c:240-261 | an earlier date-time has the smaller stamp, and only an earlier one |
| Calendar.LeapLoopClosedForm | DVB/utils.c:252-257 | the leap-year loop equals the Gregorian closed form |
| Calendar.SessionTimegm | DVB/utils.c:240-261 | the accumulating loop computes the stamp, -1 for refused fields |
| Calendar.RefusedExactly | DVB/utils.c:242-249 | exactly the fields out of range give -1; a 31st is accepted in every month |
| Calendar.MjdRoundTrip | DVB/utils.c:263-272 | decoding an MJD since 1970 and converting back is exact if and only if the MJD is at most 88128 |
| Calendar.MjdSeconds | DVB/utils.c:263-272 | beyond that the result is behind by the century days the formula takes for leap days |
| Calendar.MjdBefore1970 | DVB/utils.c:240-272 | every earlier non-negative MJD gives -1 at any time of day |
| Calendar.NeverOnABoundary | DVB/utils.c:265-267 | the two divided quantities are never whole numbers, so exact fractions may stand for doubles |
| Calendar.StartTimeExact | DVB/utils.c:277-293 | a 40-bit start time with a valid BCD time becomes 86400(mjd-40587)+3600h+60m+s, or -1 before 1970 |
| Calendar.DurationExact | DVB/utils.c:295-300 | a BCD duration becomes its number of seconds |
| Streams.HistoryAccounted | DVB/destination.c:117-171 | what a destination was handed, in order, is what it sent, dumped and still buffers; nothing else is lost or reordered |
| Streams.BytesConserved | DVB/destination.c:117-171 | bytes in = out + buffered + dropped, the fill pointer never reaches the size, and without overflow delivered plus buffered is the input exactly |
| Streams.DropsExactlyOnOverflow | DVB/destination.c:117-130 | one call keeps every byte if and only if chunk and buffer fit together |
| Streams.FileGetsWholeBlocks | DVB/destination.c:287-299 | with complete writes a file is a 4096-multiple prefix of its input, less than a block waits, and nothing is dropped while a chunk leaves room for a block |
| Streams.DatagramsAreThreePackets | DVB/destination.c:193-203 | every UDP datagram is three consecutive whole transport packets of the destination's input, even after dumps |
| Streams.UdpLosesNothing | DVB/destination.c:181-205 | handed at most three packets at a time, with every offered datagram sent, a UDP destination drops nothing: datagrams and what is buffered are its input exactly, and at most four packets wait |
| Streams.McastLosesNothing | DVB/destination.c:208-250 | with complete sends a multicast destination loses nothing: at most ten packets wait and every datagram is longer than ten |
| Streams.SendExact | DVB/destination.c:117-130 | what one hand-over sends and keeps, to the byte, for every kind of destination: the front of the buffer, as much as was offered and taken |
| Streams.ReaderGets | DVB/destination.c:146-171 | a web client gets nothing below fifty packets and from there on what it asks for or all there is, from the front |
| Streams.WebWaits | DVB/destination.c:174-178 | data for web clients waits in order |
| Streams.PipeSteps | DVB/destination.c:61-77 | a drain hands the whole session buffer to every destination, a reader touches its destination only |
| Streams.SessionAccounted | DVB/session.c:523-535 | the session buffer loses nothing but whole dumped runs and never reaches its size |
| Streams.SessionHoldsWholePackets | DVB/session.c:523-535 | written one packet at a time the session buffer always holds whole packets |
| Streams.SessionDumpsWholePackets | DVB/session.c:529-535 | what it sends on and what it dumps are whole packets too |
| Streams.SameStreamForAll | DVB/destination.c:61-115 | all destinations of a session are handed the same stream, the one the session drained |
| Streams.DestinationsIndependent | DVB/destination.c:80-115 | what a destination holds depends on its own operations alone |
| Streams.PacketsEndToEnd | DVB/destination.c:61-77 | from session buffer to datagram: every datagram is three consecutive whole packets of a stream that is what was written except for dumped runs |
| StreamBuffers.SessionBuffer.Write | DVB/session.c:523-535 | the copy into the session's byte array appends, or replaces everything on overflow |
| StreamBuffers.Destination.AddToBuffer | DVB/destination.c:117-130 | the copy into a destination's byte array appends, or empties it on overflow |
| StreamBuffers.Destination.ProcessUDP | DVB/destination.c:181-205 | copy, send and move down are one UDP step |
| StreamBuffers.Destination.ProcessMCAST | DVB/destination.c:208-250 | the same for multicast |
| StreamBuffers.Destination.ProcessFILE | DVB/destination.c:254-303 | the same for files |
| StreamBuffers.Destination.GetDataFromBuffer | DVB/destination.c:146-171 | an HTTP read takes the front of the buffer and moves the rest down |
| StreamBuffers.Destination.Process | DVB/destination.c:80-115 | a delivery to a destination of any kind is its kind's step |
| Locks.NoCircularWait | DVB/telnetservermanager.c:115-192 | with any number of threads and sessions no reachable state has a ring of threads each waiting for the next |
| Locks.AlwaysProgress | DVB/session.c:506-538 | in every reachable state, while any thread is inside an activity, some thread can take the lock it wants or give one back, without any new activity |
| Locks.ActivityOrdered | DVB/destination.c:85-120 | every activity takes its mutexes in the order users, commands, sessions, then destination list before destination buffer, session buffer, tuner; frequency list before channel list |
| Locks.StepKeepsInv | DVB/dvbhardware.c:1163-1219 | each acquisition and release keeps all threads on their nesting and every mutex with one owner |
| Locks.WaitingClimbs | DVB/channels.c:196-214 | a thread waits only for a lock ranked below what its holder waits for |

## Left out

- Device, socket, file and thread calls (`ioctl`, `poll`, `open`, `sendto`, `write`, `pthread_create`, `usleep`): their outcomes are parameters; a negative `write` ends the program in the source and is not a step here.
- The voltage and tone switches of a satellite converter: their answers are ignored by the source and they are taken to obey; the model of the hardware is the frequency its frontend last accepted, and that a refused request leaves it there is the driver's part.
- Interleaving inside a step: the source checks a tuner's state and reference count and acts without a common lock; steps are atomic here.
- The drain thread is started twice per claimed session (`DVB/session.c:440`, `DVB/session.c:487`); one drain thread is modelled.
- libdvbpsi: program, service and network tables are arbitrary inputs; their decoding is not part of this model.
- SQLite storage, the HTTP front end, the select loop, telnet commands, printing, help and login: plumbing and user interface, present in the lock model only.
- The claim that a live session's PIDs stay filtered: stopping a session removes PIDs another one may share, so only the other direction holds.
- `getChannelByNumber_addRef` (`DVB/channels.c:125-181`): a second allocation path that nothing calls.
- A failed tuner start with an empty frequency list, where the source follows a null pointer.
- Initial tuning files: splitting a line into fields; entries arrive as frequency and polarity. Bandwidth, code rate, modulation and symbol rate are not modelled, nor are channel and provider names, running status and service type.
- TunerDevices.TunerDevice.AddInitialData: one method for the terrestrial and the satellite loop, which differ in the comparison only; a frequency list is a sequence field that the methods reassign, so the linked nodes of `LinkedList.dfy` and pointers into them are positions here.
- TunerDevices.TunerDevice.ScanTick: the place of the scan is a field of the tuner, a local variable of the thread in the source.
- SessionServers.SessionServer.AddSession: sessions are records in a list that methods reassign; the back pointers between session and buffer, the second session record that is allocated and freed on refusal, and the order of freeing are not captured.
- SessionServers.SessionServer.AddSessionPid: the source has no bounds check on the 32-entry PID list; room, or a PID already listed, is a precondition.
- ServerRuns.Step: requests and table identifiers are 16 bits wide, as their fields in the source and on the wire are.
- Session ids are parameters; that random ids are distinct is required where it matters (`StopUndoesAdd`).
- Streams: a pipeline keeps a fixed set of destinations during a run; joining and leaving are steps of the allocator.
- StreamBuffers.SessionBuffer.Write: a single write larger than the buffer, which the source would copy past its end, is excluded.
- Linked lists: the `item` field, which goes stale, node data that is null, and destruction of a list.
- INI: NUL characters in a file, lines longer than the buffer (the source stops there, and so does the model), syntax-error counts (a later store overwrites them), getters for numbers and booleans. A whitespace-only line, where the source reads before its buffer, is the result `OutOfBounds`.
- IniParser.DumpSectionIni: a section name of 1024 characters or more, for which the source would write past its 1025-byte key buffer, is excluded.
- Calendar: 32-bit overflow of `365*(year-70)` (years are unbounded) and rounding of doubles (`NeverOnABoundary` shows why exact fractions stand for them).
- Urls.ParseUrl: memory allocation; characters are ASCII for letter tests.
- Allocation failure and use of freed memory everywhere.
- Vendored code (`DVB/Packages`, SQLite and compatibility headers).
