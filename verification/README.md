# libmsocket, modelled in Dafny

This project models libmsocket, the asynchronous socket library under `msocket/`, together with the
INI parser of `inilib/` and the timer list of `to.c`, and proves what they are for.

The C functions modelled here appear as methods over arrays, fields or linked nodes that take the
same branches, and are proved equal to functions on values. What the library promises is then
proved about those functions, for all inputs and over all runs.

| file | what it models |
|---|---|
| `SocketModel.dfy` | the state of the socket library between two calls, its functions as state changes, and its runs |
| `SocketSafety.dfy`, `SocketLookups.dfy`, `SocketRuns.dfy` | the parts of the joint invariant and what each step does to them |
| `SocketTheorems.dfy` | what holds in every run: memory safety, one query per socket, counting, confirmed names |
| `SocketDepartures.dfy`, `SocketNames.dfy`, `SocketCorpses.dfy`, `SocketLosses.dfy` | progress of lookups, and the places where the code departs from its intent: refused queries, names confirmed by line 717, corpses that housekeeping keeps or loses |
| `ResolverOutcomes.dfy`, `SocketOutcomes.dfy`, `SocketReaping.dfy` | what each step makes of its socket, told by the fields and tables before and after, a whole lookup, and which sockets housekeeping reaps |
| `SocketLibrary.dfy`, `SocketSession.dfy` | the library over global arrays and heap objects, proved to do what the model says, and any sequence of its calls as a run |
| `DnsCache.dfy`, `CacheOutcomes.dfy` | the DNS cache, the log of additions and sweeps it agrees with, and what lookups find |
| `Rfc4648.dfy`, `Ascii.dfy` | the Base64 encoding as RFC 4648 defines it, with its alphabet written out |
| `Base64.dfy`, `Base64Decoding.dfy` | the encoder and the decoder over octets, and what any alphabet characters decode to |
| `Passwords.dfy`, `PasswordOutcomes.dfy` | the password records built on it, and the verdicts on any record |
| `Ini.dfy`, `IniRoundTrip.dfy`, `IniOutcomes.dfy`, `IniParser.dfy` | what INI input means, the round trip through its canonical form, what each kind of line is read as, and the in-place parser |
| `Timers.dfy`, `TimerOutcomes.dfy`, `Throttle.dfy` | two doubly linked lists, refining a sequence and a map, and their whole-run laws |
| `ThrottleRule.dfy` | the documented throttling rule over the times of the marks, and when the code agrees with it |
| `Queues.dfy`, `QueueBuffers.dfy` | send and receive queues and their copy loops |
| `CStrings.dfy`, `Split.dfy`, `Common.dfy` | terminated strings, splitting, and shared definitions |

## Assumptions

- evdns answers each accepted query once, never before the call that issued it returns, and passes
  no records with an error; an application starts no second lookup on a socket that waits, and none on a destroyed one.
- The kernel hands out descriptors below `LMS_HIGHSOCK` that are not in use; a socket is opened and
  added to the mux once; application callbacks destroy no socket behind the library's back.
- The clock does not go backwards. `send` accepts a positive number of octets or fails, `recv`
  delivers between 1 and 1024 octets or ends the read.
- Memory does not run out. Reallocated and fresh memory holds arbitrary octets.
- A forward answer is cached under the host that was asked, though `msocket/dns.c:249-321` takes the
  key from memory the application passes. Confirmed names rest on this.
- Plain `char` is signed, as the negative entries of the Base64 table need.
- SHA-256 is any function from octet strings to 32 octets.

## Departures of the code from its intent

Each is kept as coded; the lemma beside it says exactly when it does no harm.

- `msocket/socket.c:508` tests the flags of the listed socket where the corpse's are meant:
  `RunsOnlyFaultInHousekeeping`, `HousekeepingCanFault`, `FinishedCorpseIsFreed`.
- `msocket/dns.c:717` compares with the candidate name, the comment at line 693 with the remote
  address: `CodedComparisonMisleads` is a run that confirms a wrong name, `CodedNamesAreConfirmed`
  says exactly which runs do not, and `NamesAreConfirmed` that none does in the documented reading.
  `NextLookupIsCached`: a name refused by line 717 is found by the next lookup, in the cache.
- `msocket/dns.c:411-418` and `577-578` ignore that evdns may refuse a query, after which the socket
  waits for ever: `RefusedQueryIsMissed`, `RefusedWaitsForEver`, `WithoutRefusals`.
- `msocket/dns.c:633-645` lets an unexpected error on the second attempt fall through to the tests of
  type and count. An error carries no records, so those end the lookup: `FallThroughGivesUp`.
- `msocket/socket.c:390-397` parks a corpse over another at the same descriptor, as the comment at
  line 382 fears: `CorpseIsLost`, `DestroyLoses`, `LostForHousekeeping`.
- `msocket/str.c:442-445` offsets the source where `msocket/socket.c:1089` and `1240` need the
  destination offset, and `msocket/socket.c:1306` passes a count that is too small: `CodedOrder`,
  `CodedReadIsRight`.
- `msocket/passwords.c:166` prints salt and hash as strings: `RawRecordAcceptsItself`,
  `RawRecordWithZeroInSalt`.
- `msocket/base64.c:100-118` folds the octet after the input into a last group of one:
  `EncoderIsRfc`, `DecodeInvertsEncode`.
- `msocket/base64.c:202-206` passes over characters outside the alphabet but counts their place:
  `InvalidLeavesStaleBits`.
- `inilib/ini.c:114-118` skips the white space of an empty value before it looks for a comment:
  `EmptyValueTakesComment`.
- The comment at `msocket/msocket-internal.h:102-107` throttles after five bad attempts in 30 minutes,
  until 30 minutes after the latest. The code counts every mark since a pass last found the latest
  one over 30 minutes old, whatever the marks span: `SlowMarksThrottle`, `UnseenGapsCount`.
  `DocumentedIsThrottled` says whom the rule throttles the code does too; `AgreesExactly`,
  `PromptAgreement` and `RunAgreesExactly` say exactly when the two agree.

Four places are read as intended, because what the code does there is undefined:

- `msocket/dns.c:853` takes the length of a host that may be null; it is stored as empty.
- `msocket/passwords.c:226` leaves the ninth salt octet unset on the Base64 path; it is zero, as line
  273 makes it on the raw path.
- `msocket/str.c:112` writes a terminator one past the last piece; every piece has a spare octet.
- `msocket/conn.c:206` follows a link of an entry just freed; a removed node stays readable.

## Model

| member | source | states |
|---|---|---|
| SocketTheorems.RunsKeepInv | msocket/socket.c:302-430 | the joint invariant of descriptor list, corpse table, mux event tables, outstanding queries, cache and names holds in every state of every run of open, mux, lookup, callback, destroy, close, housekeeping, sweep and clock steps, whatever resolver, kernel and application do |
| SocketTheorems.NoFreedSocketIsHeld | msocket/socket.c:302-430 | in every run, a socket still in the descriptor list, the corpse table, a mux event slot or an outstanding reverse query has not been freed |
| SocketTheorems.RunsOnlyFaultInHousekeeping | msocket/socket.c:494-579 | in every run, every possible next step touches only allocated sockets, except that the loop of housekeeping comes to a read through a null pointer (line 508) if and only if some descriptor has a corpse and no listed socket when it begins |
| SocketTheorems.StepIsDefined | msocket/mux.c:162-192 | under the invariant alone, each kind of step touches only allocated sockets, with the same one exception |
| SocketRuns.FaultsExactly | msocket/socket.c:504-513 | the rounds from any descriptor on reach the null pointer if and only if some descriptor from there on has a corpse and no listed socket before they begin: no round makes or mends that for another |
| SocketTheorems.StepKeepsInv | msocket/socket.c:302-430 | each step keeps the joint invariant |
| SocketTheorems.InitInv | msocket/socket.c:52-63 | the invariant holds after initialisation |
| SocketTheorems.WaitingIsOneQuery | msocket/dns.c:334-735 | in every run WAITDNS is set if and only if exactly one reverse query for the socket is outstanding or evdns refused one; never both |
| SocketTheorems.OneQueryIsOutstanding | msocket/dns.c:334-422 | under the invariant, one query and no second one is outstanding exactly when the query its state calls for is |
| SocketTheorems.AQueriesHaveCandidates | msocket/dns.c:593-735 | in every run an outstanding A-phase query asks for the candidate name of its socket, which is therefore not null |
| SocketTheorems.ActiveQueriesAreCounted | msocket/dns.c:203-213 | in every run the counter of active queries is outstanding reverse plus forward plus refused queries, is exact if and only if none was refused, and is positive whenever a callback is due |
| SocketTheorems.FourQueries | msocket/dns.c:334-735 | in every run one lookup issues at most four queries and its retry count is at most one |
| SocketTheorems.NamesAreConfirmed | msocket/dns.c:693-729 | with the comparison of the comment at line 693, in every run a confirmed name was given by a PTR answer for the address of the socket and an A answer for that name gave the address back, live or from the cache |
| SocketDepartures.CallbacksMakeProgress | msocket/dns.c:435-735 | across any callback of any run, retries left combined with the phase strictly decreases and stays non-negative |
| SocketDepartures.RetriesResetAtEnd | msocket/dns.c:435-735 | in every run a retry count is reset only by a callback of that socket after which none of its queries is outstanding |
| SocketDepartures.StepKeepsRetries | msocket/dns.c:435-735 | no step but its own callbacks changes the retry count of a socket |
| SocketDepartures.WithoutRefusals | msocket/dns.c:334-735 | in a run where evdns accepts every query, WAITDNS is set if and only if one reverse query is outstanding, and the counter is exact |
| SocketDepartures.HousekeepingCanFault | msocket/socket.c:506-513 | a concrete run after which housekeeping reads the flags of a null pointer |
| SocketNames.CodedNamesAreConfirmed | msocket/dns.c:693-731 | in a run with line 717 as coded, all confirmed names lead back to their sockets in all states if and only if no A reply was misleading: one for a socket that is no corpse, with an address that equals the candidate name, is not the remote address, and for a name no earlier answer led back |
| SocketNames.HarmlessRunsConfirm | msocket/dns.c:693-731 | in a run as coded without harmful replies (address equal to the candidate, not to the remote address) every confirmed name leads back |
| SocketNames.HarmfulReply | msocket/dns.c:717-731 | right after a harmful reply the candidate is the name, and it leads back if and only if some A answer gave the remote address before |
| SocketNames.CodedStepKeepsNames | msocket/dns.c:717 | as coded, every step that is not misleading keeps all names confirmed |
| SocketDepartures.CodedComparisonAgrees | msocket/dns.c:717 | for one callback, comparing with the candidate name has the documented outcome if and only if the socket is a corpse or the answered address equals both or neither of candidate name and remote address |
| SocketDepartures.CodedComparisonRejects | msocket/dns.c:717-731 | as coded, a name that does lead back to the address is given up unless it is spelled like the address |
| SocketDepartures.CodedComparisonMisleads | msocket/dns.c:717-731 | a concrete run in which the coded comparison confirms a name that does not lead back to the client |
| SocketDepartures.RefusedWaitsForEver | msocket/dns.c:411-418 | in every run, once evdns refused a query the socket stays allocated and waiting in all later states with no query outstanding |
| SocketDepartures.RefusedQueryIsMissed | msocket/dns.c:417-418 | a concrete run that ends with a socket waiting and no query outstanding |
| SocketDepartures.StepRefusal | msocket/dns.c:411-418 | no step takes a socket out of the refused, and none puts one in when evdns accepts |
| SocketCorpses.HousekeepingLeavesTidy | msocket/socket.c:504-513 | after housekeeping every corpse in the table still waits, or sits under a listed socket that does |
| SocketCorpses.FinishedCorpseIsFreed | msocket/socket.c:504-513 | housekeeping frees a corpse of the table that waits for nothing if and only if the socket listed at its descriptor does not wait: the effect of line 508 |
| SocketCorpses.DestroyLoses | msocket/socket.c:373-427 | destroying a socket makes the table lose another corpse if and only if that is at the same descriptor and the socket is parked there or was a corpse itself |
| SocketLosses.StepLosesExactly | msocket/socket.c:373-427 | after any step of a run a socket is a lost corpse if and only if it was one, or was a corpse and the step (a destroy, close, read event or housekeeping, under the condition given for each) loses it, and the step does not destroy that corpse itself |
| SocketLosses.LostByAStep | msocket/socket.c:373-427 | in every run a lost corpse was lost by such a step |
| SocketCorpses.LostForHousekeeping | msocket/socket.c:494-579 | a lost corpse is never freed by housekeeping |
| SocketCorpses.CorpseIsLost | msocket/socket.c:373-397 | a concrete run in which a corpse is lost |
| SocketDepartures.FallThroughGivesUp | msocket/dns.c:633-645 | an unexpected error on the second attempt gives the lookup up |
| SocketRuns.DestroyKeepsInv | msocket/socket.c:302-430 | destroying any allocated socket, listed or corpse, at any time keeps the invariant |
| SocketRuns.CloseKeepsInv | msocket/socket.c:263-294 | closing keeps the invariant |
| SocketRuns.OpenKeepsInv | msocket/socket.c:72-85 | entering a new socket at an unused descriptor keeps the invariant |
| SocketRuns.AddFdKeepsInv | msocket/mux.c:80-154 | registering with the mux keeps the invariant |
| SocketRuns.RemFdKeepsInv | msocket/mux.c:162-192 | removal from the mux keeps the invariant |
| SocketRuns.ReadKeepsInv | msocket/mux.c:216-264 | a read event, including the default error callback, keeps the invariant |
| SocketRuns.WriteKeepsInv | msocket/mux.c:276-311 | a write event keeps the invariant |
| SocketRuns.StartKeepsInv | msocket/dns.c:334-422 | starting a lookup keeps the invariant |
| SocketRuns.PtrReplyKeepsInv | msocket/dns.c:435-580 | a PTR callback keeps the invariant |
| SocketRuns.AReplyKeepsInv | msocket/dns.c:593-735 | an A callback keeps the invariant |
| SocketRuns.HouseFromKeepsInv | msocket/socket.c:494-579 | the rounds of housekeeping that are defined keep the invariant |
| SocketRuns.SweepKeepsInv | msocket/dns.c:130-154 | a cache sweep keeps the invariant |
| SocketRuns.ForwardKeepsInv | msocket/dns.c:227-324 | a forward answer keeps the invariant |
| SocketRuns.EventsAreOwned | msocket/mux.c:216-264 | a socket with a mux event slot is the listed socket of that descriptor |
| SocketSafety.DestroyKeepsTables | msocket/socket.c:302-430 | destroy keeps the table invariant: a listed socket is allocated, at its own descriptor and not marked WAITDESTROY, a corpse is allocated, at its own descriptor and marked, a mux event belongs to the listed socket and that is marked MUXACTIVE |
| SocketSafety.DestroyFrees | msocket/socket.c:390-427 | destroy frees a socket exactly when nothing is awaited for it, and touches no other lookup, query, counter or cache record |
| SocketLookups.FoundIsSourced | msocket/dns.c:758-794 | what a lookup in a sound cache finds goes back to an answer received |
| SocketLookups.CachedPairConfirms | msocket/dns.c:340-400 | a cached PTR record and a cached A record that gives the same address back confirm the name |
| SocketLibrary.Library.constructor | msocket/socket.c:52-63 | all four tables empty, no query active |
| SocketSession.Session.NothingFreedIsHeld | msocket/socket.c:302-430 | after any sequence of calls and events on the heap no table and no outstanding query points at a freed socket |
| SocketSession.Session.constructor | msocket/socket.c:52-63 | a fresh library is at the beginning of a run |
| SocketSession.Session.Open | msocket/socket.c:72-85 | opening at an unused descriptor extends the run |
| SocketSession.Session.AddFd | msocket/mux.c:80-154 | registering extends the run |
| SocketSession.Session.RemFd | msocket/mux.c:162-192 | removal of any descriptor extends the run |
| SocketSession.Session.FindRev | msocket/dns.c:334-422 | starting a lookup extends the run |
| SocketSession.Session.PtrAnswered | msocket/dns.c:435-580 | a PTR callback extends the run |
| SocketSession.Session.AAnswered | msocket/dns.c:593-735 | an A callback extends the run |
| SocketSession.Session.Destroy | msocket/socket.c:302-430 | destroying any allocated socket extends the run |
| SocketSession.Session.Close | msocket/socket.c:263-294 | closing any allocated socket extends the run |
| SocketSession.Session.OnReadable | msocket/mux.c:216-264 | a read event extends the run |
| SocketSession.Session.OnWritable | msocket/mux.c:276-311 | a write event extends the run |
| SocketSession.Session.Housekeeping | msocket/socket.c:494-579 | housekeeping extends the run wherever it does not fault |
| SocketSession.Session.CleanCache | msocket/dns.c:130-154 | a sweep of the cache extends the run |
| SocketSession.Session.LookUp | msocket/dns.c:203-206 | a forward lookup extends the run |
| SocketSession.Session.LookedUp | msocket/dns.c:227-324 | a forward answer extends the run |
| SocketLibrary.Library.LookUp | msocket/dns.c:203-206 | an accepted forward query is counted |
| SocketLibrary.Library.RecvForward | msocket/dns.c:227-324 | a forward answer is counted off and cached |
| SocketLibrary.Library.AddFd | msocket/mux.c:80-154 | both event slots of the descriptor become the socket and MUXACTIVE is set; the whole new state is stated |
| SocketLibrary.Library.RemFd | msocket/mux.c:162-192 | nothing, or both event slots cleared and MUXACTIVE cleared on the listed socket |
| SocketLibrary.Library.Dismantle | msocket/socket.c:346-430 | the listed socket leaves the list and is freed or parked as a corpse; a corpse is freed or parked again |
| SocketLibrary.Library.Destroy | msocket/socket.c:302-430 | mux removal, then the above; the whole new state is stated |
| SocketLibrary.Library.Close | msocket/socket.c:263-294 | a corpse is refused with -1; any other socket is taken off the mux, its queue flushed, and destroyed |
| SocketLibrary.Library.FindRev | msocket/dns.c:334-422 | new state and return code of a lookup for every cache content, issuing at most one query |
| SocketLibrary.Library.Retry | msocket/dns.c:470-507 | one more attempt if none was made, otherwise the lookup is given up with its counter reset |
| SocketLibrary.Library.CheckCandidate | msocket/dns.c:533-579 | the candidate is confirmed, given up or asked for, by what the cache holds for it |
| SocketLibrary.Library.PtrFound | msocket/dns.c:512-579 | the PTR answer is remembered and cached, then checked unless the socket is a corpse |
| SocketLibrary.Library.RecvRevA | msocket/dns.c:435-580 | new state for every PTR answer: error, retry, wrong type, name |
| SocketLibrary.Library.AFound | msocket/dns.c:693-734 | the A answer is cached and the name confirmed or given up, with the comparison of either reading |
| SocketLibrary.Library.RecvRevB | msocket/dns.c:593-735 | new state for every A answer, including the fall-through of an unexpected error on the second attempt |
| SocketLibrary.Library.AError | msocket/dns.c:608-645 | what an error reply does, and when it falls through |
| SocketLibrary.Library.ErrorCallback | msocket/conn.c:162-177 | a corpse that waits stays, any other socket is destroyed |
| SocketLibrary.Library.OnReadable | msocket/mux.c:216-264 | a connected stream is destroyed if its peer is gone and otherwise notes the time; nothing else changes |
| SocketLibrary.Library.OnWritable | msocket/mux.c:276-311 | the connection is made, and a flush that got something out notes the time |
| SocketLibrary.Library.Open | msocket/socket.c:668-750 | a fresh socket with its open-time fields, listed at its descriptor |
| SocketLibrary.Library.HouseRound | msocket/socket.c:504-576 | one round of housekeeping: corpse, connection timeout, listener, idle, flush |
| SocketLibrary.Library.Housekeeping | msocket/socket.c:494-579 | all rounds in order and the number of sockets reaped, where no round is undefined |
| ResolverOutcomes.UnknownAddressIsAsked | msocket/dns.c:415-421 | with no PTR record cached: exactly one PTR query for the remote address more, the socket waits, nothing else differs, result 0 |
| ResolverOutcomes.NegativePtrEnds | msocket/dns.c:345-355 | a negative PTR record: no longer waiting, no name, no candidate, nothing asked, result 2 |
| ResolverOutcomes.UnknownHostIsAsked | msocket/dns.c:401-412 | a PTR record and no A record for its host: that host is the candidate, exactly one A query for it more, result 0 |
| ResolverOutcomes.CachedPairDecides | msocket/dns.c:357-400 | both records: the name is the host of the PTR record if and only if the A record is positive and has the remote address, with result 1, and else there is none, with result 3; nothing is asked and the wait is over |
| ResolverOutcomes.CodeTells | msocket/dns.c:334-422 | the result is 0 if and only if the socket waits and one more query is active, and 1 if and only if there is a name |
| ResolverOutcomes.PtrVerdictEnds | msocket/dns.c:450-467 | server failure, no such name and unknown error end the lookup without a name and reset the retries; no such name alone is cached, negative, for 3600 seconds |
| ResolverOutcomes.OddPtrIsRetriedOnce | msocket/dns.c:468-510 | any other error, or an answer that is no host name: a first one leads to a second attempt with retry count 1, a second one gives up |
| ResolverOutcomes.SecondAttemptAsksAgain | msocket/dns.c:468-510 | with nothing cached, the second attempt asks exactly the PTR query again |
| ResolverOutcomes.PtrNameIsChecked | msocket/dns.c:512-580 | a host name is cached for the remote address and becomes the candidate; then, unless the socket is a corpse, the cached A record confirms it, refutes it, or is asked for |
| ResolverOutcomes.NoCandidateNoAnswer | msocket/dns.c:609-612 | an A answer for a socket without a candidate changes nothing |
| ResolverOutcomes.AVerdictEnds | msocket/dns.c:614-632 | the same three verdicts end the lookup; no such name alone is cached for the candidate, negative, for 600 seconds |
| ResolverOutcomes.OddAIsRetriedOnce | msocket/dns.c:633-691 | an unexpected first error, another type or a count other than one: retried once from the start without a candidate, then given up |
| ResolverOutcomes.OneAddressDecides | msocket/dns.c:693-734 | one address is cached for the candidate; unless the socket is a corpse the lookup ends, with the candidate as name if and only if the address is the remote one (as documented) or the candidate (as coded) |
| ResolverOutcomes.RepliesAreCounted | msocket/dns.c:439-441 | each callback counts its query off, once, before it does anything else |
| ResolverOutcomes.ForwardAnswersAreCached | msocket/dns.c:227-324 | a forward answer is counted off and its first address, or that there is none, is cached for the host asked |
| ResolverOutcomes.LookupGivesName | msocket/dns.c:334-735 | a whole lookup that starts with nothing cached: both questions are outstanding when answered, and at the end the name is there exactly as documented, or as coded, and the counter is what it was |
| ResolverOutcomes.NextLookupIsCached | msocket/dns.c:340-400 | after such a lookup, if the cache had room, the next one for the same address asks nothing and gets the documented outcome, even where line 717 gave the first none |
| SocketOutcomes.StartsEmpty | msocket/socket.c:52-63 | 32768 unused descriptors, 30000 free cache slots, nothing asked |
| SocketOutcomes.ElsewhereOutcomes | msocket/dns.c:130-154 | cleaning empties exactly the slots expired by the time of the call and touches nothing else; so for the clock and for forward queries |
| SocketOutcomes.OpeningLists | msocket/socket.c:668-750 | the fields of a new socket, its place in the list, and that nothing else differs |
| SocketOutcomes.JoiningSetsBoth | msocket/mux.c:80-154 | both event slots of the descriptor hold the socket, MUXACTIVE is set, and nothing else differs |
| SocketOutcomes.LeavingClearsBoth | msocket/mux.c:162-192 | both event slots are empty and the socket that was in them is not MUXACTIVE; without an event nothing differs |
| SocketOutcomes.DestroyUnlists | msocket/socket.c:302-430 | a listed socket leaves the list and both event slots; it is freed if it waits for nothing, and else kept as the corpse of its descriptor, marked, and neither connected, ready nor active |
| SocketOutcomes.DestroyRevisits | msocket/socket.c:373-388 | a corpse is freed and its slot emptied if it waits for nothing, and else put back into its slot |
| SocketOutcomes.CloseFlushesAndDestroys | msocket/socket.c:263-294 | closing is, but for a corpse, noting the time of a flush that sent something and destroying |
| SocketOutcomes.ReadableOutcome | msocket/mux.c:216-264 | a connected stream is destroyed or notes the time; any other socket is left alone |
| SocketOutcomes.WritableOutcome | msocket/mux.c:276-311 | connected, no longer connecting, the time noted if something was sent, and nothing else |
| SocketReaping.HousekeepingReaps | msocket/socket.c:504-576 | for a housekeeping that does not fault: a listed socket leaves the list if and only if no corpse is dealt with in its place and it is connecting for longer than its limit, or is no listener, may not idle, and both sent and received last at least 3600 (local client) or 600 seconds ago; it is then freed, or parked if it waits. Any other stays as it was, but for the time of a flush |
| SocketReaping.HousekeepingCounts | msocket/socket.c:494-579 | the result is the number of descriptors whose socket left the list |
| DnsCache.LookupAgreesWithLog | msocket/dns.c:758-794 | after any history of additions and sweeps a lookup succeeds if and only if some accepted addition under that key (address for PTR, host without regard to case for A) was not swept since, and returns such a record |
| DnsCache.CacheAgreesWithLog | msocket/dns.c:804-896 | the array holds exactly the records of the accepted additions that no sweep has reached |
| DnsCache.KeptFiveMinutes | msocket/dns.c:873-891 | for any reported TTL an accepted record stays findable while every later sweep comes less than 300 seconds after it |
| DnsCache.GoneAfterADay | msocket/dns.c:130-154 | after a sweep no record stems only from additions 86400 seconds or more before it |
| DnsCache.AddFillsAnEmptySlot | msocket/dns.c:804-896 | an addition never overwrites a live slot, changes one slot if accepted and none if not, and reports a full cache if and only if all slots are live |
| DnsCache.Lifetime | msocket/dns.c:873-891 | the clamped lifetime lies between 300 and 86400 seconds |
| DnsCache.FirstFromIsFirst | msocket/dns.c:758-794 | a lookup returns the first answering slot, and misses only when none answers |
| DnsCache.Cache.FindInCache | msocket/dns.c:758-794 | the index loop finds what the specification finds |
| DnsCache.Cache.GetCacheSlot | msocket/dns.c:941-957 | the first free slot, or the size of the array |
| DnsCache.Cache.AddCache | msocket/dns.c:804-896 | the whole new array and the result, refusals included |
| DnsCache.Cache.CleanCache | msocket/dns.c:130-154 | exactly the expired slots are emptied |
| CacheOutcomes.LookupOutcome | msocket/dns.c:758-794 | a lookup finds the first slot whose record has the type and the address asked for, or the host up to the case of ASCII letters, and nothing if there is none |
| CacheOutcomes.CaseDoesNotMatter | msocket/dns.c:784-790 | host names that differ only in the case of the letters A to Z find the same record |
| CacheOutcomes.AdditionCodes | msocket/dns.c:812-849 | which additions are refused for their type, for having nothing in them, and for want of a slot |
| CacheOutcomes.AdditionFills | msocket/dns.c:819-893 | an accepted addition fills the first free slot with the given address, host, sign and expiry |
| CacheOutcomes.AddedPtrIsFound | msocket/dns.c:804-896 | after an accepted PTR answer for an address that had none, that address finds its record: negative if and only if no host was given, with the host, and expiring after 600 (no TTL), 300 (below 300), TTL (up to 86400) or 86400 seconds |
| CacheOutcomes.AddedAIsFound | msocket/dns.c:804-896 | the same of an A answer for a host |
| CacheOutcomes.OthersFindTheSame | msocket/dns.c:804-896 | an addition changes no lookup of the other type, or about another address or host |
| Base64.DecodeInvertsEncode | msocket/base64.c:73-250 | decoding an encoding gives back exactly the octets, whatever octet was folded into a last group of one |
| Base64.EncoderIsRfc | msocket/base64.c:73-121 | the output is the encoding of section 4 of RFC 4648, over the alphabet of its Table 1 written out, if and only if the length mod 3 is not 1 or the following octet is below 16 |
| Base64.DecodeFailsExactly | msocket/base64.c:155-250 | on any string decoding fails if and only if the first padding or terminator is at a bad place in its group, or a needed second padding character is missing |
| Base64.DecodeFits | msocket/msocket-internal.h:342-344 | at most 3*(n/4+1) octets are written, failing or not, and a success returns all that was written |
| Base64.TablesAreInverse | msocket/base64.c:44-62 | the decoding table inverts the encoding table |
| Base64.TableIsAlphabet | msocket/base64.c:44 | the v-th entry of the encoding table is the v-th character of Table 1 of RFC 4648, for all 64 |
| Base64.DecodingTableIsAlphabet | msocket/base64.c:45-62 | the decoding table has the value v for a character if and only if that is the v-th of Table 1 |
| Base64.StrayOctetIsEncoded | msocket/base64.c:100-118 | with one octet left over, all but the padding is what the RFC makes of the octets and the one after them |
| Base64Decoding.DecodesFours | msocket/base64.c:155-250 | any characters of the alphabet decode, by fours, to the three octets their values spell |
| Base64Decoding.DecodesTwo | msocket/base64.c:170-201 | two more and two of padding are one octet more, whatever comes behind |
| Base64Decoding.DecodesThree | msocket/base64.c:170-201 | three more and one of padding are two octets more |
| Base64Decoding.InvalidLeavesStaleBits | msocket/base64.c:202-206 | a concrete string: a character outside the alphabet takes up a place and leaves bits of the group before in the output |
| Base64.Coded | msocket/base64.c:73-121 | the encoding has 4*ceil(n/3) characters |
| Base64.StoresInvert | msocket/base64.c:203-243 | the scratch buffer gets back each octet of a group from its sextets |
| Base64.EncodeGroups | msocket/base64.c:89-98 | the index-juggling loop writes the encoding of all full groups |
| Base64.EncodeLastOne | msocket/base64.c:100-118 | a last group of one, with the octet after it folded in |
| Base64.EncodeLastTwo | msocket/base64.c:100-118 | a last group of two |
| Base64.Encode | msocket/base64.c:73-121 | null and empty input refused; otherwise encoding, terminator, and the rest of the buffer untouched |
| Base64.StoreValue | msocket/base64.c:203-243 | one character of the alphabet, by its position |
| Base64.DecodeString | msocket/base64.c:155-250 | the loop ends at the terminator at the latest, writes the decoded octets and nothing beyond them |
| Base64.Decode | msocket/base64.c:130-251 | null pointer or number of octets written, for every terminated string |
| Passwords.B64RecordAccepts | msocket/passwords.c:206-446 | for every password, salt, candidate and hash function, a Base64 record is well formed and accepts the candidate if and only if its salted hash is the one the record was made with |
| Passwords.RecordParses | msocket/passwords.c:117-158 | the printed record is not cut short, has no zero octet, and its fields are found again |
| Passwords.FieldIsPlain | msocket/passwords.c:806-823 | no separator and no zero octet occurs in a Base64 field |
| Passwords.RawRecordAccepts | msocket/passwords.c:265-317 | without zero octets in salt and hash a raw record in any buffer accepts exactly the candidates with the same salted hash |
| Passwords.RawRecordAcceptsItself | msocket/passwords.c:160-167 | for a salt without zeros, a raw record accepts its own password in every buffer if and only if the first 31 hash octets have no zero |
| Passwords.RawRecordWithZeroInSalt | msocket/passwords.c:160-167 | for a salt with a zero, it accepts its own password in every buffer if and only if one exactly described coincidence of hashes occurs |
| Passwords.EncodePassword | msocket/passwords.c:59-173 | null arguments refused; otherwise the record, a terminator and the untouched rest of the buffer |
| Passwords.GetSalt | msocket/passwords.c:806-823 | copies up to the separator and returns one more than what it copied |
| Passwords.CheckRawRecord | msocket/passwords.c:233-317 | verdict on a raw record, read at fixed places |
| Passwords.DecodeSalt | msocket/passwords.c:365-409 | the decoded salt read as a string, with its ninth octet zero |
| Passwords.CheckB64Record | msocket/passwords.c:318-442 | verdict on a Base64 record by the first 32 octets of its hash field, -1 if a field does not decode |
| Passwords.CheckPassword | msocket/passwords.c:206-446 | both formats and the null arguments |
| PasswordOutcomes.B64RecordIs | msocket/passwords.c:117-158 | the record is "1|", the RFC encoding of the salt, a bar and that of the hash of salt and password |
| PasswordOutcomes.RawRecordIs | msocket/passwords.c:160-167 | the octet 1, a bar, the salt, a bar and the hash, where neither has a zero |
| PasswordOutcomes.OtherVersionIsRefused | msocket/passwords.c:331-363 | an empty record or one of a version other than 1 accepts no password, with result 0 |
| PasswordOutcomes.B64Outcome | msocket/passwords.c:365-442 | for any two fields between bars: -1 if and only if one does not decode, and 1 if and only if both do and the first 32 octets of the second are the hash of salt and password |
| PasswordOutcomes.RawOutcome | msocket/passwords.c:233-317 | for any 43 octets or more: 0 for another version, -1 if a separator is missing, and else whether the hash is that of salt and password |
| PasswordOutcomes.ShortRawRecords | msocket/passwords.c:233-261 | the same verdicts where less of a record has to be read |
| IniRoundTrip.RoundTrip | inilib/ini.c:59-133 | for every text: printing the section, pair and continuation events that were seen and parsing the print sees the same events, makes the same handler calls and reports no malformed line |
| IniRoundTrip.Reparse | inilib/ini.c:59-133 | any sequence of canonical events, printed and parsed, comes back |
| IniRoundTrip.LineIsCanonical | inilib/ini.c:77-130 | whatever a line is read as is in canonical shape |
| IniRoundTrip.CanonicalReads | inilib/ini.c:77-130 | a canonical event, which is told by its characters, printed on a line with or without line feed reads as that event |
| IniRoundTrip.ChunksOfLine | inilib/ini.c:77 | how a line is cut by a buffer of 200 characters: whole, or at 199 with its line feed left for the next |
| IniRoundTrip.RStrippedIs | inilib/ini.c:21-27 | the result of trimming on the right is the only prefix that ends in no white space and leaves only white space |
| IniRoundTrip.LSkippedIs | inilib/ini.c:30-35 | the same on the left |
| IniRoundTrip.EventsDecideState | inilib/ini.c:65-72 | section, previous name and the call sequence depend on the events alone |
| IniRoundTrip.SectionIsTheLatest | inilib/ini.c:92-97 | the section of a call is the (shortened) name of the last well-formed header, or empty |
| IniRoundTrip.PrevIsTheLatest | inilib/ini.c:84-89 | a continuation continues the shortened name of the last pair since the last header |
| IniRoundTrip.FirstErrorIsLeast | inilib/ini.c:62-63 | the result is 0 if and only if no chunk is malformed or rejected, and otherwise the number of the least such chunk |
| IniOutcomes.PairIsRead | inilib/ini.c:104-130 | a pair with any white space around its parts, an equals sign or, where there is none before the comment, a colon between them, and a comment after a value, is read as that name and value |
| IniOutcomes.CommentIsCutOff | inilib/ini.c:114-118 | name=value, a space, a semicolon and anything read as that name and value, in which semicolons not after white space stay |
| IniOutcomes.EmptyValueTakesComment | inilib/ini.c:114-118 | behind an empty value there is no comment: the semicolon begins the value |
| IniOutcomes.ColonSeparates | inilib/ini.c:106-109 | name: value reads as that pair where neither has an equals sign |
| IniOutcomes.BlankAndCommentLines | inilib/ini.c:78-82 | white space alone, and a line whose first other character is a semicolon or a hash, mean nothing |
| IniOutcomes.Continuation | inilib/ini.c:84-89 | an indented line after a pair continues it, whatever is in it |
| IniOutcomes.HeaderIsRead | inilib/ini.c:91-98 | a header is what is between the brackets, cut after 49 characters, whatever comes behind |
| IniOutcomes.UnclosedHeader | inilib/ini.c:99-102 | a header whose bracket is missing, or only in a comment, is an error |
| IniOutcomes.NoSeparator | inilib/ini.c:126-129 | a line with no separator, or only in a comment, is an error |
| IniOutcomes.CallsAreReported | inilib/ini.c:84-125 | a pair is reported with its section, a continuation also with the name it continues, and nothing else is |
| IniOutcomes.ErrorIsFirst | inilib/ini.c:84-130 | the result is the number of the first line that is malformed or whose call the handler rejects |
| IniOutcomes.NoError | inilib/ini.c:132 | and 0 if there is none |
| IniOutcomes.LongLineIsCut | inilib/ini.c:77 | a longer line is cut after 199 characters |
| Ini.StopFrom | inilib/ini.c:40-48 | the first separator or comment, and none before it |
| IniParser.RStrip | inilib/ini.c:21-27 | trims in place and writes nowhere else |
| IniParser.LSkip | inilib/ini.c:30-35 | points at the first character that is not white space, or the end |
| IniParser.FindCharOrComment | inilib/ini.c:40-48 | points at the first separator or comment, or the end |
| IniParser.StrNCpy0 | inilib/ini.c:51-56 | copies what fits and always terminates |
| IniParser.FGets | inilib/ini.c:77 | what one read leaves in the line buffer |
| IniParser.ParseHeader | inilib/ini.c:91-103 | section and previous name after a header, unchanged after a malformed one |
| IniParser.TrimValue | inilib/ini.c:114-118 | skips, cuts the comment off and strips, in place |
| IniParser.ParsePair | inilib/ini.c:104-130 | name, value and previous name, cut out of the line buffer in place |
| IniParser.ParseLine | inilib/ini.c:78-130 | call, section, previous name and well-formedness of every line |
| IniParser.ParseFile | inilib/ini.c:59-133 | for every text and handler: the call sequence, which does not depend on what the handler returns, and the returned number |
| Timers.RunsAreAccounted | to.c:49-176 | over any run: added is, as a multiset, pending plus run plus cancelled; pending is in order of addition; nothing ran before its time |
| Timers.NoneRunsTwice | to.c:49-68 | over any run no timer runs twice, and none that was cancelled or still waits has run |
| Timers.ChecksRunInOrder | to.c:49-68 | one check runs timers in the order they were added |
| Timers.ExecutionsAreDue | to.c:57-63 | a check runs exactly the timers due by the reading of the clock taken at each |
| Timers.WhereSplits | to.c:108-142 | what is kept and what is removed are together what was there |
| TimerOutcomes.CheckOutcome | to.c:49-68 | a waiting timer is executed, with the reading of the clock taken at it, if and only if that has reached its time, and keeps waiting if and only if it has not |
| TimerOutcomes.CheckAddsNothing | to.c:49-68 | a check executes only waiting timers, each once |
| TimerOutcomes.CancelOutcome | to.c:108-142 | a waiting timer is cancelled if and only if it has the action and the data given |
| TimerOutcomes.PendingIsDistinct | to.c:49-142 | in every run what waits is distinct, so these apply to each check and cancellation |
| Timers.WhereIsSubsequence | to.c:108-142 | filtering keeps the order |
| Timers.Timers.Append | to.c:92-103 | the new node goes to the tail and the chain stays doubly linked |
| Timers.Timers.Add | to.c:70-106 | an invalid action is refused; otherwise the log grows by a fresh timer with the given fields |
| Timers.Timers.Bypass | to.c:149-176 | exactly the links of the neighbours and the head change |
| Timers.Timers.Unlink | to.c:149-176 | the chain without that node; the node keeps its own links |
| Timers.Timers.RunDue | to.c:49-68 | the loop leaves the timers that are not due, in order, and counts the others |
| Timers.Timers.Check | to.c:49-68 | the log grows by a check, and the result is the number run |
| Timers.Timers.RemoveMatching | to.c:108-142 | exactly the timers with that action and data leave the chain, and are counted |
| Timers.Timers.Cancel | to.c:108-142 | the log grows by a cancellation, and the result is the number cancelled |
| Throttle.CountsMarksSinceLapse | msocket/conn.c:268-336 | over any run the count of an address is, as a 32-bit number, its marks since a pass of expiry last found its latest mark over 1800 seconds old; it has an entry if and only if there is such a mark |
| Throttle.LastLapse | msocket/conn.c:196-224 | every run has a point from which the marks of an address count: after its last lapse, or the beginning |
| Throttle.StaysThrottled | msocket/conn.c:196-336 | while no pass finds the latest mark over 1800 seconds old the entry stays and its count grows by one per mark, so it does not fall while 32 bits hold it |
| Throttle.ThrottledExactly | msocket/conn.c:95-104 | an address counts as throttled if and only if it is not zero and its marks since the last lapse, as a 32-bit number, are at least five |
| Throttle.StaysThrottledOnceThrottled | msocket/conn.c:196-336 | a throttled address stays throttled while no pass finds its latest mark over 1800 seconds old and 32 bits hold its count |
| ThrottleRule.NoLapseBetween | msocket/msocket-internal.h:102-111 | with a clock that does not go backwards, no pass between two marks at most half an hour apart finds the address lapsed |
| ThrottleRule.DocumentedIsThrottled | msocket/msocket-internal.h:102-111 | five marks in a row within half an hour, none awaited for longer since, throttle a non-zero address until half an hour after the latest mark, as long as 32 bits hold the count |
| ThrottleRule.FiveMarksThrottle | msocket/msocket-internal.h:102-111 | at least five marks from some mark on, all within half an hour of it, throttle for half an hour from the latest |
| ThrottleRule.ThrottleStays | msocket/msocket-internal.h:102-111 | a throttle stays while no operation comes more than half an hour after the latest mark |
| ThrottleRule.ThrottleLasts | msocket/msocket-internal.h:102-111 | a throttle lasts at least half an hour from any mark, whatever passes come |
| ThrottleRule.RuleSinceLapse | msocket/msocket-internal.h:102-111 | the documented rule gives the same verdict on all marks as on those since the last lapse |
| ThrottleRule.AgreesExactly | msocket/msocket-internal.h:102-111 | in any run and at any time the code agrees with the documented rule if and only if its 32-bit count since the last lapse reaches five exactly when the rule holds of those marks |
| ThrottleRule.PromptAgreement | msocket/msocket-internal.h:102-111 | where passes come in time, they agree if and only if five marks since the last lapse mean that some five in a row span at most half an hour |
| ThrottleRule.RunAgreesExactly | msocket/msocket-internal.h:102-111 | the same at every moment of a run |
| ThrottleRule.SlowMarksThrottle | msocket/msocket-internal.h:102-111 | a concrete run: five marks 20 minutes apart throttle, although no five came within 30 minutes |
| ThrottleRule.UnseenGapsCount | msocket/conn.c:268-336 | marks any time apart with no pass between them are counted together |
| Throttle.Throttle.Find | msocket/conn.c:246-257 | the search from the tail finds the entry of the address if there is one |
| Throttle.Throttle.Check | msocket/conn.c:232-260 | the count of the address, 0 for the zero address or none |
| Throttle.Throttle.Append | msocket/conn.c:303-323 | the new entry goes to the tail and the chain stays doubly linked |
| Throttle.Throttle.SetBad | msocket/conn.c:268-336 | no address, no change; otherwise one mark, in the old entry or a new one with count 1 |
| Throttle.Throttle.Unlink | msocket/conn.c:344-386 | the chain without that entry; the entry keeps its own links |
| Throttle.Throttle.RemoveOld | msocket/conn.c:196-224 | the loop over links of removed entries visits every entry and removes exactly the old ones |
| Throttle.Throttle.Expire | msocket/conn.c:196-224 | exactly the entries last marked over 1800 seconds before the reading taken at them go, and the result is their number |
| Queues.FirstInFirstOut | msocket/HOWTO:46 | with the intended offsets, over any run of appends and flushes, what was sent followed by what is queued is everything appended |
| Queues.NoByteUncounted | msocket/socket.c:1128-1310 | over any run, as coded or intended, octets appended are octets sent plus octets queued, in number |
| Queues.CodedOrder | msocket/socket.c:1210-1310 | as coded, a run keeps the order whatever fresh memory holds if and only if each append finds the queue empty or is empty, and each partial flush leaves only zeros unmoved |
| Queues.CodedAppendIsRight | msocket/socket.c:1240 | the coded append is right for all fresh memory if and only if the queue is empty or the data is |
| Queues.CodedClearIsRight | msocket/socket.c:1306 | the coded clearing keeps the tail if and only if the part it does not move is zero |
| Queues.SecondMessageIsLost | msocket/socket.c:1240 | a concrete run in which the second message is not queued |
| Queues.SameRuns | msocket/socket.c:1128-1310 | the offsets never change how many octets are queued or sent |
| Queues.Received | msocket/socket.c:1046-1110 | from a queue with room for a chunk and less than two, there is such room before every recv and at the end |
| Queues.ReceivedInOrder | msocket/socket.c:1089-1092 | with the intended offset all chunks of a read come behind what was there, in order |
| Queues.CodedReadIsRight | msocket/socket.c:1089 | as coded, a read is right for all memory contents if and only if it received nothing, or one chunk into an empty queue |
| Queues.FilledStays | msocket/socket.c:1089 | as coded, the place of the last octet of a second chunk is never written |
| QueueBuffers.Copy | msocket/str.c:398-417 | copies exactly the first len octets |
| QueueBuffers.OCopy | msocket/str.c:428-446 | the exact effect of the coded copy loop, which skips offset octets of the source and stops at len |
| QueueBuffers.Sender.Append | msocket/socket.c:1210-1256 | size and length grow together by the data, and the bytes are those of an append step |
| QueueBuffers.Sender.Clear | msocket/socket.c:1265-1310 | all three cases, with block, size and length |
| QueueBuffers.Sender.SendAll | msocket/socket.c:1162-1185 | send is handed the queue from the front, and what it accepted is a prefix of it |
| QueueBuffers.Sender.FlushQ | msocket/socket.c:1128-1200 | refusals leave the queue alone; otherwise one flush step of as many octets as returned |
| QueueBuffers.SenderKeepsOrder | msocket/socket.c:1128-1310 | a queue of octets on the heap: what send took and what is queued is what was appended, always as intended, and as coded in careful runs |
| QueueBuffers.Receiver.Store | msocket/socket.c:1089-1092 | stores a received chunk; needs, and so shows, that a full chunk fits before every recv |
| QueueBuffers.Receiver.Grow | msocket/socket.c:1096-1110 | grows by 1024 exactly when a full chunk would not fit |
| QueueBuffers.Receiver.Read | msocket/socket.c:1000-1120 | refusals, callbacks and the whole new queue of a read; the size stays within len + 1024 and len + 2048 |
| QueueBuffers.Receiver.Free | msocket/socket.c:1318-1339 | an empty queue, and -1 if it was empty before |
| Split.PiecesAreApart | msocket/str.c:72-116 | no piece holds the separator, and there is one more than there are separators |
| Split.JoinOfPieces | msocket/str.c:72-116 | joined with the separator the pieces give the string back |
| Split.PiecesOfJoin | msocket/str.c:72-116 | separator-free pieces that were joined are what splitting gives, so the pieces are the only ones |
| Split.CntChr | msocket/str.c:185-205 | the number of separators, 0 for a null string |
| Split.SplitChr | msocket/str.c:72-116 | the pieces, each terminated in a block of its own, a null pointer after them, and the number of separators as result |

## Left out

- SSL (`msocket/ssl.c`) and SSL-flagged sockets: the handshake can destroy a socket while it is being opened, which is another protocol.
- IPv6, ident and WAITIDENT: no code sets the flag; the model carries it and never sets it.
- SocketTheorems.NamesAreConfirmed: rests on forward answers being cached under the host that was asked, as listed under Assumptions.
- SocketLibrary.Library.RecvForward: counts and caches only; what is copied through `Abstract`, the lifetimes, and the key are as listed below and under Assumptions.
- SocketRuns.ForwardKeepsInv: forward lookups only as far as they count and cache; what they copy into application memory through `Abstract`, and the different lifetimes they cache under, are the environment's choice here.
- SocketLibrary.Library.Close: the write callback is the flush a socket is created with; an application's own is left out.
- SocketLibrary.Library.AddFd: only for a listed socket with its own descriptor; registering bare descriptors, and the allocation and priority of libevent events, are left out.
- SocketLibrary.Library.Open: one operation for the listen, accept, connect and datagram openings, which differ in the flags they leave; their system calls are the environment.
- SocketLibrary.Library.OnReadable: an application's own read callback is left out; what a listener accepts is a separate opening.
- SocketLibrary.Library.OnWritable: the write callback is the flush.
- SocketLibrary.Library.HouseRound: error and write callbacks are the default ones, which destroy and flush; an application's own are left out.
- SocketLibrary.Library.Housekeeping: the same.
- `lms_dns_getip`, `lms_dns_gethost`: cache lookups whose result is copied out.
- `lms_socket_destroytype`: a loop of destroy steps, each of which is covered.
- DnsCache.Cache.FindInCache: non-ASCII letters and the static table, which is empty, are left out.
- Passwords.EncodePassword: the random salt is a parameter; records with more than one hash (the `multi` functions) are left out.
- Passwords.CheckPassword: reading outside a malformed record, and comparing octets never written when a hash field decodes to fewer than 32, which the C code does not guard against, are excluded by a precondition.
- Passwords.CheckB64Record: the same.
- Passwords.DecodeSalt: nine decoded octets without a zero, after which the code reads on past its buffer, are excluded.
- IniParser.FGets: the file is a text, and reading it does not fail.
- IniParser.ParseFile: white space is that of the C locale; the handler's answer is any function of the calls so far.
- Throttle.Throttle.SetBad: the textual address kept beside the numeric one is left out.
- Timers.Timers.Add: the clock reading stored is a parameter.
- QueueBuffers.Sender.FlushQ: timestamps and the byte counter, which counts sent octets as received, are left out; so are 32-bit limits on lengths.
- QueueBuffers.Receiver.Read: the callbacks are reported, not run; timestamps and counters are left out.
- Split.SplitChr: the separator is a character, so a negative or large `int` that matches nothing is left out; so is failing allocation.
- `lms_str_splitnum`, `lms_throttle_getstats`: unfinished, with no clear specification.
- `conf.c`, `irc.c`, `network.c`, `database.c`, `main.c`, `dl.c`, `utils.c`, `version.c`: stubs or plumbing.
