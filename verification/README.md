# The GNUstepWeb server adaptor

A Dafny model, with proofs, of the C adaptor that connects a web server to GNUstepWeb applications: the
code under `GSWAdaptors/common` and the instance selector in `GSWAdaptors/Apache2/mod_gsw.c`.

The adaptor keeps a pool of applications and their instances. A request finds an instance (round robin,
or by number), opens a connection, sends itself, reads the response and lets go of the instance; instances
that do not answer or refuse new sessions are left alone for a while; a changed configuration file
replaces the instances of each application while requests may still hold old ones.

| file | what it is about |
|---|---|
| `Dicts.dfy`, `SlotTables.dfy`, `DictHistories.dfy` | GSWDict: the slot array, its meaning as a finite map, whole histories |
| `GString.dfy`, `ReplaceAll.dfy` | GSWString and what search/replace means |
| `Pool.dfy`, `Config.dfy` | the pool as a value: finds, marks, stops, frees, reload |
| `PoolInvariant.dfy`, `World.dfy`, `ReloadInvariant.dfy`, `Lifecycle.dfy`, `CanonicalKeys.dfy` | what every step keeps; whole runs of many requests |
| `FindLaws.dfy`, `RunFairness.dfy`, `Backoff.dfy`, `RefusalKeys.dfy` | round robin and its fairness over whole runs, backoff and refusals, which instances share a refusal key |
| `ReloadLaws.dfy`, `Bookkeeping.dfy` | reload as replacement of a set, the counters of an instance |
| `LoadBalancer.dfy` | the same operations with the loops and in-place updates of the C code, proved equal to the functions |
| `Dispatch.dfy`, `DispatchLaws.dfy`, `Dispatcher.dfy` | the retry loop: as a program interleaved with everybody else, its laws, and the loop itself |
| `FindMeaning.dfy`, `DispatchMeaning.dfy`, `BackInService.dfy`, `ResponseLaws.dfy` | what finds, dispatches, marks and responses come to for instances and clients, record by record and field by field |
| `HttpText.dfy`, `HttpResponse.dfy`, `HeaderPrinter.dfy`, `HttpRequest.dfy`, `HttpHeaders.dfy` | reading and printing HTTP messages in buffers, the header name table |
| `ModGsw.dfy` | the least-loaded choice over shared memory |
| `CStrings.dfy`, `Buffers.dfy`, `Wrappers.dfy` | C strings, options, and a way to keep predicates closed |

Memory is explicit in the pool: an instance record lives under its address in a map, and freeing removes
it there, so that a dangling entry or a use after free is something the model can express. `Lifecycle.Run`
ends in a fault when a step would dereference a freed instance record; the main theorem says that it does not.
An `int` of the code is the type `CInt`; `atoi` saturates to a 64-bit long and then cuts down to an int, as
glibc does.
Times are integers, and each pool operation is one atomic step.

Where the code does not do what one would expect, the lemmas say exactly when it does:

- An instance key that is not the printed form of an int (`01`, `4294967297`) leaves a freed record in the
  dictionary, because the free unlinks by the printed number: `CanonicalKeys.SafeIffCanonical`.
- The request buffer is too small when the content length as an int lies below minus the number of headers,
  or when the computed length leaves the int range: `HttpRequest.WritesFitIff`.
- The block read for an announced length of 2 GiB or more is not bounded by that length:
  `HttpText.BlockFitsIff`.
- Instances of two applications share refusal keys when their names agree on 45 characters, or when one name
  is the other with the beginning of a printed number behind it (`app` and `app1`, not `app` and `app0`):
  `RefusalKeys.KeysCollideIff`. Then a refusal of one hides the other, and only then:
  `RefusalKeys.LeavesAloneIff`.
- A dispatch without an answer may leave its request counted at an instance: `Dispatch.WhatIsLeft`.
- The Apache module marks the record at the configured index but reads the one at the table position:
  `ModGsw.MarkProtectsIff`.
- The last branch of the dispatch, a 404 page, is never taken, because the dump page before it is always
  built from a valid status line (`HttpText.OwnStatusLine`); it has no counterpart in `Dispatch.Finish`.

## Model

| member | source | states |
|---|---|---|
| Dicts.GSWDict.Zero | GSWAdaptors/common/GSWDict.c:55-61 | An all-zero dictionary, as embedded in an application record, is the empty table of capacity 0, and valid |
| Dicts.GSWDict.New | GSWAdaptors/common/GSWDict.c:54-61 | A new dictionary is empty and has room for max(16, requested) entries |
| Dicts.GSWDict.SetCapacity | GSWAdaptors/common/GSWDict.c:32-52 | The capacity becomes the maximum of itself, 16 and the request, and every slot keeps its contents across the reallocation |
| Dicts.GSWDict.FindFirstNullKey | GSWAdaptors/common/GSWDict.c:108-117 | The first emptied slot, or none when every slot handed out is in use |
| Dicts.GSWDict.LiveCount | GSWAdaptors/common/GSWDict.c:119-136 | The number of live entries, emptied slots not counted |
| Dicts.GSWDict.Insert | GSWAdaptors/common/GSWDict.c:138-174 | New slots are used first, emptied ones when none is new, and only a completely live row doubles; all other slots are unchanged |
| Dicts.GSWDict.Find | GSWAdaptors/common/GSWDict.c:193-210 | The first live slot whose key matches without regard to case, or none |
| Dicts.GSWDict.RemoveKey | GSWAdaptors/common/GSWDict.c:212-219 | The first matching slot is emptied in place and nothing else moves |
| Dicts.GSWDict.ValueForKey | GSWAdaptors/common/GSWDict.c:221-227 | The value of the first match in slot order, or nothing |
| Dicts.GSWDict.AllKeys | GSWAdaptors/common/GSWDict.c:250-270 | The live keys, each once, in slot order |
| SlotTables.AddIsInsert | GSWAdaptors/common/GSWDict.c:138-174 | Adding an absent key is insertion into the finite map on case-folded keys, and keys stay distinct |
| SlotTables.RemoveIsDelete | GSWAdaptors/common/GSWDict.c:212-219 | Removing is deletion from the map, and keys stay distinct |
| SlotTables.LookupReadsModel | GSWAdaptors/common/GSWDict.c:193-227 | Lookup reads the map, duplicates or not |
| SlotTables.EntriesEnumerateModel | GSWAdaptors/common/GSWDict.c:119-136 | With distinct keys the count is the size of the map, and the key list enumerates exactly its keys, none twice |
| SlotTables.LookupAfterAdd | GSWAdaptors/common/GSWDict.c:138-174 | After adding an absent key that key finds the new value and every other key what it found before, wherever the entry was placed |
| SlotTables.LookupAfterRemove | GSWAdaptors/common/GSWDict.c:212-219 | After a removal the key is gone and every other key still finds the same value |
| DictHistories.CountIsAddsMinusRemovals | GSWAdaptors/common/GSWDict.c:119-174 | Over any history, duplicates included, the count is adds minus successful removals |
| DictHistories.CapacityIsBounded | GSWAdaptors/common/GSWDict.c:138-174 | Over any history the capacity never exceeds max(16, initial, twice the peak live count) |
| DictHistories.EntryStays | GSWAdaptors/common/GSWDict.c:138-219 | A live entry stays in its slot until the history removes that very entry |
| DictHistories.HistoryRefinesMap | GSWAdaptors/common/GSWDict.c:138-227 | Any history that adds only absent keys is the same history on a finite map: contents, every lookup, and count |
| CStrings.SameKeyIff | GSWAdaptors/common/GSWDict.c:193-210 | Keys are the same for the dictionaries if and only if they have one length and at each place one character or the two cases of one letter A-Z |
| SlotTables.AnyCaseFinds | GSWAdaptors/common/GSWDict.c:193-227 | A key spelled in any case finds the entry, and a key that finds nothing is spelled like no live entry |
| GString.GSWString.GrowUpToSize | GSWAdaptors/common/GSWString.c:74-91 | The buffer has at least the size asked for (4096 or more when it grows), never shrinks, and keeps its bytes |
| GString.GSWString.Append | GSWAdaptors/common/GSWString.c:94-102 | The text is the old text followed by the new one; length, terminator and capacity invariants hold |
| GString.GSWString.Search | GSWAdaptors/common/GSWString.c:113-131 | strstr on the buffer from a position finds the leftmost match in the rest of the text and reads no further than the terminator |
| GString.Splice | GSWAdaptors/common/GSWString.c:118-130 | The conditional memmove and memcpy turn the front of the buffer into before + replacement + behind, terminated, for longer, shorter, equal and empty replacements |
| GString.GSWString.ReplaceAt | GSWAdaptors/common/GSWString.c:121-130 | One turn of the loop: exactly the matched range is replaced and iLen, terminator and iLen+1 <= iSize are kept across the reallocation |
| GString.GSWString.ReplaceFrom | GSWAdaptors/common/GSWString.c:116-133 | The search loop ends, and with the text in which every match has been replaced |
| GString.GSWString.SearchReplace | GSWAdaptors/common/GSWString.c:104-135 | For every text, pattern and replacement (NULL counting as empty) the text becomes the pure leftmost, non-overlapping replace-all; an empty pattern changes nothing |
| GString.ReplaceStep | GSWAdaptors/common/GSWString.c:119-132 | Replacing the first match behind the scan position leaves unchanged what the whole loop will produce, even when the replacement contains the pattern |
| ReplaceAll.ReplaceIsCutAndJoin | GSWAdaptors/common/GSWString.c:104-135 | Replacing all is cutting the text at the matches and joining the pieces with the replacement |
| ReplaceAll.CutIsLeftmost | GSWAdaptors/common/GSWString.c:113-131 | The cuts lose nothing, and no cut could have been made earlier |
| ReplaceAll.LeftmostCutsAreUnique | GSWAdaptors/common/GSWString.c:113-131 | Only one way of cutting is leftmost, so the result of the replacement is fully determined |
| ReplaceAll.LengthAfterReplace | GSWAdaptors/common/GSWString.c:118-130 | The length changes by the length difference once per match |
| ReplaceAll.ReplaceByItself | GSWAdaptors/common/GSWString.c:104-135 | Replacing a pattern by itself leaves the text as it is |
| ReplaceAll.PlaceholderGone | GSWAdaptors/common/GSWString.c:104-135 | When pattern and replacement share no character the pattern no longer occurs, which is what the templates rely on |
| LoadBalancer.Adaptor.FindApp | GSWAdaptors/common/GSWLoadBalancing.c:49-165 | The round-robin search loop leaves pool and request exactly as the search function says: index, revived instances, lifted refusals, one open count |
| LoadBalancer.Adaptor.Search | GSWAdaptors/common/GSWLoadBalancing.c:74-146 | The while loop over the key list, with its retry and refusal checks, ends on the first eligible instance in cyclic order or on none |
| LoadBalancer.Adaptor.TryInstance | GSWAdaptors/common/GSWLoadBalancing.c:85-142 | An instance is taken exactly when it is alive (or its retry time has passed), valid and not refusing this request; only a taken one is counted and written into the request |
| LoadBalancer.Adaptor.FindInstance | GSWAdaptors/common/GSWLoadBalancing.c:170-253 | The find by number leaves pool and request as the function says, the fall back to any instance included |
| LoadBalancer.Adaptor.MarkNotResponding | GSWAdaptors/common/GSWLoadBalancing.c:257-279 | One open less, one failure more, retry time three seconds on, and an instance no longer configured is freed with its last request |
| LoadBalancer.Adaptor.StartAppRequest | GSWAdaptors/common/GSWLoadBalancing.c:282-293 | A successful connection makes the instance alive and changes nothing else |
| LoadBalancer.Adaptor.StopAppRequest | GSWAdaptors/common/GSWLoadBalancing.c:296-312 | One open less, one handled more, the request lets go, and an instance no longer configured is freed with its last request |
| LoadBalancer.Adaptor.Free | GSWAdaptors/common/GSWApp.c:176-194 | The record is unlinked only if the entry for its number is itself, then freed |
| LoadBalancer.Adaptor.FreeIfNotDone | GSWAdaptors/common/GSWApp.c:197-207 | Frees exactly when no request is open |
| LoadBalancer.Adaptor.SetAppInfo | GSWAdaptors/common/GSWApp.c:281-316 | The refusal record of the instance is created or overwritten and ends ten seconds later |
| LoadBalancer.Adaptor.ClearAllInstances | GSWAdaptors/common/GSWApp.c:140-157 | The nested iteration invalidates every instance listed by a registered application and touches no other record |
| LoadBalancer.Adaptor.FreeNotValidInstances | GSWAdaptors/common/GSWApp.c:114-137 | The purge visits every live entry once although its callback deletes entries of the dictionary it iterates: invalid entries go, records go unless requests hold them, all else keeps its slot |
| LoadBalancer.PurgeMeets | GSWAdaptors/common/GSWApp.c:114-137 | When the purge comes to a slot its entry is still there and its record has not been freed by an earlier visit |
| LoadBalancer.RemovedIsUnlisted | GSWAdaptors/common/GSWApp.c:176-194 | Once its entry is removed an instance is found under no key, so the unlinking inside the free cannot hit another entry |
| LoadBalancer.Adaptor.ConfigureInstance | GSWAdaptors/common/GSWConfig.c:403-466 | The record becomes valid and alive under the number of its key; host and port change only when given |
| LoadBalancer.Adaptor.LoadAllInstances | GSWAdaptors/common/GSWConfig.c:733-802 | The loop over the configured instances reuses the record found under a key or adds a new one |
| LoadBalancer.Adaptor.ReadApplication | GSWAdaptors/common/GSWConfig.c:469-821 | Name, flags, instances, purge and start index of one application |
| LoadBalancer.Adaptor.LoadApplication | GSWAdaptors/common/GSWConfig.c:1056-1085 | An application is registered when it is new and has instances, and unregistered when none is left |
| LoadBalancer.Adaptor.LoadConfiguration | GSWAdaptors/common/GSWConfig.c:824-1101 | The reload: invalidate everything, then the application loop |
| FindMeaning.AnyFindMeets | GSWAdaptors/common/GSWLoadBalancing.c:66-146 | A find of any instance ends with the first of the round that is configured, alive or past its retry time, and not refusing the request, or with none if there is none; the request carries its number and address |
| FindMeaning.NamedFindMeets | GSWAdaptors/common/GSWLoadBalancing.c:182-246 | A find by number ends with that instance if it is configured and does not refuse, with nothing if it is not or does, and goes round only for an unknown number with the switch set |
| FindMeaning.FoundIsCounted | GSWAdaptors/common/GSWLoadBalancing.c:91-135 | The instance found round robin counts as alive afterwards and has one open request more, its record being otherwise as it was |
| FindLaws.PicksFirstEligible | GSWAdaptors/common/GSWLoadBalancing.c:73-146 | A find succeeds if and only if some instance is eligible, and picks the first eligible one in cyclic order after the last index |
| FindLaws.IndexOnPick | GSWAdaptors/common/GSWLoadBalancing.c:81-86 | The index ends in range and on the instance picked, whatever it was before |
| FindLaws.FindAppIsPick | GSWAdaptors/common/GSWLoadBalancing.c:66-146 | A client gets exactly that pick, with its name, number and address, or keeps its request unchanged |
| FindLaws.NamedFind | GSWAdaptors/common/GSWLoadBalancing.c:182-246 | A find by number succeeds exactly when the instance is valid and does not refuse the session; only an unknown number may lead to another instance |
| FindLaws.EffectKeepsEligibility | GSWAdaptors/common/GSWLoadBalancing.c:91-131 | What a find changes makes no instance more or less eligible, then or later |
| FindLaws.TurnsInOrder | GSWAdaptors/common/GSWLoadBalancing.c:74-146 | While all stay eligible the i-th of finds that each start where the one before has stopped picks the instance at distance i |
| FindLaws.EachExactlyOnce | GSWAdaptors/common/GSWLoadBalancing.c:74-146 | Any n consecutive finds on n eligible instances pick each of them exactly once |
| FindLaws.PickedInTime | GSWAdaptors/common/GSWLoadBalancing.c:74-146 | In such finds an instance known to stay eligible is picked before its distance is used up: every other pick brings it nearer |
| FindLaws.PickedWithinACycle | GSWAdaptors/common/GSWLoadBalancing.c:74-146 | So it is picked within n finds |
| RunFairness.RunGoesRound | GSWAdaptors/common/GSWLoadBalancing.c:49-253 | In any run without a reload, all instances of an application being configured, all round-robin finds on it, the fall back of finds by number included, go round its dictionary: each starts at the index the one before has left, and its request gets what the search picks |
| RunFairness.EachGetsOne | GSWAdaptors/common/GSWLoadBalancing.c:49-253 | In any such run, when an application of n instances is searched n times with all of them eligible, each instance has gone to exactly one request |
| RunFairness.NoneWaitsLonger | GSWAdaptors/common/GSWLoadBalancing.c:49-253 | In any such run an instance that n finds all meet eligible has gone to one of them, whatever the others are like |
| Lifecycle.StepKeepsInv | GSWAdaptors/common/GSWLoadBalancing.c:49-312 | Every step of any request, reloads included, dereferences allocated memory only and keeps the pool invariant |
| Lifecycle.RunIsSafe | GSWAdaptors/common/GSWLoadBalancing.c:49-312 | Over any interleaving in which each find is followed by one stop or mark, no freed instance record is ever touched and the invariant holds at the end |
| Lifecycle.CountIsHolders | GSWAdaptors/common/GSWLoadBalancing.c:258-312 | The open count of an instance is the number of requests that hold it, hence never negative |
| Lifecycle.FreedIsForgotten | GSWAdaptors/common/GSWApp.c:176-207 | An instance is freed only when no request holds it, and no dictionary entry refers to it afterwards |
| Lifecycle.NothingLeaks | GSWAdaptors/common/GSWApp.c:114-207 | Every instance in memory is found through its dictionary or held by a request |
| Lifecycle.LastRelease | GSWAdaptors/common/GSWApp.c:176-194 | The last stop or mark of an instance no longer configured frees it and empties its own entry only; a new instance under the same number keeps its slot |
| Bookkeeping.BooksBalance | GSWAdaptors/common/GSWLoadBalancing.c:132-312 | Between two reloads the counters of an instance keep exact books: handled counts its stops, not responding its marks, and open is picked minus both |
| PoolInvariant.FreeKeepsInv | GSWAdaptors/common/GSWApp.c:176-194 | Freeing an idle, invalid record leaves no dangling entry and unlinks no other instance |
| CanonicalKeys.NotCanonicalFaults | GSWAdaptors/common/GSWApp.c:176-207 | For every instance key that is not the printed form of the int atoi makes of it there is a run that leaves a freed record in the dictionary and then touches it |
| CanonicalKeys.CanonicalIsPrinted | GSWAdaptors/common/GSWConfig.c:778-801 | The canonical keys are exactly the printed ints |
| CanonicalKeys.BeyondIntIsNotCanonical | GSWAdaptors/common/GSWConfig.c:778-801 | The decimal spelling of a number beyond an int is not canonical, since atoi cuts it down |
| CanonicalKeys.SafeIffCanonical | GSWAdaptors/common/GSWApp.c:176-207 | All runs that configure instances under one key are safe if and only if the key is the printed form of an int |
| ReloadInvariant.ReloadKeepsInv | GSWAdaptors/common/GSWConfig.c:824-1101 | A reload keeps the pool invariant, and every open count still matches the requests holding the instance |
| ReloadInvariant.PurgeKeeps | GSWAdaptors/common/GSWApp.c:114-137 | The purge keeps everything the invariant says about surviving and held instances |
| ReloadLaws.ReloadReplacesSet | GSWAdaptors/common/GSWConfig.c:719-1083 | After a reload each configured application finds exactly the configured instances, all valid and alive, old ones with identity and counts; without instances it is not registered |
| ReloadLaws.SurvivorKeepsCounts | GSWAdaptors/common/GSWConfig.c:403-414 | An instance that stays configured keeps its address, open count and handled count; its retry time is reset |
| ReloadLaws.DroppedAppIsOut | GSWAdaptors/common/GSWApp.c:140-157 | An application no longer mentioned stays known, with its dictionary as it was and no valid instance |
| ReloadLaws.ReloadTakesAddresses | GSWAdaptors/common/GSWConfig.c:403-466 | Each configured instance is found under its key and belongs to its application; host and port are those of the file, or the old ones (none and 0 for a new instance) where the file gives none; its number is the int its key prints; the three counters are the old ones, or 0 |
| ReloadLaws.ReloadTakesSettings | GSWAdaptors/common/GSWConfig.c:469-821 | The application found under a configured name keeps its identity and has name, switch and unavailable time of the file |
| Backoff.BacksOff | GSWAdaptors/common/GSWLoadBalancing.c:91-107 | After a mark no round-robin find picks the instance up to the end of its retry delay, over any run without a reload or a connection to it |
| Backoff.RestingIsNotPicked | GSWAdaptors/common/GSWLoadBalancing.c:91-110 | An instance is not picked at or before its retry time |
| Backoff.RefusalIsRespected | GSWAdaptors/common/GSWLoadBalancing.c:113-131 | For ten seconds after a refusal no find of either kind gives the instance to a request without handler key, over any run, reloads included |
| RefusalKeys.KeysCollideIff | GSWAdaptors/common/GSWApp.c:229-244 | For all names and all numbers: some instances of two applications share a refusal key if and only if the names differ but agree in what is shown of them, or one shown name is the other with the beginning of a printed number behind it |
| RefusalKeys.NaturalKeysCollideIff | GSWAdaptors/common/GSWApp.c:229-244 | The same for instance numbers that are not negative: the one name is the other with a positive number behind it that can still be prolonged |
| RefusalKeys.LeavesAloneIff | GSWAdaptors/common/GSWApp.c:247-316 | Noting or lifting a refusal of an instance of one application changes for no instance of the other whether it refuses, in any state and at any time, if and only if the names do not meet in that way |
| RefusalKeys.UsualNamesDoNotMeet | GSWAdaptors/common/GSWApp.c:229-244 | Names of at most 45 characters that do not end in a digit do not share keys |
| RefusalKeys.AppMeetsApp1 | GSWAdaptors/common/GSWApp.c:229-244 | A concrete pair: instance 10 of app and instance 0 of app1 |
| BackInService.MarkIsOver | GSWAdaptors/common/GSWLoadBalancing.c:91-110 | More than three seconds after a failed connection, over any run without a reload or another failure of it, a configured instance may serve again: any session, and a new one unless it refuses |
| BackInService.RefusalIsOver | GSWAdaptors/common/GSWLoadBalancing.c:113-131 | More than ten seconds after a refusal it is over, over any run, reloads included, without another refusal under its key |
| DispatchMeaning.FirstOpenIsWanted | GSWAdaptors/common/GSWAppRequest.c:84-133 | A dispatch goes first to the instance its request wants in the pool it starts from, and does go there unless the application is unavailable; if there is none nothing is opened and the answer is the dump page |
| DispatchMeaning.NumberIsKept | GSWAdaptors/common/GSWAppRequest.c:84-91 | A request for a positive number whose instance is configured and does not refuse it goes to that instance and no other |
| DispatchMeaning.NumberNotServed | GSWAdaptors/common/GSWAppRequest.c:84-91 | A number that is unknown and may not be replaced, or refuses, or is no longer configured, gets the dump page and opens nothing |
| DispatchMeaning.Checked | GSWAdaptors/common/GSWAppRequest.c:104-115 | After a find the dispatch ends with the unavailable page exactly while the application of the instance found is unavailable, and goes on otherwise |
| DispatchMeaning.GivesUpLate | GSWAdaptors/common/GSWAppRequest.c:118-251 | A dispatch ends without an answer only when the last find has failed or ten attempts are used up |
| DispatchMeaning.ConnectionRevives | GSWAdaptors/common/GSWLoadBalancing.c:282-293 | A connection that works sets the retry time of its instance to zero and changes nothing else |
| DispatchMeaning.RevivedMayServe | GSWAdaptors/common/GSWLoadBalancing.c:282-293 | After that a configured instance may serve a session at any time |
| DispatchMeaning.FailureMarks | GSWAdaptors/common/GSWLoadBalancing.c:257-279 | A failed connection leaves one open request less, one failure more and a retry time three seconds on; only an idle instance that is not configured disappears, and no other record changes |
| DispatchMeaning.AnswerIsHandled | GSWAdaptors/common/GSWAppRequest.c:187-197 | A response read leaves one open request less and one handled more, and the reply is what the bytes say |
| DispatchMeaning.SentUnderNumber | GSWAdaptors/common/GSWAppRequest.c:158-172 | Sending changes nothing in the pool and remembers the name and number the request was sent under |
| DispatchMeaning.RefusalIsNoted | GSWAdaptors/common/GSWAppRequest.c:200-212 | A response whose refusal header begins with YES makes its instance refuse up to ten seconds from now and no longer; any other response changes nothing |
| DispatchMeaning.ReselectionTakesAny | GSWAdaptors/common/GSWAppRequest.c:243-249 | After a failed connection the first instance of the round that may serve is taken while an attempt is left |
| Dispatcher.SendAppRequestToApp | GSWAdaptors/common/GSWAppRequest.c:65-300 | The real loop does to pool and request, and answers, what some uninterrupted run of the dispatch program does |
| Dispatcher.Attempt | GSWAdaptors/common/GSWAppRequest.c:118-251 | One turn of the retry loop, step by step: connect, then send, receive, stop and note a refusal, or mark and look for another instance |
| Dispatch.AdvanceKeeps | GSWAdaptors/common/GSWAppRequest.c:84-294 | Every step keeps the attempt equation, what the flags say about the reply, and when exactly the request is counted |
| Dispatch.OwnStepsAreBounded | GSWAdaptors/common/GSWAppRequest.c:84-294 | Each step of the dispatch uses up one of the steps remaining, whatever others do in between |
| Dispatch.DispatchIsBounded | GSWAdaptors/common/GSWAppRequest.c:118-294 | At most 25 steps, ten opens and five failed connections under any interference; at the end there is a response |
| Dispatch.AnswerIsKept | GSWAdaptors/common/GSWAppRequest.c:187-294 | A response read from an application is what the client gets; no error page replaces it |
| Dispatch.WhatIsLeft | GSWAdaptors/common/GSWAppRequest.c:118-294 | At the end the request still holds an instance if and only if the application was unavailable, or there was no answer, the last find succeeded and opens and failures leave an attempt uncounted; the dump page is shown exactly when nothing was found or opened |
| DispatchLaws.TotalIsHolding | GSWAdaptors/common/GSWAppRequest.c:118-294 | In every reachable state the total open count is the number of requests that hold an instance |
| DispatchLaws.DispatchConserves | GSWAdaptors/common/GSWAppRequest.c:118-294 | A dispatch nobody else interferes with changes the open count of at most one instance, by one, and the total by 0 or 1: by 0 when an application has answered or the last find has failed |
| DispatchLaws.FailuresAreDistinct | GSWAdaptors/common/GSWAppRequest.c:226-250 | While the retry delay lasts, without a reload or others reviving an instance, the instances whose connection fails are pairwise distinct |
| HttpText.StatusLineRoundTrip | GSWAdaptors/common/GSWHTTPResponse.c:53-98 | A well-formed status line gives back status and message |
| HttpText.OwnStatusLine | GSWAdaptors/common/GSWConfig.c:87 | The status line of the pages the adaptor builds itself is accepted as 200, whatever the server name behind it |
| HttpText.BadStatusRejected | GSWAdaptors/common/GSWHTTPResponse.c:63-97 | A status token with anything but digits is rejected |
| HttpText.ReceivePlainLine | GSWAdaptors/common/GSWAppConnectSocket.c:281-319 | A line that fits the buffer is received whole and without its line end |
| HttpText.HeadersRoundTrip | GSWAdaptors/common/GSWHTTPResponse.c:392-417 | Printing any list of plain headers and feeding the lines to the parser rebuilds the list in order, statistics headers left out, and stops before the body |
| HttpText.ResponseIsWhole | GSWAdaptors/common/GSWHTTPResponse.c:421-447 | For every byte stream with colons in its header lines the body has exactly the length the response announces |
| HttpText.BlockFitsIff | GSWAdaptors/common/GSWHTTPResponse.c:421-428 | The block read stays inside the buffer allocated for it if and only if the announced length is an int or no more than it arrives |
| HttpText.MessageRoundTrip | GSWAdaptors/common/GSWHTTPResponse.c:344-486 | A well-formed message with its whole body is read back as sent; with less than the announced body the client gets the error response |
| HttpResponse.Socket.ReceiveLine | GSWAdaptors/common/GSWAppConnectSocket.c:281-319 | fgets and the trimming in the buffer deliver the line, its length and the bytes left over |
| HttpResponse.HttpResponse.AddHeader | GSWAdaptors/common/GSWHTTPResponse.c:314-341 | Lower-casing and splitting the line in its buffer adds the header and takes the first non-zero content length |
| HttpResponse.ReadHeaderLines | GSWAdaptors/common/GSWHTTPResponse.c:391-417 | The header loop reads up to the blank line, passing over statistics |
| HttpResponse.GetResponse | GSWAdaptors/common/GSWHTTPResponse.c:344-486 | The response object holds what the pure reading of the byte stream says |
| HttpResponse.PackageHeaders | GSWAdaptors/common/GSWHTTPResponse.c:518-543 | The buffer holds the printed headers without their last line end, terminated |
| Buffers.TextAtIsCStr | GSWAdaptors/common/GSWHTTPResponse.c:507-510 | The text a buffer is said to hold at a position is what the C string functions read there |
| HeaderPrinter.FormatHeader | GSWAdaptors/common/GSWHTTPResponse.c:502-515 | Writes key, colon, blank, value and line end, moves the position behind them, and leaves what comes before untouched |
| HeaderPrinter.AddLengths | GSWAdaptors/common/GSWHTTPResponse.c:490-499 | The length pass over the live headers adds up what is reserved for each |
| HeaderPrinter.WriteHeaders | GSWAdaptors/common/GSWHTTPRequest.c:264-275 | The writing pass prints each live header once, in slot order, within the buffer |
| HeaderPrinter.ReservedIsEnough | GSWAdaptors/common/GSWHTTPRequest.c:253-261 | The length pass reserves one character per header more than is written, and nothing else |
| CStrings.FoldedIff | GSWAdaptors/common/GSWHTTPResponse.c:321-325 | Lower-casing changes the letters A-Z and nothing else |
| CStrings.AtoiOfPadded | GSWAdaptors/common/GSWHTTPResponse.c:332-335 | atoi reads a printed int behind blanks and behind a plus sign |
| CStrings.AtoiOfWord | GSWAdaptors/common/GSWHTTPResponse.c:332-335 | A text that does not begin like a number counts as 0 |
| ResponseLaws.HeaderUnderSmallName | GSWAdaptors/common/GSWHTTPResponse.c:314-341 | A header line adds its value under its name in small letters, blanks skipped; the first content length that is not zero counts however it is spelled |
| ResponseLaws.StatisticsPassedOver | GSWAdaptors/common/GSWHTTPResponse.c:391-417 | Lines with either statistics name add nothing |
| ResponseLaws.StatusLineIff | GSWAdaptors/common/GSWHTTPResponse.c:53-98 | A first line is refused if and only if it does not begin with HTTP/, has no blank, or has something else than digits where the status should be |
| ResponseLaws.BareStatus | GSWAdaptors/common/GSWHTTPResponse.c:53-98 | A status with nothing behind it is accepted and has no message |
| ResponseLaws.InvalidFirstLineGetsPage | GSWAdaptors/common/GSWHTTPResponse.c:367-374 | For such a line the client gets status 200, OK GSWeb, the error page, its type and its printed length, and no other header |
| ResponseLaws.NothingReceivedGetsPage | GSWAdaptors/common/GSWHTTPResponse.c:344-374 | So it does when the connection is closed without a byte |
| ResponseLaws.BodyOrPage | GSWAdaptors/common/GSWHTTPResponse.c:421-447 | For a valid first line the client gets the headers read, with no body when none is announced, the whole body when it arrives, and the error page in place of everything when less does |
| ResponseLaws.PackagedReadsBack | GSWAdaptors/common/GSWHTTPResponse.c:518-543 | The packaged headers followed by two line ends read back as the headers in order |
| HttpRequest.HeaderKeyIs | GSWAdaptors/common/GSWHTTPRequest.c:221-239 | The key of a header is the translation the table gives, or the key itself when the table does not have it |
| HttpRequest.LengthHeaderIff | GSWAdaptors/common/GSWHTTPRequest.c:231-236 | The header that gives the content length is recognised in any case |
| HttpRequest.ContentReadsBack | GSWAdaptors/common/GSWHTTPRequest.c:311-331 | Read line by line the request gives back its line, its headers and exactly the content given, as far as its length says |
| HttpRequest.HttpRequest.AddHeader | GSWAdaptors/common/GSWHTTPRequest.c:221-239 | The header is stored under its translated name; the first non-zero content length of a POST is kept |
| HttpRequest.HttpRequest.SendRequest | GSWAdaptors/common/GSWHTTPRequest.c:279-353 | When all writes fit, the bytes sent are the request line, one line per live header in slot order, a blank line and the body, written within the buffer, the last bytes being the content given; when they do not, the overrun is reported instead |
| HttpRequest.WritesFitIff | GSWAdaptors/common/GSWHTTPRequest.c:302-331 | All writes, terminator included, fit the buffer whose size is computed in advance in ints if and only if the content length as an int is at least minus the number of headers and the sum of the lengths does not leave the int range |
| HttpRequest.SentLength | GSWAdaptors/common/GSWHTTPRequest.c:305-340 | When the writes fit, what is sent is shorter than the computed length by one per header |
| HttpRequest.RequestReadsBack | GSWAdaptors/common/GSWHTTPRequest.c:311-331 | The bytes determine the request: read line by line they give back request line, headers in order and body |
| HttpHeaders.ComparatorsAgree | GSWAdaptors/common/GSWHTTPHeaders.c:158-185 | The key comparator and the item comparator order items alike, and only equal names compare as equal |
| HttpHeaders.SortInPlace | GSWAdaptors/common/GSWHTTPHeaders.c:300-307 | The items before the terminator are sorted in place, the rest of the array is untouched |
| HttpHeaders.SortSorts | GSWAdaptors/common/GSWHTTPHeaders.c:305-307 | The result is ascending for strcmp |
| HttpHeaders.SortPermutes | GSWAdaptors/common/GSWHTTPHeaders.c:305-307 | The result is a permutation of the table |
| HttpHeaders.NamesAreDistinct | GSWAdaptors/common/GSWHTTPHeaders.c:189-302 | No name occurs twice among the 36 items of the table |
| HttpHeaders.BinarySearch | GSWAdaptors/common/GSWHTTPHeaders.c:329-333 | Halving with the key comparator finds an item of that name, or there is none |
| HttpHeaders.SearchIndex | GSWAdaptors/common/GSWHTTPHeaders.c:323-336 | Binary search of the sorted items agrees with a linear scan of the unsorted table, for every key |
| HttpHeaders.TranslationTable.Init | GSWAdaptors/common/GSWHTTPHeaders.c:188-307 | Fills in and sorts the table |
| HttpHeaders.TranslationTable.Translate | GSWAdaptors/common/GSWHTTPHeaders.c:323-336 | Whatever the key, filled in before or not, the translation is what a scan of the plain table says |
| ModGsw.SharedMemory.MarkUnreachable | GSWAdaptors/Apache2/mod_gsw.c:290-303 | Time and flag of the record at the configured index, no other record |
| ModGsw.SharedMemory.MarkRefusing | GSWAdaptors/Apache2/mod_gsw.c:305-318 | Time and flag of the record at the configured index, no other record |
| ModGsw.SharedMemory.UpdateStatistics | GSWAdaptors/Apache2/mod_gsw.c:320-334 | Times, load and reachability of that record; a refusal is not lifted |
| ModGsw.FindAppByName | GSWAdaptors/Apache2/mod_gsw.c:341-406 | The scan over a private copy returns the choice described by the next row, and leaves the shared records alone |
| ModGsw.ChoiceIsLeastLoaded | GSWAdaptors/Apache2/mod_gsw.c:376-401 | Minimum load among the instances of that name that are unmarked or without a request for 300 seconds, highest index on ties; nothing exactly when there is none and the only instance is not a marked unreachable one |
| ModGsw.UnreachableIsAvoided | GSWAdaptors/Apache2/mod_gsw.c:290-393 | Not chosen for 300 seconds after a mark, over any run of writes without an update of its record, unless it is the only instance |
| ModGsw.RefusalIsKept | GSWAdaptors/Apache2/mod_gsw.c:305-393 | A refusal keeps the instance out for 300 seconds even if its record is updated meanwhile |
| ModGsw.MarkEnds | GSWAdaptors/Apache2/mod_gsw.c:290-393 | More than 300 seconds after a mark of either kind, over any writes that leave its record alone, the instance is a candidate and is chosen exactly when no candidate has less load, nor as much load and a higher index |
| ModGsw.UpdateEndsUnreachable | GSWAdaptors/Apache2/mod_gsw.c:320-393 | After an update an instance that has not refused is a candidate at any time, with the load reported |
| ModGsw.MarkProtectsIff | GSWAdaptors/Apache2/mod_gsw.c:290-385 | With several instances a mark keeps its instance from being chosen if and only if the configured index is its position in the table |
| LoadBalancer.Adaptor.Turn | GSWAdaptors/common/GSWLoadBalancing.c:80-86 | The loop body looks up the key after the last one tried, around the end of the list, and tries that instance |
| LoadBalancer.Adaptor.MayTry | GSWAdaptors/common/GSWLoadBalancing.c:116-131 | The refusal check says no while the refusal lasts and lifts it once its time is over |
| LoadBalancer.Adaptor.TryNamed | GSWAdaptors/common/GSWLoadBalancing.c:202-246 | The instance asked for by number is taken unless it is invalid or refuses this request; its retry time is not looked at |
| LoadBalancer.Adaptor.PurgeSlot | GSWAdaptors/common/GSWApp.c:114-137 | One turn of the purge takes the dictionary from purged up to a slot to purged up to the next one |
| LoadBalancer.Adaptor.ClearInstances | GSWAdaptors/common/GSWApp.c:210-215 | Every instance of the application becomes invalid, nothing else changes |
| LoadBalancer.Adaptor.LoadOneInstance | GSWAdaptors/common/GSWConfig.c:778-801 | The instance under a key is configured again, or a new record is allocated, configured and added |
| LoadBalancer.Adaptor.FreeInvalid | GSWAdaptors/common/GSWApp.c:115-128 | One invalid entry goes from the dictionary, and its record from memory unless requests hold it |
| Dispatcher.Find | GSWAdaptors/common/GSWAppRequest.c:84-91 | A positive instance number asks for that instance, any other for any instance, and the request ends up with what that find is to end with |
| Dispatcher.Check | GSWAdaptors/common/GSWAppRequest.c:104-115 | The result is the time until which the application of the instance found is unavailable, or nothing if it is not or none was found |
| Dispatcher.Connect | GSWAdaptors/common/GSWAppRequest.c:133-244 | A connection costs an attempt; success starts the request, failure marks the instance |
| Dispatcher.Send | GSWAdaptors/common/GSWAppRequest.c:158-172 | A failed send costs its attempt only and leaves the instance held |
| Dispatcher.Receive | GSWAdaptors/common/GSWAppRequest.c:187-197 | The response is read, and the instance is let go of whatever the response is |
| Dispatcher.Note | GSWAdaptors/common/GSWAppRequest.c:200-212 | A response whose refusal header starts with YES is noted for the instance it was sent to |
| Dispatcher.Reselect | GSWAdaptors/common/GSWAppRequest.c:243-249 | A second attempt is used up, and another instance is looked for only if one was left |
| Dispatcher.Conclude | GSWAdaptors/common/GSWAppRequest.c:252-294 | The page for instances that do not answer if the last connection failed, else the response, else the dump page |
| GString.GSWString.ReplaceMatch | GSWAdaptors/common/GSWString.c:119-130 | The match found is replaced and what the loop will end with stays the same |
| HttpResponse.Socket.Fill | GSWAdaptors/common/GSWAppConnectSocket.c:281-319 | fgets: up to a line end, the end of the stream or the end of the buffer |
| HttpResponse.SplitName | GSWAdaptors/common/GSWHTTPResponse.c:321-328 | The name in front of the first colon is lower-cased and terminated in the buffer |
| HttpResponse.SkipBlanks | GSWAdaptors/common/GSWHTTPResponse.c:329-330 | The value begins at the first character that is not blank |
| HttpResponse.Finish | GSWAdaptors/common/GSWHTTPResponse.c:421-447 | The whole announced body, or the error response in its place |
| HttpRequest.WriteRequest | GSWAdaptors/common/GSWHTTPRequest.c:316-333 | The four writes, one behind the other, are the request text |
| ModGsw.Scan | GSWAdaptors/Apache2/mod_gsw.c:376-398 | The scan loop, which resets expired flags in its copy only, ends with the least-loaded index and the lone unreachable one |
| ModGsw.SharedMemory.Read | GSWAdaptors/Apache2/mod_gsw.c:260-287 | A private copy of all records, or nothing |
| ModGsw.OfflineIsNotChosen | GSWAdaptors/Apache2/mod_gsw.c:380-397 | An instance whose flag is in force is chosen only as the lone, unreachable one |

## Left out

- Memory of records: instances are values in an allocation map that methods reassign, not objects, so that freeing is removal from the map; aliasing of one record is aliasing of its address.
- Applications are never deallocated: the usage counter is not kept in balance by the code (GSWAdaptors/common/GSWApp.c:162-191), so freeing an application has no effect here.
- The dictionaries inside the pool are the slot tables that `Dicts.GSWDict` is proved against, not objects of that class; who owns and frees values is not modelled.
- Finding a configuration file changed, reading and parsing it: the parsed value is the input of a reload, and a file that cannot be parsed or has no applications counts as an empty list.
- LoadBalancer.Adaptor.FindInstance: when a find by number falls back to any instance, the code looks at the configuration file once more; here the fall back is the search alone.
- LoadBalancer.Adaptor.ReadApplication: the flag that lets an application show the configuration dump, its additional headers and its template paths are left out.
- LoadBalancer.Adaptor.LoadApplication: an application left without instances is unregistered, but not freed.
- LoadBalancer.Adaptor.LoadConfiguration: the global settings of the file and the test of its modification time are left out.
- malloc, rand, the clock, connection, send and receive results are inputs.
- Locks: each pool operation is one atomic step; two operations that overlap in time are not modelled.
- ReloadLaws.ReloadReplacesSet: application names, and instance keys of one application, are taken to differ in more than case. The file's dictionaries guarantee that they differ, but not that.
- ReloadLaws.SurvivorKeepsCounts: the same.
- Lifecycle.RunIsSafe: instance keys are taken to be printed ints; `CanonicalKeys.SafeIffCanonical` shows that this is needed. It is about instance records only: the host name a request points to belongs to the record, a reload that gives the instance a host frees it (GSWAdaptors/common/GSWConfig.c:427), and here a request has a copy of it.
- Lifecycle.StepKeepsInv: the same two remarks.
- Dispatch.WhatIsLeft: the count that an unavailable application, a failed last send or a reselection after the last attempt leaves behind stays, as in the code; only answers and failed finds are balanced.
- Dispatcher.SendAppRequestToApp: the look at the application record through the request's pointer after a mark, made for the text of an error page, is outside the model of who holds an instance.
- Integer widths: counters, string sizes and dictionary capacities are unbounded. Instance numbers, ports, content lengths, the lengths computed for a request, the status and the load have the widths of the code.
- Refusal keys longer than the 50 bytes allocated for them overflow the buffer in the code; here they are strings.
- Backoff.BacksOff: a find by number does not look at the retry time, in the code and here, so only round-robin finds back off.
- HttpText.ResponseIsWhole: a header line without a colon makes the code read past the line; such streams are excluded. A stream longer than an announced length of 2 GiB or more overruns the buffer in the code, and gets the error page here.
- HttpResponse.HttpResponse.AddHeader: a header line without a colon is excluded, since the code then reads past it.
- HttpResponse.SplitName: the same.
- HttpResponse.ReadHeaderLines: the same for each line of the stream.
- HttpResponse.GetResponse: the same.
- HttpRequest.HttpRequest.SendRequest: the code does not check that its writes fit; where they do not, the model sends nothing, and what the overrun does is not modelled. The caller has as much content as the length says.
- HttpText.MessageRoundTrip: the body recovered is below 2 GiB; from there on the announced length is negative as an int and the read takes whatever arrives.
- RunFairness.RunGoesRound: runs without a reload that start with every instance of the application configured; one that is not is removed with its last request, which shortens the cycle.
- Bookkeeping.BooksBalance: runs without a reload only, since a reload may free a record and allocate another one at the same address.
- HttpResponse.PackageHeaders: the branch for a caller's buffer that is too small is excluded.
- ModGsw.FindAppByName: the shared memory is taken to have a record for every configured position, and flags are only ever 0 or 1.
- HttpHeaders.SortInPlace: qsort is an insertion sort here; any sort has the same result, since names are distinct.
- Text and templates of error, status and dump pages, statistics, logging, sockets, Apache hooks, composing and parsing URLs and cookies.
- GSWList: key lists are sequences.
- The Objective-C framework, which is present as declarations only.
