# posix-commons: a verified model

A Dafny model of the hard core of posix-commons, a C99 library for POSIX systems, and proofs
about it. `dafny verify dfyconfig.toml` checks the whole project.

| file | models |
|---|---|
| `Matching.dfy` | what a substring matcher promises |
| `BoyerMoore.dfy`, `Kmp.dfy`, `SliceContains.dfy` | the two matchers and the choice between them |
| `KmpWritten.dfy` | which needles the KMP search as written serves, and how far |
| `RingList.dfy`, `ListRuns.dfy` | the intrusive ring list, one operation at a time and over whole runs |
| `Reactor.dfy` | events, kqueue filters, user threads and the reactor loop as a transition system |
| `ReactorFrames.dfy` | what each of its steps leaves alone |
| `ReactorCalls.dfy` | each call from beginning to end, and what others may do to a closed event |
| `ReactorSafety.dfy`, `ReactorRuns.dfy` | its invariant, and what holds in every run |
| `ReactorWakeups.dfy`, `LostWakeup.dfy` | no lost wake-up, and the run that loses one |
| `ReactorOneShot.dfy`, `OneShotOverlap.dfy` | callbacks against submits, and which submits cost an extra callback |
| `OneSubmit.dfy` | an event that is submitted once, as the log server's socket is |
| `ReactorPaths.dfy` | building runs |
| `RulesNeeded.dfy`, `WakeRulesNeeded.dfy` | which rules for callers memory safety and wake-ups need |
| `KqueueChanges.dfy` | the change lists for kevent(), and the kernel they drive in every run |
| `GcPass.dfy` | destroy and garbage collection on the heap, over the ring list |
| `FileIo.dfy` | the retrying writer and the buffered writer |
| `LogClient.dfy`, `LogServer.dfy` | the log pipeline from record to file |
| `Decimal.dfy` | integer formatting |

Sequential C code that updates memory is modelled by methods with loops, arrays and classes,
each proved against a specification that does not mention its body. The reactor is a transition
system because its properties are about interleavings: destroy and submit are cut at every lock,
field, list and kernel operation, and a run is any sequence of enabled steps.

The environment appears as parameters. write() is an arbitrary function from the number of the
call to an answer (interrupted, failed, or any count); only termination of the retry loop needs
that function to be fair. The kernel may deliver any set of enabled filters. Time stamps,
datagrams and the scheduler are inputs.

## What the proofs found

Most promises of the library hold as stated. These do not:

- **KMP falls back through the wrong entry** (src/common/kmp.c:34 reads `P[j+1]` where the table
  needs `P[j-1]`). Every needle of at least two bytes has a text on which the table is read past
  its end (`Kmp.WrittenReadsOutside`); "aabc" is missed in "aaabc" (`Kmp.WrittenMissesMatch`);
  searching "aba" in "aa" never ends (`Kmp.WrittenLoops`). The wrong line is reached if and only
  if the first place that holds the needle's first byte starts a match that then fails
  (`Kmp.WrittenFallsBackIff`), and otherwise the answer is right
  (`Kmp.WrittenRightWithoutFallback`). Beyond that it depends on the needle. If at every place before
  the last byte, and for every byte, the chain of fallbacks through `P[j+1]` ends where the one
  through `P[j-1]` does, as for "abc", "aaab" and every two-byte needle, the answer is right if and
  only if the text has no near miss: all of the needle but its last byte, before an occurrence ends.
  Every other needle has a text without a near miss that is answered wrongly or not at all
  (`KmpWritten.RightEndsAreExact`). `Kmp.PrefixSearch` models the intended `P[j-1]`.
- **Case-ignored search lower-cases the text but not the query** (src/common/boyermoore.c:86). It
  means "first occurrence up to case" on every text if and only if the query has no capital letter
  (`BoyerMoore.CaseIgnoredMeansCaseInsensitive`); a query with one is never found
  (`BoyerMoore.ContainsCaseIgnored`).
- **Releasing an event closes `event->fd` even when it is a timer, user or signal number**
  (src/event.c:33). If a live socket has that descriptor, its filters vanish and a submitted bit is
  never served. `LostWakeup.WakeupIsLost` is a run, within all rules for callers, that ends
  this way. A release leaves a bit unserved exactly when the bit is set on a live socket of that
  number, with no entry waiting and no submit about to enable it
  (`ReactorWakeups.ReleaseKeepsWakeupIff`).
- **"Every event is triggered exactly once" (src/event.h:46) needs submits that do not overlap a
  waiting entry.** Submitting OUT while an IN entry waits enables IN again, and one submit for input
  is called back twice: `OneShotOverlap.PromiseIsBroken` is such a run, within all rules for callers.
  In every run, whatever the callers do, the callbacks are at most the submits plus these overlaps
  (`ReactorOneShot.CallbacksAgainstSubmits`). When every submit is still owed its callback, enabling
  makes an excess possible if and only if it overlaps (`OneShotOverlap.OverlapIsExact`). An event that
  is submitted once has no overlap and at most one callback per one-shot filter, in every
  run (`OneSubmit.OneSubmitOneCallback`). The log server is such a case: it submits its socket once
  (src/asynclogsvr.c:82) and the callback does not submit again (src/asynclogsvr.c:38-50), so as wired
  it handles one datagram. The runs of `LogServer.dfy` are of the callbacks, with any number of them.
- **A failed flush loses the unwritten buffer, and the log server ignores it**
  (src/fileio.c:188-192, src/asynclogsvr.c:44). Over a whole run of any writer or server nothing is
  lost if and only if no write() of the run failed, and what is kept is always a subsequence of the
  stream, in order and without repeats (`FileIo.Drive`, `LogServer.Drive`). A writer or server whose
  next write() fails loses what it has buffered (`FileIo.FailedFlushLoses`,
  `LogServer.FailedTickLoses`).
- **Formatting zero gives the empty string, and a negative number gives characters below '0'**
  (src/common/utils.c:44-53). The output is a decimal numeral if and only if the number is positive
  (`Decimal.NumeralIffPositive`); its positional value is right for every int.
- **A gc pass by a thread other than the reactor's unlinks events and releases none**
  (src/reactor.c:9): the second half of `GcPass.Reactor.Gc`.

## Rules for callers

The reactor theorems refer to these rules for the code that uses the library:

- `Reactor.DestroysOnce`: destroy is called once per event.
- `Reactor.SparesPending`: a callback does not destroy an event with an entry left in the batch.
- `Reactor.OwnsFilters`: two unreleased events do not register the same filter of one number.
- `Reactor.SubmitsOnUnreleased`: no submit runs on a released event (it may race with destroy).
- `Reactor.GivesUpOnDestroy`, stricter and within a caller's own control: no submit during or after
  destroy.

Two further conditions are no rules of the library, and the runs that lack them are results of their
own: no release closes the descriptor of a live socket (`ReactorWakeups.ClosesForeign`), for wake-ups,
and no submit enables filters while an entry of its event waits (`ReactorOneShot.Quiet`), for counting
without overlaps.

Which of them are needed is settled exactly, for every set of broken rules:

- No thread touches a released event, and equally no released event is called back, if and only if
  `DestroysOnce` and `SparesPending` are kept, and besides either `GivesUpOnDestroy` or both
  `OwnsFilters` and `SubmitsOnUnreleased` (`RulesNeeded.RulesAreExact`).
- No wake-up is lost if and only if `DestroysOnce` and `OwnsFilters` are kept, no release closes a
  foreign descriptor, and either `GivesUpOnDestroy` or `SubmitsOnUnreleased` is kept
  (`WakeRulesNeeded.WakeRulesAreExact`).

Other theorems ask for less. That releases happen once, the absence of deadlock and the gc pass need
`DestroysOnce`; who releases, the atomicity of submits and the counting of callbacks need no rule.

gc runs between batches: the reactor is not destroyed from one of its own callbacks. The log server's
SIGINT handler does that (src/asynclogsvr.c:29-35), just before it exits the process.

## Model

| member | source | states |
|---|---|---|
| Matching.FirstMatchIsUnique | src/common/slice.c:58-64 | the first-occurrence specification admits one answer, so matchers that meet it agree |
| BoyerMoore.IsPrefix | src/common/boyermoore.c:6-20 | true exactly when the suffix at `pos` is a prefix, under either case rule |
| BoyerMoore.SuffixLen | src/common/boyermoore.c:22-36 | the length of the longest run ending at `pos`, position 0 excluded, that equals a suffix |
| BoyerMoore.OneMismatchPerShift | src/common/boyermoore.c:50-55 | a shift within the query is good for exactly the one entry that the second pass writes, or for none |
| BoyerMoore.FirstPass | src/common/boyermoore.c:43-49 | every entry holds the least good shift that moves the mismatch off the left |
| BoyerMoore.SecondPass | src/common/boyermoore.c:50-55 | after it every entry holds the least good shift of all, whichever pass wrote it |
| BoyerMoore.GenerateFindSkip | src/common/boyermoore.c:38-56 | the two-pass table is exact: each entry minus the matched length is the least good shift |
| BoyerMoore.TableIsTextbook | src/common/boyermoore.c:38-56 | for case-sensitive queries and those without capitals that is the least shift of the strong good-suffix rule |
| BoyerMoore.FindSkipIsUnique | src/common/boyermoore.c:38-56 | only one table is exact for a query |
| BoyerMoore.GenerateAlphaSkip | src/common/boyermoore.c:58-72 | each byte maps to the distance of its last place other than the end, or the query length |
| BoyerMoore.BadCharacterIsSafe | src/common/boyermoore.c:86-88 | no occurrence lies where the bad-character skip jumps, though the table is indexed by the raw byte |
| BoyerMoore.OccurrenceIsGoodShift | src/common/boyermoore.c:83-89 | an occurrence further right is a good shift, seen from the mismatch |
| BoyerMoore.GoodSuffixIsSafe | src/common/boyermoore.c:83-89 | no occurrence lies where the good-suffix skip jumps |
| BoyerMoore.JumpIsSafe | src/common/boyermoore.c:88 | the larger skip moves the window strictly right and passes no occurrence |
| BoyerMoore.Searcher.constructor | src/common/boyermoore.c:74-80 | both tables are exact for the query and mode |
| BoyerMoore.Searcher.SearchIn | src/common/boyermoore.c:82-91 | the first occurrence in the (folded) text, or none exactly when there is none |
| BoyerMoore.Contains | src/common/boyermoore.c:93-97 | case-sensitive search finds the first occurrence of every non-empty query |
| BoyerMoore.LowerIsSameLetter | src/common/boyermoore.c:86 | folding makes two bytes equal if and only if they are equal or the small and the capital form of one of the 26 letters |
| BoyerMoore.LowerLeavesNoCapital | src/common/boyermoore.c:86 | folding leaves no capital, keeps the letter, and changes nothing but capitals |
| BoyerMoore.LowerAndUpperCover | src/common/boyermoore.c:66-69 | the two entries that the case-ignored bad-character table writes are for exactly the forms of the letter |
| BoyerMoore.ContainsCaseIgnored | src/common/boyermoore.c:99-103 | for a query without capitals, the first place where every byte is the same letter; for any other query, none |
| BoyerMoore.CaseIgnoredMeansCaseInsensitive | src/common/boyermoore.c:86 | it finds the first occurrence up to case on all texts if and only if the query has no capital |
| Kmp.FallbackKeepsCandidates | src/common/kmp.c:16-18 | a fallback skips no border that the next byte extends |
| Kmp.EntryIsLongest | src/common/kmp.c:19-22 | the stored entry is the longest proper border |
| Kmp.Failure | src/common/kmp.c:10-24 | every entry is the length of the longest proper border of that prefix |
| Kmp.FallbackMissesNone | src/common/kmp.c:33-35 | with `P[j-1]`, a fallback during the search skips no alignment that the next byte extends |
| Kmp.PrefixSearch | src/common/kmp.c:26-44 | with `P[j-1]`, the first occurrence, or none exactly when there is none |
| Kmp.Contains | src/common/kmp.c:46-57 | with `P[j-1]`, the same for the whole call, needles of two bytes and more |
| Kmp.WrittenReadsOutside | src/common/kmp.c:34 | every needle has a text on which the search as written reads past its table |
| Kmp.WrittenMissesMatch | src/common/kmp.c:34 | as written, "aabc" is not found in "aaabc" though it occurs at 1 |
| Kmp.WrittenLoops | src/common/kmp.c:33-35 | as written, the search of "aba" in "aa" repeats one fallback for ever |
| Kmp.WrittenFallsBackIff | src/common/kmp.c:32-42 | line 34 is reached if and only if the first try fails |
| Kmp.WrittenRightWithoutFallback | src/common/kmp.c:32-43 | if it is not reached, the search as written answers correctly |
| Kmp.LastByteFailureReadsOutside | src/common/kmp.c:33-35 | as written, whatever the table holds, every text whose first try fails at the last byte ends in a read past the table |
| KmpWritten.IntendedEndIsRight | src/common/kmp.c:33-35 | the chain through `P[j-1]` ends at the longest border that the byte extends, or at 0 if it extends none |
| KmpWritten.RightEndsIff | src/common/kmp.c:33-35 | the chains through `P[j+1]` end there too if and only if they end where those through `P[j-1]` do |
| KmpWritten.RightFallbacksIff | src/common/kmp.c:34 | `P[j+1]` is the right fallback at every place inside the table if and only if table entries two apart are equal |
| KmpWritten.RightFallbacksEndRight | src/common/kmp.c:33-35 | needles whose fallbacks are right one by one are among those whose chains end right |
| KmpWritten.WrittenAnswersIff | src/common/kmp.c:32-43 | as written, a needle whose chains end right, of any length, is answered correctly if and only if the text has no near miss before an occurrence ends |
| KmpWritten.TwoByteNeedlesIff | src/common/kmp.c:32-43 | as written, a two-byte needle is answered correctly if and only if the first try does not fail |
| KmpWritten.EndlessChainFails | src/common/kmp.c:33-35 | a chain that repeats or leaves the table gives no answer on the prefix that leads to it |
| KmpWritten.LowEndFails | src/common/kmp.c:33-35 | a chain that ends too low misses the occurrence that the text then completes |
| KmpWritten.HighEndFails | src/common/kmp.c:33-35 | a chain that ends too high reports an occurrence that is not there |
| KmpWritten.RightEndsAreExact | src/common/kmp.c:26-44 | the search as written is right on exactly the texts without a near miss if and only if its chains end where those through `P[j-1]` do, at every place before the last byte and for every byte |
| SliceContains.Contains | src/common/slice.c:58-64 | with the intended fallback, true exactly when the pattern occurs, whichever matcher the length picks; as written, patterns of two to eight bytes go to the search of src/common/kmp.c:34 |
| SliceContains.BothMatchers | src/common/slice.c:58-64 | with the intended fallback, both matchers return the same pointer on every text and pattern of two bytes and more |
| RingList.Insert | src/common/list.h:76-84 | linking between neighbours inserts at that place of the ring |
| RingList.Add | src/common/list.h:86-89 | a well-formed ring with the node right behind the head |
| RingList.AddTail | src/common/list.h:91-94 | a well-formed ring with the node last |
| RingList.Unlink | src/common/list.h:96-100 | a well-formed ring without the node, whose own links stay |
| RingList.Del | src/common/list.h:102-107 | the same, and the node's links are null |
| RingList.DelInit | src/common/list.h:109-113 | the same, and the node is a ring of its own |
| RingList.Move | src/common/list.h:115-119 | within one ring or between two disjoint ones, the node ends right behind the head |
| RingList.MoveTail | src/common/list.h:121-126 | within one ring or between two disjoint ones, the node ends last |
| RingList.IsEmpty | src/common/list.h:128-131 | true exactly when the ring is its head |
| RingList.SpliceNonEmpty | src/common/list.h:133-145 | all nodes of one ring go behind the head of another, in order |
| RingList.Splice | src/common/list.h:147-151 | the same for any ring, also into an empty one; the old head keeps its links |
| RingList.SpliceInit | src/common/list.h:153-160 | the same, and the old head is an empty list |
| RingList.ForEach | src/common/list.h:166-168 | visits every node but the head once, in order |
| RingList.ForEachPrev | src/common/list.h:170-172 | visits them in reverse order |
| ListRuns.Lists.DoAdd | src/common/list.h:86-89 | in a family of disjoint lists, prepends to one sequence and changes no other |
| ListRuns.Lists.DoAddTail | src/common/list.h:91-94 | appends to one sequence and changes no other |
| ListRuns.Lists.DoDel | src/common/list.h:102-107 | removes the node from the sequence that holds it |
| ListRuns.DeletesAndMoves | src/common/list.h:102-126 | place by place: taking out removes just the place of the node, and moving puts it first or last of what is left |
| ListRuns.Lists.DoMove | src/common/list.h:115-119 | removes the node and prepends it, in one list or across two |
| ListRuns.Lists.DoMoveTail | src/common/list.h:121-126 | removes the node and appends it, in one list or across two |
| ListRuns.Lists.DoSpliceInit | src/common/list.h:153-160 | moves a whole sequence in front of another and empties it |
| ListRuns.Lists.Exec | src/common/list.h:71-160 | every operation keeps all lists well-formed and disjoint and does its sequence operation |
| ListRuns.Lists.Run | src/common/list.h:71-160 | every run of operations refines the run on plain sequences |
| ReactorCalls.SubmitAlone | src/event.c:82-89 | a submit of a closed event changes nothing; otherwise the bits are added and exactly the registered filters whose bits are then set are enabled |
| ReactorCalls.ClosedTakesNoSubmit | src/event.c:83 | once an event is marked and no submit is under way, on every path no later submit gets in, counts or adds a bit |
| ReactorCalls.DestroyAlone | src/event.c:62-79 | a destroy closes the event; an open one loses its filters and a user thread queues it last; the reactor thread releases it and closes its number |
| ReactorCalls.GcAlone | src/reactor.c:30-47 | a pass empties the queue; the reactor thread releases its events in order and no others, another thread none |
| ReactorCalls.DispatchClears | src/mac/reactor_kq.c:14-41 | an entry clears IN, OUT, SIG or USR for its filter, nothing for a timer, ERR if it reports an error, and no other bit of any event |
| ReactorCalls.PollDelivers | src/mac/reactor_kq.c:44-47 | any at most 64 enabled filters can be delivered, which disables those of READ, WRITE and USER and no others |
| ReactorCalls.CreateOpens | src/event.c:17-30 | a new event is open, unlocked and without bits |
| ReactorCalls.CreateRegisters | src/mac/event_kq.c:85-106 | its filters are registered and disabled, and no other filter changes |
| ReactorCalls.CallsArePossible | src/mac/reactor_kq.c:43-58 | user threads may call at any time, the reactor thread from callbacks; it collects and polls between batches |
| ReactorCalls.ChangesAreTouched | src/event.c:43-97 | a step changes no event but those it is said to touch |
| ReactorCalls.ReadsAreTouched | src/common/list.h:76-107 | it is said to touch what it reads too, neighbours on the queue included |
| ReactorSafety.SameFatesKeepMemory | src/event.c:82-97 | a step that keeps filters and fates, and only drops pending entries, as submit's locking and marking and consume do, lets nothing point to a released event |
| ReactorSafety.DeregKeepsMemory | src/mac/event_kq.c:108-129 | deregistering leaves no filter pointing to the event |
| ReactorSafety.SubEnableKeepsMemory | src/mac/event_kq.c:131-153 | enabling without EV_ADD cannot point a filter at a deregistered event that has no filters left |
| ReactorSafety.UnsharedEnablesOwn | src/mac/event_kq.c:131-153 | when no two events share a filter, a submit that races with destroy meets that condition |
| ReactorSafety.LinkKeepsLife | src/event.c:51-55 | only marked and deregistered events are queued, each once |
| ReactorSafety.ReleaseKeepsMemory | src/event.c:32-37 | a released event has no filter and no pending entry |
| ReactorSafety.ReleaseKeepsLife | src/event.c:32-37 | a released event is not queued and had not been released before |
| ReactorSafety.PollKeepsMemory | src/mac/reactor_kq.c:47 | a batch names no released event |
| ReactorSafety.StepKeepsAlive | src/event.c:62-97 | with one destroy per event, every step keeps the life cycle: marked, deregistered, queued once, released once |
| ReactorSafety.KeyedKept | src/mac/event_kq.c:85-106 | whatever the callers do, every filter and pending entry belongs to an event of its number and kind, and a batch holds each filter once |
| ReactorSafety.StepKeeps | src/mac/reactor_kq.c:43-58 | every step of user threads and reactor loop keeps the whole invariant, if it destroys once, spares pending events and enables only what is its own |
| ReactorRuns.ReachableIsSafe | src/mac/reactor_kq.c:43-58 | the invariant holds in every reachable state of a run that keeps the rules and lets submits race with destroy |
| ReactorRuns.NoReleasedEventIsDispatched | src/mac/reactor_kq.c:49-52 | in every interleaving, the reactor dispatches no released event |
| ReactorRuns.NoUseAfterRelease | src/event.c:62-79 | with one destroy per event, pending events spared and no submit during or after destroy, no step of any thread touches a released event, unlocking in destroy included, even when events share filters |
| ReactorRuns.OnlyTheReactorReleases | src/event.c:75-78 | in every run, whatever the callers do, a step after which an event is newly released is the reactor thread's, and logs just that event |
| ReactorRuns.ReleasedAtMostOnce | src/event.h:43-44 | with one destroy per event, the log of releases names no event twice |
| ReactorRuns.SubmitIsAtomic | src/event.c:84-96 | from locking to unlocking, a submit is atomic towards consumption and other submits of the event, in every run |
| ReactorRuns.NoDeadlock | src/event.c:51-97 | with one destroy per event, in every reachable state a busy thread can move, or waits for a holder that can; waiting to submit, to queue, to dispatch and to enter gc are covered |
| ReactorRuns.HoldingIsBounded | src/reactor.c:30-47 | every action of a mutex holder brings it nearer to unlocking by a known measure, and no other thread delays it |
| ReactorRuns.GcPassIsFifo | src/reactor.c:30-47 | a reactor-thread pass releases exactly the events queued at its start, in order, and empties the queue |
| ReactorRuns.GcNeverRelocks | src/reactor.c:32-45 | all queued events are closing, so gc never takes the mutex it holds, and no thread waits at the start of gc for its own |
| ReactorWakeups.EnableServesOwn | src/mac/event_kq.c:131-153 | a submit enables every filter whose bit is set |
| ReactorWakeups.PollServes | src/mac/reactor_kq.c:47 | delivery turns an enabled filter into a pending entry |
| ReactorWakeups.DispatchServes | src/mac/reactor_kq.c:14-41 | after consuming an entry every bit still set is served |
| ReactorWakeups.OnlyItsEntryClearsABit | src/event.c:91-97 | a set bit is cleared only by consuming an entry of its own filter |
| ReactorWakeups.GoKeepsWake | src/event.c:62-97 | every action of a thread keeps set bits served |
| ReactorWakeups.NoLostWakeup | src/event.c:81-97 | in every run with wake-up rules kept, a set bit has its filter enabled or its entry pending, unless a submit is enabling it; callbacks may destroy pending events |
| ReactorWakeups.ReleaseKeepsRegistrationsIff | src/event.c:33 | a release keeps all registrations if and only if it closes no foreign descriptor |
| ReactorWakeups.ForeignCloseLosesWakeup | src/event.c:33 | closing a foreign descriptor leaves a set bit unserved |
| ReactorWakeups.ReleaseKeepsWakeupIff | src/event.c:33 | a release leaves a set bit unserved if and only if it closes the number of that live socket while no entry waits and no submit is about to enable it |
| LostWakeup.WakeupIsLost | src/event.c:104-107 | a run that breaks no rule but the foreign close, in which a submitted live socket ends with no filter to serve it |
| ReactorOneShot.MarkOwes | src/event.c:85 | naming a filter adds a callback exactly when none was owed; otherwise submits merge |
| ReactorOneShot.EnableOwes | src/mac/event_kq.c:135-138 | enabling adds a callback exactly when it overlaps a waiting entry, whichever bit was named |
| ReactorOneShot.DispatchOwes | src/mac/reactor_kq.c:35-40 | a callback uses up exactly the entry it was owed for |
| ReactorOneShot.SurplusNeverGrows | src/mac/reactor_kq.c:14-58 | along every path, whatever the callers do, what is owed never grows by more than the submits and the overlaps |
| ReactorOneShot.CallbacksAgainstSubmits | src/event.h:46-47 | in every run, whatever the callers do, callbacks so far and those still owed are at most the submits that named the filter plus the overlaps |
| ReactorOneShot.CallbacksNeverExceedSubmits | src/event.h:46-47 | without overlapping submits, callbacks so far, plus one for a bit still set, are at most the submits that named the filter |
| OneShotOverlap.PaidUpCannotExceed | src/event.h:46-47 | when no more is owed than was submitted, no continuation without an overlap exceeds the submits, whichever rules it breaks |
| OneShotOverlap.TwoCallbacks | src/mac/reactor_kq.c:43-58 | a waiting entry whose filter is enabled as well leads to two callbacks |
| OneShotOverlap.OverlapIsExact | src/mac/event_kq.c:135-138 | when every submit is still owed its callback and the reactor is in no other call, enabling makes an excess callback possible, within the rules or outside, if and only if an entry waits with its filter disabled and its bit set |
| OneShotOverlap.PromiseIsBroken | src/event.h:46 | a run within all rules in which one submit for input is called back twice |
| OneSubmit.OneSubmitOneCallback | src/asynclogsvr.c:82 | in every run, whatever the callers do, an event that submit was called on at most once has no overlap and at most one callback per one-shot filter |
| RulesNeeded.LateSubmitDispatches | src/event.c:83-88 | a submit that has passed its check can go on after the release, point the filter of a new event with that number at the released one, and have it called back |
| RulesNeeded.RashCallbackDispatches | src/mac/reactor_kq.c:49-52 | a callback that destroys a socket with a second entry in the batch makes the reactor dispatch a released event |
| RulesNeeded.SecondDestroyDispatches | src/event.c:63-78 | a callback that destroys an event another thread has only marked releases it with its filter in place, which then fires |
| RulesNeeded.SharedFilterDispatches | src/mac/event_kq.c:77-79 | a submit can point the filter of a second event with the same number at a first one that is then released and dispatched |
| RulesNeeded.CarefulRulesSuffice | src/event.h:43-44 | one destroy per event, pending events spared and no submit during or after destroy are enough, whatever else is broken |
| RulesNeeded.RacyRulesSuffice | src/event.c:82-88 | so are one destroy per event, pending events spared, filters of one owner and no submit on a released event |
| RulesNeeded.RulesAreExact | src/event.h:43-44 | for every set of broken rules: some run calls back a released event, and likewise some run uses one in any way, if and only if the set breaks one destroy per event, or sparing pending events, or giving up on destroy together with filter ownership or with submits on unreleased events only |
| WakeRulesNeeded.SharedFilterLoses | src/mac/event_kq.c:85-106 | a second event that registers the filter of a submitted one disables it |
| WakeRulesNeeded.SecondDestroyLoses | src/event.c:63-72 | a second destroy that comes late deregisters the filter of a successor with the same number |
| WakeRulesNeeded.LateSubmitLoses | src/event.c:83-88 | a submit on a released event takes the filter of its successor away |
| WakeRulesNeeded.WakeRulesAreExact | src/event.c:81-97 | for every set of broken rules: some run loses a wake-up if and only if the set breaks one destroy per event, or filter ownership, or allows a foreign close, or breaks both submit rules |
| KqueueChanges.CreateChanges | src/mac/event_kq.c:85-106 | the list adds exactly the filters of the kind, each once, with EV_ADD, EV_DISABLE and EV_CLEAR |
| KqueueChanges.DestroyChanges | src/mac/event_kq.c:108-129 | the list deletes exactly the filters of the kind, each once |
| KqueueChanges.SubmitChanges | src/mac/event_kq.c:131-153 | the list enables exactly the filters whose bits are set, never adds, and EV_DISPATCH is on READ, WRITE and USER and on no other |
| KqueueChanges.FlagsAreNeeded | src/mac/event_kq.c:11-57 | without EV_DISABLE a new filter is enabled at once, and without EV_DISPATCH a delivered one stays enabled |
| KqueueChanges.CreateMatchesModel | src/mac/event_kq.c:85-106 | kevent() on that list has the effect of the create step and succeeds |
| KqueueChanges.DestroyMatchesModel | src/mac/event_kq.c:108-129 | kevent() on that list has the effect of the deregistration step, and succeeds exactly when the filters are registered |
| KqueueChanges.SubmitMatchesModel | src/mac/event_kq.c:131-153 | kevent() on that list has the effect of the enabling step; submit succeeds exactly when some bit is set and the filters are registered |
| KqueueChanges.PollMatchesModel | src/mac/reactor_kq.c:47 | the delivery disables exactly the filters that were enabled with EV_DISPATCH, as the poll step says |
| KqueueChanges.KernelFollows | src/mac/event_kq.c:85-153 | in every run, whatever the callers do, a kernel driven by the lists alone holds the filters of the transition system, enabled when it says so |
| KqueueChanges.FiltersComeAndGoTogether | src/mac/event_kq.c:88-92 | in every run an event's filters are registered all or not at all |
| GcPass.Reactor.AddToGcList | src/event.c:51-60 | locks, queues the event last, unlocks |
| GcPass.Reactor.Destroy | src/event.c:62-79 | marks and queues on user threads, releases on the reactor thread, locks only when the mutex is free |
| GcPass.Reactor.Turn | src/common/list.h:185-189 | one turn unlinks and destroys the first event and steps to a node whose event has not been freed |
| GcPass.Reactor.CollectAll | src/common/list.h:185-189 | the safe traversal reads no node of a freed event and ends with an empty list |
| GcPass.Reactor.Gc | src/reactor.c:30-47 | the reactor thread releases exactly the queued events in order, another thread none; the list ends empty |
| FileIo.File.Write | src/fileio.c:177-181 | write(): appends the counted bytes and nothing else |
| FileIo.UnbufferedWrite | src/fileio.c:175-186 | the file grows by a prefix of the data, by all of it exactly when no call failed; interruption is no failure |
| FileIo.BufferedWritable.constructor | src/fileio.c:193-196 | starts empty |
| FileIo.BufferedWritable.Flush | src/fileio.c:188-192 | the buffer ends empty, and all of it is in the file exactly when no call failed |
| FileIo.BufferedWritable.FlushAndStore | src/fileio.c:209-217 | what did not fit follows the flushed buffer: in the new buffer if it is less than 4096 bytes, in the file if not |
| FileIo.BufferedWritable.Write | src/fileio.c:202-218 | success adds exactly the data, and says what is buffered; failure leaves a proper prefix and an empty buffer; data that fits makes no system call |
| FileIo.Drive | src/fileio.c:188-218 | any run of writes and flushes on any writer: all calls succeed, and file plus buffer grow by exactly the stream, if and only if no write() of the run failed; they are always a subsequence of it |
| FileIo.AllSucceed | src/fileio.c:202-218 | while calls succeed, file plus buffer is what was there and the concatenation of all data |
| FileIo.NothingLostIff | src/fileio.c:188-218 | over a whole run, file plus buffer grow by the stream if and only if every call succeeded |
| FileIo.FailedFlushLoses | src/fileio.c:188-192 | a writer whose next write() fails accepts data and then loses it, with all it had buffered |
| FileIo.FirstFailure | src/fileio.c:175-192 | at the first failure the file is a prefix of the stream, the failing data included |
| FileIo.NeverReordered | src/fileio.c:188-218 | with failures anywhere, file plus buffer is a subsequence of the stream |
| LogClient.CutMakesRecord | src/asynclogcli.c:38-44 | clipping to the room left makes a record of at most one page |
| LogClient.LabelsDiffer | src/asynclogcli.c:15-33 | no two levels have the same label |
| LogClient.Log | src/asynclogcli.c:12-45 | sends the stamp, the text of the level character by character, as much of the message as a page of 4096 bytes takes, and a newline; nothing below the threshold |
| LogClient.LinesUndoConcat | src/asynclogcli.c:43-44 | cutting concatenated records at newlines gives them back if and only if each is one line |
| LogClient.RecordIsLine | src/asynclogcli.c:34-44 | a record is one line if and only if header and kept message hold no newline |
| LogServer.Server.Flush | src/asynclogsvr.c:9-16 | the clock tick: the buffer goes to the file |
| LogServer.Server.Roll | src/asynclogsvr.c:22-26 | flushes, changes the name and restarts the counter; the file stays |
| LogServer.Server.OnDatagram | src/asynclogsvr.c:38-50 | one page at most is kept in order, counted, and rolls the log exactly when the limit is passed |
| LogServer.Drive | src/asynclogsvr.c:9-50 | any run of datagrams, ticks and rolls on any server: file plus buffer grow by all that was received if and only if no write() of the run failed, and by a subsequence always; the counter is the bytes since the last roll and the renames are the rolls |
| LogServer.ServedIsTrace | src/asynclogsvr.c:9-50 | to the writer a served run is a run of writes and flushes, a datagram past the limit included |
| LogServer.CounterIsSinceRoll | src/asynclogsvr.c:45-48 | after every step the counter is the bytes received since the last roll or overflow, within the limit, and exactly those inputs rename the file |
| LogServer.CounterIsArrivals | src/asynclogsvr.c:22-26 | the counter is the length of what arrived since the name last changed |
| LogServer.NothingLostIff | src/asynclogsvr.c:44 | over a whole run, file plus buffer is all that was received if and only if no step failed to write |
| LogServer.FailedTickLoses | src/asynclogsvr.c:9-16 | a server whose next write() fails counts a datagram and loses it at the tick, with all it had buffered |
| LogServer.KeptInOrder | src/asynclogsvr.c:44 | with failing writes it is a subsequence of it |
| LogServer.EndToEnd | src/asynclogcli.c:34-44 | client records arrive uncut and in order, whatever they hold, and can be read back line by line if and only if each is one line |
| Decimal.Reverse | src/common/utils.c:34-42 | mirrors the first `len` bytes in place and leaves the rest |
| Decimal.StoreDigits | src/common/utils.c:45-49 | stores the digits, lowest first, with C's truncating division |
| Decimal.PadZeros | src/common/utils.c:61 | appends zeros up to the width |
| Decimal.Itoa | src/common/utils.c:44-53 | reads back to `x`; a numeral without leading zero exactly when `x > 0`; as many bytes as digits |
| Decimal.ItoaPaddingZeros | src/common/utils.c:55-65 | reads back to `x`, is as long as the width or the digits, and is all digits exactly when `x >= 0` |
| Decimal.DigitCount | src/common/utils.c:46-49 | at most `n` characters exactly when the number is below 10 to the `n` |
| Decimal.IntHasTenDigits | src/common/utils.c:44 | an int has at most ten |
| Decimal.NumeralIffPositive | src/common/utils.c:44-53 | the output is a numeral if and only if the number is positive |

## Left out

- BoyerMoore.Searcher.SearchIn: does not model overflow of `size_t` when a skip is added near the top of the address space.
- Kmp.PrefixSearch: models the fallback of line 34 as `P[j-1]` (the line as written is covered by the `Written` lemmas) and does not model the conversion of the position to `int` for texts longer than INT_MAX.
- Kmp.FallbackMissesNone: states the intended fallback `P[j-1]`, not line 34 as written.
- Kmp.Contains: calls the intended search, not line 34 as written.
- SliceContains.Contains: dispatches to the intended KMP search, not line 34 as written.
- SliceContains.BothMatchers: compares Boyer-Moore with the intended KMP search.
- Kmp.WrittenRightWithoutFallback: one-way; `KmpWritten.RightEndsAreExact` gives the exact texts for the needles it names, and for each other needle a text that fails, not all of them.
- GcPass.Reactor.Destroy: leaves out the deregistration and shutdown() inside destroy, which the transition system of `Reactor.dfy` and `KqueueChanges.dfy` cover.
- LogClient.Log: does not model signed overflow of `pos+len` for lengths within 88 of INT_MAX, nor a negative length, which the source passes to memcpy as a huge size.
- Reactor: `evmask` is a set of bits, event addresses are never reused, reads and writes of `closing` are atomic, allocation and the registering kevent() call succeed.
- Reactor: the callback's arguments; which bits it is told are those that `ReactorCalls.DispatchClears` names.
- Reactor: timer events are periodic; EV_ONESHOT timers are left out because the source itself notes that they do not work on its platform.
- Reactor: the shutdown() of the descriptor inside destroy, which changes what the kernel may report but no state modelled here.
- Reactor: gc may run between any two batches; the source runs it between every second pair, which is one of these runs.
- Reactor shutdown: joining the thread and freeing the reactor, whose progress depends on kernel wake-ups the code does not produce.
- src/linux: the epoll loop indexes its batch with the wrong variable and its timers are missing.
- src/ipc.c, src/tcp.c, src/runtime.c, src/signal.c, src/log.c, src/common/timestr.c and the file helpers before src/fileio.c:175: thin wrappers around system and library calls.
- Float and double formatting, which rests on floating-point casts and pow.
- Slice construction, copy and append, posixc_is_regex and posixc_binary_search: they would only add easy members.
