# Delivery and read-path guarantees, modelled in Dafny

This project models the stateful core of the system and proves what it guarantees over whole
runs:

- **Forwarder.** One process takes records from a sink topic and POSTs them to HTTP
  destinations, with an in-place retry loop that keeps polling, a dedupe ledger, partition
  revocation during a wait, a retry budget, and one commit per message. `ForwarderProtocol.dfy`
  is an automaton over a journal of events (polls, lookups, POSTs, ledger writes, waits,
  rebalances, hand-backs, commits, crashes, operator re-sends); `ForwarderDelivery.dfy` proves
  what a delivery can do next from its log alone and `ForwarderSafety.dfy` the guarantees of
  every journal it accepts; `Forwarder.dfy` is the imperative code, proved to
  write only such journals, whatever the broker, the destination, the database, the clock and
  the operator do. `Ledger.dfy` is the table of delivered events.
- **Screen window.** Change messages of a live element read are folded in place, through
  aliased message objects, into one answer (`Screen.dfy`, `ScreenCollect.dfy`); the answer
  must replay to the rows of the upstream log. Beside it stand the table of resumable shape
  handles (`Handles.dfy`) and the table of element views with holders and grace timers
  (`Elements.dfy`).
- **Records.** JSON pointers (`Pointer.dfy`) and documents written in place (`Documents.dfy`),
  the ids of episodes and their events (`Identity.dfy`), the assembler (`Assembler.dfy`), its
  memory of what it produced and of marching assets (`Posture.dfy`), and the index of open
  episodes (`Picture.dfy`).
- **Release.** The egress gate's label reader and decision (`Gate.dfy`) and the viewer filter
  in front of it (`Viewer.dfy`), against the read path's row policy.
- **Intake.** One artifact over many polls (`Intake.dfy`) and the round-robin over open cases
  (`RoundRobin.dfy`).
- **Sessions, templates, scenario end.** Sign-in renewal, deferral, idle and ceiling
  (`Sessions.dfy`); topic templates with nested defaults (`Expander.dfy`); the timed loop that
  decides when a scenario has ended (`ScenarioEnd.dfy`).

Loops and classes follow the code: what the code updates in place is a field or an object here,
and each method is proved against a function or a predicate that the lemmas are about. The
outside (network, broker, database, clock, other threads) answers nondeterministically. Times
are integers in one unit per module; a crash is an event that forgets process memory.

Some promises hold only under a condition. The model follows the code, a lemma shows what goes
wrong without the condition, and where it can be stated exactly, another proves it exact:

- The notes on the backoff wait say that a message polled during it is never dropped. When the
  seek back fails, the code logs it and goes on; from then on no commit waits for the message
  (`ForwarderSafety.FailedHandBackLoses`). Commits cover every message exactly in
  configurations without a route that can back off (`ForwarderSafety.CommitsCoverExactly`).
- The notes on `create_session` call `hard_expires` the absolute ceiling. A deferred renewal
  moves `expires` without clamping it, and can be followed by service past the ceiling exactly
  when the retry time ends past it and, in sliding mode, the session is not idle when the
  deferral is answered (`Sessions.PutOffPassesCeilingExactly`); a lookup then passes it by at
  most one provider call plus the retry time (`Sessions.ServedWithinBound`,
  `Sessions.BoundIsReached`). With no deferral, a renewal begun before the ceiling and answered
  after it still serves that one request, at most one call late
  (`Sessions.AnsweredWithinBound`). The sweep and the lookup agree exactly for sessions that,
  left alone, are not served past it (`Sessions.SweepIsLookupExactly`).
- Folding keeps the replayed rows as long as no two different keys name one row: a message
  without a key and one that spells out the default key do (`Screen.MixedKeysReorder`).
- A grace runs its full time exactly if no timer of an earlier grace of the view is still armed,
  one that fired and lost the race for the lock (`Elements.FullGraceExactly`).
- The notes on the record classes say that two records of one class get one verdict from one
  destination. That holds exactly at gates that admit nothing (`Gate.ClassDecidesExactly`); a
  gate that admits a record refuses another of its class (`Gate.ClassDoesNotDecide`).
- The viewer filter calls itself the same rule as the row policy. It is, exactly for viewers
  without the empty string as a nation; against the gate, exactly without blank nations and for
  records that spell their audience out at the top level (`Viewer.ViewerIsPolicyExactly`,
  `Viewer.ViewerWithinGateExactly`, `Viewer.ViewerIsGateExactly`).
- A record key names one occurrence exactly when none of its fields contains the separator
  (`Identity.RecordKeyNamesExactly`). An event id joins source ids with commas; where an id
  contains one, two sets of sources can share an event id (`Identity.CommasCollide`).
- A template reference reads back as itself exactly for names whose braces balance and that
  contain no `:-`, nor a `|` unless they have a default (`Expander.ReferenceReadsBackExactly`).
- The index of open episodes is right exactly when no two routes share a kind
  (`Picture.IndexIsLatestExactly`).

`dafny verify dfyconfig.toml` checks everything.

## Model

| member | source | states |
|---|---|---|
| Ledger.RowMeaning | egress/forwarder.py:485-545 | the row a history of upserts and re-sends leaves, described without running it: it exists once something was inserted, it is delivered exactly when some statement delivered, its first-recorded time is the first insert's, its place is the last effective insert's, its other columns are the last effective statement's, and each stamp is the last non-null one |
| Ledger.NeverUndone | egress/forwarder.py:509-545 | whatever is executed later, a delivered row stays delivered, a non-null stamp stays non-null and the first-recorded time is fixed |
| Ledger.DeliveredStore.Write | egress/forwarder.py:509-545 | an upsert extends the history of its key, changes its row alone by the one statement runs are about, and never downgrades |
| Ledger.DeliveredStore.RecordResend | egress/forwarder.py:485-507 | the operator's update reports whether a row matched, and inserts none |
| ForwarderProtocol.CrashAnywhere | egress/forwarder.py:944-1014 | every prefix of a run is a run, and so is that prefix cut by a crash |
| ForwarderSafety.AtMostOnce | egress/forwarder.py:776-941 | two 2xx answers to one (route, event id) imply a crash, an abandon or an exhaustion between the first one and its recording write; operator re-sends are separate events |
| ForwarderSafety.OneAcceptancePerDelivery | egress/forwarder.py:826-941 | inside one delivery no POST follows an accepted one |
| ForwarderSafety.LedgerIsHistory | egress/forwarder.py:509-545 | along every run each ledger row is what its own statements leave |
| ForwarderSafety.RowsAreKept | egress/forwarder.py:509-545 | along every run, crashes and operators included, a row stays, a delivered one stays delivered, filled stamps stay filled and the first-recorded time never moves |
| ForwarderSafety.NothingEndsSilently | egress/forwarder.py:734-773 | a finished dedupe delivery leaves a delivered row, a row, an earlier acceptance, a declared loss, a crash or a write still due |
| ForwarderSafety.CommittedOffsetIsCovered | egress/forwarder.py:944-1014 | a committed offset passes a message only if every matching route reached exactly one ending other than abandoned for it, or a wait polled it and could not hand it back |
| ForwarderSafety.CommitNeedsEveryRoute | egress/forwarder.py:990-1014 | at every commit the message in hand is complete, so an abandoned message is never the one committed |
| ForwarderSafety.CountersBalance | egress/forwarder.py:734-773 | the terminal counters, abandoned included, add up to the deliveries begun less the one open |
| ForwarderSafety.WaitMovesNothingForward | egress/forwarder.py:627-673 | while seeks succeed, a wait leaves every assigned position where it was or at the committed offset |
| ForwarderSafety.FailedHandBackSkips | egress/forwarder.py:655-665 | for any topic with a route that can back off, a run that commits one of its partitions past a message no route ever saw |
| ForwarderSafety.FailedHandBackLoses | egress/forwarder.py:655-665 | after a failed hand-back, until a crash or a new assignment of the partition, the message is never taken, every commit on the partition passes it, and nothing settles it any more |
| ForwarderSafety.CommitsCoverExactly | egress/forwarder.py:627-707 | over every run a committed offset passes only settled messages, exactly for configurations in which no route can come to a backoff |
| ForwarderDelivery.EventsExactly | egress/forwarder.py:776-941 | what a delivery does next is decided by the message, its routes and the delivery's own events: an event can follow exactly when they let it, answers told apart by their numbers, ids and keys by the record's field, lookups by the ledger's row |
| ForwarderDelivery.JournalsExactly | egress/forwarder.py:590-1161 | the whole protocol from the journal alone: takes at the polled position, commits after every route, rebalances and hand-backs inside polls and waits, operators only on keys with a row, crashes anywhere, and deliveries as above; a journal grows by an event exactly when the events before allow it |
| ForwarderDelivery.RejectedWasRefused | egress/forwarder.py:927-941 | a delivery ends as rejected only on an answer below 500 that is no success, no 408 and no 429 |
| ForwarderDelivery.RetriedIsBackedOff | egress/forwarder.py:868-932 | no answer, 408, 429 and everything from 500 up come to a backoff |
| ForwarderDelivery.AcceptedStaysAccepted | egress/forwarder.py:874-925 | after an answer from 200 to 299 nothing is sent again in that delivery, which ends only as sent, out of time or out of its partition |
| Forwarder.DelayExactly | egress/forwarder.py:814-824 | the i-th delay is the first times two to the i, or the cap where that is past it |
| Forwarder.DelayBounds | egress/forwarder.py:814-824 | the doubling delay stays within the cap, and every wait is sure to take time |
| Forwarder.SpanGrows | egress/forwarder.py:814-824 | n waits take at least n ticks, so a budget admits only so many |
| Forwarder.CappedSpan | egress/forwarder.py:814-824 | once the doubling reached the cap, the waits' total is linear in their number |
| Forwarder.RetryIsBounded | egress/forwarder.py:814-824 | in every delivery of a journal, all completed waits but the last fit in the retry budget, so there are at most one more than it has milliseconds |
| Forwarder.RetryIsBoundedByCap | egress/forwarder.py:814-824 | once the doubling has reached the cap, the budget divided by the capped time bounds the waits after that |
| Forwarder.Forwarder.Poll | egress/forwarder.py:635-673 | a poll never hands out a paused partition, and rebalances happen inside it |
| Forwarder.Forwarder.Wait | egress/forwarder.py:627-673 | a wait takes its delay or ends at the revocation, hands back what it polls, resumes what it paused, and moves no position forward when seeks succeed |
| Forwarder.Forwarder.BackOff | egress/forwarder.py:818-824 | raises exactly when the budget is over or the partition is lost in the wait; otherwise completes one wait, with the waits before it inside the budget, and doubles the delay up to the cap |
| Forwarder.Forwarder.Attempt | egress/forwarder.py:826-932 | one pass of the retry loop ends the delivery, asks for a backoff, or leaves a 2xx to record, with its status and case id |
| Forwarder.Forwarder.FailWrite | egress/forwarder.py:426-440 | a write that raises may have run with its reply lost, and is treated alike |
| Forwarder.Forwarder.RecordSent | egress/forwarder.py:889-917 | after a 2xx only the write is retried, on the same waits and budget; a finished delivery is recorded as delivered, and it gives up only past the budget |
| Forwarder.Forwarder.DeliverInner | egress/forwarder.py:776-941 | one delivery, begun in the journal, whose waits are counted from there and stay bounded by the budget; it gives up only past it |
| Forwarder.Forwarder.TryUntil | egress/forwarder.py:826-941 | the retry loop itself, on one budget from the first attempt |
| Forwarder.Forwarder.Deliver | egress/forwarder.py:710-773 | an abandon leaves the message, everything else moves to the next route, and nothing is committed |
| Forwarder.Forwarder.GiveUp | egress/forwarder.py:742-772 | an exhausted delivery is recorded as held, failing that as failed, unless the destination accepted it, and the next route follows |
| Forwarder.Forwarder.RunOnce | egress/forwarder.py:944-1014 | one round commits at most the message it took, after the last route, and balances the counters |
| Forwarder.Forwarder.Live | egress/forwarder.py:944-1014 | over any rounds, each perhaps cut at any event by a crash and followed by a restart, the code keeps at-most-once, commit coverage and, for every delivery, the retry bound, and every ledger write carries its message's position and stamps and, if delivered, the status and case id of the answer |
| Forwarder.Forwarder.ResendOnce | egress/forwarder.py:1056-1161 | refused with nothing done, or exactly these events: the audit, at most one POST after it, and a ledger update after an accepted one; exit code 0 says it was recorded, 3 that the update raised, with the row changed or not |
| Screen.Follow | gateway/pep.py:1589-1624 | the reader's loop computes the replay of a batch |
| Screen.AppliedExactly | gateway/pep.py:1589-1624 | what one message does to each row and column: a delete removes the row its key names, an update sets the columns it carries and keeps the others, anything else with a value makes the row what it carries, and other rows stay |
| Screen.FoldingKeepsMeaning | gateway/pep.py:722-736 | for any message list with keys apart and any starting rows, the folded list replays to the same rows |
| Screen.FoldsAllItCan | gateway/pep.py:722-738 | whatever can be folded is folded: no value update is held behind an insert or update of its key with nothing of that key in between |
| Screen.MixedKeysReorder | gateway/pep.py:722-736 | for any two different keys that name one row there is a list over just those two whose folding changes the row |
| Screen.MergeReplays | gateway/pep.py:722-736 | moving an update up into the held message of its key changes no replay |
| Screen.SetCommutes | gateway/pep.py:1609-1624 | setting a row commutes with every message that leaves that row alone |
| Screen.TransitionsKept | gateway/pep.py:713-736 | folding keeps the sequence of transitions with key, operation and transition columns, and held plus merged equals what came in |
| Screen.Window.Fold | gateway/pep.py:722-736 | the in-place fold through aliased messages does to the window what the fold does to values |
| Screen.Window.Absorb | gateway/pep.py:729-732 | a merge through an alias changes exactly the held message of that key |
| Screen.Window.Append | gateway/pep.py:733-736 | a held change becomes the one later updates merge into, unless it is a delete or carries no value |
| Screen.Window.Keep | gateway/pep.py:790-800 | a control is held as it is and leaves the latest table alone |
| Screen.Window.Body | gateway/pep.py:808-819 | the body is the held messages in order |
| ScreenCollect.BodyMeans | gateway/pep.py:797-819 | an answer's body replays to what its stretch of the log does, and passes its transitions on |
| ScreenCollect.MarksLeaveNoTrace | gateway/pep.py:785-795 | up-to-date marks change nothing that is held, merged or passed on |
| ScreenCollect.TakeBatch | gateway/pep.py:782-806 | folding one batch reports whether it held anything urgent and how many updates merged |
| ScreenCollect.CalmExactly | gateway/pep.py:693-719 | messages are held back exactly while nothing comes but up-to-date marks and updates of columns other than the four transition columns |
| ScreenCollect.Collect | gateway/pep.py:745-825 | every read but the last is a batch with nothing urgent, leaving something held, inside the window, and the last is not; a conflict asks for a refetch, a failure or a first timeout is raised, and otherwise the flush is the fold of exactly the log from the client's offset to the offset reached, with the last batch's mark |
| ScreenCollect.FlushMeans | gateway/pep.py:797-825 | a flushed answer replays over any rows to what its stretch of the log does, and passes its transitions on |
| ScreenCollect.Count | gateway/pep.py:808-815 | how many of the held changes are transitions and how many are values, as numbers of positions |
| Handles.KeepLastAppend | gateway/pep.py:465-475 | binding moves a handle to the end of the history without repeats |
| Handles.LeftIsRecent | gateway/pep.py:465-475 | the list is always the last eight of the bind history without its earlier repeats |
| Handles.ResumesWhileRecent | gateway/pep.py:465-480 | a handle resumes exactly while fewer than eight others were bound since its last bind |
| Handles.Feeds.BindHandle | gateway/pep.py:465-475 | every feed's list depends on that feed's own binds alone |
| Handles.Feeds.BelongsTo | gateway/pep.py:477-480 | the answer is membership in the last eight distinct binds |
| Elements.EveryRunKeeps | gateway/pep.py:529-622 | under any interleaving, stale timers included: grace exactly without holders, at most eight views a principal, and created = live + counted + removed but not yet counted |
| Elements.HoldsAfter | gateway/pep.py:537-587 | who holds a view after each event: released, acquired while held or below the bound, swept when not seen for the idle time, otherwise as before |
| Elements.AcquireCancelsInTime | gateway/pep.py:571-574 | an acquire below the bound ends a running grace and cancels its timer exactly if its time has not come |
| Elements.RemovalIsCounted | gateway/pep.py:599-622 | every removed view can be counted once, with any outcome |
| Elements.RemovableExactly | gateway/pep.py:599-622 | in every run a view can go exactly while it has no holders and a timer of it, its own or a stale one, is due |
| Elements.CutShortExactly | gateway/pep.py:599-605 | a step can cut a running grace short exactly if a timer started before it is due |
| Elements.FullGraceExactly | gateway/pep.py:557-605 | over runs, a view stays for the full time of a running grace, whatever happens, exactly if no timer of an earlier grace of it is still armed |
| Elements.StaleTimerCutsGrace | gateway/pep.py:557-605 | for every principal and view, a run that comes to this |
| Elements.Table.SweepLocked | gateway/pep.py:537-551 | idle holders go, and exactly the views left without holders start their grace |
| Elements.Table.CountHeld | gateway/pep.py:553-554 | counts the views a principal holds |
| Elements.Table.ElementAcquire | gateway/pep.py:557-576 | refused exactly for a new view over the bound; otherwise held, with its grace cancelled |
| Elements.Table.ElementRelease | gateway/pep.py:579-587 | the last release starts the grace, a release by a non-holder changes nothing |
| Elements.Table.GraceExpired | gateway/pep.py:599-622 | removes exactly a view without holders whose grace is running |
| Pointer.EscapeRoundTrip | egress/pointer.py:29-40 | unescaping undoes escaping for every token (section 3 of RFC 6901) |
| Pointer.PrintParse | egress/pointer.py:29-40 | a printed pointer parses back to its tokens (section 3 of RFC 6901) |
| Pointer.MalformedExactly | egress/pointer.py:32-43 | a pointer is malformed exactly if it is not empty and does not start with a slash |
| Pointer.ChildExactly | egress/pointer.py:46-70 | a token leads from an object to the field of its name, from a list to the entry it is the index of, and from anything else nowhere |
| Pointer.IndexReads | egress/pointer.py:57-63 | every index printed in decimal reads as itself |
| Pointer.Read | egress/pointer.py:43-64 | the walk finds the value at a JSON pointer, or nothing (section 4 of RFC 6901) |
| Pointer.GetConcat | egress/pointer.py:43-64 | reading along a longer pointer is reading twice |
| Pointer.GetAfterPut | egress/pointer.py:67-89 | what was written is read back |
| Pointer.PutFrame | egress/pointer.py:67-89 | a read at an incomparable pointer does not see a write |
| Pointer.PutPath | egress/pointer.py:67-89 | on the way to what was written there are only objects |
| Pointer.PutSucceeds | egress/pointer.py:77-87 | a write fails exactly when a proper prefix names something that is neither an object nor null |
| Pointer.PrefixFreeWrites | egress/assembler.py:361-399 | if no pointer is a prefix of another, every write succeeds, every value reads back, and nothing else is found |
| Pointer.PrefixFreeExactly | egress/assembler.py:361-399 | for distinct text values all writes read back exactly when no pointer is a prefix of another |
| Documents.Dict.Set | egress/pointer.py:67-89 | the in-place write of nested dictionaries is the write on values, and a refused one changes nothing |
| Documents.Dict.SetPointer | egress/pointer.py:67-89 | the same at a pointer's text; a malformed or empty one is refused |
| Identity.JoinInjective | egress/assembler.py:166-187 | a joined line of separator-free parts can be taken apart |
| Identity.RecordKeyNamesOccurrence | egress/assembler.py:150-167 | a plain occurrence shares its key with no other, plain or not |
| Identity.SeparatorsCollide | egress/assembler.py:166-167 | every occurrence with the separator in a field shares its key with another |
| Identity.RecordKeyNamesExactly | egress/assembler.py:150-167 | a key names one occurrence exactly when none of its fields contains the separator |
| Identity.EventIdNamesEvent | egress/assembler.py:170-187 | for source and transition ids without the separators they are joined with, and one of the two occurrences plain, two event ids are equal exactly for the same event: an opening, a revision by a set of sources in any order, or an arrival |
| Identity.CommasCollide | egress/assembler.py:184-187 | two different sets of sources share one event id wherever two neighbours in order, read as one id with a comma, keep their place |
| Identity.SortedAscends | egress/assembler.py:184-187 | the source ids are joined in ascending order |
| Assembler.EpisodesAre | egress/assembler.py:126-147 | an episode is exactly a present discrepancy with a fault code |
| Assembler.Episodes | egress/assembler.py:126-147 | the loop collects them in order |
| Assembler.Assemble | egress/assembler.py:337-399 | one document written in place, pointer by pointer, or a failure at the first write that raises |
| Assembler.FillReadsBack | egress/assembler.py:361-399 | with pointers apart no write raises, each filled slot reads back and each empty one reads nothing |
| Assembler.AssembledReadsBack | egress/assembler.py:337-399 | the forwarder's stamps recover the episode id, asset, component and fault code, and the gate's label reader the CM state's whole label |
| Assembler.RecordReads | egress/assembler.py:222-399 | a whole assembled record, pointer by pointer: ids, label (none without a code), owning tier (edge, else region), asset, component, fault, trigger, and the declared optional parts, an empty picture not at all |
| Assembler.StampsExactly | egress/forwarder.py:382-408 | a stamp is the non-empty text at its declared pointer and nothing else; without declarations, or for what is no record, there are none |
| Assembler.LabelReadBack | egress/assembler.py:232-243 | the written label reads back as the CM state's own: the same originator, the same releasable codes in order |
| Assembler.ReadersFind | egress/forwarder.py:383-408 | the stamps and the whole label depend on the declared fields alone |
| Assembler.ArrivalReadsBack | egress/assembler.py:1073-1096 | a re-send carries the same stamps and the same whole label as its episode, the arrival's id at the key, and the provenance with one more entry and nothing lost |
| Posture.RepeatIsSilentExactly | egress/assembler.py:933-970 | a message handled again produces nothing, exactly when its episodes with one key have one set of sources |
| Posture.SourceIdsExactly | egress/assembler.py:880-881 | an episode's source ids: each id as often as sources carry it, none counting as the empty text |
| Posture.RetryProducesRest | egress/assembler.py:972-992 | if producing failed midway, handling the message again sends exactly the rest |
| Posture.DueIsOnce | egress/assembler.py:1069-1072 | an arrival sends each key once, and none sent for it before |
| Posture.OwedExactly | egress/assembler.py:1064-1072 | an arrival owes exactly the distinct open episodes detected before the march order and not sent for it yet |
| Posture.RetrySendsRest | egress/assembler.py:1066-1099 | if producing failed midway, the same arrival handled again sends exactly the remainder |
| Posture.RememberTransition | egress/assembler.py:1041-1101 | march and move are functions of the handled transitions: ordered exactly if the last order or emplacement was an order, moved exactly if a move followed it |
| Posture.RouteState.ProduceEpisode | egress/assembler.py:933-970 | produced exactly when the key or its sources are new; a failure leaves no mark |
| Posture.RouteState.HandleCmState | egress/assembler.py:972-992 | produces the new or changed episodes in order, or a prefix of them |
| Posture.RouteState.HandlePosture | egress/assembler.py:1029-1101 | re-sends what an emplacement after a move owes, each once per arrival, and forgets the march only when all of it went out |
| Posture.RouteState.ResendDeferred | egress/assembler.py:1066-1101 | the loop over the deferred episodes sends the owed keys in order, or a prefix of them |
| Picture.EpisodeIndex.Refresh | egress/picture.py:102-117 | replaces the asset's entries for the route |
| Picture.EpisodeIndex.Tombstone | egress/picture.py:119-123 | removes them |
| Picture.IndexIsLatest | egress/picture.py:85-123 | over any run, a key is found exactly for an open episode of the latest CM state of a route and asset not since removed, and the per-asset key sets partition the keys |
| Picture.SameKindLosesEntry | egress/picture.py:110-123 | with two routes of one kind, one route's tombstone takes the other's entry |
| Picture.IndexIsLatestExactly | egress/picture.py:85-123 | for a set of routes the index is right over every run exactly when no two share a kind |
| Gate.CleanItemsMeaning | egress/gate.py:254-276 | the cleaned list holds each stripped, non-blank code once |
| Gate.AdmitsIsOverlap | egress/gate.py:372-401 | the two clauses of the predicate are one question: does the effective audience meet the nations |
| Gate.OriginatorMeans | egress/gate.py:279-300 | the author is the first code that reads as one of three places: at the top, and under `provenance` in two spellings |
| Gate.ReleasableMeans | egress/gate.py:279-300 | the released-to codes are those of the first of three lists that has any |
| Gate.LabelAtMeans | egress/gate.py:351-370 | a label at a declared place is what the object there says, and nothing without one |
| Gate.MarkedExactly | egress/gate.py:303-320 | a record is marked exactly when it has text besides blanks under `classification`, at the top or under `provenance` |
| Gate.StripMeans | egress/gate.py:254-276 | stripping takes blanks off both ends and nothing else |
| Gate.AdmittedExactly | egress/gate.py:611-696 | every verdict from the record and the terms alone: admitted exactly when destination, kind, schema and markings pass and one of the destination's nations, stripped, is a code of the label; refused by the first of them that fails |
| Gate.ClassExactly | egress/gate.py:323-349 | every class from the marking and the codes of the label read; the aggregate-without-audience class never occurs |
| Gate.ClassDoesNotDecide | egress/gate.py:323-349 | for every gate, with or without a schema or a declared label place, and every record it admits, a record of the same class that it refuses |
| Gate.ClassDecidesExactly | egress/gate.py:323-349 | a record's class decides its admission exactly at gates that admit nothing: destination unknown, kind not accepted, or no valid unmarked record whose audience meets the nations |
| Gate.ClassDecidesWithoutSchema | egress/gate.py:323-349 | without a schema those are the gates that know no destination, do not accept the kind or hold no nation |
| Gate.EgressGate.Decide | egress/gate.py:608-696 | one decision per record; the tally of each verdict and of each class is the number of records seen with it, and both add up to the records seen |
| Viewer.FilterDecisions | gateway/egress_view.py:71-151 | malformed input is refused whole; otherwise the visible records, how many of them have `allowed` true, how many have not, and how many records of the payload have no code |
| Viewer.ShownInOrder | gateway/egress_view.py:112-138 | the records shown are those at the positions where one is shown, in order |
| Viewer.ShownExactly | gateway/egress_view.py:52-68 | a record is shown exactly when it has a code and names a nation the viewer holds |
| Viewer.CountsExactly | gateway/egress_view.py:112-148 | the two counts of the loop are numbers of positions |
| Viewer.Sift | gateway/egress_view.py:112-138 | the loop over the records: what is shown, how much of it was admitted, and the unlabelled |
| Viewer.HiddenLeavesNoTrace | gateway/egress_view.py:71-151 | other nations' records, however many and wherever they stand, change nothing a viewer is given |
| Viewer.LookAlikeExactly | gateway/egress_view.py:71-151 | two payloads answer a viewer alike exactly when they share the three header fields, the shown records in order and the number of unlabelled ones |
| Viewer.WithheldAlike | gateway/egress_view.py:52-68 | the withheld number is the same for every viewer, and nobody is shown an unlabelled record |
| Viewer.ViewerIsPolicyExactly | gateway/pep.py:1462-1488 | filter and row policy agree on every record exactly for viewers who do not hold the empty string |
| Viewer.ViewerWithinGateExactly | egress/gate.py:372-401 | the filter shows nothing the gate's predicate would not admit exactly for viewers who hold no blank nation |
| Viewer.ViewerIsGateExactly | egress/gate.py:279-300 | for clean nations filter and gate agree on a record exactly when it spells its whole audience at the top level |
| Intake.SubjectsAreNamed | egress/intake.py:574-581 | the subjects asked about are those that some entry of the list, as an object with the field, names by a non-empty text |
| Intake.UnapprovedExactly | egress/intake.py:535-604 | invalid, answering nothing known (deferred, provisional or final by the timeout), with another label, or without approvers: which verdict, and when |
| Intake.ApproversDecide | egress/intake.py:606-624 | the first entry whose subject does not vouch decides: no answer, not known, or not entitled |
| Intake.OnBehalfDecides | egress/intake.py:626-655 | with all approvers vouching, an on-behalf-of subject needs a trusted source and vouches too; without one the artifact is admitted |
| Intake.AdmittedExactly | egress/intake.py:452-655 | admitted exactly when schema, answered record and label hold, some entry names an approver, and every subject an entry names, and the on-behalf-of subject, is known and granted a nation of the label |
| Intake.EntitledIsOverlap | egress/intake.py:607-624 | a subject vouches for a label exactly when it is known and its nations meet the label's audience |
| Intake.IntakeStore.ProcessArtifact | egress/intake.py:730-839 | one poll's effect on the row and onward topic; every stored admit was confirmed onward first |
| Intake.PollExactly | egress/intake.py:752-839 | when one poll sends a body onward, when it writes the row and what it writes, and each outcome it reports: sent exactly if admitted anew and confirmed, written exactly if decided, confirmed where admitted, not crashed and not still provisional |
| Intake.StepGoesForward | egress/intake.py:756-839 | a row goes from none to provisional to settled and never back |
| Intake.TimeoutKeepsSince | egress/intake.py:766-776 | a refusal that becomes final by its timeout keeps its start |
| Intake.GoodPollSettlesExactly | egress/intake.py:552-580 | after a good poll the artifact is settled exactly when its answered record is known or the timeout has passed |
| Intake.LifeGoesForward | egress/intake.py:730-839 | over any polls of one body stages only go forward, the provisional start never moves and a settled row is never touched or sent again |
| Intake.SettledByDeadline | egress/intake.py:552-580 | settled from the first good poll at or past the start plus the timeout |
| Intake.SentOncePerAdmit | egress/intake.py:806-839 | deliveries of one body equal its stored admit plus the crashes between confirmation and write |
| Intake.CaseSettled | egress/intake.py:842-853 | a case is settled exactly when some decision on it is not provisional |
| RoundRobin.CaseCursor.Choose | egress/intake.py:912-924 | a tick takes the first cases of the rotated list up to the cap and moves the cursor past them |
| RoundRobin.TickPicks | egress/intake.py:917-921 | a tick takes as many different cases as cap and list allow |
| RoundRobin.NobodyStarves | egress/intake.py:912-924 | from any cursor, consecutive ticks fetch every case exactly when their caps add up to the list |
| Sessions.SessionTable.GetSession | gateway/oidc.py:907-977 | the lookup up to the provider call |
| Sessions.SessionTable.Renew | gateway/oidc.py:978-1025 | what each answer of the provider does, to a session that may be gone by then |
| Sessions.SessionTable.SweepSessions | gateway/oidc.py:869-896 | every session is judged once; the dropped ones are named with their reasons |
| Sessions.SessionTable.CreateSession | gateway/oidc.py:777-826 | sweeps, then adds one session |
| Sessions.GoneExactly | gateway/oidc.py:869-1025 | over every run, what ends a session: idling, a renewal time over with nothing to renew by, the ceiling, a refused, unusable or foreign answer, a sign-out; an unreachable provider does not |
| Sessions.GoneStaysGone | gateway/oidc.py:984-1012 | a session that is gone stays gone, whatever answers still arrive |
| Sessions.LookupServesExactly | gateway/oidc.py:944-980 | a lookup that finds the session calls the provider exactly inside the renewal window with something to renew by, and otherwise serves |
| Sessions.ReasonExactly | gateway/oidc.py:869-977 | the reason given for an end, by lookup and sweep alike |
| Sessions.AnswerMakes | gateway/oidc.py:984-1025 | what a session holds after each answer that leaves it; a renewal time is the earliest of ceiling, session length and token expiry |
| Sessions.SignInMakes | gateway/oidc.py:777-826 | what a session holds at the sign-in; without a lifetime nothing to renew by |
| Sessions.RunHeld | gateway/oidc.py:907-1025 | over every run subject and ceiling never change, and the renewal time stays within the ceiling, or one call and one retry past it after a deferral |
| Sessions.ServedWithinBound | gateway/oidc.py:952-977 | no lookup serves a session past its ceiling without a deferral, nor past it by more than call plus retry with one, and none begins a renewal past it |
| Sessions.AnsweredWithinBound | gateway/oidc.py:978-1025 | an answer serves the session at most one call past its ceiling |
| Sessions.ServedPastCeilingExactly | gateway/oidc.py:944-977 | some lookups in time order from a moment on, touching or not, are served past the ceiling exactly when the renewal time lies past it and ahead and, in sliding mode, the session is not idle at that moment |
| Sessions.PutOffPassesCeilingExactly | gateway/oidc.py:984-993 | after any run, a deferral answered at a time is followed by such lookups exactly when its retry time ends past the ceiling and, in sliding mode, the last touch is at most the idle time before the answer |
| Sessions.BoundIsReached | gateway/oidc.py:984-993 | in both modes, a run that serves a session until exactly that bound and no longer |
| Sessions.IdleIsExact | gateway/oidc.py:944-954 | in sliding mode a lookup ends the session as idle exactly when the last touching one is longer ago than the idle time |
| Sessions.AnsweredWithinIdle | gateway/oidc.py:944-1025 | in sliding mode an answer serves the session at most the idle time and one call after the last activity |
| Sessions.SweepIsLookupExactly | gateway/oidc.py:869-904 | the sweep drops what a lookup drops without the provider, for the same reason, exactly for sessions that, left alone, would not be served past their ceiling |
| Sessions.PromiseIsExact | gateway/oidc.py:869-904 | the promised end is when idling or the ceiling ends the session, to the tick |
| Sessions.SweepIsLookup | gateway/oidc.py:869-896 | before any deferral every session of a run is such a session |
| Sessions.SignInBoundsService | gateway/oidc.py:777-1025 | from the sign-in on, over every run: one subject, one ceiling counted from the sign-in, and the bounds on service and renewal relative to it |
| Expander.ClosingIsTheOne | produces_manifest.py:14-27 | the brace found is exactly the first one at level one, at any nesting depth |
| Expander.Close | produces_manifest.py:14-27 | the loop finds it, or there is none |
| Expander.Expand | produces_manifest.py:30-51 | the loop, with its recursive call for defaults, computes the expansion or its first failure |
| Expander.ExpandIsEval | produces_manifest.py:30-51 | expanding what a template prints as is evaluating it: same text, same failure, for every environment |
| Expander.ReferenceGives | produces_manifest.py:38-50 | a reference gives the variable's text, with dashes turned into underscores by the filter and everything else kept; an undefined or empty variable gives its default or fails |
| Expander.TextStands | produces_manifest.py:30-36 | text without an opening stands for itself |
| Expander.UnclosedFails | produces_manifest.py:22-36 | an opening no brace closes is an error wherever it stands |
| Expander.ReferenceReadsBackExactly | produces_manifest.py:14-51 | a reference reads back as itself in every environment exactly for names whose braces balance, without a default mark in them, and without a bar unless they have a default |
| Expander.EvalFailsExactly | produces_manifest.py:43-50 | evaluation fails exactly when it reaches a variable with no default that is undefined or empty |
| Expander.SkipPrinted | produces_manifest.py:14-27 | the search passes over a whole printed template at any depth |
| ScenarioEnd.LoopRunner.Wait | exercise/control.py:1234-1242 | not stopped means the time has passed |
| ScenarioEnd.LoopRunner.Read | exercise/control.py:1398-1421 | one scrape's rise over the baselines; a fall only moves the baseline |
| ScenarioEnd.LoopRunner.Tick | exercise/control.py:1393-1433 | one round keeps what the samples say and tests for an end |
| ScenarioEnd.LoopRunner.AwaitEnd | exercise/control.py:1379-1440 | of the samples this call took, at least the interval apart: it ends quiet exactly at the first quiet one, else by fallback at the first at or past its time, else by a stop; it terminates and counts the whole rises |
| ScenarioEnd.QuietExactly | exercise/control.py:1422-1430 | the loop's test holds exactly when a rise was seen and every sample of the last quiet time was known and idle |
| ScenarioEnd.BusyExactly | exercise/control.py:1398-1421 | a sample is busy exactly when some source of either kind is unknown in it or above its last known reading before it |
| ScenarioEnd.FiresAreRises | exercise/control.py:1399-1409 | for counters of whole events, the count is every step up of every source between known readings |
| ScenarioEnd.UpsBalance | exercise/control.py:1405-1408 | a source's steps up are what it gained overall plus what it lost in resets |

## Left out

- HTTP, Kafka, Postgres and Kubernetes clients, logging, metrics text, process wiring and config files: plumbing; their outcomes are nondeterministic here.
- Other members of the consumer group and other replicas: one forwarder process, one gateway process.
- Config bounds are assumed where the loader checks them (a sliding session's idle time is positive); `Forwarder.Forwarder.constructor` also asks for backoff times of at least 2 ms, since a slice is topped up only when more than a millisecond of it is left, and `ScenarioEnd.LoopRunner.constructor` for a scrape interval above zero.
- uuid5, body hashes and JSON encoding are parameters; `Identity.UuidLike` states what is assumed of uuid5 (no collisions, no separator in its text).
- Picture.IndexIsLatestExactly: cm-state fields containing the key separator are not covered, because their keys can collide (`Identity.SeparatorsCollide`).
- Viewer.FilterDecisions: the sorted order of `viewer_nations` is not modelled; it is a set here.
- JSON numbers other than integers.
- JSON Schema validation and the PDP: a predicate on records and one answer per subject and poll.
- Non-decimal list indices that Python's `int` accepts in `pointer.get`.
- Descending into a dictionary by recursion: `Documents.Dict.Set` recurses where the code loops, and a dictionary value passed to a write is unpacked when a later write descends into it, so the caller's own reference to it is not followed.
- Picture building, source and provenance entries and the schema's picture sections: computed elsewhere and passed to `Assembler.Assemble` as content; a record's cm-state fields have their expected types.
- Counters of the assembler route and of intake polls: each handled item has exactly one outcome, so they would only add easy members.
- The shape log's headers other than handle, offset and control, and restarts of `_follow_shape` across requests; `Screen.Follow` is the replay of one batch.
- Case fetching around `_process_artifact` (HTTP statuses, forbidden cases): branches without a run-level invariant.
- Sessions: id tokens, display names, cookies and the login flow; a session id is never reused.
- `expand_all`, YAML loading and the loop runner's other steps.
- egress/routes.py, egress/delivery.py, egress/main.py, the frontend, simulators and stubs: the same commit-after-confirm shape, or no state worth a model.
