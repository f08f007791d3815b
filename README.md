# Dock-completion event reconciler — a Dafny model

This project models the client side of a dock-completion notifier: an
admin page that reports a finished dock and a signal page that acknowledges
it. Both pages keep one in-memory list of `DockEvent` records. The list is
fed by a bootstrap load, by `dock_event_created` notifications and by
`event_acked` notifications. A mutable set of processed keys guards both
pages against duplicate delivery. A creation is remembered under its event
id, an ack under `acked-<id>`. The admin page also shows optimistic
placeholders with ids `temp-<setId>-<dockNo>-<timestamp>`. A placeholder is
replaced in place by the canonical event when dock set and dock number
match and the two creation times are less than 10 000 ms apart. The admin
list is capped at 20 entries. The signal list has no cap. It is bootstrapped
from a sync reply sorted newest first.

Modules, one per component:

- `Decimal` (decimal.dfy): the text `${n}` gives an integer, its parser, the
  round trip, and the fact that `<int>-<rest>` splits in only one way.
- `Events` (events.dfy): the record, temporary ids and the prefix test, ack
  keys, the ack updater shared by both pages, and the guarded ack handler
  on a `Session` value (list plus processed set).
- `TimeOrder` (time_order.dfy): the order the sync reply is put in. The
  reference definition is a stable descending sort by `createdAt`, with
  null counted as 0. It is proved sorted, a permutation and stable. An
  in-place insertion sort on the array is proved equal to it.
- `AdminPage` (admin_page.dfy): the dock sets and exclusions, the dock
  buttons loop, the row-to-event renaming, `findIndex` and the creation
  updater, the optimistic entry, and the class `AdminReconciler`. Its fields
  are the page's state: the selected set, the list, the processed set and
  the emitted messages.
- `SignalPage` (signal_page.dfy): the unbounded creation handler, the
  unacked/acked split, and the class `SignalReconciler`.

Time stamps are integer milliseconds: `Option<int>`, with `None` for null.
The clock is a parameter, and so is the random part of a request id. The
connection state is a boolean parameter. Emitted socket messages are
appended to an `outbox` field. Each class method states its new state
through a function of the old state (`OnCreated`, `OnAcked`, `MergeCreated`,
`PrependCapped`, `MarkAcked`, `SortedByTime`). The properties are lemmas
about those functions.

Points of the code's behaviour worth stating outright:

- The ack key is `acked-<id>`.
- The signal list is sorted only when a sync reply arrives. Later creations
  are prepended whatever their time.
- No placeholder is discarded for being stale. One leaves the list only
  through the 20-entry cap or a reload.
- The processed set is fed only by notifications. A sync or load neither
  reads it nor adds to it. So an event that a sync already delivered is
  shown a second time when its creation notification arrives later
  (`SignalPage.SyncedEventNotifiedAgain`).

## Model

| member | source | states |
|---|---|---|
| Decimal.NatToString | src/pages/AdminPage.tsx:147 | the decimal text of a natural number is a non-empty digit string, longer than one digit exactly when the number is at least 10 |
| Decimal.IntToString | src/pages/AdminPage.tsx:147 | the text of an integer is well formed (optional sign, then digits) and starts with `-` exactly for negative numbers |
| Decimal.NatRoundTrip | src/pages/AdminPage.tsx:147 | reading back the digits of a natural number gives the number |
| Decimal.IntRoundTrip | src/pages/AdminPage.tsx:147 | parsing the text of any integer gives that integer |
| Decimal.IntToStringInjective | src/pages/AdminPage.tsx:147 | distinct integers render to distinct texts |
| Decimal.NoDashAfterSign | src/pages/AdminPage.tsx:53 | inside an integer's text a dash can only be the leading sign |
| Decimal.UniqueSplit | src/pages/AdminPage.tsx:53 | a string of the form `<int>-<rest>` determines both the integer text and the rest |
| Events.TempTextSplit | src/pages/AdminPage.tsx:53 | `temp-<a>-<d>-…` determines its dock-set text and dock-number text |
| Events.TempIdPrefixIff | src/pages/AdminPage.tsx:52-59 | a placeholder id passes the `temp-<setId>-<dockNo>-` test if and only if it was made for that dock set and dock number, whatever its time stamp |
| Events.TempPrefix | src/pages/AdminPage.tsx:53 | no contract; the `temp-<setId>-<dockNo>-` text of the replacement test, specified by TempIdPrefixIff |
| Events.TempId | src/pages/AdminPage.tsx:147 | no contract; the placeholder id `temp-<setId>-<dockNo>-<timestamp>`, specified by TempIdPrefixIff and TempIdIsTemp |
| Events.RequestId | src/pages/AdminPage.tsx:138 | no contract; `${timestamp}-${random}` with the random text as a parameter, used in the exact outbox ensures of HandleDockClick and HandleAckEvent |
| Events.AckKey | src/pages/AdminPage.tsx:77 | no contract; the guard key `acked-<id>`, specified by OnAckedFirstWins and OnAckedEffect |
| Events.TempIdIsTemp | src/pages/AdminPage.tsx:147 | every placeholder id starts with `temp-` |
| Events.MarkAcked | src/pages/AdminPage.tsx:84-90 | the ack updater keeps the length; every entry with the acked id becomes acked at the payload time; every other entry is unchanged |
| Events.MarkAckedAbsent | src/pages/AdminPage.tsx:84-90 | an ack for an id that no entry carries leaves the list as it was |
| Events.MarkAckedTwice | src/pages/AdminPage.tsx:84-90 | applying the updater twice for one id equals applying it once with the later time, so without the guard a repeated ack would overwrite `ackedAt` |
| Events.MarkAckedWellFormed | src/pages/AdminPage.tsx:87 | the updater keeps "ackedAt present exactly when acked" for every entry |
| Events.OnAcked | src/pages/AdminPage.tsx:73-91 | no contract; the guarded ack handler, identical at src/pages/SignalPage.tsx:55-73, specified by OnAckedFirstWins and OnAckedEffect |
| Events.OnAckedFirstWins | src/pages/AdminPage.tsx:77-82 | a second ack notification for the same id, with any time, leaves the state as the first left it |
| Events.OnAckedEffect | src/pages/AdminPage.tsx:77-90 | a fresh ack adds exactly the key `acked-<id>`, keeps the length, changes only the entries with that id, and changes nothing in the list when no entry has it |
| TimeOrder.SortKey | src/pages/SignalPage.tsx:22-23 | no contract; the comparator's key, `createdAt` in milliseconds or 0 when null, used by Sorted and specified through SortedByTimeSorted |
| TimeOrder.SortedByTime | src/pages/SignalPage.tsx:21-25 | no contract; the reference stable newest-first sort, specified by SortedByTimeSorted, SortedByTimePermutes, SortedByTimeStable and OrderExample |
| TimeOrder.InsertPermutes | src/pages/SignalPage.tsx:21-25 | inserting one event adds exactly that event to the multiset |
| TimeOrder.InsertSorted | src/pages/SignalPage.tsx:21-25 | inserting into a newest-first list keeps it newest first |
| TimeOrder.WithKeyAppend | src/pages/SignalPage.tsx:21-25 | the entries with a given key of a concatenation are those of each part, in order |
| TimeOrder.WithKeyNone | src/pages/SignalPage.tsx:21-25 | a sorted list whose first key is below k holds no entry with key k |
| TimeOrder.InsertStable | src/pages/SignalPage.tsx:21-25 | an inserted event lands after every entry with the same key |
| TimeOrder.SortedByTimeSorted | src/pages/SignalPage.tsx:21-25 | the sync list is non-increasing by `createdAt`, with null as 0 |
| TimeOrder.SortedByTimePermutes | src/pages/SignalPage.tsx:21-25 | the sync list holds exactly the payload's events, each as often as in the payload |
| TimeOrder.SortedByTimeStable | src/pages/SignalPage.tsx:21-25 | events with equal keys keep their payload order (the engine's sort is stable) |
| TimeOrder.OrderExample | src/pages/SignalPage.tsx:21-25 | events created at 10:00:01, 10:00:05, 10:00:03 are listed 10:00:05, 10:00:03, 10:00:01 |
| TimeOrder.InsertAt | src/pages/SignalPage.tsx:21-25 | inserting after exactly the entries whose key is at least the new one's is what the sort's insertion step does |
| TimeOrder.ShiftedIsInsert | src/pages/SignalPage.tsx:21-25 | the array state after shifting and placing one element is that insertion, followed by the untouched rest |
| TimeOrder.InsertLast | src/pages/SignalPage.tsx:21-25 | one pass moves `a[i]` into the sorted prefix as the reference insertion does, and leaves the rest of the array alone |
| TimeOrder.SortInPlace | src/pages/SignalPage.tsx:21 | sorting the payload array in place leaves it equal to the reference sort of its old contents |
| AdminPage.ExcludedFor | src/pages/AdminPage.tsx:159 | no contract; `EXCLUDED_DOCKS[id]`, or no exclusions for an unknown id, over the constant ExcludedDocks (lines 13-16), checked against the data by OfferedDocksExamples |
| AdminPage.DocksUpTo | src/pages/AdminPage.tsx:161-165 | no contract; the dock numbers the loop visits and does not skip, specified by DocksUpToSpec |
| AdminPage.OfferedDocks | src/pages/AdminPage.tsx:157-165 | no contract; the offered numbers of a dock set, specified by DocksUpToSpec and, for the two sets of DockSets (lines 7-10), by OfferedDocksExamples |
| AdminPage.DocksUpToSpec | src/pages/AdminPage.tsx:159-165 | the offered numbers are exactly the integers of `[dockFrom, dockTo]` not excluded, strictly ascending |
| AdminPage.OfferedDocksExamples | src/pages/AdminPage.tsx:7-16 | set 1 offers 32..41 without 39; set 2 offers 22..31 without 27 |
| AdminPage.GenerateDockButtons | src/pages/AdminPage.tsx:157-179 | one button per offered number, in order, each disabled exactly when disconnected; every button's number is in range and not excluded, and the numbers ascend strictly |
| AdminPage.RowRoundTrip | src/pages/AdminPage.tsx:113-120 | renaming a row's fields to the event's and back is lossless in both directions |
| AdminPage.FromRows | src/pages/AdminPage.tsx:113-120 | the mapping keeps the count and order of the rows, each event converts back to its row |
| AdminPage.IsTempFor | src/pages/AdminPage.tsx:52-59 | no contract; the `findIndex` test, specified by TempEntryMatchesIff, FindTempOnlyTemp and, through TempPrefix, TempIdPrefixIff |
| AdminPage.FindTemp | src/pages/AdminPage.tsx:52-59 | `findIndex` gives -1 exactly when no entry is a matching placeholder, and otherwise the first matching index |
| AdminPage.PrependCapped | src/pages/AdminPage.tsx:68 | the new entry is first, followed by the old entries in order, and the length is min(old length + 1, 20) |
| AdminPage.MergeCreated | src/pages/AdminPage.tsx:48-70 | the canonical event is always in the result, and a list of at most 20 stays at most 20 |
| AdminPage.MergeReplacesFirstTemp | src/pages/AdminPage.tsx:61-65 | with a matching placeholder, exactly the first one is replaced: same length, the event at that index, every other index untouched |
| AdminPage.MergePrependsOtherwise | src/pages/AdminPage.tsx:66-69 | with no matching placeholder the result is the event followed by the first 19 old entries, at most 20 long |
| AdminPage.StartsWithTrans | src/pages/AdminPage.tsx:53 | a string that starts with p, where p starts with q, starts with q |
| AdminPage.FindTempOnlyTemp | src/pages/AdminPage.tsx:53 | only an entry whose id begins `temp-` is ever replaced, so a canonical entry is never overwritten |
| AdminPage.TempEntry | src/pages/AdminPage.tsx:146-153 | no contract; the `sent`, un-acked placeholder a click adds, specified by TempEntryMatchesIff and ClickThenConfirm |
| AdminPage.TempEntryMatchesIff | src/pages/AdminPage.tsx:146-154 | the placeholder a click adds passes the replacement test for an event if and only if the event has its dock set and dock number and a creation time within 10 s |
| AdminPage.ClickThenConfirm | src/pages/AdminPage.tsx:145-154 | after a click, a confirmation within the window replaces the front placeholder, so the dock appears once, at the canonical id |
| AdminPage.MergeWellFormed | src/pages/AdminPage.tsx:48-70 | the creation updater keeps "ackedAt present exactly when acked" when the incoming event has it |
| AdminPage.OnCreated | src/pages/AdminPage.tsx:37-71 | no contract; the guarded creation handler, specified by OnCreatedIdempotent, ClickConfirmAck and, through MergeCreated, MergeReplacesFirstTemp and MergePrependsOtherwise |
| AdminPage.OnCreatedIdempotent | src/pages/AdminPage.tsx:41-46 | a creation for a processed id changes nothing, so a duplicated notification equals a single one |
| AdminPage.ClickConfirmAck | src/pages/AdminPage.tsx:131-154 | click, confirmation, then ack: the list keeps its length and ends with the canonical event acked at the ack time in front, and both keys are recorded |
| AdminPage.AdminReconciler.constructor | src/pages/AdminPage.tsx:19-25 | the page starts on the first dock set with an empty list, an empty guard set and nothing emitted |
| AdminPage.AdminReconciler.SelectDockSet | src/pages/AdminPage.tsx:219 | picking a dock set makes it the selected one |
| AdminPage.AdminReconciler.LoadRecentEvents | src/pages/AdminPage.tsx:102-129 | on success the list is the rows renamed field by field, same count and order; on an error or null data it is empty; the guard set is untouched |
| AdminPage.AdminReconciler.HandleEventCreated | src/pages/AdminPage.tsx:37-71 | the new state is `OnCreated` of the old one, and the list stays at most 20 long |
| AdminPage.AdminReconciler.HandleEventAcked | src/pages/AdminPage.tsx:73-91 | the new state is `OnAcked` of the old one |
| AdminPage.AdminReconciler.HandleDockClick | src/pages/AdminPage.tsx:131-155 | disconnected: nothing emitted and the list unchanged; connected: one completion request emitted and a `sent`, un-acked placeholder with a `temp-<setId>-<dockNo>-` id put first, at most 20 entries |
| SignalPage.OnCreated | src/pages/SignalPage.tsx:40-53 | no contract; the guarded, uncapped creation handler, specified by OnCreatedEffect and SyncedEventNotifiedAgain |
| SignalPage.OnCreatedEffect | src/pages/SignalPage.tsx:40-53 | a processed id is ignored; a fresh one grows the list by exactly one, in front, with nothing dropped; a repeat equals one delivery |
| SignalPage.SyncedEventNotifiedAgain | src/pages/SignalPage.tsx:40-53 | an event that the sync delivered but no notification did appears twice after its creation notification |
| SignalPage.WithStatus | src/pages/SignalPage.tsx:107-108 | the filter keeps exactly the events with the given status, never more than there were |
| SignalPage.UnackedEvents | src/pages/SignalPage.tsx:107 | no contract; the `sent` filter, specified by WithStatus, Partition and AckedLeavesUnacked |
| SignalPage.AckedEvents | src/pages/SignalPage.tsx:108 | no contract; the `acked` filter, specified by WithStatus and Partition |
| SignalPage.WithStatusSubsequence | src/pages/SignalPage.tsx:107-108 | a filtered list is an order-preserving subsequence of the page's list |
| SignalPage.PartitionCounts | src/pages/SignalPage.tsx:107-108 | the unacked and acked lists together hold every event as often as the page's list |
| SignalPage.Partition | src/pages/SignalPage.tsx:107-108 | the two lists partition the events: lengths sum to the total, each is a subsequence, each event is in exactly one |
| SignalPage.AckedLeavesUnacked | src/pages/SignalPage.tsx:66-72 | once an ack is applied, no event with that id is still in the unacked list |
| SignalPage.SignalReconciler.constructor | src/pages/SignalPage.tsx:7-11 | the page starts with an empty list, an empty guard set and nothing emitted |
| SignalPage.SignalReconciler.RequestSync | src/pages/SignalPage.tsx:14-18 | connected: one sync request with limit 50 is emitted; disconnected: nothing |
| SignalPage.SignalReconciler.HandleSyncResult | src/pages/SignalPage.tsx:20-27 | the payload array is sorted in place into the reference order and becomes the list; the guard set is unchanged |
| SignalPage.SignalReconciler.HandleEventCreated | src/pages/SignalPage.tsx:40-53 | the new state is the signal page's `OnCreated` of the old one |
| SignalPage.SignalReconciler.HandleEventAcked | src/pages/SignalPage.tsx:55-73 | the new state is `OnAcked` of the old one |
| SignalPage.SignalReconciler.HandleAckEvent | src/pages/SignalPage.tsx:84-92 | connected: one ack request is emitted; disconnected: nothing; the list and the guard set never change |

## Left out

- Transport: the Socket.IO connection lifecycle, its timeout, and the listener registration and removal in src/hooks/useSocket.ts are not modelled. A null socket and a false `isConnected` become one `connected` parameter.
- User interface: `alert` on a click while disconnected, `formatTime`, `toLocaleString`, the rendered markup and the "no events" texts are not modelled.
- I/O: the Supabase query itself is an input (`QueryResult`). `LoadRecentEvents` requires at most 20 rows, which is what the query's `.limit(20)` returns. Its ordering by `created_at` is the database's work and is not modelled.
- I/O: the broker and the event store are not part of this repository. Their messages appear only as inputs, and the socket emits are recorded in `outbox`.
- Time and randomness: `Date.now()` and `new Date().toISOString()` in `handleDockClick` are two clock reads, passed as `stamp` and `nowMs`. The text of `Math.random()` is an opaque `nonce`.
- IsTempFor: ISO time strings are abstracted to millisecond integers. An unparseable string, for which the source's difference is NaN and the test fails, is not distinguished from a valid one. An empty string is falsy in the source and corresponds to `None` here.
- TimeOrder.SortedByTime: NaN keys from unparseable time strings are not modelled. With them the source's comparator is inconsistent and the engine's order is implementation-defined.
- Decimal.IntToString: it renders integers only. Non-integral numbers and the exponent notation used for magnitudes of 1e21 and above are not modelled.
- Row status: the `status` column is a free string in the database typing. The cast at src/pages/AdminPage.tsx:117 does not check it, and the model assumes it holds `sent` or `acked`.
- SignalPage.SignalReconciler.HandleSyncResult: the list is a copy of the sorted payload array. The source keeps the array itself as state, but no later update writes to it in place, so the aliasing is not modelled.
- React scheduling: functional state updaters are applied at once, as sequential transitions. Effect re-subscription on a socket change is not modelled.
- src/App.tsx (routing) and src/types/supabase.ts (generated typings) have no behaviour. The latter only names the row fields.
