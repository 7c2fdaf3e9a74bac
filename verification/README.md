# Cell tracking in gr-ltetrigger

gr-ltetrigger looks for LTE cells in a stream of radio samples. Three identical chains, one
for each value of N_id_2, run side by side. In each chain a tracker (`pss`) finds and
re-aligns half frames, a tagger (`sss`) attaches the cell id and the cyclic prefix type, and
a publisher (`mib`) announces a cell once it has decoded its broadcast channel and withdraws
it when the tracker reports that lock was lost. All three publishers feed one `cellstore`.

This project models the control logic of those blocks and of their composition and proves
what holds for every run: for all interleavings, all inputs, all answers of the signal
library, all threshold changes and all values of the two tracker parameters.

## How the model is built

| file | content |
|---|---|
| `Radio.dfy` | samples, streams, half frame geometry |
| `MovingAverage.dfy` | the two 200-slot rings against the log of values pushed |
| `PssTracker.dfy` | one tracker call on values: score, timer, cursor, output |
| `PssHistory.dfy` | what a tracker call should do, from its history alone, and the proof that the counters agree |
| `PssRuns.dfy` | search cadence, stream alignment, progress, overlap, loss of lock |
| `Pss.dfy` | the tracker as it runs: fields, arrays, output buffer |
| `TagStream.dfy` | tags at item offsets against one head per half frame |
| `MibHistory.dfy` | what the publisher should do, from its calls alone, and the proof that its fields, messages and consumption agree |
| `Sss.dfy`, `Mib.dfy`, `CellStore.dfy`, `Messages.dfy` | tagger, publisher, store and their messages |
| `Chains.dfy` | one chain with its two queues, and what every call keeps |
| `Delivery.dfy` | what the store holds under any order of delivery |
| `Network.dfy` | three chains, the shared threshold, two delivery modes; invariants of every run |
| `Replay.dfy` | thresholds, calls and half frames of every chain, read off the list of actions alone, and the proof that every run follows them |
| `Theorems.dfy` | the guarantees of the whole trigger |
| `Settling.dfy` | without tracker calls every schedule comes to rest, which states can settle completely, and what the store holds at rest |
| `Limits.dfy` | runs that show where the guarantees end, and what can never be undone |
| `DownlinkTrigger.dfy` | the object that owns the three trackers and their threshold |

Each block appears twice: as a class whose methods update fields and arrays in place, and as
a function on values that the methods are proved against. The composition uses the
functions. A run is a sequence of actions; an action that is not enabled leaves the state as
it is, so the theorems need no assumption about scheduling.

The two queues of a chain are kept as everything ever written to them, with the number of
half frames read, which is how the scheduler counts items too. `Config.setup.batch` bounds
how many half frames the scheduler offers a publisher in one call. `Config.ordered` chooses
between a store that handles the messages of a chain in the order they were sent and a store
whose two ports are served independently.

## What turned out not to hold

- A publisher that is offered several half frames in one call reads the tags of the first one
  only, yet consumes all of them when it tried to decode (lib/mib_impl.cc:179). It can so
  pass over a loss. `Chains.CallOverlooks` says exactly when a call does;
  `Theorems.PublishedIsTracked` shows that this alone decides whether the tracker of a
  published cell had lock ever since; `Limits.TwoHalfFramesHideALoss` is a run that ends with
  a published cell and no lock.
- Lock is not everything. A publisher that has announced a cell stops reading cell ids
  (lib/mib_impl.cc:122-125), so lock can move to another cell of the same N_id_2 unnoticed.
  `Chains.OneCellSince` is the exact condition; `Limits.LockMovesUnnoticed` is a run with one
  half frame per call in which lock is never lost, yet cell 0 stays published while cell 3
  is tagged.
- The store's "track" and "drop" ports are separate queues (lib/cellstore_impl.cc:51-57). If
  a withdrawal is handled before the announcement it belongs to, the cell stays for ever
  (`Limits.StrandedForEver`), and the limit of three cells promised by
  include/ltetrigger/cellstore.h:39-41 is lost: `Limits.IndependentPortsStrandCells` gives for
  every n a run that rests with n cells stored and none published.
  `Theorems.ExactUnlessOvertaken` is the exact condition for the contents of the store,
  `Theorems.StoreLimit` the one for its size.
- A publisher that exits on success (lib/mib_impl.cc:175-176) consumes nothing any more, so it
  never learns of a loss and its cell is never withdrawn. `Limits.ExitingStoreOnlyGrows` shows
  that no stored cell ever leaves, `Limits.ExitKeepsALostCell` is a run after which the cell
  of a tracker without lock is stored for ever, and `Settling.SettlesUnlessExited` shows that
  a publisher that exited is the only thing that keeps the queues from being emptied, as long
  as publishers are offered anything at all.
- The assertion at lib/pss_impl.cc:191 compares with the whole input buffer including its 9599
  samples of history, so it is not what the copy at line 193 needs.
  `Pss.AssertionIsTooWeak` says exactly which calls it lets pass although the copy overruns
  the buffer; with 19199 items on offer these are the calls with a peak at 961 to 10558.

Where prose and code disagree the model follows the code: the score is zeroed, not
decremented, by a call below threshold (include/ltetrigger/pss.h:49-52 against
lib/pss_impl.cc:137), and a tracking block searches every `track_every + 1` calls, not every
`track_every` (include/ltetrigger/pss.h:55 against lib/pss_impl.cc:163-172). `reset_score`
clears 200 bytes of each ring, which is 50 of its 200 slots; the means are right all the same
because the counters restart.

A message object is a value with a handle that stands for its address: equal handles are the
same object, and equal dictionaries under different handles are equal content in different
objects.

## Model

| member | source | states |
|---|---|---|
| MovingAverage.RingSumIsRecentSum | lib/pss_impl.cc:94-109 | whatever the counter, the slots an average reads add up to the last min(n, 200) values pushed |
| MovingAverage.MeanMeans | lib/pss_impl.cc:95-109 | a mean lies between the least and the greatest of the last min(n, 200) values, times their number it is their sum, and for no values it is 0 |
| MovingAverage.SumMeans | lib/pss_impl.cc:100-106 | the accumulator of no values is 0 and every value counts once |
| MovingAverage.RecentMeans | lib/pss_impl.cc:102-103 | the values counted are the last ones, all of them up to 200 and 200 from then on |
| MovingAverage.ComputeMovingAvg | lib/pss_impl.cc:94-109 | the loop returns the average of the last min(n, 200) logged values, its product with their number being their sum, and 0 for none |
| MovingAverage.ClearBytes | lib/pss_impl.cc:143-147 | clearing counts bytes, four to a slot, so only the first quarter of the slots is zeroed; the ring is right for an empty log all the same |
| PssHistory.PssMatchesHistory | lib/pss_impl.cc:111-223 | after any run, with any threshold at any call and any parameters, score, lock, timer, ratio, maximum, both logs, cursor and the next output are the ones defined by the history alone, without counters |
| PssRuns.LockedExactly | lib/pss_impl.cc:111-127 | a half frame is emitted without tracking_lost exactly when its call is at least the track_after-th of an unbroken run of calls whose ratio exceeds their threshold |
| PssRuns.EmitsExactly | lib/pss_impl.cc:174-218 | a call passes a half frame on exactly when its ratio exceeds its threshold or that of the call before exceeded its own; otherwise it drops 9600 samples |
| PssRuns.LastResetMeans | lib/pss_impl.cc:129-152 | the rings restart after the last call that was below its threshold right after one that was above |
| PssRuns.SearchedAt | lib/pss_impl.cc:169 | every search since then has its ratio at its own place in the log behind mean_psr, which has no other entries |
| PssRuns.OffsetsOfLock | lib/pss_impl.cc:197-201 | the log behind mean_cfo holds exactly the offsets measured in the calls of the lock in force |
| PssRuns.CorrectionFrequency | lib/pss_impl.cc:199-204 | a half frame with lock is corrected by minus one 128th of the mean of the offsets measured in the calls of the lock in force, its own included |
| PssRuns.RatioOfLatestSearch | lib/pss_impl.cc:163-174 | the ratio compared with the threshold is the one measured by the latest search |
| PssRuns.LossNeedsSearch | lib/pss_impl.cc:163-179 | while the threshold is not raised, lock is lost only in a call that searches |
| PssRuns.TimerInRange | lib/pss_impl.cc:163-172 | for track_every >= 0 the timer stays in 0..track_every |
| PssRuns.SearchCadence | lib/pss_impl.cc:163-172 | in a tracking run the searches after its first call are exactly those at multiples of track_every + 1, so floor(n / (track_every + 1)) in n calls |
| PssRuns.ContiguousBetweenSearches | lib/pss_impl.cc:184-195 | between searches the output before correction is one contiguous piece of the input that starts at the read cursor |
| PssRuns.SearchShiftsWindow | lib/pss_impl.cc:184-195 | every emitted window is a half frame that ends at the new cursor; a search shifts it by peak_pos - 960, nothing else does |
| PssRuns.Progress | lib/pss_impl.cc:185-219 | every call consumes at least 8640 samples |
| PssRuns.CallsBounded | lib/pss_impl.cc:185-219 | n samples of input allow at most n / 8640 calls |
| PssRuns.BoundedOverlap | lib/pss_impl.cc:185-195 | two emitted windows share at most 960 samples |
| Pss.AssertionIsTooWeak | lib/pss_impl.cc:185-193 | for every buffer and every peak: the copied samples lie in the buffer if and only if peak_pos - 960 + 19199 is at most its length, and the calls that pass the assertion and overrun the buffer are exactly those with peak_pos + 8640 < length < peak_pos + 18239 |
| Pss.PssBlock.IncrScore | lib/pss_impl.cc:111-127 | if score and lock show an unbroken run of n calls above threshold (its length cut off at track_after, lock when that is reached) they show a run of n + 1 afterwards; nothing else changes |
| Pss.PssBlock.ResetScore | lib/pss_impl.cc:129-152 | score and lock show an empty run afterwards, both rings are restarted, and a loss is signalled exactly when there was a run to break |
| Pss.PssBlock.GeneralWork | lib/pss_impl.cc:154-223 | given a buffer that holds the window whenever the call copies one (the condition of AssertionIsTooWeak, over fields and arguments), a call extends the history by its input, writes the window the history demands into the output buffer, tags it at an offset that is a multiple of 9600 or corrects it by the mean offset, moves both stream positions, and leaves no loss unsignalled |
| Pss.PssBlock.MeanPsr | lib/pss_impl.h:96 | the mean, in the sense of MeanMeans, of the last 200 ratios searched since a run was last broken |
| Pss.PssBlock.MeanCfo | lib/pss_impl.h:97 | the mean, in the sense of MeanMeans, of the last 200 offsets measured while tracking since a run was last broken |
| Pss.PssBlock.MaxPsr | lib/pss_impl.h:95 | the largest ratio any call went by, at least 0 |
| Pss.PssBlock.TrackingScore | lib/pss_impl.h:100 | the length of the run that ends the history, cut off at track_after |
| TagStream.HeadIsFrameHead | lib/sss_impl.cc:91-93 | a reader at the start of a half frame finds that half frame's tags and no others |
| Sss.TaggedMeans | lib/sss_impl.cc:91-152 | a loss report passes through; otherwise one id and one prefix tag are added, from which group and N_id_2 can be read back, or nothing is copied or tagged |
| Sss.SssBlock.Work | lib/sss_impl.cc:83-156 | the output buffer and added tags of a call, including the buffer left as it was when no group is found |
| Mib.CallKeepsLog | lib/mib_impl.cc:109-177 | every call keeps the message log an alternation of announcement and withdrawal of the same object, open exactly while a cell is published |
| Mib.SecondLookDecodes | lib/mib_impl.cc:127-177 | after a call that looked at a cell, whatever it was answered, and any calls in between that look at none, the next look at that cell decodes without another initialisation: it announces exactly when the cell is found, so a failed initialisation is never retried for the same cell |
| Mib.ConsumesWhatItDecodes | lib/mib_impl.cc:109-182 | a call passes its first half frame only when it gets as far as decoding: it looks at a cell the decoder is set up for or can be set up for; then it consumes all it was offered, or nothing when it exits |
| Mib.FailedInitAnnouncesNothing | lib/mib_impl.cc:148-158 | tags with another id or another prefix than the decoder's, and an initialisation that fails: nothing is announced, one half frame is consumed, and the decoder keeps the tags |
| Mib.LogAlternates | lib/mib_impl.cc:109-177 | message 2j announces cell j, message 2j + 1 withdraws it |
| MibHistory.MibMatchesHistory | lib/mib_impl.cc:96-183 | after any calls, with any half frames, offers and answers: published, the current cell, the decoder's id and prefix, the messages with their contents and the number of half frames consumed are the ones defined by the calls alone |
| MibHistory.OpenMeans | lib/mib_impl.cc:109-125 | by that definition a cell is open exactly when some call announced one and no later call looked at a report of a loss |
| Mib.MibBlock.GeneralWork | lib/mib_impl.cc:96-183 | the fields, messages and consumption of a call are those of the call function on the tags found at the read position, with the log kept consistent; more than one half frame is consumed only by a call that got as far as decoding |
| CellStore.StoreIsOpen | lib/cellstore_impl.cc:85-105 | for every sequence of messages the list is the acceptable announced cells that no later message withdrew, oldest first |
| CellStore.RemoveOnly | lib/cellstore_impl.cc:99-105 | removing a cell that no other resembles takes out that one element, by identity as by content |
| CellStore.Store.TrackCell | lib/cellstore_impl.cc:85-97 | a message with an id other than 1000 is appended; a missing id and 1000 are refused and nothing changes |
| CellStore.Store.DropCell | lib/cellstore_impl.cc:99-105 | no cell with the identity of the message stays and every other one does; what stays is the announced cells still open, oldest first |
| CellStore.Store.Cells | lib/cellstore_impl.cc:67-72 | the announced cells still open, oldest first |
| CellStore.Store.Tracking | lib/cellstore_impl.cc:60-65 | true exactly when some announced cell is still open |
| CellStore.Store.LatestCell | lib/cellstore_impl.cc:74-82 | the cell of the last announcement that no later message withdrew, and none exactly when there is no such announcement |
| Chains.WrittenFrame | lib/pss_impl.cc:184-214 | every half frame written: its samples are the window of the call that wrote it, and it reports a loss or carries its correction frequency |
| Chains.NewestFrame | lib/pss_impl.cc:184-214 | the newest half frame a tracker wrote carries tracking_lost exactly when it is not tracking |
| Chains.UnbrokenSince | lib/pss_impl.cc:184-214 | if no half frame from the i-th on reports a loss, the tracker was tracking in every call since |
| Chains.PublisherReadsHead | lib/mib_impl.cc:107-128 | the publisher's lookup at its read position finds the tags of the half frame it stands at |
| Chains.TurnKeepsInv | lib/mib_impl.cc:96-183 | every call of every block keeps the chain invariant: outputs follow the history, every tagged half frame is what the tagger was answered makes of the one written, announced cells match the half frames they were decoded from, and a publisher that exited stands at the half frame it announced |
| Chains.CallOverlooks | lib/mib_impl.cc:161-182 | after a call a loss is overlooked if and only if it published from the first of several half frames and one of the others reports a loss, or one was overlooked before and the cell was not withdrawn |
| Chains.PublishedMeansTracking | lib/mib_impl.cc:107-182 | with everything read, for any number of half frames per call: the tracker has been tracking in every call since the decoded half frame if and only if the announcement overlooked no loss |
| Chains.OneCellSince | lib/mib_impl.cc:122-128 | while a cell is published, every id tag consumed since its half frame is its own id if and only if the tagger answered no other group for a half frame with lock since |
| Chains.AnnouncedFrom | lib/sss_impl.cc:118-152 | every announced cell comes from samples that are exactly a half frame emitted with lock; its id is 3 * N_id_1 + N_id_2 for the group, and its prefix the one, that the tagger was answered for that half frame; chain k announces ids in 0..503 congruent to k modulo 3 (section 6.11 of 3GPP TS 36.211) |
| Delivery.StoreContents | lib/cellstore_impl.cc:51-57 | under any order of delivery a cell is stored exactly when its announcement was handled and its withdrawal was not, or came first |
| Delivery.StoreCount | lib/cellstore_impl.cc:85-105 | under any order of delivery the store holds one cell for every handled announcement without a handled withdrawal and one for every overtaken cell, and no more |
| Network.Reachable | python/downlink_trigger_c.py:43-61 | every state of every run satisfies the invariants of chains, delivery and thresholds |
| Replay.ChainFollowsActions | python/downlink_trigger_c.py:43-61 | in every run, the threshold, the inputs and the output of a chain's tracker, its tagged half frames and the answers they were tagged by, and what its publisher read, sent and has open are functions of the list of actions alone |
| Replay.RequestReachesTrackers | python/downlink_trigger_c.py:63-69 | the last accepted request, or 1.5 if it is lower, is the threshold of every tracker it was written to, and of all three once it was written to all |
| Replay.TaggedByAnswer | lib/sss_impl.cc:91-152 | the i-th half frame tagged in a run comes from the i-th one written and has the id and the prefix answered in the i-th tagger call that found one; a loss passes through, and without a group the buffer stays as it was |
| Replay.TrackerCallWrites | lib/pss_impl.cc:163-214 | in every run one more tracker call writes a half frame exactly when the ratio it goes by, its own if it searches, exceeds the threshold last given to this tracker or a run was building; where the half frame starts and whether it reports a loss |
| Theorems.OneHalfFrameOverlooksNothing | lib/mib_impl.cc:107-125 | with one half frame per publisher call no loss is ever overlooked |
| Theorems.LossIsInFlight | lib/pss_impl.cc:184-214 | a published cell whose tracker has no lock, in any run: the newest half frame reports the loss, and it has not been read or the announcement overlooked a loss |
| Theorems.PublishedIsTracked | lib/mib_impl.cc:107-128 | with its queues empty, in any run, the tracker of a published cell had lock in every call since the one it was decoded from if and only if its announcement overlooked no loss; every id tagged since is the published one if and only if the tagger answered no other group |
| Theorems.StoreIsExact | lib/cellstore_impl.cc:51-57 | with all messages delivered through independent ports the store holds exactly the published cells and those whose withdrawal overtook their announcement |
| Theorems.ExactUnlessOvertaken | lib/cellstore_impl.cc:85-105 | the store holds exactly the published cells if and only if no withdrawal overtook its announcement |
| Theorems.DrainedStoreIsFollowed | include/ltetrigger/cellstore.h:36-42 | with all queues empty and all messages delivered, for ports served in any order and any number of half frames per call: every stored cell is published by a chain that kept lock and saw no other id since decoding it, if and only if no withdrawal overtook its announcement and no publishing chain overlooked a loss or was answered another group |
| Theorems.DrainedStoreIsTracked | include/ltetrigger/cellstore.h:36-42 | under ordered delivery and with at most one half frame per publisher call, with all queues empty and all messages delivered, a cell is stored exactly when some chain publishes it, and that chain's tracker has lock |
| Theorems.StoreSize | lib/cellstore_impl.cc:51-57 | in every state of every run, with ports served in any order, the number of stored cells is that of handled announcements without handled withdrawal plus that of overtaken cells |
| Theorems.StoreLimit | include/ltetrigger/cellstore.h:39-41 | with all messages delivered, in any order, the store holds as many cells as there are publishing chains and overtaken cells together, so at most three if and only if there are no more overtaken cells than chains that publish nothing |
| Theorems.AtMostOneCellPerChain | include/ltetrigger/cellstore.h:39-41 | under ordered delivery, in every state, at most three cells, one per chain, with different ids, in the order of their announcements |
| Theorems.RemovalByIdentityOrContent | lib/cellstore_impl.cc:99-105 | under ordered delivery a withdrawal removes exactly one element and a comparison by content would give the same list |
| Theorems.AnnouncedAboveMinimum | python/downlink_trigger_c.py:10 | every announced cell was decoded from the unaltered half frame of a call whose ratio was above 1.5 |
| Theorems.EveryHalfFrameIsLookedAt | lib/mib_impl.cc:107-182 | every half frame a publisher consumed in a run was the first of its call or was consumed in a call that decoded |
| Theorems.DeliversNext | lib/cellstore_impl.cc:51-57 | a delivery handles exactly the next announcement or withdrawal of the chain, in the ordered mode only when it is the chain's next message, and does nothing when there is none |
| Theorems.PortsAreFifo | lib/cellstore_impl.cc:51-57 | in every run each port has handled the announcements, or withdrawals, of every chain in the order they were sent, none left out or repeated; under ordered delivery so has the store with all its messages |
| Theorems.ThresholdsAgree | python/downlink_trigger_c.py:63-73 | every tracker's threshold is at least 1.5 at all times, even during a change; the requested one is the last accepted request or 1.5 if it is lower, and every tracker written to since has it |
| Theorems.MessagesAlternate | lib/mib_impl.cc:109-177 | the messages of each chain in every run: position, object, and published exactly when the last is an announcement |
| Theorems.ExitsAfterFirst | lib/mib_impl.cc:175-176 | with exit_on_success a publisher sends at most one message, the announcement it exits after |
| Settling.QuietStepShrinks | lib/sss_impl.cc:83-156 | every step of a tagger, publisher or the store that changes anything leaves less to do and touches no tracker, with or without exit_on_success |
| Settling.EveryScheduleRests | lib/mib_impl.cc:96-183 | if publishers are offered at least one half frame: from every state of every run, any sequence of such steps that each change something is no longer than the backlog, and it cannot be continued if and only if everything is tagged and delivered and every publisher has read all or exited |
| Settling.SettlesUnlessExited | lib/mib_impl.cc:167-179 | if publishers are offered at least one half frame: from a state of a run some continuation without tracker calls reads every half frame and delivers every message if and only if no publisher has exited |
| Settling.LostCellLeavesStore | lib/cellstore_impl.cc:99-105 | once a chain lost lock, any continuation without tracker calls that comes to rest, in any mode, leaves a cell of that chain in the store if and only if its publisher exited or overlooked a loss or a withdrawal of the chain overtook its announcement; with ordered delivery, at most one half frame per publisher call and no exit_on_success, none |
| Limits.TwoHalfFramesHideALoss | lib/mib_impl.cc:179 | two half frames per publisher call: a run that ends with all read, a cell published and no lock |
| Limits.IndependentPortsStrandCells | lib/cellstore_impl.cc:51-57 | independent ports: for every n a run that comes to rest with exactly n cells stored though none is published and no tracker has lock |
| Limits.StrandedForEver | lib/cellstore_impl.cc:99-105 | an overtaken cell stays in the store in every continuation |
| Limits.ExitingStoreOnlyGrows | lib/mib_impl.cc:167-177 | with exit_on_success, in any order of delivery, what the store lists it lists for ever: the list after any part of a run is a prefix of the list after the run |
| Limits.ExitKeepsALostCell | lib/mib_impl.cc:175-176 | exit_on_success: a run after which a publisher has exited, its tracker has no lock, and its cell is stored in every continuation |
| Limits.LockMovesUnnoticed | lib/mib_impl.cc:122-125 | one half frame per publisher call and lock never lost: a run that ends with all read, cell 0 published and the newest half frame tagged with id 3 |
| DownlinkTrigger.Trigger.constructor | python/downlink_trigger_c.py:16-29 | three trackers with track_after 16, track_every 8 and empty histories share the requested threshold, or 1.5 if it is not above that |
| DownlinkTrigger.Trigger.SetPsrThreshold | python/downlink_trigger_c.py:63-73 | all three trackers get the requested threshold, or 1.5 if it is not above that; their histories stay |

## Left out

- What srsLTE computes (correlation, frequency offset, channel estimate, prefix detection,
  group lookup, broadcast channel decoding): arbitrary answers with the ranges the library
  documents. The exception after a failed channel estimate (lib/pss_impl.cc:206-209) is not
  part of the model.
- PssCall: a chain takes every window from the input stream. A call whose window runs past the
  buffer it was offered (exactly the calls named by `Pss.AssertionIsTooWeak`) copies memory
  that is not part of this model.
- Frequency correction itself: a half frame is its samples and the frequency it was corrected
  by, so the corrected sample values do not appear.
- The scheduler, its buffers and PMT: what remains is queues of half frames, queues of
  messages, tags at positions and object identity. Queues are unbounded.
- Independent ports are modelled per chain, which allows every order the store's two shared
  queues allow and more.
- Floating point: ratios and offsets are reals, counters are unbounded integers.
- Locks in `cellstore`: each handler is one step.
- pack_cell's string tables, the wall clock and the frame number: opaque fields of the
  dictionary.
- Several threads changing the threshold at once: one change is in progress at a time, and
  tracker calls interleave with its three writes.
- `examples/`, GRC files, CMake, SWIG and documentation tooling.
