# Verified model of the certificate ledger

This Dafny project models the distributed certificate ledger and proves what it promises:
what its interlock DAG knows about every record, whatever order records arrive in; what a
ledger instance publishes and answers over whole runs; that a segmented transfer delivers
the block that was published; and that stored blocks are read back as written.

`dafny verify dfyconfig.toml` checks everything.

| file | part of the system |
|---|---|
| `names.dfy` | names, records, the record-name to state-name mapping |
| `sets.dfy`, `reachability.dfy` | sizes of finite sets; paths in a finite pointer graph |
| `dag_spec.dfy` | the store of edge states, and what adding and harvesting do to it |
| `dag_theorems.dfy`, `dag_runs.dfy` | soundness, life cycle, exactness, convergence, agreement |
| `dag_module.dfy` | the engine: a class with the waitlist and the breadth-first search |
| `policies.dfy` | both interlock policies, with the canonical order of names |
| `ledger_spec.dfy`, `ledger_runs.dfy`, `ledger_theorems.dfy`, `ledger_accounts.dfy`, `ledger_agreement.dfy` | the ledger as a state machine, its run properties, its exact bookkeeping, and when instances agree |
| `ledger_module.dfy` | the ledger handlers: a class tied step by step to that state machine |
| `replay.dfy` | whole runs on the classes |
| `producer.dfy`, `data_fetcher.dfy`, `pipeline_spec.dfy`, `pipeline.dfy`, `consumer.dfy`, `transfer.dfy` | segmented transfer |
| `storage.dfy` | the memory storage, and the engine's reads and writes as octets, refining the typed store |
| `tlv.dfy`, `codec.dfy`, `index_codec.dfy`, `wire_vectors.dfy` | octet-level encodings, with whole blocks written out, after the NDN Packet Format Specification v0.3, section "Type-Length-Value (TLV) Encoding" |

## How to read it

`DagSpec.AddStore` says declaratively what accepting a record does: every state not
interlocked that is reachable through loaded records from the new record, or from a record
that was waiting for it, gains that record as a descendant. The engine reaches that store
with a breadth-first search, marking and re-evaluating states one at a time; the contract
of `DagModule.DagModule.Add` is the refinement, and all run properties are proved about
`AddStore` and `HarvestStore`. A tidy waitlist is a function of the store
(`BucketContents`), so the properties of stores carry over to it. The engine touches storage
in two ways only, and `Storage` shows both to do on octets what they do on the typed store.

Facts about the code found on the way:

- Interlocking while a pointer target is missing loses descendants for good. The exact
  condition is `SafeToHarvest`: nothing about to be interlocked points at a missing record
  (`PruningLosslessIff`). Otherwise some record is missed whatever follows
  (`UnsafeHarvestLosesForever`). Causal delivery meets the condition always; four records
  show the loss (`FourRecordLoss`).
- A delivered record whose data packet is malformed or already stored ends the step before
  the harvest (`src/ledger-module.cpp:77-86`), and then records can sit at the threshold: two
  records with one packet, delivered causally, show it (`EarlyEndLeavesRipe`). That guard is
  the exact condition, unless nothing had reached the threshold anyway
  (`DeliveryLeavesNothingRipeIff`); agreement between instances is stated for runs in which
  no delivery ends so.
- A delivered payload is indexed as a whole, while only the packet at its front is stored
  (`src/ledger-module.cpp:77-88`); a query then looks for the digest of the packet. It finds
  the record if and only if nothing follows the packet (`IndexAgrees`,
  `TrailingOctetBreaksChain`).
- A fetch that failed for a segment beyond the end of the content makes the pipeline fail
  once the first packet arrives, although the last segment number is then known and every
  segment of the content may still be fetched, unless the content is one segment
  (`FirstPacketSurvivesIff`). Two segments and a window of three show it
  (`FailureBeyondEnd`).
- The producer's int arithmetic fits for exactly the sizes `FitsInt` names (`IntsFitIff`).
  Every block below 2^31 octets is among them; 2^31 octets are at a segment size of 8000,
  and are not at a segment size of one octet.
- The congestion backoff of the data fetcher never grows: each Interest resets the exponent,
  so every backoff is one millisecond and the ten-second ceiling documented at
  `src/util/segment/data-fetcher.hpp:57-60` is never met.
- The name that marks the end of a chain of state lists is also the name of the list with
  key 0x6E756C6C (`NullNamesOneList`).

## Model

| member | source | states |
|---|---|---|
| `Names.ToStateName` | src/dag/edge-state.cpp:13-23 | the state name gives its record name back |
| `Names.ToStateNameInjective` | src/dag/edge-state.cpp:13-17 | distinct records have distinct state names |
| `Names.StateNameText` | src/dag/edge-state.cpp:13-17 | a state name is a keyword component that reads "EdgeState", then the record name |
| `Names.FromStateNameDrops` | src/dag/edge-state.cpp:19-23 | any first component is dropped, and the empty name stays empty |
| `Names.RecordTypeNumbers` | src/cledger-common.hpp:75-79 | the numbers of the record types |
| `DagModule.DagModule.GetOrConstruct` | src/dag/dag-module.cpp:145-165 | returns the stored state, or a pending one that it stores |
| `DagModule.DagModule.Update` | src/dag/dag-module.cpp:167-172 | replaces exactly one stored state |
| `DagModule.DagModule.EvaluateWaitlist` | src/dag/dag-module.cpp:213-227 | the state ends in the bucket of its score and in no other; an interlocked one stays put |
| `DagModule.DagModule.GetWaitList` | src/dag/dag-module.hpp:24-33 | reads a bucket and, though it may create it, changes no bucket's contents |
| `DagModule.DagModule.GetAncestors` | src/dag/dag-module.cpp:32-103 | the result is exactly the set of states not interlocked that are reachable through loaded ones, the record's own targets last and back to front; exactly the pending ones among them are marked; terminates on every graph |
| `DagModule.DagModule.FirstRound` | src/dag/dag-module.cpp:44-62 | the record's own pointers that are not interlocked, in order and with duplicates, pending ones kept out of the frontier |
| `DagModule.DagModule.Round` | src/dag/dag-module.cpp:64-97 | after a round every frontier name is expanded, and names were only added |
| `DagModule.RoundProgress` | src/dag/dag-module.cpp:64-97 | a round that adds nothing leaves every found name expanded, so the stopping rule is right |
| `DagModule.SearchComplete` | src/dag/dag-module.cpp:64-102 | a found set that covers the start and is expanded throughout is the whole set of ancestors |
| `DagModule.DagModule.EvaluateAncestors` | src/dag/dag-module.cpp:198-211 | every ancestor, and nothing else, gains the record as a descendant; the waitlist index is restored |
| `DagModule.DagModule.OnNewRecord` | src/dag/dag-module.cpp:174-196 | the record and everything waiting for it, genesis records excepted, spread to all their ancestors |
| `DagModule.DagModule.Add` | src/dag/dag-module.cpp:13-30 | the store becomes `AddStore`; a duplicate changes neither store nor waitlist; index, well-formedness and tidiness are kept |
| `DagModule.DagModule.HarvestBelow` | src/dag/dag-module.cpp:105-121 | returns each listed state below the threshold, pending ones left out, exactly once; changes nothing |
| `DagModule.DagModule.HarvestAbove` | src/dag/dag-module.cpp:123-143 | interlocks exactly the loaded states at or above the threshold, returns each listed one once, removes them or not as told, keeps the index |
| `DagModule.BucketContents` | src/dag/dag-module.cpp:213-227 | in a tidy waitlist each bucket holds exactly the states of its score that are not interlocked, pending ones included |
| `DagModule.HarvestsPartition` | src/dag/dag-module.cpp:105-143 | the two harvests split the loaded records at the threshold |
| `DagModule.HarvestOnce` | src/dag/dag-module.cpp:123-143 | an immediate second harvest with removal returns nothing |
| `DagSpec.AddEffect` | src/dag/dag-module.cpp:174-211 | what an accepted record changes at any one name, and that interlocked states are untouched |
| `DagSpec.AddWellFormed` | src/dag/dag-module.cpp:13-30 | descendants are loaded records that are no genesis records, and every pending state has some |
| `DagSpec.DuplicateChangesNothing` | src/dag/dag-module.cpp:18-28 | a record under a held name changes nothing, whatever it holds |
| `DagTheorems.AddSound` | src/dag/dag-module.cpp:174-211 | adding invents no descendant |
| `DagTheorems.AddEvolves` | src/dag/dag-module.cpp:13-30 | adding only moves states forward, adds descendants, and freezes records and interlocked states |
| `DagTheorems.BehindInterlocked` | src/dag/dag-module.cpp:47-59 | from an interlocked record pointers lead to interlocked records only, once interlocking is closed |
| `DagTheorems.ReachedIsAncestor` | src/dag/dag-module.cpp:47-59 | with interlocking closed, pruning hides no state that is not interlocked |
| `DagTheorems.AddKeepsExact` | src/dag/dag-module.cpp:174-211 | any record, in any order, keeps descendants exact while interlocking is closed under pointers |
| `DagTheorems.SafeHarvestKeepsClosed` | src/dag/dag-module.cpp:123-143 | a safe harvest interlocks every parent of what it interlocks |
| `DagTheorems.PruningLosslessIff` | src/dag/dag-module.cpp:47-59 | after a harvest every further add stays exact if and only if nothing harvested points at a missing record |
| `DagRuns.RunSound` | src/dag/dag-module.cpp:13-143 | in every run: well formed, no false descendants, exactly the records added are held |
| `DagRuns.RunScored` | src/dag/dag-module.cpp:123-143 | interlocked records keep scoring at least the threshold, forever |
| `DagRuns.RunEvolves` | src/dag/dag-module.cpp:18-28 | life cycle between any two points of any run |
| `DagRuns.RunExact` | src/dag/dag-module.cpp:32-143 | pruning is lossless in every safe run |
| `DagRuns.CausalRunIsSafe` | src/dag/dag-module.cpp:47-59 | causal delivery makes every harvest safe, at any threshold |
| `DagRuns.ExactStoreIsSpec` | src/dag/dag-module.cpp:174-228 | an exact store without interlocked states is the one determined by its records |
| `DagRuns.Convergence` | src/dag/dag-module.cpp:13-30 | without harvests the store depends only on the set of records added, not on order or repetition |
| `DagRuns.InterlockedIff` | src/ledger-module.cpp:385-403 | right after a harvest a record is interlocked if and only if its true descendants score the threshold |
| `DagTheorems.ExactStoresAgree` | src/dag/dag-module.cpp:174-228 | exact stores with the same records, interlocked alike, differ at most in what interlocked records gathered |
| `DagRuns.ReplicasAgree` | src/ledger-module.cpp:385-403 | replicas with the same records agree on every status and record, and on the descendants of all that is not interlocked |
| `DagRuns.UnseenForever` | src/dag/dag-module.cpp:47-59 | what points only behind an interlocked record and is counted nowhere stays so in every continuation |
| `DagRuns.UnsafeHarvestLosesForever` | src/dag/dag-module.cpp:47-59 | after any harvest that is not safe some record, once added, is a true descendant that is missed in every continuation |
| `DagRuns.OutOfOrderHarvestLoses` | src/dag/dag-module.cpp:47-59 | the family of runs in which interlocking before a pointer target arrives loses a descendant, for every continuation |
| `DagRuns.FourRecordLoss` | src/dag/dag-module.cpp:47-59 | a concrete such run, whatever follows it |
| `Policies.ProducerOf` | src/dag/interlock-policy-witness.cpp:21-21 | the producer of a record is its name without the last component |
| `Policies.PrefixIsLess` | src/dag/interlock-policy-witness.cpp:19-26 | in the order of names a proper prefix comes first |
| `Policies.ComponentsDecide` | src/dag/interlock-policy-witness.cpp:19-26 | ... and otherwise the first components that differ decide: by type, then length, then octets |
| `Policies.Select` | src/dag/interlock-policy-witness.cpp:14-28 | the first descendant of each producer in canonical order |
| `Policies.OneWitnessPerProducer` | src/dag/interlock-policy-witness.cpp:14-28 | a subset with exactly one descendant per distinct producer, the first of them |
| `Policies.WitnessScore` | src/dag/interlock-policy-witness.cpp:30-34 | the score is the number of distinct producers |
| `Policies.WitnessAtMostDescendants` | src/dag/interlock-policy-witness.cpp:30-34 | it never exceeds the descendants score |
| `Policies.WitnessWellBehaved` | src/dag/interlock-policy-witness.cpp:14-34 | subset, empty only for no descendants, monotone |
| `Policies.DescendantsWellBehaved` | src/dag/interlock-policy-descendants.cpp:14-24 | the same for the descendants policy |
| `Policies.DescendantsScore` | src/dag/interlock-policy-descendants.cpp:14-24 | it selects and counts every descendant |
| `LedgerRuns.WitnessesCountInstances` | src/dag/interlock-policy-witness.cpp:14-34 | the witness policy scores publications by the number of instances that made them |
| `LedgerRuns.OneInstanceCountsOnce` | src/dag/interlock-policy-witness.cpp:14-34 | however many publications one instance makes, they score one |
| `LedgerRuns.TwoInstancesCountTwice` | src/dag/interlock-policy-witness.cpp:14-34 | publications of two instances score two |
| `LedgerRuns.SequenceNameInjective` | src/sync/sync-module.cpp:40-44 | neither two instances nor two publications of one share a name |
| `LedgerRuns.SequenceNameText` | src/sync/sync-module.cpp:40-44 | a publication's name is the instance's with a component of type 58 |
| `LedgerModule.LedgerModule.AfterValidation` | src/ledger-module.cpp:291-340 | performs the submission step; the index entry is refused only when another payload has its map name |
| `LedgerModule.LedgerModule.OnSyncRecord` | src/ledger-module.cpp:70-95 | performs the delivery step for any record, early exits included; one that sync can deliver keeps the invariant |
| `LedgerModule.LedgerModule.PublishReply` | src/ledger-module.cpp:255-283 | performs the reply step |
| `LedgerModule.LedgerModule.DagHarvest` | src/ledger-module.cpp:385-403 | interlocks, forgets replies to, and tracks exactly the records that reached the threshold |
| `LedgerModule.LedgerModule.UpdateStatesTracker` | src/ledger-module.cpp:405-428 | the tracker gains the state name |
| `LedgerModule.LedgerModule.AddPayloadMap` | src/ledger-module.cpp:342-349 | refuses to overwrite, otherwise maps the payload |
| `LedgerModule.LedgerModule.OnQuery` | src/ledger-module.cpp:203-231 | answers exactly when the chain leads to a state, with its record and the first selected descendants in canonical order, as many as the threshold |
| `LedgerModule.ChooseDescendants` | src/ledger-module.cpp:224-231 | the first selected descendants in canonical order, as many as the threshold allows |
| `LedgerTheorems.ChosenAreFirst` | src/ledger-module.cpp:224-231 | they are selected, in order, and come before all that are not chosen |
| `LedgerRuns.InstanceConfigValid` | src/sync/sync-module.cpp:40-44 | own names never repeat; both policies qualify, at any threshold from one |
| `LedgerRuns.TipsAreLoaded` | src/dag/dag-module.hpp:24-33 | bucket zero is exactly the loaded records without descendants, never a pending one |
| `LedgerRuns.SubmissionPointsAtTips` | src/ledger-module.cpp:304-329 | a submission is a generic record that points at exactly those, or a genesis record that points at itself alone when there are none |
| `LedgerRuns.SubmissionIsOnlyTip` | src/ledger-module.cpp:304-340 | afterwards bucket zero is exactly the new record |
| `LedgerRuns.NewDataNotIndexed` | src/ledger-module.cpp:335-349 | a new packet's payload is not indexed yet, unless it collides with an indexed one |
| `LedgerRuns.FoundIffWhole` | src/ledger-module.cpp:203-214 | the digest of a stored packet is indexed if and only if nothing followed the packet in the payload it came with |
| `LedgerRuns.IndexedPayload` | src/ledger-module.cpp:342-357 | the index entry of a payload leads to a held record with that very payload |
| `LedgerRuns.ReachableInv` | src/ledger-module.cpp:70-428 | the whole invariant in every reachable state: sound store, lasting scores, tracker, replies, index |
| `LedgerRuns.StepsEnabled` | src/ledger-module.cpp:255-340 | in every state the reply timer can fire, and a payload can be submitted if and only if it is one packet and collides with no other octets |
| `LedgerTheorems.TipExists` | src/ledger-module.cpp:311-329 | on acyclic records there is a tip once anything is held |
| `LedgerTheorems.OwnRecordsKeepAcyclic` | src/ledger-module.cpp:255-340 | what an instance publishes never closes a cycle |
| `LedgerTheorems.RepliesBounded` | src/ledger-module.cpp:255-283 | no record is referenced by two replies, none referenced is a reply or pending, replies are bounded by the non-reply records held, the replied set is loaded and not interlocked |
| `LedgerTheorems.IndexAgrees` | src/ledger-module.cpp:203-214 | each stored packet came with one indexed payload of a held record, and the chain from the packet leads to that record if and only if the payload is exactly the packet |
| `LedgerTheorems.TrailingOctetBreaksChain` | src/ledger-module.cpp:77-88 | a run in which an octet after the packet makes the chain break off |
| `LedgerTheorems.QueryAnswer` | src/ledger-module.cpp:220-231 | the answer names the record and as many distinct true descendants as are selected, up to the threshold; for an interlocked record exactly the threshold |
| `LedgerTheorems.WitnessAnswer` | src/dag/interlock-policy-witness.cpp:14-28 | under the witness policy they come from distinct producers |
| `LedgerAccounts.StepTracks` | src/ledger-module.cpp:75-77 | every step tracks exactly its submission or delivery, early exits included, and what it interlocks |
| `LedgerAccounts.TrackerExactly` | src/ledger-module.cpp:405-428 | in every run the tracker lists exactly what was submitted and delivered, and what is interlocked |
| `LedgerAccounts.PublishedInOrder` | src/sync/sync-module.cpp:29-44 | in every run publications are named by their numbers, without gaps |
| `LedgerAccounts.ReplyReferences` | src/ledger-module.cpp:256-275 | a reply references exactly the loaded records below the threshold, no replies, not replied to before, each once |
| `LedgerAccounts.ReplyFields` | src/ledger-module.cpp:269-283 | it is of type 5, named next, and has no payload |
| `LedgerAccounts.ReplyCoversAll` | src/ledger-module.cpp:256-283 | after the timer every such record is referenced by the new reply, or was replied to before |
| `LedgerAccounts.RepliedExactly` | src/ledger-module.cpp:256-283 | in every run the replied set is exactly what own replies reference and is not interlocked |
| `LedgerAccounts.DataExactly` | src/ledger-module.cpp:76-87 | in every run the stored packets are exactly those of the held records, replies aside |
| `LedgerAccounts.RunKeepsData` | src/ledger-module.cpp:76-93 | no stored packet or index entry is ever replaced, and nothing published withdrawn |
| `LedgerAccounts.SubmissionIsFound` | src/ledger-module.cpp:291-340 | a submission's packet leads at once to the record just published |
| `LedgerAccounts.DeliveryIsFound` | src/ledger-module.cpp:76-93 | a new packet delivered alone in its payload leads at once to the delivered record |
| `LedgerAgreement.StepStore` | src/ledger-module.cpp:70-340 | every step adds one record or does nothing, and harvests unless it is a delivery that ends early |
| `LedgerAgreement.DeliveryLeavesNothingRipeIff` | src/ledger-module.cpp:75-94 | a delivery leaves nothing ripe if and only if it reaches the harvest or its record left nothing ripe |
| `LedgerAgreement.NothingRipe` | src/ledger-module.cpp:75-94 | while no delivery ends early, nothing is ripe between steps |
| `LedgerAgreement.EarlyEndLeavesRipe` | src/ledger-module.cpp:80-86 | a causal run of two deliveries that leaves a record at the threshold and not interlocked |
| `LedgerAgreement.SafeLedgerIsLossless` | src/ledger-module.cpp:70-340 | an instance whose harvests are safe has exact descendants throughout |
| `LedgerAgreement.CausalEventsAreSafe` | src/ledger-module.cpp:70-340 | causal delivery makes every harvest of an instance safe |
| `LedgerAgreement.CausalRunIsAcyclic` | src/ledger-module.cpp:70-340 | causal delivery of records that do not point at themselves, genesis records aside, keeps the records acyclic |
| `LedgerAgreement.OneGenesis` | src/ledger-module.cpp:316-323 | fed so, only the first publication of an instance can be a genesis record |
| `LedgerAgreement.InterlockedExactly` | src/ledger-module.cpp:385-403 | with safe harvests and no early end, a record is interlocked if and only if its true descendants reach the threshold |
| `LedgerAgreement.InstancesAgree` | src/ledger-module.cpp:385-403 | two such instances with the same records agree on every status and record, and on the descendants of all that is not interlocked |
| `Replay.ReplayDag` | src/dag/dag-module.cpp:13-143 | the engine, fed any sequence of adds and harvests, ends in the store of that run with a tidy waitlist |
| `Replay.ReplayLedger` | src/ledger-module.cpp:70-428 | an instance, fed any requests, ends in the state of a run whose events answer them one by one |
| `Producer.CountCovers` | src/util/segment/producer.cpp:127-128 | the number of segments is the least that holds the block |
| `Producer.IntsFitIff` | src/util/segment/producer.cpp:127-133 | count, offsets and copy sizes all fit an int if and only if the count, the last offset and the first copy do |
| `Producer.IntBlocksFit` | src/util/segment/producer.cpp:127-133 | they do for every block whose size is an int |
| `Producer.LargerBlockFits` | src/util/segment/producer.cpp:127-133 | larger blocks on either side of the condition |
| `Producer.SegmentSizes` | src/util/segment/producer.cpp:129-137 | no segment is empty or over the maximum; all but the last are full |
| `Producer.SegmentsRestore` | src/util/segment/producer.cpp:129-137 | the segments in order are the block |
| `Producer.Producer.PopulateStore` | src/util/segment/producer.cpp:119-154 | fills the store with the numbered, stamped packets, whenever the ints of its loop fit |
| `Producer.Producer.ProcessSegmentInterest` | src/util/segment/producer.cpp:89-117 | which packet, or a nack, answers an Interest |
| `DataFetcher.DataFetcher.HandleNack` | src/util/segment/data-fetcher.cpp:93-138 | when a nack is retried and when it ends the fetch in error, with one callback; Interests stay within one plus both limits, backoffs are one millisecond |
| `DataFetcher.DataFetcher.Backoff` | src/util/segment/data-fetcher.cpp:111-121 | the scheduled Interest is sent once its backoff time is over |
| `DataFetcher.DataFetcher.HandleTimeout` | src/util/segment/data-fetcher.cpp:140-160 | the same for timeouts |
| `DataFetcher.DataFetcher.HandleData` | src/util/segment/data-fetcher.cpp:82-91 | data stops a running fetch without an error and with one callback, and a finished one not at all |
| `DataFetcher.DataFetcher.Cancel` | src/util/segment/data-fetcher.cpp:61-69 | stops without a callback |
| `Pipeline.PipelineInterestsFixed.DoRun` | src/util/segment/pipeline-interests-fixed.cpp:47-58 | fills the window |
| `Pipeline.PipelineInterestsFixed.FetchNextSegment` | src/util/segment/pipeline-interests-fixed.cpp:60-96 | takes the next segment, nothing past the end, nothing after a failure; never replaces a running fetcher |
| `Pipeline.PipelineInterestsFixed.LearnFinalBlock` | src/util/segment/pipeline-interests-fixed.cpp:113-128 | the loop cancels exactly what is beyond the end, or fails when something within it failed |
| `Pipeline.PipelineInterestsFixed.HandleData` | src/util/segment/pipeline-interests-fixed.cpp:110-140 | performs the data step and feeds the consumer exactly once |
| `Pipeline.PipelineInterestsFixed.HandleFail` | src/util/segment/pipeline-interests-fixed.cpp:142-173 | performs the failure step |
| `Pipeline.PipelineInterestsFixed.CancelFollowing` | src/util/segment/pipeline-interests-fixed.cpp:152-165 | the loop cancels exactly the later segments and reports whether an earlier one still runs |
| `Pipeline.PipelineInterestsFixed.Cancel` | src/util/segment/pipeline-interests.cpp:64-72 | cancels once and empties the window |
| `Pipeline.PipelineInterestsFixed.OnData` | src/util/segment/pipeline-interests.cpp:88-97 | counts the segment and hands it on |
| `PipelineSpec.CompleteIffAll` | src/util/segment/pipeline-interests.cpp:74-80 | the count test holds if and only if every segment was delivered |
| `PipelineSpec.DataKeepsInv` | src/util/segment/pipeline-interests-fixed.cpp:110-140 | a packet keeps the window invariant |
| `PipelineSpec.FailKeepsInv` | src/util/segment/pipeline-interests-fixed.cpp:142-173 | a failure keeps it |
| `PipelineSpec.Counting` | src/util/segment/pipeline-interests-fixed.cpp:60-140 | in every run deliveries are distinct and within the content |
| `PipelineSpec.NeverStalls` | src/util/segment/pipeline-interests-fixed.cpp:111-173 | stopped, complete, or a fetcher runs on a segment of the content |
| `PipelineSpec.StoppedIsFinal` | src/util/segment/pipeline-interests-fixed.cpp:110-115 | nothing is delivered after stopping |
| `PipelineSpec.ReportsBounded` | src/util/segment/pipeline-interests-fixed.cpp:110-173 | in every run the fetchers' reports that take effect are at most as many as segments and places, and one more |
| `PipelineSpec.RequestsBounded` | src/util/segment/pipeline-interests-fixed.cpp:60-96 | the segment numbers handed out are at most as many as places and deliveries |
| `PipelineSpec.FirstPacketSurvivesIff` | src/util/segment/pipeline-interests-fixed.cpp:66-69 | the first packet survives an earlier failure if and only if it is the whole content |
| `PipelineSpec.FailedBeyondEnd` | src/util/segment/pipeline-interests-fixed.cpp:66-69 | failures beyond the end alone fail the pipeline |
| `PipelineSpec.FailureBeyondEnd` | src/util/segment/pipeline-interests-fixed.cpp:66-69 | a run in which they do, with a segment of the content still being fetched |
| `PipelineSpec.FailureExactly` | src/util/segment/pipeline-interests.cpp:99-109 | in every run the failure callback was made exactly once by a pipeline that stopped otherwise than by cancellation, which is then incomplete, and never else |
| `PipelineSpec.DataStopsIff` | src/util/segment/pipeline-interests-fixed.cpp:110-140 | a packet stops the pipeline if and only if it is the first, an earlier fetch failed, and it is not the whole content |
| `PipelineSpec.FailureStopsIff` | src/util/segment/pipeline-interests-fixed.cpp:147-173 | a failure stops it if and only if the length is known or no earlier segment is still fetched |
| `PipelineSpec.FailureCancelsLater` | src/util/segment/pipeline-interests-fixed.cpp:151-165 | a failure that does not stop it cancels exactly the later fetchers |
| `Consumer.Consumer.HandleData` | src/util/segment/consumer.cpp:53-72 | refuses an invalid packet and a nack without a trace; otherwise buffers the segment and flushes |
| `Consumer.Consumer.WriteInOrderData` | src/util/segment/consumer.cpp:74-90 | writes what is next in order and finishes when complete |
| `Consumer.ReceiveSettles` | src/util/segment/consumer.cpp:74-84 | in any order, what is written is a prefix of the whole and nothing writable waits |
| `Consumer.AllWritten` | src/util/segment/consumer.cpp:85-89 | once everything is in, everything is written |
| `Transfer.TransferReachable` | src/util/segment/consumer.cpp:53-90 | pipeline and consumer agree in every run |
| `Transfer.TransferRoundTrip` | src/util/segment/consumer.cpp:53-90 | the finish callback comes once, at completion, with the published block; otherwise not at all; the failure callback exactly once when the transfer stopped uncancelled, then incomplete; the transfer never stalls, and reports and requests are bounded, so it ends |
| `Tlv.EncodeVarOctets` | src/dag/edge-state.cpp:27-28 | a type or length number is written in one octet, or a marker and two, four or eight, most significant first |
| `Tlv.ReadVarOctets` | src/dag/edge-state.cpp:54-58 | exactly the complete shortest forms are read |
| `Tlv.NniOctets` | src/dag/edge-state.cpp:30-30 | a number is written in the fewest of one, two, four or eight octets |
| `Tlv.ElementOctets` | src/dag/edge-state.cpp:27-31 | type, length, value |
| `Tlv.CriticalTypes` | src/dag/edge-state.cpp:81-88 | odd type numbers are critical, even ones only below 32 |
| `Tlv.DecodeNameIff` | src/dag/edge-state.cpp:60-62 | what is accepted as a name |
| `Tlv.ParseEncoded` | src/dag/edge-state.cpp:54-58 | elements are parsed back as encoded |
| `Tlv.ParseCanonical` | src/dag/edge-state.cpp:54-58 | whatever parses is the encoding of what it parses to |
| `Tlv.NniRoundTrip` | src/dag/edge-state.cpp:30-30 | numbers are read back |
| `Tlv.NameRoundTrip` | src/dag/edge-state.cpp:60-62 | names are read back |
| `Codec.PrepareContent` | src/record.cpp:75-90 | the loop yields the record's three elements |
| `Codec.ReadRecord` | src/record.cpp:10-38 | the loop is the fold of its switch over the elements |
| `Codec.RecordRoundTrip` | src/record.cpp:10-38 | type, ordered pointers and payload are read back |
| `Codec.RecordEvolves` | src/record.cpp:28-35 | unknown elements are ignored if non-critical and refused if critical |
| `Codec.EncodeNameSet` | src/dag/edge-state.cpp:33-37 | a set is written in canonical order |
| `Codec.EncodeEdgeState` | src/dag/edge-state.cpp:25-48 | the elements of an edge state, descendants only when there are any |
| `Codec.DecodeEdgeState` | src/dag/edge-state.cpp:50-92 | the loop is the fold of its switch over the elements |
| `Codec.EdgeStateRoundTrip` | src/dag/edge-state.cpp:25-92 | every well-formed edge state is read back as written |
| `Codec.EdgeStateEvolves` | src/dag/edge-state.cpp:81-88 | unknown elements anywhere: ignored or refused by criticality |
| `Codec.RecordElementsAdd` | src/record.cpp:13-27 | repeated pointer elements accumulate in order, of types and payloads the last counts |
| `Codec.DescendantsAdd` | src/dag/edge-state.cpp:69-74 | repeated descendant elements accumulate |
| `Codec.ContentReplaces` | src/dag/edge-state.cpp:66-68 | a later content element replaces the record |
| `Codec.ForeignBlockRefused` | src/dag/edge-state.cpp:55-57 | a block of another type is refused |
| `WireVectors.EdgeStateOctets` | src/dag/edge-state.cpp:25-48 | a whole edge state, octet by octet |
| `WireVectors.StatusNumbers` | src/dag/edge-state.hpp:11-15 | the numbers of the states |
| `WireVectors.StateListOctets` | src/dag/edge-state-list.cpp:32-52 | a whole state list, octet by octet |
| `WireVectors.PayloadMapOctets` | src/dag/payload-map.cpp:21-29 | a whole payload map, octet by octet |
| `WireVectors.IndexNameText` | src/dag/edge-state-list.cpp:14-30 | the names of lists and maps, component by component |
| `Storage.LedgerMemory.AddBlock` | src/storage/ledger-memory.cpp:14-22 | adds a new block and refuses to overwrite |
| `Storage.LedgerMemory.GetBlock` | src/storage/ledger-memory.cpp:24-32 | the stored block, if any |
| `Storage.LedgerMemory.DeleteBlock` | src/storage/ledger-memory.cpp:34-42 | removes exactly one block and refuses when it is missing |
| `Storage.GetOrConstruct` | src/dag/dag-module.cpp:145-165 | on octets: reads, or stores a pending state; unreadable octets end in storage's refusal to overwrite |
| `Storage.Update` | src/dag/dag-module.cpp:167-172 | on octets: replaces one block, or fails changing nothing |
| `Storage.ReadRefines` | src/dag/dag-module.cpp:156-158 | reading stored octets never fails and yields the typed state |
| `Storage.ConstructRefines` | src/dag/dag-module.cpp:148-163 | a missing name reads as, and is stored as, the pending state, although the record made on the spot has no name |
| `Storage.UpdateRefines` | src/dag/dag-module.cpp:167-172 | storing the octets of a state is updating the typed store |
| `IndexCodec.ListNameRoundTrip` | src/dag/edge-state-list.cpp:14-24 | a list's key is read back from its name |
| `IndexCodec.NullNamesOneList` | src/dag/edge-state-list.cpp:26-30 | the null list name is the name of exactly one key |
| `IndexCodec.EncodeEdgeStateList` | src/dag/edge-state-list.cpp:32-52 | the elements of a state list |
| `IndexCodec.DecodeEdgeStateList` | src/dag/edge-state-list.cpp:54-90 | the loop is the fold of its switch |
| `IndexCodec.EdgeStateListRoundTrip` | src/dag/edge-state-list.cpp:32-90 | state lists are read back as written |
| `IndexCodec.EdgeStateListEvolves` | src/dag/edge-state-list.cpp:79-86 | unknown elements: ignored or refused by criticality |
| `IndexCodec.ListElementsAdd` | src/dag/edge-state-list.cpp:62-78 | repeated value elements accumulate, of keys the last counts |
| `IndexCodec.ForeignIndexBlockRefused` | src/dag/edge-state-list.cpp:58-60 | a block of another type is neither a list nor a map |
| `IndexCodec.MapNameCollides` | src/dag/payload-map.cpp:12-19 | map names collide exactly where digests do |
| `IndexCodec.DecodePayloadMap` | src/dag/payload-map.cpp:31-58 | the loop is the fold of its switch |
| `IndexCodec.PayloadMapRoundTrip` | src/dag/payload-map.cpp:21-58 | payload maps are read back as written |
| `IndexCodec.PayloadMapEvolves` | src/dag/payload-map.cpp:47-55 | unknown elements: ignored or refused by criticality |

## Assumptions

- Sync delivers a name at most with one content, and nobody publishes under, or points at,
  the names this instance has yet to publish (`LedgerSpec.Enabled`).
- A data packet is read off the front of a payload, and again from its own octets
  (`LedgerSpec.ReadsPacket`). Payloads and packets of one ledger do not collide under the
  digest (`LedgerSpec.NoCollision`).
- Edge states, state lists, payload maps and data packets live under disjoint names, so the
  one storage map is modelled as one map per kind.
- The order in which a set is walked is left open wherever only the set matters; an event
  carries the order that was used.

## Left out

- Record as an object with setters and its payload as a view into a shared buffer: records are values that own their payload, so the lifetime of that view is not captured.
- DagModule.DagModule.GetAncestors: the two 32-bit counters of the search are unbounded here; they differ only beyond 2^32 collected names.
- LedgerModule.LedgerModule.UpdateStatesTracker: the rewritten interlock time is not kept, nor is any other timestamp, so the branch that refuses to update is the same as the one that rewrites.
- LedgerModule.LedgerModule.OnQuery: names are answered, not the stored packets; a record packet missing from the sync store, which the code answers with a nack, is not modelled, and neither are forwarding hints and certificate-name checks.
- Pipeline.PipelineInterestsFixed.HandleData: a place of the window holds its fetcher's status rather than the fetcher object; retries inside a fetcher, which the pipeline does not see, are modelled by the fetcher class alone.
- Codec.DecodeEdgeState: the TLV library's own behaviour on malformed input is modelled as a refusal, non-shortest numbers and octets after a nested block included; fields the decoder leaves uninitialised start as zero, and a status number is kept as read.
- Consumer.Consumer.HandleData: validation is synchronous; a refused packet throws in the source, and how that unwinds the pipeline is left out, as is reuse of a consumer for a second run.
- Exact descendants for out-of-order delivery with unsafe harvests: false of the code; `DagTheorems.PruningLosslessIff` gives the condition.
- Producer.Producer.PopulateStore: what the loop does when one of its ints does not fit.
- Signing, validation, trust schemas, sync internals, faces, timers, sessions and logging.
- LevelDB storage and restart recovery; the waitlist is in memory only.
- The append protocol, checker, nack and error replies, configuration and tools.
- The legacy directory, which is not built.
