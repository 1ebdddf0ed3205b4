# AInonymous: a verified model of its core

AInonymous runs one language model on several machines. A coordinator drives the generation, each
node runs a range of layers and keeps the key-value cache of its own layers, sessions between nodes
are authorised by one-time tokens, tensors cross the wire quantised, chunked or in base64, and the
installed program updates itself from signed manifests. This project models these parts in Dafny and
proves what they promise; where the code falls short of a promise, it states by an if-and-only-if
when the promise holds.

Check everything with `dafny verify dfyconfig.toml`.

| Files | Part |
|---|---|
| `LayerSplit`, `LayerChain`, `TwoStageDriver` | inference split by layers: one node, chains of nodes, the comparison driver |
| `FaultyChain`, `FaultyRequests` | chains on which requests fail, and when their nodes still agree |
| `CausalLayers`, `Transformer` | models with attention: why a decode of many tokens verifies a draft; what any chain computes, position by position |
| `NativePositions` | the position counters of the native servers |
| `Speculative`, `SpeculativeReplies`, `ChainGeneration` | the generation loop: n-gram drafts, speculative acceptance, budget, end of sequence; what a pass makes of a reply; the loop over the chain |
| `Sessions` | one-time tokens under concurrency |
| `AgentRegistry`, `DiscoveryComplete`, `Negotiation` | validation and discovery, who is listed and how ranked; the key from its record to the connection |
| `Release`, `VersionNumbers`, `Installer` | manifests, version strings, the installer over a disk that may lose power at any step |
| `InstallerSafety`, `InstallerConditions`, `InstallerExamples` | crash safety and anti-replay; exactly when an install succeeds and what it leaves; concrete failures |
| `BitStrings`, `Base64`, `Base64Layout` | base64 against RFC 4648, as a bit string and character by character |
| `LittleEndian`, `TensorTransfer`, `WireLayout` | packing and chunking tensors; where each byte goes |
| `Quantise`, `QuantisedValues` | the quantisers, and their laws on the values alone |
| `Scheduler`, `SchedulerRules`, `Planner`, `Sorting` | choosing a peer, dividing layers and experts |

Conventions. A source loop over mutable variables is a method with a loop, an object with fields a
class; each is tied to a function, and the laws are lemmas about that function. The laws in
`Transformer`, `SpeculativeReplies`, `InstallerConditions`, `DiscoveryComplete`, `SchedulerRules`,
`WireLayout`, `Base64Layout` and `QuantisedValues` say what those functions compute in terms of their
inputs alone. Foreign code is a parameter: a layer is any function of its hidden states, its own cache
and the positions (in `CausalLayers` and `Transformer` an attention layer, whose output at a position
sees the cache up to it); hash, signature check, clock readings, random tokens, the second read of a
downloaded file and the rounding of ties are arguments. Floats are reals (finite `f32` values in
`Quantise`, no NaN anywhere).

## What the code does not promise as written

- **Speculative output is not classic output.** After a pass the last token is kept as `tok` and the
  loop head appends it again (conductor.rs:334, 384-392); the servers keep rejected drafts in their
  caches (pipeline_server.py:438-440). `GenerationIsDeployed` shows that the loop over any chain of nodes
  is exactly the loop `Deployed`, whose verifier answers greedily on everything fed, rejected drafts
  included. `SpeculativeIsClassicExactly` shows for which settings the two agree on every model (no
  drafts, or no room for more than one pass that ends the run); `CacheAgreesExactly` when the caches hold
  the accepted context, `RejectedDraftStays` a run where they do not. The loop the comments describe,
  which appends only fresh tokens and verifies on the accepted context, is `Intended`: it gives the
  classic output for every number of drafts.
- **A chain that falls silent is not always noticed.** If nothing arrives after the first token, the
  loop ends with an error unless one draft is made per pass: then it repeats that token until the budget
  is full. `SilentChainExactly`.
- **Reinstalling a recorded version is not crash safe.** The directory of a version string is deleted
  before the new one is renamed into place (lib.rs:438-442), also when `current` or `previous` names
  it. `CrashSafeExactly`: an install survives every power cut if and only if its version string is not
  one the state records.
- **A failed install does not always leave things as they were**, which its documentation promises
  (lib.rs:409-411): when the check of the copied file fails, the staging directory stays behind.
  `RefusedLeavesNothingExactly` says exactly when nothing changes, `FailedInstallLeavesStaging` gives an
  input on which something does; `RefusedInstall` bounds what may change.
- **A failed health check does not always roll back.** Without a predecessor, or with its file
  overwritten by the install, `rollback` fails and the call returns before the quarantine
  (lib.rs:475): `FailedHealthCheck`.
- **A quarantined version can be installed again**: `install` never reads the quarantine list
  (`QuarantineUnread`), so a version just quarantined is accepted under the next sequence number
  (`QuarantinedComesBack`).
- **A refused connection can destroy an offer**, exactly when the token was registered anew since the
  connection's snapshot: `LosesOfferExactly`. With tokens never reused it cannot.
- **The asymmetric quantiser** errs by at most half a step exactly when the range nearly reaches zero;
  a nearly constant tensor comes back as all zeros, whatever its value: `AsymmetricErrorExactly`.
- **One agent's record can fail discovery for everyone.** Validation lets an agent link its own heartbeat
  as its capabilities; reading it is an error that ends the whole call: `DiscoveryAnswersExactly`.
- **A Python node that fails part-way** leaves the nodes before it with longer caches:
  `AgreementKeptExactly` for one request, `AgreesExactly` for any run.
- **Native position counters** drift apart when a step stops part-way along the chain, until the next
  clear: `PositionsAgreeExactly`.
- **An empty tensor** packs but does not unpack, and a tensor without dimensions cannot be merged:
  `MergeSplitExactly`, with one of each in `ScalarAndEmptyAreLost`. A tensor sent in chunks is
  counted twice in `bytes_sent`: `Split`.
- **There are two tables of layer counts**, in the zome that plans the stages (inference-mesh
  lib.rs:350-358) and in the daemon (conductor.rs:760-768): they agree exactly on names with `31b` or
  `26b`, `TablesAgreeExactly`. The plan's last layers are inclusive, the ends a pipeline server takes
  exclusive: `ExclusiveEndsLose` says which layers are lost if the one is passed for the other.
- **Chunks can exceed the limit they are cut for** (activation_transfer.py:154): the rows are counted
  without the chunks' own headers. `WithinLimitExactly`, with an input in `ChunkOverLimit`.
- **`register` and `register_session`** treat an offer that expires this very millisecond differently
  (listener.rs:24, 69); both are modelled as they are.

## Model

| member | source | states |
|---|---|---|
| LayerSplit.PipelineServer.ReadOffset | scripts/pipeline_server.py:220-233 | the search for the first cached layer returns the offset of the specification, for any order of the cache's keys |
| LayerSplit.PipelineServer.RunLayers | scripts/pipeline_server.py:246-267 | the loop over the node's own layers computes the recursive pass: final hidden states and one new cache entry list per layer run |
| LayerSplit.PipelineServer.Prefill | scripts/pipeline_server.py:336-397 | new cache of the request and reply (or status 400), nothing else changes, every cached request still covers the node's layers at one length |
| LayerSplit.PipelineServer.Decode | scripts/pipeline_server.py:400-476 | as prefill, on top of the request's cache; 404 for an unknown request, 400 for no input; one token per position on the last node |
| LayerSplit.PipelineServer.Clear | scripts/pipeline_server.py:479-486 | removes exactly the request's cache |
| LayerSplit.SliceShape | scripts/pipeline_server.py:246-265 | a pass caches exactly the layers it runs, each longer by the positions given |
| LayerSplit.DecodeKeepsCache | scripts/pipeline_server.py:438-440 | merging a decode's caches keeps all cached layers of a node equally long |
| LayerChain.SliceSplits | scripts/pipeline_server.py:246-267 | running `[a, c)` is running `[a, b)` and then `[b, c)` on its output, hidden states and caches |
| LayerChain.NodeStep | scripts/pipeline_server.py:336-470 | one node of any cut, given the right hidden states, passes on the right hidden states and caches exactly its part of the whole model's cache |
| LayerChain.ForwardRefines | spike-pipeline/two_stage_driver.py:25-35 | a request handed along the rest of the chain ends in the whole model's answer and caches |
| LayerChain.ChainRefines | scripts/pipeline_server.py:336-486 | any prefill, decode or clear, refused ones included: a chain that agrees with the whole model answers as it does and still agrees |
| LayerChain.AnyCutIsOneNode | scripts/pipeline_server.py:204-267 | over every run of requests, any cut replies as a single node does; the nodes' caches are disjoint and together are the single node's cache |
| LayerChain.CacheLengths | scripts/pipeline_server.py:220-233 | after every run each cached layer on each node is as long as the tokens fed for its request, so the offset read from one layer is right for all |
| LayerChain.FedIsCounted | scripts/pipeline_server.py:438-440 | the positions the whole model uses are the tokens fed and not cleared, counted from the requests alone |
| TwoStageDriver.GenerateSingle | spike-pipeline/two_stage_driver.py:16-23 | the loop returns what driving the one-node chain gives and leaves its caches |
| TwoStageDriver.AskPair | spike-pipeline/two_stage_driver.py:28-31 | posting to node 0 and its hidden states to node 1 is one request to the two-node chain |
| TwoStageDriver.GenerateSplit | spike-pipeline/two_stage_driver.py:25-35 | the loop returns what driving the two-node chain gives; the positions moved are prompt length plus one per further token |
| TwoStageDriver.StageLocal | scripts/pipeline_server.py:336-470 | a prefill looks at no earlier cache, a decode at its own request's only |
| TwoStageDriver.SplitMatchesSingle | spike-pipeline/two_stage_driver.py:46-50 | for every split, prompt and length the two generations are equal, from any states of the single node and the pair and under any two request ids |
| TwoStageDriver.FirstDivergence | spike-pipeline/two_stage_driver.py:50-50 | the first index where two outputs differ, none exactly when one is a prefix of the other |
| TwoStageDriver.Compare | spike-pipeline/two_stage_driver.py:37-55 | the driver's whole comparison over three servers in any state, under the ids "ref" and "split": identical, no divergence, the positions moved; refused only for an empty prompt |
| FaultyChain.FaultyLengths | scripts/pipeline_server.py:369-397 | over any run in which requests may fail on any node, before or after storing their caches, every cached layer of a node has the length the events give for that node |
| FaultyChain.NoFaultIsForward | scripts/pipeline_server.py:400-476 | without faults this is the chain of the other results |
| FaultyChain.AgreementKeptExactly | scripts/pipeline_server.py:438-440 | from agreeing nodes a request leaves them agreeing if and only if it is refused, stored on none or on all of them, or a prefill as long as what was cached |
| FaultyChain.WholeStepsAgree | scripts/pipeline_server.py:438-476 | runs without a part-way failure keep all nodes at the same lengths |
| FaultyChain.PartWayDecodeDrifts | scripts/pipeline_server.py:473-476 | a decode that fails on the second of two nodes leaves lengths 3 and 2 |
| FaultyChain.FailureBeforeAndAfter | scripts/pipeline_server.py:438-476 | a decode that fails on the first of two nodes leaves lengths 3 and 2 if its caches were stored, and changes nothing if not |
| FaultyRequests.RequestRunIs | scripts/pipeline_server.py:336-476 | after any run with faults, one request's cache lengths on all nodes follow from the events with its id alone |
| FaultyRequests.EvenStepExactly | scripts/pipeline_server.py:336-476 | from any lengths, agreeing or not, a request leaves the nodes agreeing if and only if it clears, prefills all, reaches none or all of agreeing nodes, or brings some level with the others |
| FaultyRequests.AgreesExactly | scripts/pipeline_server.py:336-476 | after any run with faults all nodes hold a request alike if and only if, back through its events past those stored on no node and the decodes stored on all, there is none left, or a clear, or a prefill stored on all, or one that brings the nodes it reaches level with the rest |
| FaultyRequests.FreshRequestsAgreeExactly | crates/ainonymous-daemon/src/conductor.rs:301-301 | if a prefill stored part-way finds the request cached nowhere, as with an id of its own per generation: the nodes agree if and only if no event was stored part-way since the last clear or whole prefill |
| FaultyRequests.DriftHidden | scripts/pipeline_server.py:369-370 | without that a part-way prefill of the right length hides a drift: lengths 3 and 2 become 2 and 2 |
| CausalLayers.SliceFeeds | scripts/pipeline_server.py:246-267 | with attention layers a pass over two batches at once is a pass over the first and then over the second |
| CausalLayers.DecodeRemembers | scripts/pipeline_server.py:411-447 | a decode answers every position with the greedy token after all fed up to it, and leaves the cache of one pass over everything |
| CausalLayers.ChainPrefill | scripts/pipeline_server.py:336-397 | after any run of requests any chain of nodes answers a prefill with the model's greedy token after the prompt |
| CausalLayers.ChainIsGreedy | scripts/pipeline_server.py:411-447 | after any run of requests any chain of nodes answers a decode of one or many tokens with the model's greedy tokens |
| CausalLayers.BatchIsOneByOne | scripts/pipeline_server.py:411-440 | one decode of several tokens leaves every node's caches as decodes of one token each would |
| CausalLayers.AnswersOneByOne | scripts/pipeline_server.py:442-461 | and each of its answers is the one that token's own decode would get |
| CausalLayers.VerifierIsTheChain | crates/ainonymous-daemon/src/conductor.rs:342-353 | the greedy verifier of the generation loop answers what the chain of nodes replies, rejected drafts in its caches included |
| Transformer.ChainComputes | scripts/pipeline_server.py:336-476 | after any run, any cut answers a prefill with the head on the last position of the prompt, and each token of a decode with the head on its position, where a position's state is defined from the embeddings and attention layers alone |
| Transformer.ChainCaches | scripts/pipeline_server.py:246-265 | after any run the node that runs a layer caches for every position the layer's entry for the state that reached it, and exactly the requests fed and not cleared |
| Transformer.FirstLayerSees | scripts/pipeline_server.py:220-275 | the first layer's cache holds at `j` its entry for the embedding of the `j`-th token fed, at position `j` |
| Transformer.NoLayers | scripts/pipeline_server.py:369-461 | without layers any chain answers with the head on the embedding: of the last token of a prompt, of every token of a decode |
| Transformer.RefusedExactly | scripts/pipeline_server.py:346-434 | after any run a request is refused if and only if it has no tokens (400) or decodes an id not cached (404, first), and then no node changes |
| Transformer.DriverIsGreedy | spike-pipeline/two_stage_driver.py:16-35 | the driver's output is the greedy continuation of the prompt, each token the head on all before it, for any cut and whatever the nodes handled before |
| ChainGeneration.LoopIsRun | crates/ainonymous-daemon/src/conductor.rs:333-400 | from any loop head, asking the chain by one decode per pass computes what the loop over the greedy verifier does |
| ChainGeneration.GenerationIsDeployed | crates/ainonymous-daemon/src/conductor.rs:322-400 | the whole generation over any chain of nodes, whatever it handled before, is the deployed loop with the model's greedy verifier, for any number of drafts and any short answers |
| ChainGeneration.AnyCutGeneratesTheSame | crates/ainonymous-daemon/src/conductor.rs:322-400 | so the cut of the layers, the request id and the nodes' history do not show in what is generated |
| ChainGeneration.ChainGeneratesClassic | crates/ainonymous-daemon/src/conductor.rs:322-400 | without drafts, or with no room for a pass that does not end the run, any chain generates the greedy continuation of the prompt |
| NativePositions.NativeServer.Step | patches/llama-cpp-pipeline-split/pipeline_server.cpp:149-190 | the counter moves by the tokens of the step unless it fails before the advance |
| NativePositions.ForwardStep | patches/llama-cpp-pipeline-split/pipeline_server.cpp:192-227 | stepping the nodes in turn until one fails is the specification's step on their counters |
| NativePositions.PositionsAgreeExactly | patches/llama-cpp-pipeline-split/pipeline_server.cpp:179-187 | over any run of steps, faults and clears all counters agree exactly when no step with tokens stopped part-way since the last clear, and then equal the tokens fed |
| NativePositions.PartWayStepDrifts | patches/llama-cpp-pipeline-split/pipeline_server.cpp:165-179 | five tokens that reach the first of two nodes only leave the counters at 5 and 0 |
| NativePositions.FailureBeforeAndAfter | patches/llama-cpp-pipeline-split/pipeline_server.cpp:165-190 | five tokens on which the first of two nodes fails leave the counters at 5 and 0 after the advance, at 0 and 0 before it |
| Speculative.LatestSuccessorRule | crates/ainonymous-daemon/src/conductor.rs:485-490 | the draft's choice is the token after the latest occurrence that has a successor, else the token itself |
| Speculative.MakeNgramDraft | crates/ainonymous-daemon/src/conductor.rs:476-495 | the loop computes the draft, of length `k` unless the history is empty |
| Speculative.DraftRule | crates/ainonymous-daemon/src/conductor.rs:483-493 | every draft token is the latest successor of the one before it |
| Speculative.DraftFromHistory | crates/ainonymous-daemon/src/conductor.rs:476-495 | every draft token was generated before, so an EOS-free history drafts no EOS |
| Speculative.TakenMeaning | crates/ainonymous-daemon/src/conductor.rs:357-382 | a pass takes tokens up to and including the first that is a bonus, a correction, the end of sequence or the last with room, or all of a short answer |
| Speculative.AcceptPass | crates/ainonymous-daemon/src/conductor.rs:355-382 | the acceptance loop appends exactly the tokens taken, counts the confirmed drafts, and stops at EOS or a full budget |
| Speculative.SpeculativePass | crates/ainonymous-daemon/src/conductor.rs:342-393 | one pass and the token kept for the next round; the loop stops exactly when the last token is EOS or the budget is full |
| Speculative.Generate | crates/ainonymous-daemon/src/conductor.rs:322-400 | for any answers and any limit the loop terminates and computes the run function; the output is non-empty, within the budget, starts with the prefill's token, EOS only last |
| Speculative.PassBounds | crates/ainonymous-daemon/src/conductor.rs:342-393 | a pass never exceeds the budget, keeps EOS last, and accepted stays at most proposed |
| Speculative.RunBounds | crates/ainonymous-daemon/src/conductor.rs:333-400 | for every verifier and number of drafts: the output extends what was there, has at most `budget` tokens, EOS only last, accepted at most proposed |
| Speculative.PassIsGreedy | crates/ainonymous-daemon/src/conductor.rs:342-382 | over greedy answers a pass takes a non-empty prefix of the greedy continuation |
| SpeculativeReplies.PassTakes | crates/ainonymous-daemon/src/conductor.rs:342-393 | for every reply: the pass appends its first tokens, up to the first that is no confirmed draft, ends the sequence or fills the budget, at most `k + 1`; one draft is counted per token but a last one that is no draft's |
| SpeculativeReplies.FullReply | crates/ainonymous-daemon/src/conductor.rs:357-363 | a reply of more than `k` tokens that confirms the draft: draft and bonus token appended, `k` accepted |
| SpeculativeReplies.FirstMismatch | crates/ainonymous-daemon/src/conductor.rs:373-379 | a first contradiction at `i`: `i` drafts and the correction appended, `i` accepted |
| SpeculativeReplies.ShortReply | crates/ainonymous-daemon/src/conductor.rs:464-470 | a reply that breaks off while confirming: all of it appended and accepted |
| SpeculativeReplies.ConfirmedEnd | crates/ainonymous-daemon/src/conductor.rs:366-380 | a confirmed draft that ends the sequence or fills the budget is appended, accepted and ends the loop |
| SpeculativeReplies.ConfirmedCounts | crates/ainonymous-daemon/src/conductor.rs:366-369 | the drafts counted as accepted are those the answer repeats |
| SpeculativeReplies.SilentChainExactly | crates/ainonymous-daemon/src/conductor.rs:333-400 | if nothing arrives after the first token, the loop ends in an error if and only if that token is not the last and the drafts per pass are not exactly one; with one it repeats the token up to the budget |
| SpeculativeReplies.DefaultLimit | crates/ainonymous-daemon/src/conductor.rs:322-322 | a model that never ends is stopped after 512 tokens if the caller gives no limit, else after the limit |
| Speculative.ClassicRun | crates/ainonymous-daemon/src/conductor.rs:394-399 | the deployed loop without speculative passes is greedy decoding |
| Speculative.RepeatsAToken | crates/ainonymous-daemon/src/conductor.rs:384-392 | with room for a pass that does not end the run, a model and a prompt of three tokens on which the loop's output is not the classic one |
| Speculative.SpeculativeIsClassicExactly | crates/ainonymous-daemon/src/conductor.rs:333-400 | the deployed output is the classic one on every model and every prompt of two tokens or more if and only if `k == 0`, `budget <= k` or `budget <= 2` |
| Speculative.TakesAllExactly | crates/ainonymous-daemon/src/conductor.rs:357-382 | a pass takes the whole draft and the bonus token if and only if the answer confirms every draft, none is EOS, and there is room |
| Speculative.CacheAgreesExactly | scripts/pipeline_server.py:438-440 | after a pass the caches hold the accepted context if and only if the server's answer confirms the whole draft and brings a bonus token, no draft is EOS, and the room exceeds the draft |
| Speculative.RejectedDraftStays | scripts/pipeline_server.py:438-440 | a model and a prompt on which a rejected draft of any length `k` leaves the caches `k` tokens longer than the accepted context |
| Speculative.IntendedRunIsClassic | crates/ainonymous-daemon/src/conductor.rs:357-382 | appending only fresh tokens and verifying on the accepted context gives the classic output for every model, prompt, budget and `k` |
| Sessions.SessionRegistry.Register | crates/ainonymous-quic/src/listener.rs:22-28 | expired offers purged (one expiring now stays), the new offer under its token |
| Sessions.SessionRegistry.RegisterSession | crates/ainonymous-quic/src/listener.rs:62-73 | the same, an offer expiring now purged |
| Sessions.SessionRegistry.Snapshot | crates/ainonymous-quic/src/listener.rs:133-171 | the outcome of the first locked section and the key checks, the table untouched |
| Sessions.SessionRegistry.Consume | crates/ainonymous-quic/src/listener.rs:174-194 | the token is gone whatever the outcome; admitted only if unexpired and pinned to the presented key |
| Sessions.SessionRegistry.Accept | crates/ainonymous-quic/src/listener.rs:133-202 | alone, from the table and the clock: each refusal with its error and what it removes, or the admission of the offer registered, unexpired and pinned to the presented key, then consumed |
| Sessions.ReadToken | crates/ainonymous-quic/src/listener.rs:118-131 | chunks of any size fill the buffer with exactly the first 32 bytes, a shorter stream is an error |
| Sessions.StepOutcome | crates/ainonymous-quic/src/listener.rs:133-194 | the phase each step of a connection leads to, refusals with their error, from the table at that moment; the first step changes nothing, the others take the token |
| Sessions.RegistrationPurges | crates/ainonymous-quic/src/listener.rs:22-73 | a registration keeps exactly the unexpired offers, one expiring now under `register` only, and puts the new one under its token |
| Sessions.NextKeepsInv | crates/ainonymous-quic/src/listener.rs:133-195 | every atomic step of every connection and registration keeps the table, admission and connection invariants |
| Sessions.AtMostOnce | crates/ainonymous-quic/src/listener.rs:22-28 | in every interleaving each registration reaches a handler at most once, only for the offer's key, unexpired when removed |
| Sessions.LosesOfferExactly | crates/ainonymous-quic/src/listener.rs:146-150 | a refused connection removes an unexpired offer exactly when another one was put under the token since its snapshot and it is purging or has another key |
| Sessions.RefusalsHarmless | crates/ainonymous-quic/src/listener.rs:133-138 | with tokens never reused no refused connection removes an unexpired offer |
| Sessions.ReusedTokenLosesOffer | crates/ainonymous-quic/src/listener.rs:185-192 | a run, with 32-byte tokens and keys, after which a refused connection removes the second, unexpired offer of a reused token |
| Sessions.OfferWaits | crates/ainonymous-quic/src/listener.rs:138-194 | until it expires, a registered offer is on the table or has been handed over |
| Sessions.RightfulClientAdmitted | crates/ainonymous-quic/src/listener.rs:138-194 | after any number of other attempts the rightful client passes the snapshot and is admitted before expiry, unless the offer was already handed to that key |
| AgentRegistry.BuiltLinksValid | dnas/ainonymous-core/dnas/agent-registry/zomes/integrity/src/lib.rs:48-110 | in every store built from validated operations all links are valid |
| DiscoveryComplete.ValidatesExactly | dnas/ainonymous-core/dnas/agent-registry/zomes/integrity/src/lib.rs:48-165 | an operation is let through if and only if: a new entry within the ranges, an update or other action, a link of the author's own, or a deletion by the link's author |
| AgentRegistry.GetNodeCapabilities | dnas/ainonymous-core/dnas/agent-registry/zomes/coordinator/src/lib.rs:144-164 | the capabilities returned for an agent are in a record that agent authored; an own record of another entry type is an error |
| AgentRegistry.Describe | dnas/ainonymous-core/dnas/agent-registry/zomes/coordinator/src/lib.rs:82-128 | one discovery link gives a summary exactly when its agent has a recent heartbeat and capabilities; unreadable capabilities are an error |
| AgentRegistry.Collect | dnas/ainonymous-core/dnas/agent-registry/zomes/coordinator/src/lib.rs:81-127 | the loop gives the summaries of all links, or the first error |
| AgentRegistry.GetAvailableNodes | dnas/ainonymous-core/dnas/agent-registry/zomes/coordinator/src/lib.rs:73-136 | the error met on the way, or the summaries of the model's discovery links, no more and no less, highest score first |
| AgentRegistry.DiscoveryAnswersExactly | dnas/ainonymous-core/dnas/agent-registry/zomes/coordinator/src/lib.rs:110-159 | discovery for a model answers if and only if every advertised agent with a recent heartbeat links no other type of entry of its own as its capabilities |
| AgentRegistry.UnreadableCapabilities | dnas/ainonymous-core/dnas/agent-registry/zomes/coordinator/src/lib.rs:156-159 | a store of validated operations on which discovery for the model fails |
| AgentRegistry.DiscoveryIsHonest | dnas/ainonymous-core/dnas/agent-registry/zomes/coordinator/src/lib.rs:73-164 | over any validated store every summary is of an agent that advertised itself, with capabilities and a heartbeat that same agent authored, its link under 60 s old |
| DiscoveryComplete.CapabilitiesExactly | dnas/ainonymous-core/dnas/agent-registry/zomes/coordinator/src/lib.rs:144-164 | capabilities are read if and only if the agent's latest capability link (the last stored of equal timestamps) leads to capabilities it authored; an error if and only if it leads to a heartbeat it authored |
| DiscoveryComplete.HeartbeatExactly | dnas/ainonymous-core/dnas/agent-registry/zomes/coordinator/src/lib.rs:86-108 | a heartbeat counts if and only if the agent's latest heartbeat link is under 60,000 ms old and leads to a heartbeat |
| DiscoveryComplete.DiscoveryIsComplete | dnas/ainonymous-core/dnas/agent-registry/zomes/coordinator/src/lib.rs:81-127 | when discovery answers, its summaries are one for each discovery link of the model whose agent has both, in the order of the links, with the fields of those two entries, and no others |
| DiscoveryComplete.AnswersExactly | dnas/ainonymous-core/dnas/agent-registry/zomes/coordinator/src/lib.rs:110-159 | discovery answers if and only if no advertised agent with such a heartbeat has a heartbeat of its own as its latest capabilities |
| DiscoveryComplete.ScoreWeights | dnas/ainonymous-core/dnas/agent-registry/zomes/coordinator/src/lib.rs:166-171 | what each figure adds to the score, up to 80 GB and 8 slots; an idle node with all of it scores 100 |
| DiscoveryComplete.ScorePrefers | dnas/ainonymous-core/dnas/agent-registry/zomes/coordinator/src/lib.rs:166-171 | more load or memory pressure scores lower, more video memory or slots never lower; validated figures score between 0 and 100 |
| DiscoveryComplete.CreatedInRange | dnas/ainonymous-core/dnas/agent-registry/zomes/integrity/src/lib.rs:112-150 | in a store built without updates every capability and heartbeat record is within the validated ranges |
| DiscoveryComplete.ListedInRange | dnas/ainonymous-core/dnas/agent-registry/zomes/coordinator/src/lib.rs:110-123 | and every listed agent scores between 0 and 100 |
| DiscoveryComplete.LinksAreOwn | dnas/ainonymous-core/dnas/agent-registry/zomes/integrity/src/lib.rs:74-110 | in a validated store record links lead from their author to a record it authored, and discovery links advertise their author |
| DiscoveryComplete.OwnLinksStay | dnas/ainonymous-core/dnas/agent-registry/zomes/integrity/src/lib.rs:55-68 | a link stays in the store unless its author deletes links |
| Negotiation.HexBytes | dnas/ainonymous-core/dnas/inference-mesh/zomes/coordinator/src/lib.rs:516-524 | the loop computes the lower-case hexadecimal form |
| Negotiation.HexDigits | dnas/ainonymous-core/dnas/inference-mesh/zomes/coordinator/src/lib.rs:516-524 | byte `i` is the digits `2 * i` and `2 * i + 1` of `0123456789abcdef`, the high one first |
| Negotiation.HexMatches | dnas/ainonymous-core/dnas/inference-mesh/zomes/coordinator/src/lib.rs:77-77 | the comparison succeeds exactly when the field, in either case, stands for the supplied bytes |
| Negotiation.HexInjective | dnas/ainonymous-core/dnas/inference-mesh/zomes/coordinator/src/lib.rs:516-524 | no two keys have the same hexadecimal form |
| Negotiation.MeshZome.Negotiate | dnas/ainonymous-core/dnas/inference-mesh/zomes/coordinator/src/lib.rs:57-136 | the checks in order, each with its error and no effect; else one signal, one store entry and the reply |
| Negotiation.NegotiatedExactly | dnas/ainonymous-core/dnas/inference-mesh/zomes/coordinator/src/lib.rs:60-81 | success if and only if the supplied key has 32 bytes and is the one in the caller's authored record |
| Negotiation.OutputsAgree | dnas/ainonymous-core/dnas/inference-mesh/zomes/coordinator/src/lib.rs:83-135 | signal, store entry and reply agree: one token, of which the store sees the hash only, one requestor, endpoint, layer range and time to live; the key to pin is one this agent authored |
| Negotiation.NegotiatedOutputs | dnas/ainonymous-core/dnas/inference-mesh/zomes/coordinator/src/lib.rs:83-135 | request id, layers and successor are the input's, the lifetime 30 s; the endpoint is the one in this agent's own current capabilities if they name one, else the input's, and the key is theirs whenever there are any |
| Negotiation.RefusedExactly | dnas/ainonymous-core/dnas/inference-mesh/zomes/coordinator/src/lib.rs:60-81 | each refusal with the condition it is given under, on the key and the caller's current capabilities |
| Negotiation.HandedKeyIsAuthored | crates/ainonymous-daemon/src/conductor_client.rs:209-224 | in conductor mode every key handed to a handler is byte for byte the transport key authored by the agent that negotiated that token |
| Release.VerifyManifest | spike-release/src/lib.rs:225-313 | the checks in their order, each with its error, for any key, signature, state and clock |
| Release.FindArtifact | spike-release/src/lib.rs:140-146 | an artifact of that name, or an error exactly when there is none |
| Release.StagingIsNotAVersion | spike-release/src/lib.rs:425-430 | a staging directory's name never parses as a version |
| VersionNumbers.ParseU64Exactly | spike-release/src/lib.rs:208-211 | a part parses as `n` if and only if it is the decimal form of `n`, with any leading zeros and at most one plus sign, and `n` fits 64 bits |
| VersionNumbers.ParseVersionExactly | spike-release/src/lib.rs:203-213 | a string parses as a version if and only if it is three such numbers between dots |
| Installer.Updater.SaveState | spike-release/src/lib.rs:391-400 | three filesystem calls, after which `state.json` is the new state and no temporary file is left |
| Installer.Updater.Stage | spike-release/src/lib.rs:425-436 | the staging directory holds exactly the copied file, whatever an earlier cut left in it |
| Installer.Updater.Publish | spike-release/src/lib.rs:438-442 | the version's directory is the staged one, the staging directory gone, other directories unchanged |
| Installer.Updater.Install | spike-release/src/lib.rs:412-458 | result, filesystem calls and disk are those of the install plan, error paths included |
| Installer.Updater.Rollback | spike-release/src/lib.rs:485-497 | result, calls and disk of the rollback plan |
| Installer.Updater.InstallWithHealthCheck | spike-release/src/lib.rs:462-480 | result, calls and disk of install, rollback and quarantine, with the early return of a failed rollback |
| InstallerSafety.SaveCrash | spike-release/src/lib.rs:391-400 | a power cut anywhere in a save leaves the old state or the new one and every artifact |
| InstallerSafety.CrashSafe | spike-release/src/lib.rs:412-458 | a power cut anywhere in an install of an unrecorded version: old or new state, everything it names intact |
| InstallerSafety.ReinstallUnsafe | spike-release/src/lib.rs:438-442 | a recorded version string: a cut after the directory is deleted loses an artifact the state names |
| InstallerSafety.CrashSafeExactly | spike-release/src/lib.rs:412-458 | every power cut is survived if and only if the version string is not recorded |
| InstallerSafety.RetryAfterCrash | spike-release/src/lib.rs:424-457 | after a cut the same call succeeds again from the old state and is a replay from the new one |
| InstallerSafety.RunInv | spike-release/src/lib.rs:449-456 | in every state reachable by installs, rollbacks, health checks, decay and power cuts: installed version is current, previous not newer, sequences ordered, the last sequence never lower |
| InstallerSafety.NoReplay | spike-release/src/lib.rs:292-301 | accepted sequence numbers strictly increase, so no manifest is accepted twice |
| InstallerSafety.SuccessfulInstall | spike-release/src/lib.rs:444-457 | a successful install raises the sequence and keeps the old record as previous |
| InstallerConditions.InstallsExactly | spike-release/src/lib.rs:225-437 | an install succeeds, with this record, if and only if: trusted key, valid signature, schema 1, this target, a version and distinct plain artifacts, issued at most 300 s ahead, not expired, a new sequence, no downgrade, and both the download and the copy have the size and hash signed for the artifact of that name |
| InstallerConditions.RefusalsExactly | spike-release/src/lib.rs:225-313 | each error of the manifest check with the exact condition it is given under; nothing is written unless the download is the signed artifact |
| InstallerConditions.MismatchesExactly | spike-release/src/lib.rs:333-346 | size and hash errors, for the download first and then for the copy |
| InstallerConditions.InstallLeaves | spike-release/src/lib.rs:424-457 | the whole disk a successful install leaves: the copied file alone in the version's directory, no staging directory, the other directories as they were, every field of the state |
| InstallerConditions.RollbackExactly | spike-release/src/lib.rs:485-497 | a rollback succeeds if and only if there is a predecessor whose file is there with its size and hash; the whole disk it leaves |
| InstallerConditions.HealthExactly | spike-release/src/lib.rs:462-475 | the call with a health check succeeds if and only if the install does and the check passes |
| InstallerSafety.RefusedInstall | spike-release/src/lib.rs:425-442 | a failed install, cut anywhere, changes nothing outside its staging directory |
| InstallerSafety.RefusedLeavesNothingExactly | spike-release/src/lib.rs:409-437 | a failed install changes nothing at all if and only if it fails before the copy, or the staging directory it leaves was already there with that one file |
| InstallerExamples.FailedInstallLeavesStaging | spike-release/src/lib.rs:434-437 | on a fresh disk a copied file of the wrong size makes the install fail and leaves the disk changed |
| InstallerSafety.QuarantineUnread | spike-release/src/lib.rs:412-458 | whatever the quarantine list holds, the checks and the result of an install are the same |
| InstallerExamples.QuarantinedComesBack | spike-release/src/lib.rs:412-480 | a version whose health check has just failed, and is quarantined, installs again under the next sequence number |
| InstallerSafety.SecondRollbackFails | spike-release/src/lib.rs:485-497 | of two rollbacks in a row the second always fails |
| InstallerSafety.FailedHealthCheck | spike-release/src/lib.rs:462-480 | exactly when the predecessor survives: its record current again, the sequence still raised, the version quarantined; else the unhealthy version stays current and is not quarantined |
| InstallerExamples.ReinstallLosesArtifact | spike-release/src/lib.rs:438-442 | a disk with version 1.0.0 and a manifest for 1.0.0 anew: a power cut loses the installed artifact |
| InstallerExamples.FirstVersionStays | spike-release/src/lib.rs:475-478 | the first version ever fails its health check and stays current, not quarantined |
| InstallerSafety.RunCrashSafe | spike-release/src/lib.rs:391-497 | over any run without recorded version strings, with a cut inside any operation, everything the state names stays intact |
| Base64.Encode | patches/llama-cpp-pipeline-split/pipeline_server.cpp:47-73 | the group loop and its two remainders compute the encoding of RFC 4648 section 4 |
| Base64.BuildTable | patches/llama-cpp-pipeline-split/pipeline_server.cpp:76-82 | the table holds the inverse of the alphabet and -1 elsewhere |
| Base64.DigitArrives | patches/llama-cpp-pipeline-split/pipeline_server.cpp:85-94 | after every digit the accumulator's low bits are the pending bits, despite the wrap-around of `val` |
| Base64.Decode | patches/llama-cpp-pipeline-split/pipeline_server.cpp:75-96 | on every string: the digits up to the first `=`, foreign characters skipped, regrouped into whole bytes |
| Base64.RoundTrip | patches/llama-cpp-pipeline-split/pipeline_server.cpp:47-96 | decoding the encoding gives back every byte string |
| Base64Layout.GroupAt | patches/llama-cpp-pipeline-split/pipeline_server.cpp:53-61 | three bytes become the four characters of their 24 bits, by table 1 of RFC 4648 |
| Base64Layout.RestAt | patches/llama-cpp-pipeline-split/pipeline_server.cpp:62-72 | one byte left over becomes two characters and `==`, two become three and `=`; the length |
| Base64Layout.DecodeGroup | patches/llama-cpp-pipeline-split/pipeline_server.cpp:85-94 | four characters of the alphabet give three bytes, and the rest is decoded on its own |
| Base64Layout.DecodeRest | patches/llama-cpp-pipeline-split/pipeline_server.cpp:85-96 | what is left at the end gives a byte fewer than its characters, none for one |
| Base64Layout.DecodeIgnores | patches/llama-cpp-pipeline-split/pipeline_server.cpp:85-87 | a character outside the alphabet changes nothing wherever it stands, and nothing behind a `=` counts |
| LittleEndian.TokenIdsToBytes | crates/ainonymous-daemon/src/conductor.rs:537-543 | the loop computes the four little-endian bytes of each token |
| LittleEndian.TokensRoundTrip | crates/ainonymous-daemon/src/conductor.rs:750-757 | parsing the bytes of any tokens gives the tokens |
| LittleEndian.BytesRoundTrip | crates/ainonymous-daemon/src/conductor.rs:750-757 | the bytes come back from the parsed tokens exactly when their number is a multiple of four |
| WireLayout.TokenAt | crates/ainonymous-daemon/src/conductor.rs:537-543 | token `i` is the four bytes from `4 * i` on, lowest first, a negative one in two's complement |
| TensorTransfer.PackActivation | examples/pytorch/ainonymous_torch/activation_transfer.py:42-78 | header, dimensions and raw data, or the error of the first field that does not fit |
| TensorTransfer.UnpackActivation | examples/pytorch/ainonymous_torch/activation_transfer.py:81-124 | the reads in order, each with its failure |
| TensorTransfer.UnpackExactly | examples/pytorch/ainonymous_torch/activation_transfer.py:42-124 | bytes unpack to a tensor if and only if the tensor packs to them and has an element |
| WireLayout.PackedExactly | examples/pytorch/ainonymous_torch/activation_transfer.py:42-78 | a tensor packs if and only if its type has a number and its dimensions fit; the bytes: magic, type number, dimension count, each dimension, data |
| WireLayout.UnpackedFills | examples/pytorch/ainonymous_torch/activation_transfer.py:100-124 | what unpacks has the number of bytes its type and dimensions call for |
| WireLayout.UnpackFailsExactly | examples/pytorch/ainonymous_torch/activation_transfer.py:96-113 | each failure of the reads with the exact bytes it is given for |
| TensorTransfer.ActivationTransfer.Pack | examples/pytorch/ainonymous_torch/activation_transfer.py:144-147 | the packed bytes, counted as sent only when packing succeeds |
| TensorTransfer.ActivationTransfer.Unpack | examples/pytorch/ainonymous_torch/activation_transfer.py:149-151 | the unpacked tensor, the bytes counted even when unpacking fails |
| TensorTransfer.ActivationTransfer.Split | examples/pytorch/ainonymous_torch/activation_transfer.py:153-161 | one chunk within the limit, else chunks of rows; the exact bytes counted |
| TensorTransfer.ActivationTransfer.Merge | examples/pytorch/ainonymous_torch/activation_transfer.py:163-168 | the first failing chunk's error or the concatenation; the exact bytes counted |
| TensorTransfer.CatSlices | examples/pytorch/ainonymous_torch/activation_transfer.py:159-168 | concatenating the row slices of any size gives the rows back |
| TensorTransfer.MergeSplitExactly | examples/pytorch/ainonymous_torch/activation_transfer.py:153-168 | merging what was split gives the tensor back if and only if it has a dimension and an element, for every limit |
| TensorTransfer.ScalarAndEmptyAreLost | examples/pytorch/ainonymous_torch/activation_transfer.py:153-168 | the scalar 7 and an empty tensor pack, but are not given back, whatever the limit |
| TensorTransfer.ChunkSizes | examples/pytorch/ainonymous_torch/activation_transfer.py:153-161 | every chunk is smaller than the limit and one header, unless it is a single row |
| WireLayout.ChunkAt | examples/pytorch/ainonymous_torch/activation_transfer.py:158-161 | chunk `k` packs the rows from `k * rows` on, with `rows` the limit's share of all rows, at least one; no chunk beyond the last row |
| WireLayout.WithinLimitExactly | examples/pytorch/ainonymous_torch/activation_transfer.py:153-161 | all chunks are within the limit, as documented, if and only if the header and the rows of one chunk are |
| WireLayout.ChunkOverLimit | examples/pytorch/ainonymous_torch/activation_transfer.py:158-161 | a tensor of a hundred bytes split for a limit of 12 gives a chunk of 20 |
| WireLayout.CatExactly | examples/pytorch/ainonymous_torch/activation_transfer.py:163-168 | tensors are concatenated if and only if they have one type, a dimension and rows of one shape; the result has all their rows in order |
| WireLayout.MergesAll | examples/pytorch/ainonymous_torch/activation_transfer.py:163-168 | chunks that all unpack are concatenated in order, all their bytes counted |
| WireLayout.MergeFails | examples/pytorch/ainonymous_torch/activation_transfer.py:163-168 | the first chunk that does not unpack ends the merge with its error, the bytes up to and including it counted |
| Quantise.ScanBlocks | crates/ainonymous-quic/src/transfer.rs:274-299 | the scan in blocks of eight with a scalar rest finds the plain scan's minimum and maximum |
| Quantise.Extremes | crates/ainonymous-quic/src/transfer.rs:274-299 | these are the least and the greatest element |
| Quantise.QuantizeToI8 | crates/ainonymous-quic/src/transfer.rs:266-332 | vector and scalar part together give one level per value and the scale |
| Quantise.LevelIsNearest | crates/ainonymous-quic/src/transfer.rs:315-330 | every level lies in [-127, 127] and is nearest to the scaled value, whichever part computed it |
| Quantise.SymmetricError | crates/ainonymous-quic/src/transfer.rs:266-337 | the round trip errs by at most half the scale; a tensor within 1e-8 of zero becomes zero |
| QuantisedValues.SignedValues | crates/ainonymous-quic/src/transfer.rs:266-332 | values all below 1e-8 give zeros of scale one; else 127 steps are the largest magnitude, and each level times the scale is within half a step of its value |
| Quantise.Requantise | crates/ainonymous-quic/src/transfer.rs:266-337 | the dequantised tensor is a tensor of floats, and quantising it again gives the same levels and scale, for any tie-breaking |
| Quantise.QuantizeToU8 | crates/ainonymous-quic/src/transfer.rs:342-373 | the levels, the scale and the zero point, empty and nearly constant tensors included |
| QuantisedValues.UnsignedValues | crates/ainonymous-quic/src/transfer.rs:342-373 | values less than 1e-8 apart give 128 throughout; else 255 steps are the spread, and zero point and levels are the nearest in steps, kept between 0 and 255 |
| Quantise.ConstantError | crates/ainonymous-quic/src/transfer.rs:359-362 | a nearly constant tensor comes back as all zeros |
| Quantise.FarFromZero | crates/ainonymous-quic/src/transfer.rs:342-380 | of the values 10 and 11 one comes back more than half a step off |
| Quantise.AsymmetricErrorExactly | crates/ainonymous-quic/src/transfer.rs:342-380 | every value survives to within half a step if and only if the range comes within half a step of zero on both sides (or a nearly constant tensor within one half of zero) |
| Scheduler.BestLinkIs | crates/hybridnode-core/src/topology.rs:90-95 | a lowest-latency link to the site, or none exactly when none leads there |
| Scheduler.CanTransferMeans | crates/hybridnode-core/src/topology.rs:43-46 | a transfer is within the budget exactly when the link has bandwidth and carries the activation's megabits in the time its latency leaves |
| Sorting.SortIs | crates/hybridnode-core/src/topology.rs:79-87 | sorted by the comparison, the same elements |
| Sorting.SortStable | dnas/ainonymous-core/dnas/agent-registry/zomes/coordinator/src/lib.rs:129-135 | elements that compare equal keep their order |
| Scheduler.ScheduleLocalFirst | crates/hybridnode-core/src/scheduler.rs:60-104 | the best local holder, else the first remote one the loop finds |
| Scheduler.ScheduleExactly | crates/hybridnode-core/src/scheduler.rs:50-185 | each strategy answers if and only if some unwarranted holder meets its rule, with a best such peer and its latency |
| SchedulerRules.ReachExactly | crates/hybridnode-core/src/topology.rs:90-95 | what is known of a peer: 1 ms and 25,000 Mbps if local, else latency and bandwidth of the first of the links with the lowest latency |
| SchedulerRules.IdBeforeExactly | crates/hybridnode-core/src/scheduler.rs:167-167 | ids are in byte order: a prefix first, else by the first difference |
| SchedulerRules.ScheduleRules | crates/hybridnode-core/src/scheduler.rs:50-185 | for each strategy, on peers and links alone: when there is an answer, that it may serve, that none that may is better by latency, bandwidth, id or reputation, and the latency reported, 50 ms if none is known |
| Scheduler.RaisingTheBudget | crates/hybridnode-core/src/scheduler.rs:50-185 | raising the latency budget never turns an answer into none |
| Scheduler.AnyOrder | crates/hybridnode-core/src/scheduler.rs:50-185 | whatever the order of the peer map, the answers are equally good |
| Planner.TilesExactly | dnas/ainonymous-core/dnas/inference-mesh/zomes/coordinator/src/lib.rs:300-327 | the stages tile the layers 0 to total - 1, only the final one last, if and only if there is a layer for each of at most four stages |
| Planner.ExpertsPartitioned | dnas/ainonymous-core/dnas/inference-mesh/zomes/coordinator/src/lib.rs:329-348 | each of the 64 experts is on exactly one node, shares differ by at most one, the stages in the order of the nodes |
| Planner.SplitPlansTile | dnas/ainonymous-core/dnas/inference-mesh/zomes/coordinator/src/lib.rs:255-276 | for every model name a split plan leaves no layer out, runs none twice, and uses the nodes in order |
| Planner.PlanExactly | dnas/ainonymous-core/dnas/inference-mesh/zomes/coordinator/src/lib.rs:256-276 | which kind of plan is made, and each entry of it: agent, endpoint (empty if unknown), layers in equal shares rounded down with the rest on the last, experts by remainder, trunk |
| Planner.LayerTables | dnas/ainonymous-core/dnas/inference-mesh/zomes/coordinator/src/lib.rs:350-361 | the layer counts of both tables by what the name contains, the first match winning |
| Planner.PlanIsCut | dnas/ainonymous-core/dnas/inference-mesh/zomes/coordinator/src/lib.rs:300-327 | the boundaries of a plan for a model's layers are a cut in the sense of `LayerChain`, so run by half-open ranges the stages compute what one node does |
| Planner.ExclusiveEndsLose | dnas/ainonymous-core/dnas/inference-mesh/zomes/coordinator/src/lib.rs:311-315 | with the inclusive last layers taken for exclusive ends, exactly the last layer of every stage is run nowhere |
| Planner.TablesAgreeExactly | crates/ainonymous-daemon/src/conductor.rs:760-768 | the zome's and the daemon's table give a model the same number of layers if and only if its name contains `31b` or `26b` |
| Planner.TablesDisagree | crates/ainonymous-daemon/src/conductor.rs:764-764 | for `e4b` the one says 32 layers, the other 18 |

## Left out

- TLS, X.509, Ed25519, SHA-256, zstd, JSON: foreign libraries. Keys are bytes, the hash and the signature check are arbitrary functions, JSON is lossless.
- QUIC streams, HTTP, tokio tasks, the conductor's WebSocket: only the atomic steps on shared state are modelled.
- The float16 cast of hidden states (scripts/pipeline_server.py:188-197): the wire is taken as lossless, which is exact for the native F32 path only.
- Stale tokens: tokens are sent one stream per token (crates/ainonymous-daemon/src/conductor.rs:697-708) but read from one stream (459-470); in `Server` each pass sees a prefix of its own answer, of any length of at least one.
- Text pieces and detokenisation of the generation loop, and the 32-bit width of its counters.
- The relay chain of `handle_pipeline_session`: it hands on one next hop; `LayerChain` covers the meaning.
- Prompts of one token in the Rust worker, which take the decode path (crates/ainonymous-daemon/src/conductor.rs:568, 594).
- The overflow of `now + 300` in the manifest check and of expiry times (`u64`).
- Filesystem failures other than a power cut or an unreadable artifact; the order in which a disk makes writes durable (a rename is atomic, calls take effect in order).
- Updates of registry entries, which validation lets through unchecked: modelled as such; `DiscoveryIsHonest` is about authorship, not about plausible values.
- The writes of `announce_capabilities`, `heartbeat` and `update_quic_endpoint` one by one: discovery is proved over any validated operations, theirs included.
- Region anchors, metrics, the blackboard zome, warrants and DNA genesis checks: straight-line checks or cryptography.
- Failures of the zome host itself (random bytes, clock, signals, writing an entry), and requests a node handles at the same time: one request is one step.
- Infinities and NaN in the quantisers and the scheduler; negative activation sizes in `CanTransferWithin`.
- AnyOrder: says the answers are equally good, not equal, because `min_by` and `max_by` pick among equals by map order.
- TensorTransfer.Cat: chunks of different element types are an error in the model, where the library would promote them.
- UnpackActivation: a buffer without data is an error as the library's `frombuffer` makes it; device placement is not modelled.
- The reason strings of scheduling decisions; a persistent round-robin cursor, which the source does not have either.
- Model loading, GPU detection, tokenisers, the CLI, the proxy, the visualiser and the mobile spikes.
