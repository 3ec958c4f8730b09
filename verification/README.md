# A verified model of the Feed lab's data plane

The repository simulates a short-video and POI Feed end to end: items get semantic codes and are retrieved by constrained
beam search, impressions and later events are joined into training examples, features are packed into 64-bit ids, a
versioned parameter server takes asynchronous updates, a stateful environment plays users against a recall cascade, and
launch statistics are computed from running sums. This project models the deterministic logic of those parts and proves
what they promise. `dafny verify dfyconfig.toml` checks everything.

What is foreign stays a parameter about which nothing, or only what is said here, is assumed: cluster labels, similarities,
decoder log-probabilities, digests (any function to the naturals), time decay (positive), the sigmoid, square roots
(positive on positive arguments), route scores, the coarse model, behaviour probabilities, random draws and policies. The
selection behind the cascade's `_top` is any function that returns top-k positions in descending order. Floats are `real`.

| files | part |
|---|---|
| `Outcomes`, `Seqs`, `Sorting`, `Lex`, `Dedup`, `Ranks`, `Samples`, `Bits`, `Text` | shared vocabulary: stable sort, first-wins deduplication, ranks, sample moments, word arithmetic, numerals |
| `SemanticIds`, `Beam`, `Retriever`, `LearnedRetriever`, `Session` | semantic ids and generative retrieval |
| `Fid`, `Schema` | feature ids and the feature registry |
| `TrainingJoiner`, `PixelAttribution`, `PixelFinality`, `FunnelJoiner`, `ViewerStream`, `PoiSamples` | event-time joins and keyed stream state |
| `ParameterServer`, `Trainer`, `Workers` | exactly-once updates under bounded staleness |
| `Cascade`, `FeedEnvironment`, `Trajectories`, `Population`, `RequestDataset` | the simulated Feed and the dataset built from it |
| `Assignment`, `ClusterStatistics`, `LtExchange` | assignment and launch statistics |

The main results, hardest first:

- A beam of any width retrieves exactly the head of the fully sorted catalogue, because a prefix scores as the best item
  below it and ties break on the code (`Beam.TopHasTopParent`, `Retriever.Retrieve`). Where prefixes score otherwise, each
  round of a beam of any width still keeps the best children (`Beam.BeamRound`, `LearnedRetriever.Retrieve`).
- The numeric-tensor mixer is a permutation of the 48- or 54-bit signatures, so ids within a slot and namespace collide
  exactly when the raw values agree modulo the signature space (`Fid.MixThenUnmix`, `Fid.TensorFidsUnpack`).
- Over every interleaving of workers, every parameter is minus the sum of the accepted steps, every accepted gradient was
  computed from the server's own parameters at most `max_staleness` versions back, and no id counts twice
  (`Workers.EveryRunKeepsInvariant`).
- Finality: training examples are a literal prefix of any later join; POI samples and mature funnel labels other than the pixel's
  never change;
  a viewer snapshot is frozen exactly when its time lies before the watermark less the lateness.
- In every simulated trajectory, for every policy and all draws, no item repeats within 33 exposures and the totals add up;
  serving all users in lockstep gives each the trajectory they would have had alone (`Population.RunPopulation`); and the
  request dataset built from such a run never fails to validate and closes: key-aligned tables, one exposure a request,
  live stage counters adding up to the requests (`RequestDataset.SimulateDataset`).
- Streaming creator statistics equal the batch ones for any split, and the mean and variance rebuilt from six running
  moments are the sample mean and variance at every exchange rate.

One promise is false of the code. The funnel joiner turns a `pixel_conversion` mask on once its window and lateness have
passed, but the label stays open in two ways. The pixel's own cut-off is the join's watermark, so a conversion received
afterwards still counts (`FunnelJoiner.MaturePixelLabelChanges`). And clicks carry no receive time at all, so one that
arrives afterwards takes part of a credit already given, with no pixel admitted (`FunnelJoiner.LateClickChangesLabel`).
Against arbitrary arrivals the label is never final (`FunnelJoiner.PixelLabelNeverFinal`). What holds is:

- when the new clicks move no on-time pixel's credit to or from the decision, the label stays exactly if no pixel
  crediting the decision is admitted in between (`FunnelJoiner.PixelLabelFinalIff`);
- when no pixel crediting the decision is admitted and the new clicks belong to other decisions, the label never rises, and
  stays exactly if the clicks reroute no on-time pixel that credits it (`FunnelJoiner.LateClicksFinalIff`); a pixel is
  rerouted when it names no known click and either shares its identity's credit with an eligible new click or turns out to
  name a new click, which switches the identity fallback off (`PixelFinality.ReroutesExactly`);
- for any growth, it stays if no arriving click reaches an on-time pixel and no pixel crediting the decision is admitted
  (`FunnelJoiner.PixelLabelKept`).

Where clicks and pixels arrive together their effects can cancel (`FunnelJoiner.PixelLabelMayCancel`), so neither
condition is necessary there. Every other task's label is final (`FunnelJoiner.MatureLabelIsFinal`).

## Model

| member | source | states |
|---|---|---|
| SemanticIds.Fit | fid_lab/generative/semantic_ids.py:21-49 | for any cluster labels, fitting fails exactly on misaligned or repeated item ids, or on no items with a level to cluster, and otherwise gives equal-length, pairwise distinct codes: each row's labels followed by the number of smaller ids that share them |
| SemanticIds.CodedIsWellFormed | fid_lab/generative/semantic_ids.py:41-49 | collision suffixes make codes unique, one for each item |
| SemanticIds.RowCodeInjective | fid_lab/generative/semantic_ids.py:46-48 | two items never share a code, whatever their labels |
| SemanticIds.GroupRows | fid_lab/generative/semantic_ids.py:42-44 | the dictionary lists, for every label prefix, exactly the rows that have it, once each |
| SemanticIds.ItemForCodeInverts | fid_lab/generative/semantic_ids.py:51-52 | looking a code up gives the item whose code it is, and None exactly for codes of no item |
| SemanticIds.ValidNextTokensCorrect | fid_lab/generative/semantic_ids.py:54-60 | the valid next tokens are, ascending, exactly the labels of the trie's edges at the prefix |
| Retriever.PrefixScoreIsBest | fid_lab/generative/retriever.py:27-34 | a prefix's score is attained by an item below it and exceeded by none; there is no score exactly when nothing is below |
| Retriever.PrefixScoreBestBelow | fid_lab/generative/retriever.py:27-34 | some child of a prefix keeps its score and no child exceeds it |
| Beam.BetterCount | fid_lab/generative/retriever.py:36-45 | a parent prefix ranks no further back at its level than its child at the next: better prefixes inject into better children |
| Beam.TopHasTopParent | fid_lab/generative/retriever.py:36-45 | whatever is in the top n of one level has its parent in the top n of the level above |
| Beam.RoundKeepsExact | fid_lab/generative/retriever.py:38-45 | one expand-sort-cut round keeps a beam equal to the head of the ranking of all prefixes, whatever its width |
| Retriever.Search | fid_lab/generative/retriever.py:36-45 | after all levels the beam is the head of the ranking of all codes |
| Retriever.Retrieve | fid_lab/generative/retriever.py:36-51 | for every index, similarity, limit and beam size the result is the first min(limit, beam size) items of the catalogue sorted by (-similarity, code): of two items the earlier is more similar, or equally similar with the smaller token where their codes first differ; it fails exactly on an empty code table |
| Lex.LessMeans | fid_lab/generative/retriever.py:45 | a code precedes another exactly when, where the two first differ, it ends or has the smaller token |
| LearnedRetriever.FromIndex | fid_lab/evolution/models/generative.py:20-29 | it fails exactly on an empty table; each level's size is one more than its largest token, and the token ranges lie end to end from 1 |
| LearnedRetriever.RangeInside | fid_lab/evolution/models/generative.py:20-29 | every level's range lies inside [1, total tokens) |
| LearnedRetriever.EncodeInjective | fid_lab/evolution/models/generative.py:31-32 | model tokens lie in [1, total tokens) and name one level and token, so encoding is injective on codes |
| LearnedRetriever.Search | fid_lab/evolution/models/generative.py:109-117 | for every width the beam is what the rounds keep one after the other; it holds distinct codes of the index with their joint log-probabilities, and is the exact head when it has room for every code |
| Beam.BeamRound | fid_lab/evolution/models/generative.py:115-117 | under any scoring and at any width a round keeps children of the beams, as many as there is room for, in order, and no child left out is more likely than one kept, nor equally likely with the smaller token at the first difference |
| LearnedRetriever.Retrieve | fid_lab/evolution/models/generative.py:105-123 | the items of the last round's beam, in its order, cut to the limit, at any width; distinct, in non-increasing joint log-probability with ties by code; with room for every code, the exact ranking |
| Beam.WideRoundKeepsExact | fid_lab/evolution/models/generative.py:115-117 | under any scoring a round keeps a beam exact if it has room for all codes |
| Session.GreedyRespectsCaps | fid_lab/evolution/models/generative.py:144-160 | a session keeps to size, author cap and category cap and to the candidates' order |
| Session.SkippedOnlyWhenFull | fid_lab/evolution/models/generative.py:150-156 | a candidate the loop reached and skipped found a cap used up by candidates ranked before it |
| Session.Select | fid_lab/evolution/models/generative.py:145-160 | the loop over two count dictionaries computes that greedy selection |
| Session.Generate | fid_lab/evolution/models/generative.py:137-160 | the session is the greedy selection from the items of the last beam of width 10 * size, up to 5 * size of them |
| Fid.PackThenUnpack | fid_lab/fid.py:45-63 | packing succeeds exactly on an in-range slot and a non-negative signature, and unpacking gives back the slot and the signature's low bits, with the reserved bit clear |
| Fid.UnpackThenPack | fid_lab/fid.py:45-63 | unpacking succeeds exactly on words of the layout and its parts pack back into the same word |
| Fid.ConversionKeepsLowBits | fid_lab/fid.py:97-102 | conversion from V1 keeps the slot and the low 48 signature bits |
| Fid.MixThenUnmix | fid_lab/fid.py:87-95 | the xor, shift and multiply chain modulo 2^64 can be undone: it recovers the raw id modulo 2^bits |
| Fid.UnmixThenMix | fid_lab/fid.py:87-95 | every signature is reached, so the mixer is a permutation |
| Fid.MixCollides | fid_lab/fid.py:87-95 | two raw ids share a signature exactly when they agree modulo 2^bits |
| Fid.TensorFidsUnpack | fid_lab/fid.py:74-95 | tensor encoding fails exactly on a bad slot or dtype; every id, read as a 64-bit word, unpacks to its slot and mixed signature, and two are equal exactly when the raw ids agree modulo 2^bits; as the signed integer it is, it unpacks exactly under V2 or a slot below 512 |
| Fid.PayloadSeparates | fid_lab/fid.py:65-69 | what is digested tells namespaces and values apart as long as no namespace holds the separator |
| Fid.SaltSeparates | fid_lab/fid.py:87 | what a tensor's salt is digested from tells all slots and namespaces apart |
| Bits.XorShiftInvertible | fid_lab/fid.py:89-94 | the shift-xor step permutes the words of any width |
| Text.SplitJoin | fid_lab/schema.py:50-54 | a parser recovers the components of the length-prefixed joined string, for all strings |
| Text.JoinInjective | fid_lab/schema.py:50-54 | different component lists never share a joined string |
| Schema.NewRegistryIsValid | fid_lab/schema.py:33-42 | the registry accepts exactly the spec lists without repeated names or slots |
| Schema.RawValueSeparatesRows | fid_lab/schema.py:50-54 | raw values are equal exactly when the rows agree on all of the spec's sources |
| Schema.EncodeRow | fid_lab/schema.py:56-82 | encoding succeeds exactly when every field is there and every slot fits; each id unpacks to its spec's slot, the ids are pairwise distinct and every bucket is below its count |
| Dedup.Deduplicate | fid_lab/evolution/data/joiner.py:102-109 | the dictionary loop keeps first occurrences in order and counts the rest |
| Dedup.FirstWinsMembers | fid_lab/evolution/data/joiner.py:102-109 | what survives is exactly what no earlier event shares its identity with |
| Dedup.FirstWinsCorrect | fid_lab/evolution/data/joiner.py:102-109 | one survivor for every identity |
| Dedup.FirstWinsAppend | fid_lab/training/joiner.py:57-61 | appending to the log only appends survivors |
| TrainingJoiner.Build | fid_lab/training/joiner.py:49-103 | the join fails exactly on repeated impression keys; otherwise its examples are those of the closed impressions in time order and the counters are what they say |
| TrainingJoiner.LabelMeans | fid_lab/training/joiner.py:31-47 | an example's label is one exactly if the log's first event of some id is the impression's, has the task's name, a positive value, falls into the window and was received before the watermark and the end of the lateness |
| TrainingJoiner.WeightMeans | fid_lab/training/joiner.py:86-89 | the sample weight times the propensity is one, unless clipped |
| TrainingJoiner.ClosedExampleIsFinal | fid_lab/training/joiner.py:31-47 | a closed impression's example ignores everything received after the watermark |
| TrainingJoiner.ClosedPrefix | fid_lab/training/joiner.py:72-75 | in time order, impressions closing later come later |
| TrainingJoiner.ExamplesAreAppendOnly | fid_lab/training/joiner.py:49-103 | with actions received later and impressions closing later, the earlier examples are a literal prefix of the later ones |
| PixelAttribution.SharesSumToOne | fid_lab/evolution/data/joiner.py:146-155 | a matched pixel's shares over its eligible clicks are positive and add up to one |
| PixelAttribution.CreditClicks | fid_lab/evolution/data/joiner.py:146-155 | the inner loop adds exactly each click's share to its key |
| PixelAttribution.IndexClicks | fid_lab/evolution/data/joiner.py:117-121 | the two dictionaries find every click by id and list those of an identity at a merchant in order |
| PixelAttribution.FindEligible | fid_lab/evolution/data/joiner.py:129-145 | looking a pixel up in them gives its eligible clicks, and tells when it lacks an identity |
| PixelAttribution.SharesFollowAges | fid_lab/evolution/data/joiner.py:149-155 | two clicks share in the ratio of the decays of their ages, so the newer never gets less where decay falls with age |
| PixelAttribution.Attribute | fid_lab/evolution/data/joiner.py:111-164 | every pixel is late, orphaned or matched, identity misses are orphans, the weights are the pixels' credits and total the matched pixels exactly |
| PixelAttribution.WeightsOverKeys | fid_lab/evolution/data/joiner.py:151-164 | over any distinct keys the weights never exceed the matched pixels, and reach them exactly when every credited key is listed |
| PixelFinality.WeightStable | fid_lab/evolution/data/joiner.py:111-164 | under a fixed click log a key's weight never falls at a later watermark, and is the same exactly when no pixel crediting it is admitted in between |
| PixelFinality.EligibleGrown | fid_lab/evolution/data/joiner.py:128-145 | a pixel's eligible clicks in a log that grew by clicks of new ids: those it had if it named a known click, the one it names if that arrived, else those it had and those that arrived |
| PixelFinality.ReroutesExactly | fid_lab/evolution/data/joiner.py:128-145 | the check on the arriving clicks that says exactly when a pixel's eligible clicks change |
| PixelFinality.SettledWeight | fid_lab/evolution/data/joiner.py:111-164 | under growth by clicks and pixels whose clicks settle the on-time pixels, the weight stays exactly when no pixel crediting the key is admitted |
| PixelFinality.OthersDiluteWeight | fid_lab/evolution/data/joiner.py:128-155 | clicks of other keys only lower a key's weight, and leave it exactly when they reroute no on-time pixel that credits it |
| PixelFinality.WeightKept | fid_lab/evolution/data/joiner.py:111-164 | for any growth: clicks that reach no on-time pixel and pixels that do not credit the key leave its weight |
| FunnelJoiner.LabelDecision | fid_lab/evolution/data/joiner.py:166-192 | the task loop computes every label, mask and the number of open tasks |
| FunnelJoiner.ActionEffect | fid_lab/evolution/data/joiner.py:182-190 | a new action adds its value to the label of the task it is named after exactly if its key is the decision's, its time lies in the task's window and it is received within the lateness; every other behaviour label stays |
| FunnelJoiner.CommerceEffect | fid_lab/evolution/data/joiner.py:182-190 | a new commerce event adds one under the same conditions |
| FunnelJoiner.RepeatedActionEffect | fid_lab/evolution/data/joiner.py:102-109 | an action whose id the log has changes no label |
| FunnelJoiner.NoEventsNoLabels | fid_lab/evolution/data/joiner.py:182-190 | without events every behaviour label is zero |
| FunnelJoiner.SampleWeightMeans | fid_lab/evolution/data/joiner.py:266-280 | a fine example's weight times its sampling probability is one from 0.05 on, and is twenty below |
| FunnelJoiner.Build | fid_lab/evolution/data/joiner.py:194-297 | one coarse example per decision and one fine example per exposed one, labelled from the deduplicated log; the counters are what they say; pixel labels total at most the matched pixels, and all of them exactly when every credited click belongs to a decision |
| FunnelJoiner.CreditOverDecisions | fid_lab/evolution/data/joiner.py:223-246 | conservation of pixel credit over the decisions |
| FunnelJoiner.MatureLabelIsFinal | fid_lab/evolution/data/joiner.py:166-192 | for every task but the pixel's, a mask once on and its label stay, however the log grows by later arrivals |
| FunnelJoiner.PixelLabelFinalIff | fid_lab/evolution/data/joiner.py:111-130 | while arriving clicks move no on-time pixel's credit to or from the decision, the pixel label stays exactly when no pixel crediting the decision is admitted later |
| FunnelJoiner.LateClicksFinalIff | fid_lab/evolution/data/joiner.py:125-155 | while arriving clicks belong to other decisions and no crediting pixel is admitted, the pixel label never rises and stays exactly when no on-time pixel crediting the decision is rerouted |
| FunnelJoiner.PixelLabelKept | fid_lab/evolution/data/joiner.py:111-155 | for any growth, a check on the arriving clicks and pixels under which the pixel label stays |
| FunnelJoiner.PixelLabelNeverFinal | fid_lab/evolution/data/joiner.py:111-155 | for every log, decision and watermark some later click and pixel raise the pixel label |
| FunnelJoiner.LateClickChangesLabel | fid_lab/evolution/data/joiner.py:128-155 | a concrete log on which a late click alone lowers a mature pixel label |
| FunnelJoiner.PixelLabelMayCancel | fid_lab/evolution/data/joiner.py:111-155 | a concrete log on which a late click and a late pixel both change credit and the label still stays |
| FunnelJoiner.MaturePixelLabelChanges | fid_lab/evolution/data/joiner.py:176-191 | a concrete log on which a mature pixel label changes |
| ViewerStream.ViewerFeatureOperator.Ingest | fid_lab/poi_feed/streaming.py:38-48 | one event's effect on histories, ids and counters |
| ViewerStream.ViewerFeatureOperator.SnapshotOf | fid_lab/poi_feed/streaming.py:50-62 | the loops over the stored history compute the snapshot as the specification defines it, for known and unknown viewers |
| ViewerStream.SnapshotMeans | fid_lab/poi_feed/streaming.py:50-62 | in terms of the events a run accepted: the counts are the viewer's events of the hour and of the week up to the snapshot's time, and the sequences are the categories and actions of the latest 64 up to it, each earlier than the next or at one time with the id that is smaller at the first difference |
| ViewerStream.RunKeepsValid | fid_lab/poi_feed/streaming.py:38-48 | in every reachable state histories are strictly sorted by (event time, id), accepted + late is the number of distinct ids, and all arrivals are accounted for |
| ViewerStream.RunIsSortedAccepted | fid_lab/poi_feed/streaming.py:38-48 | each history is the sort of that viewer's accepted events |
| ViewerStream.HistoriesInOrder | fid_lab/poi_feed/streaming.py:46-47 | in every reachable state each event of a history is earlier than the next, or at one time has the id that is smaller at the first different character |
| ViewerStream.SameAcceptedSameState | fid_lab/poi_feed/streaming.py:38-62 | runs accepting the same events, in any order and under any watermarks, give the same histories and snapshots |
| ViewerStream.OrderDoesNotMatter | fid_lab/poi_feed/streaming.py:38-62 | any permutation of the same distinct on-time events gives the same histories and snapshots at every time |
| ViewerStream.SnapshotFrozen | fid_lab/poi_feed/streaming.py:38-62 | a snapshot further back than the lateness no longer changes |
| ViewerStream.FrozenExactly | fid_lab/poi_feed/streaming.py:38-62 | a snapshot is frozen against everything still to come exactly when its time lies before the watermark less the lateness |
| PoiSamples.Build | fid_lab/poi_feed/samples.py:31-97 | the examples are those of the anchored, matured impressions in log order with the counters; it fails exactly when one of them has fewer than seven base features |
| PoiSamples.LabelMeans | fid_lab/poi_feed/samples.py:60-75 | a label is one exactly if the log's first action of some id is the impression's, has the task's name, falls into the task's window and was received within the lateness |
| PoiSamples.ExampleMeans | fid_lab/poi_feed/samples.py:76-94 | dense features and sequence come from a snapshot that summarizes the events the operator accepted |
| PoiSamples.DenseMeans | fid_lab/poi_feed/samples.py:77-81 | feature 5 is the viewer's events of the week in fiftieths up to one, feature 6 tells whether the impression's category is among the last eight, the others are the impression's |
| PoiSamples.SequenceMeans | fid_lab/poi_feed/contracts.py:64-72 | the tensor ends with the latest 24 events in order and starts with zero rows |
| PoiSamples.LabelsAreFinal | fid_lab/poi_feed/samples.py:62-75 | a matured impression's labels ignore actions received later |
| PoiSamples.ExampleIsFinal | fid_lab/poi_feed/samples.py:54-94 | an emitted example's labels, dense features and sequence survive any later ingests and actions |
| PoiSamples.ExamplesOnlyGrow | fid_lab/poi_feed/samples.py:31-97 | joining again later only adds examples |
| ParameterServer.VersionedParameterServer.TakeSnapshot | fid_lab/training/parameter_server.py:41-42 | a snapshot is a fresh copy of version, weights and bias |
| ParameterServer.VersionedParameterServer.Apply | fid_lab/training/parameter_server.py:44-64 | the outcome, and the whole new state: a descent step in place when applied, nothing otherwise |
| Workers.EveryRunKeepsInvariant | fid_lab/training/parameter_server.py:41-64 | over every interleaving of snapshot, compute and deliver, with retries and duplicates: parameters, version, ids, honesty and staleness of every accepted gradient, and old snapshots |
| Workers.LogSoundMeans | fid_lab/training/parameter_server.py:52-55 | at each log position: a new id, at most max_staleness versions late, computed from the parameters of its base version |
| Workers.VersionCountsIds | fid_lab/training/parameter_server.py:62-63 | the version is the number of distinct applied ids |
| Workers.ParamsAreSums | fid_lab/training/parameter_server.py:60-61 | each weight and bias is minus the sum of learning rate times gradient over the applied updates |
| Workers.HistoryOnlyGrows | fid_lab/training/parameter_server.py:41-64 | accepted updates stay in order, and a snapshot nobody retakes stays as it was |
| Workers.RetriesChangeNothing | fid_lab/training/parameter_server.py:52-55 | handing in an applied id again, or a gradient too stale, changes nothing |
| Trainer.Vectorize | fid_lab/training/trainer.py:30-35 | the in-place loop counts the fields hashed to each entry |
| Trainer.VectorSumsToFields | fid_lab/training/trainer.py:30-35 | hashing loses no field: the entries sum to the number of fields |
| Trainer.TrainMicrobatch | fid_lab/training/trainer.py:44-72 | one micro-batch is the descent step on the server's own parameters, applied exactly when its id is new and zero staleness is allowed; a single example's step moves every task's score towards its label: down exactly if the prediction is above it, up exactly if it is below; it fails exactly on an empty or unlabelled batch and then changes nothing |
| Trainer.TrainingHelps | fid_lab/training/trainer.py:55-59 | that movement, for the gradient of one example with positive weight and rate |
| Trainer.GradientIsSum | fid_lab/training/trainer.py:56-59 | before the division by the normalizer a batch's gradient is the sum of its examples' |
| Trainer.NormalizerIsMax | fid_lab/training/trainer.py:57 | the normalizer is the larger of one and the batch's weight |
| Cascade.SomeTop | fid_lab/simulation/cascade.py:60-64 | sorting all positions stably is one admissible top selection, so the selectors quantified over exist |
| Cascade.RouteHitsDistinct | fid_lab/simulation/cascade.py:127-131 | every route's hit list is free of repeats |
| Cascade.RouteHitsAreBest | fid_lab/simulation/cascade.py:60-64 | a route hits as many items as its limit allows, best first, none scoring below one it leaves out |
| Cascade.MergeRoutes | fid_lab/simulation/cascade.py:135-145 | the merge loops hold exactly the unseen items some route hit, each with the sum of weight / (20 + position) over the routes that hit it, and those routes in order |
| Cascade.RecalledCorrect | fid_lab/simulation/cascade.py:146-147 | the recalled items are distinct, unseen, sorted by (-score, id), as many as the limit allows, and rank before every candidate left out |
| Cascade.SurvivorsAreTop | fid_lab/simulation/cascade.py:180-182 | coarse survivors are distinct recalled items, as many as asked for, none scoring below one dropped |
| Cascade.Recall | fid_lab/simulation/cascade.py:133-202 | the imperative recall computes that batch, and fails exactly when nothing is recalled |
| FeedEnvironment.ResponseIsFunnel | fid_lab/simulation/environment.py:372-422 | for every draw a response is a funnel: each stage only within the one before, payment and pixel exclusive |
| FeedEnvironment.ResponseGrows | fid_lab/simulation/environment.py:372-422 | under the same draws nothing that raises the probabilities takes a behaviour away |
| FeedEnvironment.StatefulFeedEnv.constructor | fid_lab/simulation/environment.py:109-145 | the state of a user before the first recall |
| FeedEnvironment.StatefulFeedEnv.RefreshCandidates | fid_lab/simulation/environment.py:159-170 | recall against the bounded history; it fails exactly when the batch cannot fill the observation |
| FeedEnvironment.StatefulFeedEnv.CloseSession | fid_lab/simulation/environment.py:463-485 | whether the session ends, the user returns or the run ends, and the next session's state |
| FeedEnvironment.StatefulFeedEnv.Step | fid_lab/simulation/environment.py:424-502 | the whole step: response, history, mood, session and fresh candidates |
| FeedEnvironment.StepKeepsBounded | fid_lab/simulation/environment.py:444-485 | every step keeps satisfaction in [-1, 1], fatigue in [0, 1] and the three histories within 32, 8 and 8 |
| FeedEnvironment.MoodFollowsResponse | fid_lab/simulation/environment.py:434-447 | more engagement never lowers satisfaction and negative feedback never raises it |
| FeedEnvironment.LeavingFollowsMood | fid_lab/simulation/environment.py:465-469 | under the same draws and a non-decreasing sigmoid, whoever ends a session would also end it less satisfied or more tired |
| FeedEnvironment.ReturningFollowsMood | fid_lab/simulation/environment.py:473-477 | and whoever returns would also return more satisfied, more trusting or less tired |
| FeedEnvironment.LeavingThresholds | fid_lab/simulation/environment.py:465-469 | the draws at which a neutral, a half satisfied, a half dissatisfied and a tired user leave |
| FeedEnvironment.ReturningThresholds | fid_lab/simulation/environment.py:473-477 | and at which users with and without trust return |
| Trajectories.Accumulator.Record | fid_lab/simulation/population.py:160-248 | the running counters stay the counts and sums over the recorded exposures |
| Trajectories.ViewTotals | fid_lab/simulation/population.py:227-233 | plays = three-second plays + slides, high-quality within long within plays within rows, stay = 60 * minutes |
| Trajectories.AnchorTotals | fid_lab/simulation/population.py:238-242 | paid orders and poi favorites within details within clicks within impressions within rows |
| Trajectories.ValueTotals | fid_lab/value/container.py:23-36 | the value total is the sum of its components and equals watched minutes plus five for each return |
| Population.StepStaysInRange | fid_lab/simulation/environment.py:454-485 | every step that does not end the run uses up part of max_sessions * requests_per_session |
| Population.TrajectoryIsSound | fid_lab/simulation/environment.py:424-502 | in every trajectory any 33 consecutive items are distinct, across sessions, the run ends within its budget, sessions stay within the maximum and every logged batch closes |
| Population.TrajectoryTotals | fid_lab/simulation/population.py:160-248 | sessions = returns + 1 within the maximum, and the conservation laws of the totals, for every policy and all draws |
| Population.RunPopulation | fid_lab/simulation/population.py:251-291 | the lockstep run fails exactly when some user's solo run would, gives every user the totals of the solo run, and ends within the request budget in rounds |
| Ranks.ComputeRanks | fid_lab/evolution/data/request_dataset.py:27-33 | the scatter writes one more than the number of positions ahead by (-score, index) |
| Ranks.RanksOrder | fid_lab/evolution/data/request_dataset.py:27-33 | ranks are 1..n, each once, in the order by (-score, index) |
| RequestDataset.CandidateIds | fid_lab/evolution/data/request_dataset.py:93-124 | records list the recalled ids in order, pass exactly the fine ids, expose exactly the shown item and never change rank in the mix |
| RequestDataset.RowRecords | fid_lab/evolution/data/request_dataset.py:143-159 | the records of one request from computed ranks |
| RequestDataset.CandidateMeans | fid_lab/evolution/data/request_dataset.py:93-124 | a record's recall and coarse values are those at its place in recall, its fine features, scores and rank those at its place among the fine candidates, absent without one, and its filter reason is none, fine or coarse by exposure and membership |
| RequestDataset.LabelMeans | fid_lab/evolution/data/request_dataset.py:127-140 | a label record carries exactly the labels and masks the joiner made for its request, candidate and poi, zeros and false without any, and long-term value only on the exposed candidate with an example: its minutes and five for a return |
| RequestDataset.RequestCloses | fid_lab/evolution/data/request_dataset.py:36-59 | a valid request with distinct ids gives recall_count key-aligned candidate and label records, coarse_count passes and exactly one exposure |
| RequestDataset.AttributionMeans | fid_lab/evolution/data/request_dataset.py:162-177 | the attribution names the stage that lost the corpus's best item, and never the mix stage |
| RequestDataset.StagesAddUp | fid_lab/evolution/data/request_dataset.py:190-209 | the stage counters sum to the requests and the mix counter is zero |
| RequestDataset.Build | fid_lab/evolution/data/request_dataset.py:180-210 | building fails exactly when some row does not validate; otherwise the tables hold all rows' records in order, every label record carries what the joiner made for its key, each history is the last 24 strictly earlier exposures' first eight features, and the counters count the stages |
| RequestDataset.ImpressionTimesOrder | fid_lab/evolution/data/contracts.py:143-148 | impression times are ordered by user, session and request, ten seconds to a request |
| RequestDataset.SimulatedRowsValidate | fid_lab/simulation/population.py:187-222 | every exposure of every simulated trajectory validates with distinct ids at both stages |
| RequestDataset.TablesClose | fid_lab/evolution/data/request_dataset.py:180-210 | over any requests that close, the tables are key-aligned with sum-of-recall_count rows, sum-of-coarse_count passes and one exposure a request |
| RequestDataset.SimulateDataset | fid_lab/evolution/data/request_dataset_cli.py:35-46 | the dataset of a population run fails exactly when some user's simulation does; otherwise its tables close and the four live counters add up to the number of requests |
| Assignment.MixThenUnmix | fid_lab/simulation/experimentation/assignment.py:33-42 | the 31-bit assignment mixer can be undone |
| Assignment.UnmixThenMix | fid_lab/simulation/experimentation/assignment.py:33-42 | and reaches every bucket |
| Assignment.ExactlyHalf | fid_lab/simulation/experimentation/assignment.py:33-42 | of any 2^31 consecutive ids exactly 2^30 are treated, for creators and for the user bucket alike |
| Assignment.UserBucketInverse | fid_lab/feed_loop/scale/lt_exchange.py:16-17 | the user bucket is a permutation modulo 2^31 |
| ClusterStatistics.CreatorClusterAccumulator.Add | fid_lab/launches/statistics.py:32-43 | after any batches the tensors hold the per-creator counts and sums over all requests |
| ClusterStatistics.CreatorClusterAccumulator.ReportMetric | fid_lab/launches/statistics.py:45-60 | the streamed report is the two estimators over creator means, creators ascending |
| ClusterStatistics.ClusterMeans | fid_lab/launches/statistics.py:86-95 | scatter-adding by inverse index gives each cluster's mean, clusters ascending |
| ClusterStatistics.ClusterMetrics | fid_lab/launches/statistics.py:98-137 | the batch metrics; the ids of the two arms always align |
| ClusterStatistics.StreamedIsBatch | fid_lab/launches/statistics.py:32-60 | for any split into batches streaming and batch reports agree, and both are the report by definition on the concatenated requests |
| ClusterStatistics.PairedEffect | fid_lab/launches/statistics.py:63-83 | the paired effect is the difference of the two means |
| ClusterStatistics.PairedInterval | fid_lab/launches/statistics.py:63-83 | the interval is centred on the effect, 1.96 standard errors to either side, and the relative effect is in units of the control mean |
| ClusterStatistics.PairedSwap | fid_lab/launches/statistics.py:63-83 | exchanging the arms negates the effect, mirrors the interval and keeps standard error and p-value |
| ClusterStatistics.RandomizedMeans | fid_lab/launches/statistics.py:112-137 | the randomized report compares the treated clusters' treatment mean with the others' control mean, with the two-sample standard error and its interval |
| ClusterStatistics.ArmIs | fid_lab/launches/statistics.py:118-120 | an arm holds the values of exactly its clusters, in order |
| ClusterStatistics.ArmsSplit | fid_lab/launches/statistics.py:140-145 | every cluster falls into exactly one arm |
| LtExchange.Accumulate | fid_lab/feed_loop/scale/lt_exchange.py:15-35 | in whatever chunks users come, the table holds the six moments of both cells over all of them |
| LtExchange.Render | fid_lab/feed_loop/scale/lt_exchange.py:38-58 | from two users on, the rendered cell is the means, variances and covariance by definition |
| Samples.CovarianceFromSums | fid_lab/feed_loop/scale/lt_exchange.py:38-58 | the running-sum formula is the sum of products of deviations over n - 1 |
| LtExchange.RebuiltIsSample | fid_lab/feed_loop/scale/lt_exchange.py:75-88 | at every rate the rebuilt mean and variance are the sample mean and variance of the users' values, so the clamp at zero never acts |
| LtExchange.EstimateIsTwoSample | fid_lab/feed_loop/scale/lt_exchange.py:89-94 | lift and standard error are those of the two-sample comparison of the users' values |
| LtExchange.EstimateInterval | fid_lab/feed_loop/scale/lt_exchange.py:87-94 | the interval is centred on the lift, 1.96 standard errors to either side; the relative lift is in units of the control mean and missing exactly next to zero |
| LtExchange.EstimateSwap | fid_lab/feed_loop/scale/lt_exchange.py:87-94 | exchanging the cells negates the lift, mirrors the interval and keeps standard error and p-value |
| LtExchange.BaseRateIsValue | fid_lab/feed_loop/scale/lt_exchange.py:19-22 | at the base rate a user's value is the long-term value, at rate zero that without accepted commercialization |
| LtExchange.CellsAre | fid_lab/feed_loop/scale/lt_exchange.py:16-17 | the treatment cell is the lower half of the user buckets, the control cell the rest |
| LtExchange.LiftIsAffine | fid_lab/feed_loop/scale/queue_value_cli.py:90-113 | the lift is affine in the rate, and zero at the reported break-even rate and nowhere else |
| LtExchange.Combine | fid_lab/feed_loop/scale/lt_exchange.py:61-126 | one estimate for each rate |

## Left out

- Foreign numerics: clustering, neural decoders and losses, probability formulas, catalogue generation, rounding, GPU
  behaviour. Undefined floats (not a number, infinities) appear as None where the code would produce them.
- I/O around content hashes: JSON and Parquet output, release manifests, charts, command lines.
- Launch gates, config validators, ledgers, tensor cascades and the online pipeline; `tensor_runtime/state.py` and the
  online stages are not part of this model.
- Negative limits and beam sizes of the retrievers, which Python slices count from the end.
- Fid.TensorFidsUnpack: a V1 slot of 512 or more is taken to wrap around as a 64-bit scalar; a tensor runtime that refuses
  such a scalar is not modelled.
- FunnelJoiner.PixelLabelFinalIff: exact for growth whose clicks settle, as FunnelJoiner.LateClicksFinalIff is for clicks of
  other decisions; when clicks and pixels that both move the decision's credit arrive together, changes may cancel and only
  the comparison of the two sums itself is exact.
- Session.Generate: author and category lookups are total.
- Schema.RawValueSeparatesRows: a field is its `str` rendering, so different objects with one rendering agree.
- FeedEnvironment.StatefulFeedEnv.constructor: trust, city, propensities and search topic are folded into functions of the
  user.
- ClusterStatistics.CreatorClusterAccumulator.ReportMetric: like ClusterStatistics.ClusterMetrics, with a single cluster in an arm the whole report is None, though its means are finite.
- LtExchange.Render: a one-user cell is None as a whole, though its means are finite.
- The funnel joiner's recall examples and mixed negative sampling, and pass-through fields and version strings of the
  example records.
- The cascade's oracle scores and corpus oracle (they enter the request dataset as parameters), route-specific scores, and
  the configuration errors for unknown routes and models.
- Population runs: policy scores are taken row by row, so a policy whose batch scores depend on the other rows is out; the
  business value tree of the accumulators is out; so are the observation features beyond the check that they can be built.
- Trainer.TrainMicrobatch: the reported mean loss is out.
- RequestDataset.Build: author and poi lookups are total, and the label table is given as a map from keys.
- ClusterStatistics.StreamedIsBatch: a creator id outside the tensors, which the scatter refuses, is excluded.
- LtExchange.EstimateIsTwoSample: the known effects, which only subtract two reported metrics, and the pooled variants are
  out.
- Estimator names and interval dictionaries are plain fields.
