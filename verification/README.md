# Social-listening analytics: models and proofs

This project models, in Dafny, the parts of the analytics service whose correctness rests on state,
graphs, offsets or interleavings rather than on a single branch, and proves what those parts promise.
`dafny verify dfyconfig.toml` checks everything.

## What is modelled

| modules | subject |
|---|---|
| `Connectivity`, `UnionFinds` | chains of edges, root maps, and the two union-finds (recursive with path compression, iterative with path halving), each a class over its real `parent` dict with a ghost root map and a ghost rank |
| `DedupModel`, `DedupNear`, `DedupService`, `DedupTheorems`, `DedupOrder`, `DedupAnnotations`, `DedupRecords` | exact and near-duplicate clustering: shingles, MinHash, banding, joining, cluster records, weights, annotations, independence of the input order, and what clusters and counters say in terms of shared shingles and words |
| `CrisisRuntime` | the crisis status apply of several pods over a shared Redis record and a `SET NX EX` lock, as a step relation |
| `PublishOrder`, `Publisher`, `PublisherSteps`, `PublisherOrder` | the required three-topic order, the buffering publisher as a class, the same publisher as a step relation in which flushes and appends interleave, and which interleavings keep the order of documents |
| `TopicDiscovery`, `TopicClusters`, `TopicEnricher` | clustering of documents by shared top tokens, and the cascade of rules, seeds and clustering that gives every mention a topic |
| `Lexis`, `Boundaries`, `Segmenter`, `Anchors` | cutting a text into segments and reporting anchors found inside a segment in coordinates of the full text |
| `ResponseCache`, `PostsWindow` | the TTL cache of bounded size and the pages of posts cut from a cached window |
| `PhobertBatch`, `BatchEnricher` | batched inference and batched enrichment against one-by-one work; the result objects are updated in place |
| `CrisisScorer` | thresholds rewritten by a configuration, and the three-signal crisis level |
| `Basics`, `Texts`, `Rounding`, `Sorting`, `Grouping`, `Permutations` | shared notions: splitting and ordering strings, round-half-even, stable sorting, grouping into a dict of lists, reordered lists |

Objects that the service updates in place are classes with `modifies` clauses; loops that fill dicts and
lists are loops here, proved against functions or predicates on values, about which the lemmas speak.
Protocols are functions from a state and an enabled step to the next state, with theorems over every run.
What the deduplication theorems assume of cluster lists (`Analyzed`, `AllNamed`, `NearResult`) is what
`DedupService.Annotate` and `DedupService.NearClusters` establish for every batch.

Foreign code is a parameter: the digests, the tokenizer, case folding and the word-character class, the
PhoBERT model, the enrichment stages, the database and the clock. A float is a `real`; where the code
rounds, the rounding is modelled (`Rounding`).

## Findings

Places where the code does less than one would expect. Each has a lemma with the exact condition, or a
concrete input or run.

- Issue-pressure thresholds may cross: `issue_warning <= issue_critical` holds exactly when the effective
  warning growth is at most the effective critical growth or at most 15 percent
  (`CrisisScorer.IssueOrderedExactlyWhen`, `CrisisScorer.IssueThresholdsCanCross`), and `issue_watch` may exceed
  `issue_critical` too (`CrisisScorer.IssueWatchOrderedExactlyWhen`, `CrisisScorer.IssueWatchCanExceedCritical`).
- A page queried directly, past the end of the rows and outside the 240-row window, reports a total of 0
  (`PostsWindow.PageIsDirectSlice`, `PostsWindow.TotalLostPastTheEnd`).
- The question mark among the uncertainty cues fires exactly on texts that hold nothing but boundaries, spaces
  and commas, with a question mark that touches no word; on every other text it is a hard boundary and is cut
  out of all segments (`Anchors.QuestionMarkFiresExactlyWhen`, `Anchors.QuestionMarkCueIsDead`). It fires on "?" and
  not on "ok?" (`Anchors.BareQuestionMarkFires`, `Anchors.QuestionDoesNotFire`).
- Equal topic keys do not mean one cluster: two clusters get one key exactly when the first three of their top
  terms, sorted and joined, are the same text (`TopicDiscovery.KeysEqualExactlyWhen`).  Documents that share no
  more than one token are never joined, so two that say the same single word, or none, are two clusters under one
  key (`TopicDiscovery.OneTokenDocumentsShareKey`, `TopicDiscovery.SameWordTwice`).
- One record on which the sentiment analysis raises takes the sentiment from every record of its batch. Every
  record keeps the sentiment it would get alone exactly when the analysis raises on none of the participating
  records, or on all of them (`BatchEnricher.SentimentsAreOwnExactlyWhen`); the batch then comes to its records
  enriched one by one, and otherwise only if no record's outcome depends on its sentiment
  (`BatchEnricher.RecordByRecordExactlyWhen`). `BatchEnricher.OneBadRecordInTwo` shows two records that come out
  differently together and apart.
- An entry just put into the response cache can be evicted by its own insertion: while it has not expired, a new
  key stays exactly when fewer than the maximal number of live entries expire after it
  (`ResponseCache.NewEntrySurvivesExactlyWhen`, `ResponseCache.Cache.Set`; for every entry and all ties
  `ResponseCache.SurvivesExactlyWhen`; a 10-second page among 120-second ones in `PostsWindow.EmptyPageIsDropped`).
- If a critical section reaches the 45 seconds of its lock, the same crisis status can be applied twice in a row
  (`CrisisRuntime.OverrunBreaksSpacing`). A bound on the length of critical sections rules this out exactly when
  it is at most 45 seconds (`CrisisRuntime.SpacedExactlyWhen`), so a request timeout can be compared with it.
- When flushes overlap, documents may be completed out of order, though none is lost
  (`PublisherSteps.OverlapReorders`).  The order holds all along a run exactly when flushes complete oldest first
  and fail youngest first (`PublisherOrder.PublisherOrderExactlyWhen`).

## Model

| member | source | states |
|---|---|---|
| UnionFinds.CompressingUnionFind.constructor | internal/dedup/usecase/annotate_dedup.py:24-25 | every item starts as its own root |
| UnionFinds.CompressingUnionFind.SetDefault | internal/dedup/usecase/annotate_dedup.py:28 | an unseen item is entered as its own root; nobody else's root changes |
| UnionFinds.CompressingUnionFind.Find | internal/dedup/usecase/annotate_dedup.py:27-31 | recursion ends on every forest; the answer is the item's root and path compression changes no item's root |
| UnionFinds.CompressingUnionFind.Compress | internal/dedup/usecase/annotate_dedup.py:30 | redirecting one parent pointer to the root keeps the forest and all roots |
| UnionFinds.CompressingUnionFind.Union | internal/dedup/usecase/annotate_dedup.py:33-37 | exactly the two classes are merged, under the left root; every other item keeps its root |
| UnionFinds.HalvingUnionFind.Find | internal/enrichment/usecase/topic_enricher.py:202-206 | the halving loop ends and returns the root; roots are unchanged |
| UnionFinds.HalvingUnionFind.Halve | internal/enrichment/usecase/topic_enricher.py:203-205 | one round points the item at its grandparent, within its tree and strictly nearer to the root |
| UnionFinds.HalvingUnionFind.Union | internal/enrichment/usecase/topic_enricher.py:208-211 | exactly the two classes are merged, under the right root |
| Connectivity.MergedRepresents | internal/dedup/usecase/annotate_dedup.py:33-37 | merging the classes of an edge's ends keeps "same root iff joined by a chain" for the graph with that edge |
| Connectivity.RedirectKeepsForest | internal/dedup/usecase/annotate_dedup.py:29-30 | pointing an item at a lower-ranked member of its own tree keeps the forest and every root |
| Connectivity.LinkMergesForest | internal/dedup/usecase/annotate_dedup.py:36-37 | hanging one root below another yields a forest again, with a new falling rank |
| DedupModel.NewConfig | internal/dedup/usecase/annotate_dedup.py:54-63 | each of the two counts is brought to the nearest admissible number (at least 8 permutations, between 1 and that many bands) and everything else is carried over, for any arguments |
| DedupModel.RepresentativeIsBest | internal/dedup/usecase/annotate_dedup.py:259-263 | the representative is a member; no member has a longer text, none of equal length a smaller depth, none of equal length and depth a smaller id |
| DedupModel.BestIsUnique | internal/dedup/usecase/annotate_dedup.py:259-263 | no two mentions with different ids tie, so the representative does not depend on the order |
| DedupModel.JaccardSymmetric | internal/dedup/usecase/annotate_dedup.py:251-257 | similarity does not depend on the order of its arguments |
| DedupModel.JaccardOfEqual | internal/dedup/usecase/annotate_dedup.py:251-257 | equal shingle sets have similarity exactly 1, after rounding |
| DedupModel.JaccardIsShare | internal/dedup/usecase/annotate_dedup.py:251-257 | the similarity is the number of common shingles over the number of all, to within half a ten-thousandth |
| DedupModel.SimilarExactlyWhen | internal/dedup/usecase/annotate_dedup.py:176-187 | reaching the threshold, in whole numbers of common and of all shingles, rounding and ties included |
| DedupModel.NineOfElevenIsNotEnough | internal/dedup/usecase/annotate_dedup.py:251-257 | at 0.82, ten common shingles of twelve are enough and nine of eleven are not |
| DedupModel.ShinglesAre | internal/dedup/usecase/annotate_dedup.py:219-232 | which windows of words or characters are the shingles of a text, in all three cases |
| DedupModel.NearTextsAre | internal/dedup/usecase/annotate_dedup.py:139-163 | a mention is a candidate iff it is in no exact cluster, long enough and has a shingle |
| DedupModel.Signature | internal/dedup/usecase/annotate_dedup.py:234-249 | each entry is the least slot value of its seed over the set |
| DedupModel.BandNonEmpty | internal/dedup/usecase/annotate_dedup.py:163-171 | the bands of a full signature are consecutive stretches of equal, positive length |
| DedupNear.LeastSlot | internal/dedup/usecase/annotate_dedup.py:234-249 | the running minimum is the least slot value, whatever order the set is walked in |
| DedupNear.MinhashSignature | internal/dedup/usecase/annotate_dedup.py:234-249 | the signature lists the least slot value of every seed and depends on the shingle set only |
| DedupNear.FillBuckets | internal/dedup/usecase/annotate_dedup.py:163-171 | each signature is entered once in the bucket of each of its bands, and buckets hold nothing else |
| DedupNear.JoinPair | internal/dedup/usecase/annotate_dedup.py:178-180 | a pair is joined iff its similarity reaches the threshold, and the classes stay the components of the joined pairs |
| DedupNear.JoinSimilarPairs | internal/dedup/usecase/annotate_dedup.py:176-187 | the double loop joins all similar pairs of its list and no others |
| DedupNear.JoinBuckets | internal/dedup/usecase/annotate_dedup.py:173-180 | all buckets of at least two and at most the maximal number of members are joined, in any order, and no others |
| DedupNear.BucketIsWhole | internal/dedup/usecase/annotate_dedup.py:163-171 | a bucket lists exactly the mentions whose band equals its key |
| DedupNear.FoundEdgesAreEdges | internal/dedup/usecase/annotate_dedup.py:163-187 | the pairs joined are exactly the similar pairs that share an acceptable bucket, or all similar pairs in a small batch |
| DedupNear.Unite | internal/dedup/usecase/annotate_dedup.py:163-187 | after both passes two mentions have one root iff a chain of compared similar pairs joins them |
| DedupService.ExactClusters | internal/dedup/usecase/annotate_dedup.py:111-137 | the clusters are exactly the fingerprint classes of at least two mentions, each once, sorted by fingerprint, with that class's id and members |
| DedupService.NearClusters | internal/dedup/usecase/annotate_dedup.py:139-211 | the clusters are exactly the components of at least two candidates, sorted by size and id, each with the id, sorted members and mean similarity of its members |
| DedupService.Prepare | internal/dedup/usecase/annotate_dedup.py:153-160 | every candidate's shingles and every non-empty signature are recorded, and nothing else |
| DedupService.GroupNear | internal/dedup/usecase/annotate_dedup.py:188-192 | grouping by root leaves the roots alone and lists every mention under its own root, in order |
| DedupService.ClusterSimilarity | internal/dedup/usecase/annotate_dedup.py:265-279 | the mean over all unordered pairs, each counted once, rounded to four places; 1 below two members |
| DedupService.GatheredIsClustering | internal/dedup/usecase/annotate_dedup.py:188-211 | skipping groups below two members and recording the rest yields each class of at least two once |
| DedupService.AnnotationMap | internal/dedup/usecase/annotate_dedup.py:96-109 | every listed id ends up with the annotation of the last cluster that lists it |
| DedupService.Annotate | internal/dedup/usecase/annotate_dedup.py:65-94 | exact pass, then near pass on the rest; in batch order each mention carries the annotation of the last cluster listing it and is otherwise as it came |
| DedupAnnotations.AnnotationIsOfCluster | internal/dedup/usecase/annotate_dedup.py:96-109 | with disjoint clusters every member keeps its own cluster's annotation |
| DedupAnnotations.MentionsAreAnnotated | internal/dedup/usecase/annotate_dedup.py:65-109 | in an annotated batch each member of any cluster carries exactly that cluster's annotation, others are unchanged, and the update counter is the number of clustered mentions |
| DedupAnnotations.AnnotationsIgnoreOrder | internal/dedup/usecase/annotate_dedup.py:65-109 | permuting the batch gives every mention the same annotation |
| DedupRecords.SmallBatchByCounts | internal/dedup/usecase/annotate_dedup.py:139-211 | with at most 64 candidates, two share a near cluster iff a chain of pairs joins them, each with enough shingles in common, by count |
| DedupRecords.BandingIsSoundByCounts | internal/dedup/usecase/annotate_dedup.py:163-191 | for any batch size a near cluster lies in one component of that graph |
| DedupRecords.NoUsableBucketNoCluster | internal/dedup/usecase/annotate_dedup.py:173-180 | above 64 candidates, a mention alone in each of its buckets, or in too large ones, is in no near cluster |
| DedupRecords.ExactRecordSays | internal/dedup/usecase/annotate_dedup.py:124-136 | an exact cluster's kind, full similarity and name, and that all its members have its digest |
| DedupRecords.ExactIdsInBatchOrder | internal/dedup/usecase/annotate_dedup.py:124-136 | an exact cluster lists its members in the order of the batch |
| DedupRecords.NearRecordSays | internal/dedup/usecase/annotate_dedup.py:193-210 | a near cluster's kind, ascending ids, name after the sorted texts of its members, and similarity |
| DedupRecords.MeanIsOverPairs | internal/dedup/usecase/annotate_dedup.py:265-279 | the similarity is the mean over all ordered pairs of different members, to within half a ten-thousandth |
| DedupRecords.ListsAreSorted | internal/dedup/usecase/annotate_dedup.py:119-211 | exact clusters go by digest, near ones by falling size and then by id |
| DedupRecords.CountersCountClusters | internal/dedup/usecase/annotate_dedup.py:84-94 | the two cluster counters are the numbers of clusters |
| DedupRecords.AnnotationSays | internal/dedup/usecase/annotate_dedup.py:98-109 | what a member carries: its cluster's id, kind, representative, size and similarity, and a weight that makes one over the members |
| DedupTheorems.SmallBatchIsExact | internal/dedup/usecase/annotate_dedup.py:139-211 | with at most 64 signatures two mentions share a near cluster iff a chain of pairs at or above the threshold joins them |
| DedupTheorems.BandingIsSound | internal/dedup/usecase/annotate_dedup.py:163-191 | for any batch size a near cluster lies inside one component of the threshold graph |
| DedupTheorems.ComponentsTogether | internal/dedup/usecase/annotate_dedup.py:188-211 | sharing a near cluster is being joined by a chain of found pairs, both ways |
| DedupTheorems.EqualShinglesEqualBands | internal/dedup/usecase/annotate_dedup.py:234-249 | equal shingle sets share every band, none of which is empty |
| DedupTheorems.EqualShinglesAreGrouped | internal/dedup/usecase/annotate_dedup.py:163-191 | mentions with equal shingle sets share a near cluster whenever one shared bucket is of acceptable size and the threshold is at most 1 |
| DedupTheorems.ExactMeansSameText | internal/dedup/usecase/annotate_dedup.py:111-137 | with a collision-free digest two mentions share an exact cluster iff their texts are the same words and, joined by single spaces, long enough |
| DedupTheorems.InputOrderIrrelevant | internal/dedup/usecase/annotate_dedup.py:111-211 | permuting the batch changes no exact or near cluster, size or representative |
| DedupTheorems.NearOrderIrrelevant | internal/dedup/usecase/annotate_dedup.py:139-211 | any two near results for one candidate set have the same clusters and representatives, with or without the brute-force pass |
| DedupTheorems.NoMentionInTwoClusters | internal/dedup/usecase/annotate_dedup.py:65-94 | exact and near clusters are pairwise disjoint, so one annotation never overwrites another |
| DedupTheorems.WeightsConserved | internal/dedup/usecase/annotate_dedup.py:96-109 | for disjoint clusters the weights sum to clusters plus unclustered mentions, up to 5e-7 for each clustered mention |
| DedupTheorems.AnnotatedWeightsConserved | internal/dedup/usecase/annotate_dedup.py:65-109 | the same bound for the weights of a fresh batch as annotated |
| DedupTheorems.ClusterCountsAsOne | internal/dedup/usecase/annotate_dedup.py:100-108 | the rounded weights of one cluster sum to 1, up to 5e-7 for each member |
| DedupOrder.SquareSplits | internal/dedup/usecase/annotate_dedup.py:265-279 | the sum over all ordered pairs is twice the sum the nested loops take, plus the diagonal |
| DedupOrder.MeanPermuted | internal/dedup/usecase/annotate_dedup.py:265-279 | a cluster's mean similarity does not depend on the order of its members |
| DedupOrder.NearNameIsOfMembers | internal/dedup/usecase/annotate_dedup.py:188-211 | near clusters with the same members are equal records, id and similarity included |
| DedupOrder.RecordsIgnoreOrder | internal/dedup/usecase/annotate_dedup.py:65-94 | permuting the batch gives the same near cluster records, and the same exact ones up to the order of their member lists |
| Permutations.SortedUnique | internal/dedup/usecase/annotate_dedup.py:281-283 | sorting by an antisymmetric order gives one list for all permutations |
| Grouping.GroupingStep | internal/dedup/usecase/annotate_dedup.py:188-191 | appending to a defaultdict of lists keeps every group the sublist of its key |
| Grouping.GroupingConserves | internal/enrichment/usecase/topic_enricher.py:221-224 | the groups together hold every element exactly as often as the list did |
| Grouping.MembersInOrder | internal/dedup/usecase/annotate_dedup.py:188-191 | a group lists its elements in the order of the list |
| Grouping.MembersAppend | internal/dedup/usecase/annotate_dedup.py:188-191 | the group of a concatenation is the concatenation of the groups |
| Sorting.SortedOrdered | internal/enrichment/usecase/_anchors.py:297-299 | the sort orders its list |
| Sorting.SortedKeeps | internal/enrichment/usecase/_anchors.py:297-299 | the sort loses and invents nothing |
| Sorting.SortedIsStable | internal/enrichment/usecase/_anchors.py:297-299 | elements that tie keep their order |
| Sorting.SortedKeepsTies | internal/enrichment/usecase/topic_enricher.py:157-160 | of two that tie, the one listed first comes first |
| Texts.SplitExactlyWhen | internal/dedup/usecase/annotate_dedup.py:213-217 | splitting a text gives a list of words iff the text is these words, set apart and surrounded by white space |
| Texts.SplitOfJoin | internal/dedup/usecase/annotate_dedup.py:213-217 | splitting undoes joining with a space |
| Texts.JoinAppend | internal/dedup/usecase/annotate_dedup.py:219-225 | joining two lists in turn is joining them together, with one separator between |
| Texts.WithoutSpacesAppend | internal/dedup/usecase/annotate_dedup.py:226 | exactly the spaces are taken out, piece by piece |
| Texts.LexLeExactlyWhen | internal/dedup/usecase/annotate_dedup.py:259-263 | the order of strings, by the first difference |
| Rounding.RoundHalfEvenExactlyWhen | internal/dedup/usecase/annotate_dedup.py:251-257 | the nearest integer, the even one of two equally near |
| CrisisRuntime.AdaptiveCooldown | internal/consumer/server.py:902-910 | sixty times the configured minutes, but at least a minute; half an hour where nothing usable is configured |
| CrisisRuntime.TryLockKeeps | internal/consumer/server.py:863-878 | the lock is taken only when no live call is inside the critical section |
| CrisisRuntime.ApplyKeeps | internal/consumer/server.py:789-795 | an apply decided on the re-read record may follow the last recorded one |
| CrisisRuntime.HolderStepKeeps | internal/consumer/server.py:783-817 | re-reading, recording, and releasing only one's own token keep the invariant |
| CrisisRuntime.StepKeepsInvariant | internal/consumer/server.py:736-893 | every step of every call keeps mutual exclusion, lock ownership, the record and the spacing |
| CrisisRuntime.RunKeepsInvariant | internal/consumer/server.py:736-893 | the invariant over every run in which no critical section outlasts the lock |
| CrisisRuntime.AppliesAreWellSpaced | internal/consumer/server.py:736-893 | in every such run consecutive applies differ in status and the later starts a cooldown after the earlier was recorded; at most one call is between taking and deleting the lock |
| CrisisRuntime.OverrunBreaksSpacing | internal/consumer/server.py:863-878 | a run of 45 seconds, spent by one call inside its critical section, that applies one status twice in a row |
| CrisisRuntime.SpacedExactlyWhen | internal/consumer/server.py:736-893 | all runs whose critical sections stay shorter than a given time are well spaced iff that time is at most the 45 seconds of the lock |
| CrisisRuntime.LoneCallApplies | internal/consumer/server.py:736-893 | an idle call that finds the lock free and whose request the known status and time admit can run to its end: one apply, recorded in Redis and in its pod, lock given back, nothing else changed |
| CrisisRuntime.NotAdmittedNeverApplies | internal/consumer/server.py:764-769 | a call whose request they do not admit changes nothing but its own phase, in any run of its own in which no time passes |
| CrisisRuntime.LockedOutCallGivesUp | internal/consumer/server.py:863-878 | finding the lock taken, a call goes back to idle and nothing else changes |
| CrisisRuntime.FailingCallLeavesNoTrace | internal/consumer/server.py:783-817 | if the project service fails, the call gives the lock back and record, memory and history are as before |
| CrisisRuntime.ForeignLockStays | internal/consumer/server.py:880-893 | releasing leaves a lock that has passed to another call |
| PublishOrder.BlockShape | internal/contract_publisher/usecase/publish_order.py:25-76 | batch first, insights in order, digest last and nowhere else |
| PublishOrder.Producer.Send | internal/contract_publisher/usecase/publish_order.py:79-100 | a send extends the trace by its message or fails and leaves it |
| PublishOrder.PublishInRequiredOrder | internal/contract_publisher/usecase/publish_order.py:25-76 | the trace grows by a prefix of the block, the whole block exactly on success |
| Publisher.ContractPublisher.PublishOne | internal/contract_publisher/usecase/usecase.py:54-73 | disabled: nothing; below the batch size: buffered at the end; at the batch size: one flush of the whole buffer |
| Publisher.ContractPublisher.Flush | internal/contract_publisher/usecase/usecase.py:75-149 | empty, disabled and enabled cases; a failed flush puts its batch back in front, in order; accepted = gone then buffered, and the trace is the attempts' prefixes |
| Publisher.ContractPublisher.Close | internal/contract_publisher/usecase/usecase.py:151-165 | a non-empty buffer is flushed once more, or discarded when publishing is disabled; an empty one is left alone |
| PublisherSteps.StepConserves | internal/contract_publisher/usecase/usecase.py:54-149 | accepted = completed + in flight + buffered as multisets, kept by every append, flush, send and failure |
| PublisherSteps.DocumentsAreConserved | internal/contract_publisher/usecase/usecase.py:54-149 | the same over every interleaving |
| PublisherSteps.StepKeepsTraced | internal/contract_publisher/usecase/publish_order.py:25-76 | every flush's own messages stay a prefix of its block |
| PublisherSteps.DigestEndsItsBlock | internal/contract_publisher/usecase/publish_order.py:25-76 | whenever a digest is in the trace, its own batch and all its insights precede it in order, however flushes interleave |
| PublisherSteps.NothingLostNothingInvented | internal/contract_publisher/usecase/usecase.py:98-149 | conservation, and completed documents are those of flushes whose whole block was sent |
| PublisherSteps.StepKeepsOrder | internal/contract_publisher/usecase/usecase.py:98-149 | without overlap a step keeps the order of documents and of the trace |
| PublisherSteps.SequentialFlushesKeepOrder | internal/contract_publisher/usecase/usecase.py:54-149 | without overlap accepted = completed ++ in flight ++ buffer, and the trace is flush after flush, each a prefix of its block |
| PublisherSteps.OverlapReorders | internal/contract_publisher/usecase/usecase.py:98-149 | a run with overlapping flushes in which the sequence is not kept |
| PublisherOrder.FailureKeepsOrderExactlyWhen | internal/contract_publisher/usecase/usecase.py:126-134 | for distinct documents, a failing flush keeps accepted = completed ++ in flight ++ buffer iff it is the youngest under way |
| PublisherOrder.CompletionKeepsOrderExactlyWhen | internal/contract_publisher/usecase/usecase.py:98-125 | a completing flush keeps it iff it is the oldest under way |
| PublisherOrder.TurnsKeepOrder | internal/contract_publisher/usecase/usecase.py:54-149 | for any documents and any overlap, completing oldest first and failing youngest first keeps the order all along |
| PublisherOrder.PublisherOrderExactlyWhen | internal/contract_publisher/usecase/usecase.py:54-149 | for distinct documents, the order holds all along a run from the start iff flushes complete oldest first and fail youngest first |
| PublisherOrder.BufferStaysBelowBatch | internal/contract_publisher/usecase/usecase.py:54-98 | in any run without a failing send the buffer stays smaller than a batch |
| PublisherOrder.FlushStartsAtBatchSize | internal/contract_publisher/usecase/usecase.py:54-98 | reaching the batch size starts a flush of the whole buffer, and nothing short of it does |
| TopicDiscovery.MostCommonAreTop | internal/enrichment/usecase/topic_enricher.py:157-160 | at most n distinct tokens, none less frequent than one left out, and all of them if there are fewer |
| TopicDiscovery.MostCommonInOrder | internal/enrichment/usecase/topic_enricher.py:157-160 | tokens are listed by falling count, and equally frequent ones as they were met |
| TopicDiscovery.OverlapExactlyWhen | internal/enrichment/usecase/topic_enricher.py:213-219 | two documents overlap iff two different tokens are top tokens of both |
| TopicDiscovery.TermsAppend | internal/enrichment/usecase/topic_enricher.py:231-234 | the terms of a cluster are its members' top tokens, one list after the other |
| TopicDiscovery.ArtifactSays | internal/enrichment/usecase/topic_enricher.py:228-254 | an artifact's terms, label, key, size and first five documents, and "misc" where there are no terms |
| TopicDiscovery.ConfidenceIsExact | internal/enrichment/usecase/topic_enricher.py:244-263 | the confidence, 0.35 and 0.05 for each document up to 0.85, is not changed by its rounding |
| TopicDiscovery.UniteOverlapping | internal/enrichment/usecase/topic_enricher.py:213-219 | the classes are the components of the graph of pairs sharing at least two top tokens |
| TopicDiscovery.GroupByRoot | internal/enrichment/usecase/topic_enricher.py:221-224 | grouping by root keeps the roots and lists every document once |
| TopicDiscovery.Discover | internal/enrichment/usecase/topic_enricher.py:188-265 | one artifact for each cluster and one assignment for each document, carrying its cluster's key, label and confidence |
| TopicDiscovery.SameClusterIffChain | internal/enrichment/usecase/topic_enricher.py:188-224 | two documents share a cluster iff a chain of documents, each sharing at least two top tokens with the next, joins them |
| TopicClusters.SameClusterIffLinked | internal/enrichment/usecase/topic_enricher.py:213-224 | two documents share a cluster iff a chain of documents joins them, each sharing two top tokens with the next |
| TopicClusters.ClusteringIsUnique | internal/enrichment/usecase/topic_enricher.py:213-226 | the clusters, the order of their documents and their own order are determined by the top tokens, whatever roots the union-find chose |
| TopicDiscovery.EveryDocumentOnce | internal/enrichment/usecase/topic_enricher.py:226-265 | every document is assigned exactly once and the artifact sizes sum to the number of documents |
| TopicDiscovery.KeysEqualExactlyWhen | internal/enrichment/usecase/topic_enricher.py:163-169 | two clusters get one key iff the first three of their top terms, sorted and joined, are the same text, their digests taken not to collide |
| TopicDiscovery.OneTokenDocumentsShareKey | internal/enrichment/usecase/topic_enricher.py:188-265 | two documents with the same at most one top token are always two clusters under one key |
| TopicDiscovery.TokenlessDocumentsShareKey | internal/enrichment/usecase/topic_enricher.py:188-265 | the case without any token |
| TopicDiscovery.SameWordTwice | internal/enrichment/usecase/topic_enricher.py:188-265 | two concrete documents of one and the same word, whatever clusters and artifacts are listed for them |
| TopicDiscovery.SizesAddUp | internal/enrichment/usecase/topic_enricher.py:226-265 | the artifact sizes sum to the number of documents placed in clusters |
| TopicEnricher.Enricher.MatchRules | internal/enrichment/usecase/topic_enricher.py:527-564 | the loop files and counts what `FirstRuleDecides` says the first applying rule gives |
| TopicEnricher.Enricher.MatchSeeds | internal/enrichment/usecase/topic_enricher.py:336-377 | the nested loops file and count what `FirstSeedDecides` says the first phrase found gives |
| TopicEnricher.FirstRuleDecides | internal/enrichment/usecase/topic_enricher.py:532-564 | the first rule with a topic that finds something gives the fact, with its label and the first text found; none gives none |
| TopicEnricher.FirstPhraseIsFound | internal/enrichment/usecase/topic_enricher.py:338-376 | of a topic's seed phrases the first that occurs, up to case, is taken |
| TopicEnricher.FirstSeedDecides | internal/enrichment/usecase/topic_enricher.py:338-376 | the first topic with a phrase that occurs gives the fact, with its label and that phrase; none gives none |
| TopicEnricher.FactIsDecided | internal/enrichment/usecase/topic_enricher.py:305-512 | after preparing, the one fact of a mention is that of the first rule, else of the first seed phrase, else one from clustering |
| TopicEnricher.RestAppend | internal/enrichment/usecase/topic_enricher.py:332-420 | the mentions left over keep the order of the batch |
| TopicEnricher.HitsAppend | internal/enrichment/usecase/topic_enricher.py:332-420 | the hits of a topic add up over the mentions, one for each that gets it |
| TopicEnricher.SeedArtifactSays | internal/enrichment/usecase/topic_enricher.py:421-447 | a matched topic's artifact: size, first label and first six seed phrases |
| TopicEnricher.Enricher.RunStage | internal/enrichment/usecase/topic_enricher.py:332-418 | after a pass each candidate has exactly its fact or waits, in order, and each topic is counted once for each of its mentions |
| TopicEnricher.Enricher.RunCascade | internal/enrichment/usecase/topic_enricher.py:332-418 | for every combination of rules and seeds the passes come to one cascade, rules before seeds, with its counts |
| TopicEnricher.StagesCompose | internal/enrichment/usecase/topic_enricher.py:379-418 | seeds tried on what rules left waiting decide each mention as the whole cascade does |
| TopicEnricher.RestComposes | internal/enrichment/usecase/topic_enricher.py:379-418 | the two passes leave the same mentions, and count the same topics, as the cascade |
| TopicEnricher.MatchIsOfMention | internal/enrichment/usecase/topic_enricher.py:527-564 | a matched fact belongs to the mention it was found in |
| TopicEnricher.CascadeThenClustering | internal/enrichment/usecase/topic_enricher.py:449-483 | filing one clustering fact for each waiting mention leaves every mention with exactly one fact |
| TopicEnricher.ArtifactsOfCounts | internal/enrichment/usecase/topic_enricher.py:420-447 | one artifact for each matched topic, with its label and phrases, sized by the number of mentions that got it |
| TopicEnricher.Enricher.OntologyArtifacts | internal/enrichment/usecase/topic_enricher.py:420-447 | one artifact for each count, in order, with its ontology label and first six seed phrases; their sizes sum to all counts |
| TopicEnricher.Enricher.ClusterWaiting | internal/enrichment/usecase/topic_enricher.py:449-513 | the waiting mentions get the facts of their cluster and the clusters' artifacts are appended |
| TopicEnricher.Enricher.Prepare | internal/enrichment/usecase/topic_enricher.py:306-513 | every mention has exactly one fact: of the first rule, else of the first seed, else of its cluster; artifacts are those of the matched topics, then of the clusters, and their sizes sum to the number of mentions |
| Boundaries.HardSpansFit | internal/enrichment/usecase/_segmenter.py:12-12 | hard boundaries are in order, disjoint, non-empty and hold hard characters only |
| Boundaries.HardSpansComplete | internal/enrichment/usecase/_segmenter.py:12-12 | every hard character lies in a hard boundary |
| Boundaries.HardSpansAreRuns | internal/enrichment/usecase/_segmenter.py:12 | each hard boundary is a run of one class that cannot be extended |
| Boundaries.ContrastSpansFit | internal/enrichment/usecase/_segmenter.py:13-16 | contrast boundaries are whole words without hard characters, in order and disjoint |
| Boundaries.ContrastSpansAreWords | internal/enrichment/usecase/_segmenter.py:13-16 | each contrast boundary is a whole contrast word of the text, the first listed one that stands there |
| Boundaries.ContrastSpansComplete | internal/enrichment/usecase/_segmenter.py:13-16 | each whole contrast word is a boundary or overlapped by one that begins earlier |
| Boundaries.AllSpansInRow | internal/enrichment/usecase/_segmenter.py:27-39 | both kinds, sorted by start, never overlap and cover every hard character |
| Boundaries.BoundaryIs | internal/enrichment/usecase/_segmenter.py:12-39 | each boundary of a text is a longest run of hard characters of one class, or a whole contrast word |
| Lexis.StrippedIsFound | internal/enrichment/usecase/_segmenter.py:46-48 | searching from the left finds the stripped stretch exactly where the strip left it |
| Lexis.StrippedIsRFound | internal/enrichment/usecase/_segmenter.py:65-67 | searching from the right finds the stripped tail exactly where the strip left it |
| Segmenter.Stretch | internal/enrichment/usecase/_segmenter.py:44-67 | both searches succeed at the stripped position, and its ends do not cut into a word |
| Segmenter.CutAt | internal/enrichment/usecase/_segmenter.py:44-64 | one round of the loop extends the segments up to the next boundary |
| Segmenter.CutTail | internal/enrichment/usecase/_segmenter.py:65-79 | the trailing piece completes the segments to the end of the text |
| Segmenter.SegmentText | internal/enrichment/usecase/_segmenter.py:24-92 | segments are in order, disjoint, non-empty, exact slices with the right leading boundary and question mark; everything else is boundary or stripped space or comma; no segment only for blank text, and the fallback exactly for texts of boundaries and padding |
| Segmenter.NoHardCharacterInSegments | internal/enrichment/usecase/_segmenter.py:27-64 | outside the fallback no segment holds a hard boundary character |
| Segmenter.NoContrastWordInSegments | internal/enrichment/usecase/_segmenter.py:27-64 | outside the fallback no whole contrast word begins in a segment |
| Segmenter.ContrastiveExactlyWhen | internal/enrichment/usecase/_segmenter.py:44-64 | a segment is contrastive iff the last boundary before it is a contrast word |
| Segmenter.QuestionExactlyWhen | internal/enrichment/usecase/_segmenter.py:44-79 | a segment is a question iff it or the next boundary holds a question mark, or there is no next one and the text ends in one |
| Segmenter.NormalizedIs | internal/enrichment/usecase/_segmenter.py:19-20 | the normal form is the words of the lower-cased segment, joined by spaces |
| Segmenter.SegmentsAreDisjointAndExact | internal/enrichment/usecase/_segmenter.py:40-79 | each position is in one segment, or in a boundary, or stripped |
| Anchors.SpansComplete | internal/enrichment/usecase/_anchors.py:58-64 | a whole-word match is reported or overlapped by an earlier reported one |
| Anchors.SpansInOrder | internal/enrichment/usecase/_anchors.py:58-64 | matches are reported from left to right and never overlap |
| Anchors.WholeWordInBoth | internal/enrichment/usecase/_anchors.py:58-64 | a cue with word characters at both ends is a whole word of the segment iff it is one of the full text |
| Anchors.CueAnchors | internal/enrichment/usecase/_anchors.py:439-465 | every match of every cue is reported, and nothing else |
| Anchors.AnchorsOfCue | internal/enrichment/usecase/_anchors.py:369-381 | every match of one surface form is reported at its offset, and nothing else |
| Anchors.ExtractLexicalAnchors | internal/enrichment/usecase/_anchors.py:251-299 | the union of all groups' anchors, and the contrast marker of a contrastive segment, sorted by start, end and type |
| Anchors.AnchorsAreSorted | internal/enrichment/usecase/_anchors.py:297-299 | the list goes by start, then end, then the name of the type |
| Anchors.ContrastMarkerSays | internal/enrichment/usecase/_anchors.py:283-296 | the marker of a contrastive segment: empty, at its start, quoting the contrast |
| Anchors.LexicalAnchorIsInText | internal/enrichment/usecase/_anchors.py:439-465 | an anchor lies in its segment, is the slice of the full text at its offsets, is a whole word there if its cue begins and ends with a word character, and bears the kind, name, confidence and polarity of its group |
| Anchors.WholeWordIsReported | internal/enrichment/usecase/_anchors.py:58-64 | a whole word of the full text inside the segment is found by searching the segment alone |
| Anchors.BuildTargetAnchors | internal/enrichment/usecase/_anchors.py:302-347 | exactly the matches of the full text that lie in the segment |
| Anchors.TargetAnchorSays | internal/enrichment/usecase/_anchors.py:316-346 | the offsets, text and names of a target anchor, and the lower confidence of an inherited one |
| Anchors.TargetAgreesWithSegment | internal/enrichment/usecase/_anchors.py:302-347 | for word-edged targets, searching the full text and searching the segment agree |
| Anchors.QuestionMarkCueIsDead | internal/enrichment/usecase/_anchors.py:207-218 | in segments cut at boundaries the question-mark cue has no match |
| Anchors.QuestionMarkFiresExactlyWhen | internal/enrichment/usecase/_anchors.py:207-218 | over the result of segmenting a text, the cue fires on some segment iff the text is boundaries, spaces and commas only and has a question mark that touches no word |
| Anchors.BareQuestionMarkFires | internal/enrichment/usecase/_anchors.py:207-218 | however "?" is segmented, the cue fires on it |
| Anchors.QuestionDoesNotFire | internal/enrichment/usecase/_anchors.py:207-218 | however "ok?" is segmented, the cue does not fire |
| ResponseCache.Cache.Get | internal/http/analytics_service.py:444-450 | a hit is the value most recently set for the key and not expired; an expired entry is dropped and nothing else |
| ResponseCache.Cache.Set | internal/http/analytics_service.py:452-464 | the key's latest value is recorded with its lifetime, a known key keeping its place in the dict, and the cache is pruned; unless expired, the entry is still there iff fewer than the maximum go after it, which for a new key means: expire after it |
| ResponseCache.PutKeepsPlaces | internal/http/analytics_service.py:452-464 | setting a known key leaves the order of the dict alone, and a new key comes last |
| ResponseCache.Cache.Prune | internal/http/analytics_service.py:466-478 | ends; nothing happens below the limit; above it the expired entries go, and of the live ones exactly those stay that fewer than the limit go after, by expiry and then by place in the dict; the order of the dict is kept |
| ResponseCache.DropExpired | internal/http/analytics_service.py:470-472 | the loop pops exactly the expired entries and keeps the order of the rest |
| ResponseCache.EarliestKey | internal/http/analytics_service.py:474-477 | the entry that expires earliest, and of several the first in the dict |
| ResponseCache.DropEarliest | internal/http/analytics_service.py:473-478 | popping the earliest until the limit is met leaves exactly the entries that fewer than the limit go after |
| ResponseCache.ShortLivedEntryIsEvicted | internal/http/analytics_service.py:466-478 | an entry outlasted by as many live others as the limit does not survive the pruning, ties or not |
| ResponseCache.LongLivedEntrySurvives | internal/http/analytics_service.py:466-478 | a live entry survives if fewer than the limit of live others last at least as long, ties or not |
| ResponseCache.SurvivesExactlyWhen | internal/http/analytics_service.py:466-478 | any entry, ties included: above the limit it survives iff it is live and fewer than the limit of live others go after it |
| ResponseCache.NewEntrySurvivesExactlyWhen | internal/http/analytics_service.py:452-478 | an unexpired new key survives its own insertion iff fewer than the limit of live entries expire after it |
| ResponseCache.ShorterLifeGoesFirst | internal/http/analytics_service.py:452-478 | one more, shorter-lived entry in a full cache is the one that goes, and nothing else changes |
| PostsWindow.EmptyPageIsDropped | internal/http/analytics_service.py:1704-1707 | the 10-second page of a campaign without projects does not survive being stored among 120-second pages that fill the cache |
| PostsWindow.CutFromWindow | internal/http/analytics_service.py:1733-1742 | within the window, cutting the cached rows is slicing all rows, and the window knows the true total |
| PostsWindow.PageIsDirectSlice | internal/http/analytics_service.py:1723-1746 | a page's posts are the direct slice; its total is right iff it lies in the window, or starts before the end, or there are no rows |
| PostsWindow.TotalLostPastTheEnd | internal/http/analytics_service.py:1825-1826 | a page past the end, outside the window, reports 0 for one row |
| PostsWindow.Slice | internal/http/analytics_service.py:1733-1742 | as many rows as there are from the offset on, up to the limit, in order |
| PostsWindow.PostsService.StoreOther | internal/http/analytics_service.py:517-527 | what other endpoints put into the shared cache, under keys of their own, leaves every stored page and window right |
| PostsWindow.PostsService.TakeTurn | internal/http/analytics_service.py:1676-1888 | whatever a request does to the cache between two of its awaits leaves every stored page and window right |
| PostsWindow.PostsService.OthersRun | internal/http/analytics_service.py:1676-1888 | so does any series of such turns of other requests |
| PostsWindow.PostsService.ComputePosts | internal/http/analytics_service.py:1676-1888 | over any history the answer is the same, served from the page cache, the window cache or the database, for any limit and offset, and whatever turns other requests take at its three awaits |
| PhobertBatch.ArgMax | pkg/phobert_onnx/phobert_onnx.py:135-182 | the first index of the greatest probability |
| PhobertBatch.PredictSays | pkg/phobert_onnx/phobert_onnx.py:135-227 | a blank text is neutral with certainty; otherwise the greatest probability decides class, rating and confidence, the earliest class winning a tie |
| PhobertBatch.PredictBatch | pkg/phobert_onnx/phobert_onnx.py:229-336 | every slot is filled with what predict gives for its text, and each distinct non-blank text goes through the model once |
| PhobertBatch.Gather | pkg/phobert_onnx/phobert_onnx.py:253-274 | blank texts get the default at once; each distinct text has one slot and lists exactly its positions |
| PhobertBatch.RunUnique | pkg/phobert_onnx/phobert_onnx.py:276-329 | the batched rows post-process to what each text gives alone |
| PhobertBatch.Scatter | pkg/phobert_onnx/phobert_onnx.py:331-334 | each position gets the output of its own text and default slots are left alone |
| BatchEnricher.RunStages | internal/analytics/usecase/batch_enricher.py:296-394 | the new result object after stages 1 to 3, with the skip and the failing-stage branches |
| BatchEnricher.AnalyticsResult.ApplySentiment | internal/analytics/usecase/batch_enricher.py:396-424 | label, score and confidence are overwritten, and the aspects with their evidence, mentions and rating; empty probabilities and aspects leave the old ones |
| BatchEnricher.AnalyticsResult.ApplyImpact | internal/analytics/usecase/batch_enricher.py:464-480 | scores, risk and flags are overwritten; an empty breakdown leaves the old one |
| BatchEnricher.FactKeepsSentiment | internal/analytics/usecase/batch_enricher.py:396-424 | a fact carries the sentiment it was given, field by field and aspect by aspect, or that of the base result |
| BatchEnricher.SkippedRecordSays | internal/analytics/usecase/batch_enricher.py:296-394 | a record to be skipped: marked, at low risk, without sentiment call, keywords or impact |
| BatchEnricher.RegularRecordSays | internal/analytics/usecase/batch_enricher.py:296-480 | any other record: spam marked at low risk, keywords named, and the impact, if found, deciding the risk from the sentiment's label and score |
| BatchEnricher.GatherInputs | internal/analytics/usecase/batch_enricher.py:127-158 | inputs and indices list exactly the records that take part, in order |
| BatchEnricher.ZipIsSentimentFor | internal/analytics/usecase/batch_enricher.py:160-170 | each output reaches the record it came from, also when there are fewer outputs than inputs |
| BatchEnricher.FinishSlot | internal/analytics/usecase/batch_enricher.py:175-227 | phase 3 of one record updates its result object and builds its fact, or drops the record |
| BatchEnricher.FinishNext | internal/analytics/usecase/batch_enricher.py:179-227 | finishing a record in place disturbs no earlier fact and no later slot |
| BatchEnricher.EnrichBatch | internal/analytics/usecase/batch_enricher.py:89-227 | the facts, in record order, each holding its own result object with the content that its record and sentiment give |
| BatchEnricher.CallRaisesExactlyWhen | internal/analytics/usecase/batch_enricher.py:160-170 | if the shared call treats its inputs one by one, it raises iff the analysis raises on some participating record |
| BatchEnricher.SentimentsAreOwnExactlyWhen | internal/analytics/usecase/batch_enricher.py:160-170 | every record gets the sentiment it would get alone iff no participating record fails or none succeeds |
| BatchEnricher.RecordByRecordExactlyWhen | internal/analytics/usecase/batch_enricher.py:89-227 | the batch is its records enriched alone, in order, iff no participating record fails or no record's outcome depends on its sentiment |
| BatchEnricher.BatchIsRecordByRecord | internal/analytics/usecase/batch_enricher.py:89-227 | without a failing analysis the batch is the records enriched alone, in order; a record that another stage drops drops only itself |
| BatchEnricher.BatchOfOne | internal/analytics/usecase/batch_enricher.py:89-227 | a record enriched alone is a batch of one |
| BatchEnricher.BatchDistributes | internal/analytics/usecase/batch_enricher.py:89-227 | without a failing analysis, enriching a concatenation is concatenating the enrichments |
| BatchEnricher.RaisingCallStripsEveryRecord | internal/analytics/usecase/batch_enricher.py:160-170 | when the shared call raises, for whatever reason, no record gets a sentiment and every record is finished without one |
| BatchEnricher.CulpritStripsEveryRecord | internal/analytics/usecase/batch_enricher.py:160-170 | one record on which the analysis raises is reason enough |
| BatchEnricher.OneBadRecordInTwo | internal/analytics/usecase/batch_enricher.py:160-170 | two records, one failing: the other is positive alone and neutral together, so the batch is not the concatenation |
| CrisisScorer.Thresholds.ApplyIssuePressure | internal/crisis/usecase/assess_crisis.py:172-197 | the in-place loop comes to folding the usable rules in order, the function that `ThresholdsAreOrdered` and `IssueOrderedExactlyWhen` are about |
| CrisisScorer.Thresholds.ApplySentimentCollapse | internal/crisis/usecase/assess_crisis.py:200-233 | the in-place loop stops at the first usable negative-spike rule, and changes nothing without one |
| CrisisScorer.Thresholds.ApplyControversySpike | internal/crisis/usecase/assess_crisis.py:236-269 | the least comment count over all viral-negative rules decides, and without one nothing changes |
| CrisisScorer.ThresholdsAreOrdered | internal/crisis/usecase/assess_crisis.py:150-269 | for every configuration watch <= warning <= critical for sentiment and controversy, and watch <= warning for issue pressure |
| CrisisScorer.IssueOrderedExactlyWhen | internal/crisis/usecase/assess_crisis.py:172-197 | issue warning <= critical iff the effective warning growth is at most the effective critical growth or at most 15 percent |
| CrisisScorer.IssueThresholdsCanCross | internal/crisis/usecase/assess_crisis.py:172-197 | one warning rule that puts the warning threshold above the critical one |
| CrisisScorer.IssueWatchIsLeast | internal/crisis/usecase/assess_crisis.py:172-197 | the issue watch threshold is the least of 5 and 0.45 times the warning threshold of each usable warning rule |
| CrisisScorer.SentimentByFirstSpike | internal/crisis/usecase/assess_crisis.py:200-233 | the three sentiment thresholds as functions of the first usable spike rule's percentage |
| CrisisScorer.ControversyByLeast | internal/crisis/usecase/assess_crisis.py:236-269 | the three controversy thresholds as functions of the least comment count of the viral-negative rules |
| CrisisScorer.IssueWatchOrderedExactlyWhen | internal/crisis/usecase/assess_crisis.py:172-197 | issue watch <= critical iff the effective critical growth is at least 75 percent, or 0.45 times some usable warning growth is at most it or at most 15 |
| CrisisScorer.IssueWatchCanExceedCritical | internal/crisis/usecase/assess_crisis.py:172-197 | one critical rule that puts the critical threshold below the watch threshold |
| CrisisScorer.CompositeIsExact | internal/crisis/usecase/assess_crisis.py:279-280 | weights are tenths, so the rounding of the score changes nothing |
| CrisisScorer.AssessCrisis | internal/crisis/usecase/assess_crisis.py:30-118 | signals, level and score of the three measurements under the configuration's thresholds |
| CrisisScorer.CountNegativeEntities | internal/crisis/usecase/assess_crisis.py:293-307 | the number of negative deltas, at most the number of entities |
| CrisisScorer.LevelIsMonotone | internal/crisis/usecase/assess_crisis.py:44-93 | for any thresholds the level never drops when a measurement appears or rises |
| CrisisScorer.LevelByPoints | internal/crisis/usecase/assess_crisis.py:279-290 | the level is decided by the three signals' weights |
| CrisisScorer.CriticalExactlyWhen | internal/crisis/usecase/assess_crisis.py:283-290 | critical iff a critical issue or thread signal, or all three signals at their highest below that |
| CrisisScorer.WarningExactlyWhen | internal/crisis/usecase/assess_crisis.py:279-290 | a warning at least, in terms of how far the three measurements have come |
| CrisisScorer.WatchExactlyWhen | internal/crisis/usecase/assess_crisis.py:279-290 | a watch at least, likewise |
| CrisisScorer.SignalsSay | internal/crisis/usecase/assess_crisis.py:44-93 | which signals are raised, with which severity, evidence and threshold |
| CrisisScorer.NegativesAreFalling | internal/crisis/usecase/assess_crisis.py:293-307 | the number of entities with a negative delta |
| CrisisScorer.SentimentAloneOnlyWatches | internal/crisis/usecase/assess_crisis.py:200-233 | a sentiment signal alone is never more than a watch, and is one iff it reaches its warning or critical threshold |

## Left out

Assumptions of the theorems:

- Mention ids are distinct within a batch (deduplication and topics); with repeated ids the dicts keyed by id merge mentions.
- Shingle sizes are natural numbers; a negative size is not modelled.
- Digests are arbitrary functions, assumed free of collisions only where `ExactMeansSameText` says so.
- Floats are reals: NaN, infinities and the last-bit effects of summing in another order are not modelled.
- `CrisisRuntime`: one project, one clock, Redis reachable, lock tokens never repeat. A request that the project service served but the caller saw fail counts as failed. The fallback when Redis is down (an empty token), and reading a malformed record, are not modelled.
- `PhobertBatch`: the model treats rows independently of their batch and its output has three classes per row.
- `Segmenter`, `Anchors`: case folding keeps word characters apart from others and fixes the space and the boundary punctuation; contrast words begin and end with a word character. Unicode's few exceptions are outside this.

What is simplified:

- PublishOrder.Producer.Send: a failing send is one that raises `KafkaPublishError`; other exceptions, payload-builder failures and cancellation while a send waits are not modelled.
- Publisher.ContractPublisher.Flush: sequential; interleavings are the subject of `PublisherSteps`, where publishing stays enabled.
- BatchEnricher.EnrichBatch: the random id, timestamps and timings of a result are not modelled, and its remaining metadata fields are taken from the record unchanged.
- TopicEnricher.Enricher.Prepare: provenance and versions of facts and artifacts are not modelled, beyond the origin and the evidence text.
- PostsWindow.PostsService.ComputePosts: the rollup path, the mapping of a database row to a post, and the deep copies of cached values are not modelled; the row list is fixed over the history, and the contract does not say for how long each answer is cached.
- DedupService.Annotate: the cluster lists are sorted as the code sorts them; ties between near clusters of equal size and id keep the order in which dicts are walked.
- Anchors.ExtractLexicalAnchors: the concrete seed, polarity and cue lists are a parameter, and anchors from user rules are not part of it.
- CrisisScorer.AssessCrisis: configuration values that are not numbers have already become 0, and the texts of signals and their metadata beyond the evidence are not modelled.

Not modelled at all: SQL, rollups and dashboard payloads; HTTP, Kafka, Redis, MinIO, Postgres and RabbitMQ
clients; configuration loading, metrics and logging; normalization, spam, threads, stance, intent, keyword and
relevance rules, whose properties are single-branch facts; token lists of segments and first-person checks.
