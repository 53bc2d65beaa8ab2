# svcdoctor in Dafny

svcdoctor measures a service from one vantage, records every measurement as a node of an
evidence graph, and lets rules state findings over the frozen graph. This project models the
three parts of it whose correctness is not visible from any single function, and proves what
they are for.

**Convergence** (`Finding`, `FindingOrder`, `Merge`, `Partition`, `Converge`, `ConvergedReading`,
`Converging`, `ConvergeLaws`, `BatchLaws`, `FusedLaws`, `Engine`, `Report`). Findings that make one claim about
one subject become one finding. `IsConverged` says what a list of findings converges to without
mentioning an algorithm: the merges of its groups, each once, in canonical order, where two findings
belong to one group when they make the same claim and either ask the same question or the whole list
asks at most one. The method `Converge`, with its bucket maps, its asymmetric fold of silent buckets,
its unstable member sort and its stable report sort, is total and meets that specification. The laws
are proved of the specification: the result depends on the findings and on nothing else, converging
again changes nothing, nothing is lost or invented. Two things the repository's prose says are
sharpened. Merging is associative only up to the order of recommendations, with a witness. And
converging an earlier batch first can give other findings: it gives the same ones, up to that order,
if and only if every claim the batch *fuses* is *restored* by the later one, which
`BatchesAgreeExactly` states for all inputs, position by position, with witnesses on both sides. When the later batch
repeats no discriminator of the earlier one, that is: if and only if nothing is fused.

**The evidence graph** (`Relation`, `GraphBuilder`, `BuilderRun`, `GraphQuery`, `Sibling`,
`Boundary`, `Basis`). A mutable builder keeps two relations acyclic. The explicit-stack
reachability walk and the three-colour cycle search are exact, an edge is refused exactly when it
would close a cycle, and so freezing never fails on a builder driven through its methods, whatever
calls were made. The queries that diagnosis reads a graph through, the failure boundaries and the
rule that states them are proved against definitions read off the graph.

**The Kafka producers** (`Identifier`, `Decimal`, `Host`, `Advertisement`, `Recording`, `Transport`,
`SweepGraph`, `Reachability`, `SweepPlace`, `SweepReading`, `Measuring`, `Topology`, `Refusal`,
`Completeness`, `CompletenessLaws`, `SweepShape`, `Verdict`, `KafkaRun`, `Witness`, `Ownership`,
`Selection`). Identifiers have a decoder, so distinct component
lists never collide; advertisements are therefore recorded without refusal. A transport sweep is run
exactly for a host it can measure, under a node the graph holds, with identifiers the graph does not,
and what it leaves is a function of what the network answered and of how long the context lasted.
Hence the exact outcome of measuring a cluster: the graph never refuses it, and the call fails if and
only if a broker it considers is usable and advertises a host no sweep can be run for, a name with
whitespace or an address with a zone. Such a broker is recorded as a PASS, and one is enough to end
the run in an error; `SpacedBroker` and `ZonedBroker` exhibit it.
The completeness predicate is exact, and it means what it is for: when the context outlived the
measurements, the run is reported complete if and only if every promised advertisement was looked up
to the end and no outcome of the measurements that were cut short could change its reachability. The
graph alone does not say that: an address that was never tried is invisible to the predicate, so a
verdict of the graph stands if and only if the advertisement is resolved and no address was missed or
one was reached, and `MissedAddressWitness` is a graph that is resolved and open. An address is missed
only by a run whose context is done, and that the predicate does see. On every graph, replacing what
was stopped by any outcome never makes a complete run incomplete; replacing what was never tried as
well keeps every complete run complete if and only if no address was missed where it matters.
`DiagnoseKafka` composes it all, from an empty graph to the verdict: nothing is assumed of the graph on
the way, and when the run ends in an error, what the graph then holds, when the context is done and
what the verdict means are each exact.
Every connection has one owner: after each step it is held by one session or closed once, and after
the bootstrap path each is closed exactly once in every outcome.

What the operations promise is also said in the terms of what they are given, without the vocabulary
of the proofs: a converged list of its findings' fields (`ConvergedReading`), a sweep of the nodes and
edges it leaves (`SweepReading`), a verdict of an advertisement's children, a boundary of the states
and layers of nodes, the handshake step of the error code that was answered.

`Text`, `Orders`, `Results` and `Evidence` hold the vocabulary the rest is written in. `Orders`
models Go's `slices` sorts: `SortFunc` promises a sorted permutation and nothing about ties,
`SortStableFunc` is the stable sort, in place on an array.

Text is a sequence of Unicode scalar values, whose order is Go's byte order on the UTF-8 encoding.
What the network, the clock and the context decide are parameters: a rule's verdict, a sweep's
answers, the number of times the context is still found alive, whether an exchange broke.

Where the source and its own comments disagree the code is followed. The comment at
`internal/app/kafkacompleteness.go:194-197` says a literal sweep with several connections is
unresolved; the code at lines 225-229 accepts it, which `SeveralLiteralConnectionsResolve` states and
`SeveralConnectionsWitness` shows. The comment at `internal/adapter/kafka/reachability.go:154-161`
lists when measuring is refused and does not name an unmeasurable host. The comment at `internal/diagnosis/converge.go:152-157` calls merging associative, which is exact
only as `MergingIsAssociative`, `AdviceOrderDependsOnBatching`, `HarmlessIffNotFused` and
`BatchesAgreeExactly` state it.

Verify with `dafny verify dfyconfig.toml`.

## Model

| member | source | states |
|---|---|---|
| Text.NulTerminatedInjective | internal/diagnosis/converge.go:584-626 | NUL-terminating every field loses nothing, whatever the number of fields |
| Text.CompareIsTextOrder | internal/domain/report.go:179-198 | comparing text decides at the first character where two texts differ, and puts a proper prefix first |
| Text.JoinedOrder | internal/domain/report.go:200-207 | joined by NUL, lists of NUL-free texts come in the order of the lists |
| Text.TerminatedOrder | internal/diagnosis/converge.go:584-626 | and so they do with a NUL after each text |
| Text.TrimmedMeans | internal/domain/evidenceid.go:59-61 | text is trimmed exactly when trimming it changes nothing |
| Text.ProseIsLines | internal/domain/finding.go:239-255 | an identifier is one line of prose, lines of prose are prose, and no other control character is |
| Orders.SortFunc | internal/diagnosis/converge.go:507-510 | slices.SortFunc yields some sorted permutation; ties may come out in any order |
| Orders.SortedUnique | internal/diagnosis/converge.go:547-556 | when ties are equal values, the unstable sort has only one result |
| Orders.SortStableFunc | internal/domain/report.go:179-198 | the in-place stable sort equals the one stable arrangement of the input |
| Orders.StableSortRefines | internal/domain/report.go:166-178 | on a strictly sorted pre-order the stable sort is strictly sorted by the report key and then the pre-order |
| Relations.EdgeClosesCycle | internal/domain/graphbuilder.go:84-102 | one new edge closes a cycle in an acyclic relation exactly when its target already reached its source |
| Relations.Reachable | internal/domain/graphbuilder.go:252-275 | the explicit-stack walk ends and answers true exactly when a possibly empty path exists |
| Relations.CycleSearch.Visit | internal/domain/graphbuilder.go:288-313 | one recursive visit keeps the meaning of the three colours and reports only nodes on a cycle |
| Relations.FindCycle | internal/domain/graphbuilder.go:281-327 | a node is reported if and only if some node lies on a cycle, and the reported one does |
| Evidences.NewEvidence | internal/domain/evidence.go:107-184 | accepts exactly the inputs that satisfy the evidence invariant, have a start time, no negative timing and valid attributes; unchanged |
| Evidences.DottedNameReads | internal/domain/names.go:56-86 | a step or attribute name is valid exactly when it reads as segments of small letters, digits and underscores with a dot between them |
| Graphs.GraphBuilder.AddEvidence | internal/domain/graphbuilder.go:56-65 | refuses the zero node and a repeated identifier, otherwise files the node; a refusal changes nothing |
| Graphs.GraphBuilder.AddParent | internal/domain/graphbuilder.go:84-102 | accepted exactly when both ends are present, differ, and the enlarged relation is acyclic |
| Graphs.GraphBuilder.AddBlockedBy | internal/domain/graphbuilder.go:120-140 | as AddParent, and only a SKIPPED node may be blocked |
| Graphs.GraphBuilder.Freeze | internal/domain/graphbuilder.go:150-197 | accepts exactly the legal structures; the graph is a function of the nodes and the two edge sets |
| Graphs.FreezeRelation | internal/domain/graphbuilder.go:200-227 | accepts exactly relations with present endpoints, no self edge and no cycle, each list ascending |
| Graphs.DeriveChildren | internal/domain/graphbuilder.go:178-188 | lists each child once under each of its parents, ascending, and no empty list |
| Graphs.GraphOfIsFrozen | internal/domain/graphbuilder.go:150-197 | freezing legal content gives back exactly the two relations it was built from |
| Graphs.ChildrenInvertParents | internal/domain/graphbuilder.go:178-188 | children and parents are one relation read both ways, between distinct nodes of the graph |
| Graphs.BlockersExplainSkips | internal/domain/graphbuilder.go:130-139 | whatever has a blocker is SKIPPED, and its blockers are nodes |
| BuilderRuns.EveryRunFreezes | internal/domain/graphbuilder.go:56-140 | after any sequence of calls, refused ones included, the content is legal and freezes |
| BuilderRuns.BuildGraph | internal/domain/graphbuilder.go:39-197 | a run from an empty builder always freezes, into the graph of the accepted calls |
| BuilderRuns.AcceptedRunSays | internal/domain/graphbuilder.go:56-140 | after accepted calls the content is exactly what the calls said |
| BuilderRuns.CallOrderDoesNotMatter | internal/domain/graphbuilder.go:150-227 | two accepted orders of the same calls leave the same content, hence the same graph |
| GraphQueries.NodesForSubject | internal/diagnosis/graphquery.go:48-61 | every node about the subject, once: the shallower layer first, then in the order of steps and identifiers |
| GraphQueries.Subjects | internal/diagnosis/graphquery.go:72-83 | every subject that has nodes, once, in canonical order |
| GraphQueries.BlockedChain | internal/diagnosis/graphquery.go:99-127 | exactly the nodes that reach the start through blocked-by, without the start, ascending |
| GraphQueries.BlockedNodesAreSkipped | internal/diagnosis/graphquery.go:99-127 | every member of a blocked chain is a SKIPPED node of the graph |
| Siblings.ClassifySubject | internal/diagnosis/graphquery.go:191-211 | FAIL if any node failed or degraded, PASS if all passed and there is one, otherwise not measured |
| Siblings.SiblingOutcome | internal/diagnosis/graphquery.go:155-183 | the three categories of the child subjects, each decided by the worst child and told on the children's states alone, in canonical order |
| Siblings.CategoriesPartition | internal/diagnosis/graphquery.go:142-153 | every child subject is in exactly one category |
| Boundaries.BoundaryFor | internal/diagnosis/boundary.go:150-194 | a boundary exactly when the subject has a FAIL or DEGRADED node; nothing broke before its failure, nothing that worked above it comes after its last good node, and what was not measured is exactly what is UNKNOWN or SKIPPED |
| Boundaries.AllBoundaries | internal/diagnosis/boundary.go:126-139 | one boundary per broken subject, the target before the endpoints and those by reference, each saying what a boundary says |
| Boundaries.BoundaryReads | internal/diagnosis/boundary.go:92-125 | what every part of a boundary says, in terms of the states, layers and names of the graph's nodes |
| Boundaries.BoundaryIsUnique | internal/diagnosis/boundary.go:92-125 | the graph determines a subject's boundary completely |
| Boundaries.BlockedIsNoFailure | internal/diagnosis/boundary.go:70-75 | no blocked node is any boundary's first failure, and everything a boundary lists as blocked was skipped |
| Boundaries.SummaryMeetsBoundaries | internal/domain/summary.go:143-156 | some boundary is at least as shallow as the first broken layer; none is shallower exactly when nothing DEGRADED lies above it |
| Boundaries.BoundaryFinding | internal/diagnosis/failureboundary.go:138-186 | always yields a CONFIRMED finding at HIGH that cites the failure and the last good node and nothing else, filed at the failure's layer, in the wording that what else is known calls for |
| Boundaries.FailureBoundary | internal/diagnosis/failureboundary.go:114-130 | one finding per boundary in order, every reference a node of the graph |
| Bases.BasisBuilder.Freeze | internal/diagnosis/basis.go:204-268 | accepts exactly collections whose support and contradictions are nodes that were not blocked and are told apart, whose blocked ones were, and whose missing ones name steps; what it keeps is what was cited |
| Bases.AdmitConfidence | internal/diagnosis/confidence.go:116-176 | when it refuses, and when it admits HIGH, MEDIUM and LOW, each exactly; support without authority reaches MEDIUM at two citations and no further |
| Bases.MoreCitations | internal/diagnosis/confidence.go:75-99 | citing more blocked or missing evidence moves nothing, a contradiction only lowers, support beyond two moves nothing, and no number of citations reaches HIGH |
| Bases.CollectionOrderDoesNotMatter | internal/diagnosis/basis.go:270-294 | the same citations collected in any order, any number of times, freeze to one basis and are admitted at one confidence |
| Findings.NormalizeEvidenceRefs | internal/domain/finding.go:198-218 | accepts non-empty valid references and returns their set in ascending order |
| Findings.CodeReads | internal/domain/findingcode.go:74-104 | a code is valid exactly when it reads as two or more segments of capital letters and digits, the first starting with a letter |
| Findings.NewFinding | internal/domain/finding.go:128-190 | accepts exactly valid fields, references and advice; normalizes the references only |
| Findings.NewFindingEstablishesBuilt | internal/domain/finding.go:128-190 | its results satisfy the invariant, and a finding that satisfies it passes again unchanged |
| Findings.JoinsAreInjective | internal/diagnosis/converge.go:584-626 | on built findings neither rendering of references and advice loses anything |
| Findings.AdviceReads | internal/diagnosis/converge.go:604-626 | the joined advice orders lists of recommendations by the first one that differs, by action, kind name, safety name, rationale and who can collect it |
| FindingOrders.SortFindings | internal/domain/report.go:179-198 | in place: CRITICAL before ERROR before WARN before INFO, then the shallower layer, then by code, subject reference, summary and reference list; a permutation, and stable |
| FindingOrders.ReportReads | internal/domain/report.go:166-190 | the six-key comparison of two findings, said of their severities, layers and texts |
| Merging.ContentTiesAreEqual | internal/diagnosis/converge.go:547-580 | members of one group that tie in content order are the same finding |
| Merging.SortByContent | internal/diagnosis/converge.go:507-510 | whatever the unstable sort does with ties, the members come out in the one content order |
| Merging.AdviceUnionElements | internal/diagnosis/converge.go:512-528 | the union holds exactly the members' recommendations, each once |
| Merging.ContentReads | internal/diagnosis/converge.go:557-580 | the order members of a group are visited in, said of their fields |
| Merging.MergedAdviceReads | internal/diagnosis/converge.go:499-528 | a merge lists each recommendation where it is first said when its members are visited in that order |
| Merging.MergeGroup | internal/diagnosis/converge.go:425-545 | refuses exactly a group that spans claims or questions; otherwise the group's merge |
| Merging.MergeDetermined | internal/diagnosis/converge.go:150-157 | a group has one merge whatever order its members are in |
| Merging.MergeIsBuilt | internal/diagnosis/converge.go:530-544 | the merge of built findings satisfies NewFinding's invariant |
| Partitioning.CountHosts | internal/diagnosis/converge.go:382-389 | counts the keys that ask a question about the claim a silent key makes, and names the one when there is one |
| Partitioning.FoldSilent | internal/diagnosis/converge.go:369-395 | every silent bucket with exactly one host ends in it, every other bucket stays |
| Partitioning.SurvivorIsGroup | internal/diagnosis/converge.go:341-353 | what survives under a key is exactly one group of mates |
| Partitioning.PartitionByCompatibility | internal/diagnosis/converge.go:354-410 | the parts are the groups, in key order, no two of them mates, everyone housed |
| Convergence.GroupMergeDetermined | internal/diagnosis/converge.go:150-157 | a finding's group merges to one value in any permutation of the input |
| Convergence.ConvergenceIsCanonical | internal/diagnosis/converge.go:150-157 | permutations of the input, under any rule identities, converge to the identical sequence |
| Convergence.DividedKeepsQuestion | internal/diagnosis/converge.go:453-470 | where two questions are asked, every group keeps its own discriminator |
| Convergence.ConvergedIsFixed | internal/diagnosis/converge.go:173-219 | a converged list converges to itself |
| Convergence.RulePartReads | internal/diagnosis/ruleid.go:84-124 | a part of a rule identity is valid exactly when it has at most 48 characters and reads as segments of small letters and digits with a hyphen between them, the first starting with a letter |
| Convergence.RuleIDReads | internal/diagnosis/ruleid.go:63-82 | an owner and a name with one slash between them are a valid identity exactly when both are valid parts |
| Converging.GroupByIdentity | internal/diagnosis/converge.go:178-199 | refuses exactly a zero finding or an invalid rule; otherwise files every finding under its identity |
| Converging.PartIsLegal | internal/diagnosis/converge.go:359-395 | partitioning leaves one claim and at most one question per part, so no defensive refusal can be reached |
| Converging.MergeParts | internal/diagnosis/converge.go:206-215 | merges every part, without an error path |
| Converging.MergeIdentity | internal/diagnosis/converge.go:205-215 | one identity's findings become the merges of their groups, in claim order |
| Converging.Converge | internal/diagnosis/converge.go:173-219 | fails exactly on a zero finding or an invalid rule; otherwise the output is what the findings converge to: every input is spoken for, nothing is said twice, and the order is the report order, refined by subject kind, detail and question |
| ConvergenceLaws.OneHomeEach | internal/diagnosis/converge.go:354-410 | every input is in the group of exactly one output |
| ConvergedReadings.ConvergedSpeaks | internal/diagnosis/converge.go:470-545 | every input has an output with its code, subject, layer, summary and detail that cites and advises what all that belong with it do, is as severe as the severest and as sure as the surest, confirmed if one is; and every output is such a one |
| ConvergedReadings.ConvergedSaysOnce | internal/diagnosis/converge.go:341-353 | two outputs make one claim only where the inputs ask two different questions about it, and then they ask different ones |
| ConvergedReadings.ConvergedReadsInOrder | internal/diagnosis/converge.go:217-218 | every output reads strictly before the next: by severity, layer, code, reference, summary and citations, then by subject kind, detail and question |
| ConvergenceLaws.GroupConserves | internal/diagnosis/converge.go:470-545 | an output holds its group's references, recommendations, attained maximum severity and confidence; it is CONFIRMED if some member is and vantage-dependent if some member is |
| ConvergenceLaws.ConvergenceConserves | internal/diagnosis/converge.go:470-545 | the list cites the same evidence, advises the same, and reports a problem exactly when the input did |
| ConvergenceLaws.ConvergedIsReportSorted | internal/diagnosis/converge.go:217-218 | a converged list is in report order, so sorting it again changes nothing |
| ConvergenceLaws.MergingIsAssociative | internal/diagnosis/converge.go:152-157 | merging two merges is merging everything they were made of, up to the order of recommendations |
| ConvergenceLaws.UndividedIsOne | internal/diagnosis/converge.go:341-353 | a claim about which one question is asked comes out as one finding |
| ConvergenceLaws.BatchesDoNotAssociate | internal/diagnosis/converge.go:152-157 | a confirmed finding and two differing hypotheses stay three together and become one in batches |
| ConvergenceLaws.BatchWitness | internal/diagnosis/converge.go:152-157 | such a triple of valid findings exists |
| BatchLaws.HarmlessIffNotFused | internal/diagnosis/converge.go:354-410 | an earlier batch forms the groups everything together forms, if and only if no claim of it is fused |
| BatchLaws.UnfusedAgrees | internal/diagnosis/converge.go:152-157 | on a claim that is not fused, converging a batch first gives the same findings up to the order of recommendations |
| FusedLaws.MergesWithout | internal/diagnosis/converge.go:470-545 | two merges, with and without some members, are the same up to that order exactly when those members add nothing |
| FusedLaws.DividedAgree | internal/diagnosis/converge.go:354-410 | on a claim divided both times the results agree exactly when they agree under every discriminator |
| FusedLaws.FusedAgrees | internal/diagnosis/converge.go:152-157 | a fused claim comes out the same if and only if the later batch restores the discriminator that was lost and the moved findings add nothing on either side |
| BatchLaws.AgreeIsAligned | internal/diagnosis/converge.go:152-157 | two results that contain the same findings have them in the same places, since the canonical order reads no recommendation |
| FusedLaws.BatchesAgreeExactly | internal/diagnosis/converge.go:152-157 | converging a batch first gives the same list, position by position up to the order of recommendations, if and only if every claim it fuses is restored |
| FusedLaws.UnrepeatedAgreeExactly | internal/diagnosis/converge.go:152-157 | when the later batch repeats no discriminator of the earlier one, the two lists are the same if and only if nothing is fused |
| FusedLaws.RestoredWitness | internal/diagnosis/converge.go:152-157 | valid findings that are fused and restored exist, both with a silent finding that is CONFIRMED and with one that is not |
| BatchLaws.AbsorbBatch | internal/diagnosis/converge.go:425-545 | merging an earlier merge with later findings is merging them all, up to the order of recommendations |
| BatchLaws.MergeExists | internal/diagnosis/converge.go:425-545 | every legal group has a merge |
| BatchLaws.AdviceOrderDependsOnBatching | internal/diagnosis/converge.go:499-528 | three valid findings whose recommendations are listed differently when two are merged first |
| Engines.Evaluate | internal/diagnosis/engine.go:85-120 | the findings are what all rules' findings converge to, so that everything a rule returned is kept and nothing else is said; failures are the panicking rules in order |
| Engines.EveryFindingIsProduced | internal/diagnosis/engine.go:89-98 | what goes into convergence is every finding of every rule that returned, each exactly once, under its rule and in order, and nothing else |
| Engines.OutcomeKeepsAll | internal/diagnosis/engine.go:99-120 | unless a zero finding was returned, every returned finding has an output that makes its claim, cites all it cites, advises all it advises and is no less severe; and no output claims or cites what was not returned |
| Engines.ZeroLosesAll | internal/diagnosis/engine.go:103-116 | one zero finding loses every finding of the run, and the loss is named among the failures |
| Engines.FailuresArePanics | internal/diagnosis/engine.go:90-94 | the failures name exactly the rules that panicked, in order |
| Engines.ReorderingKeepsRaw | internal/diagnosis/engine.go:85-120 | the same rules in any order under any names produce the same raw findings with multiplicity |
| Engines.AssemblyCannotShow | internal/diagnosis/engine.go:40-84 | registration order and rule identities never reach the findings |
| Engines.PanicIsAbsence | internal/diagnosis/engine.go:154-161 | a panicking rule contributes what an absent one does, and is named among the failures |
| Reports.DeriveSummary | internal/domain/summary.go:123-159 | the counters count the findings of each severity and the nodes skipped and unknown, the status says whether one is ERROR or CRITICAL, and the broken layer is the shallowest that holds a FAIL |
| Reports.ValidateEvidenceRefs | internal/domain/report.go:145-156 | accepts exactly findings that cite only graph nodes |
| Reports.NewReport | internal/domain/report.go:106-142 | accepts exactly set metadata, real findings and known citations; the same findings, the severest first and in report order, with the summary of what they and the graph say |
| Reports.ReportKeepsConvergence | internal/domain/report.go:106-142 | a converged list whose rules cited nodes is accepted, kept in order, and its status answers for the raw findings |
| Identifiers.Escape | internal/probe/evidenceid.go:133-151 | replaces exactly the percent sign and the separator; the fast path agrees |
| Identifiers.EscapedJoin | internal/probe/evidenceid.go:133-151 | escaping replaces characters one by one, wherever they stand |
| Identifiers.EncodedReads | internal/probe/evidenceid.go:109-123 | escaped parts stand between slashes |
| Identifiers.UnescapeInverts | internal/probe/evidenceid.go:126-132 | a decoder reads every escaped component back |
| Identifiers.DecodeInverts | internal/probe/evidenceid.go:34-42 | splitting and unescaping an identifier gives back its components, whatever they contain |
| Identifiers.EncodedInjective | internal/probe/evidenceid.go:36-40 | distinct component lists have distinct identifiers, whatever their lengths |
| Identifiers.EncodedText | internal/probe/evidenceid.go:43-47 | components a layer accepts always make an identifier the domain accepts |
| Identifiers.NewSweepScope | internal/probe/sweepscope.go:76-95 | accepts exactly non-empty, trimmed, control-free labels |
| Identifiers.ScopedEvidenceID | internal/probe/evidenceid.go:109-123 | the identifier of the step, the scope when there is one, and the components, in that order |
| Identifiers.EvidenceIDOf | internal/probe/evidenceid.go:59-61 | an unscoped identifier carries no scope component at all |
| Identifiers.ScopedInjective | internal/probe/evidenceid.go:82-86 | two scoped identifiers are equal exactly when step, scope and every component are |
| Identifiers.UnscopedMeetsScoped | internal/probe/evidenceid.go:88-95 | an unscoped identifier equals a scoped one exactly when its first component is the scope |
| Identifiers.FixedArityKeepsApart | internal/probe/evidenceid.go:97-102 | with a fixed number of components per step the two forms never meet |
| Identifiers.VaryingArityCollides | internal/probe/evidenceid.go:92-96 | the documented collision without that precondition |
| Identifiers.HexTextInjective | internal/adapter/kafka/reachability.go:345-359 | the hexadecimal text determines the digest |
| Identifiers.HexTextReads | internal/adapter/kafka/reachability.go:345-359 | two small hexadecimal digits a byte, the high half first |
| Identifiers.AdvertisedScope | internal/adapter/kafka/reachability.go:345-359 | the label is the digest's text behind its prefix, always a valid scope, so the derivation never fails |
| Identifiers.SweepsStayApart | internal/adapter/kafka/reachability.go:266-282 | sweeps of advertisements with different digests share no identifier |
| Decimals.DecimalInjective | internal/adapter/kafka/metadata.go:356-358 | decimal text determines the number |
| Decimals.DecimalReads | internal/adapter/kafka/metadata.go:356-358 | read back the text is the number; no leading zero, and a sign exactly before a negative one |
| Advertisements.AsciiLower | internal/adapter/kafka/metadata.go:421-436 | of equal length; each of the twenty-six capitals comes out 32 further on and every other character unchanged, copying only when needed |
| Advertisements.NamesAgree | internal/adapter/kafka/metadata.go:403-414 | two names become one host exactly when, without one trailing dot each, they agree at every place or differ there by a capital ASCII letter and its small one |
| Advertisements.AddressesAgree | internal/adapter/kafka/metadata.go:407-409 | two addresses become one host exactly when they are the same address |
| Advertisements.NormalizingAgain | internal/adapter/kafka/metadata.go:403-414 | normalizing again changes nothing exactly when the host is empty or an address, or its lowered bare name is an address spelled so, or is no address and the host does not end in two dots |
| Advertisements.TwoDotsShrinkTwice | internal/adapter/kafka/metadata.go:410-412 | a name with two trailing dots is such a case |
| Advertisements.AdvertisedRefInjective | internal/adapter/kafka/metadata.go:444-460 | the rendered endpoint determines host and port, brackets included |
| Advertisements.KeyNamesEntry | internal/adapter/kafka/metadata.go:354-362 | the deduplication key is equal exactly for entries equal in everything |
| Advertisements.AdvertisementsOf | internal/adapter/kafka/metadata.go:333-365 | lists, in the broker's order, each entry where it was first said, no two of one node, host and port, and every one whose endpoint can be written; counts what cannot be said |
| Advertisements.NormalizeAdvertisement | internal/adapter/kafka/metadata.go:384-400 | the broker's node and port, its host normalized, usable exactly with a host and a port from 1 to 65535, and the endpoint's text with an IPv6 host in brackets |
| Advertisements.OneNameOneEntry | internal/adapter/kafka/metadata.go:333-365 | two brokers of one node and port whose names differ only in ASCII case and a trailing dot make exactly one entry |
| Advertisements.EveryEntryAccounted | internal/adapter/kafka/metadata.go:324-332 | entries are listed plus repeats plus unrepresentable, and every representable one is listed |
| Recording.IdsNeverCollide | internal/adapter/kafka/metadata.go:612-620 | two advertisements share an identifier exactly when they are one advertisement of one path |
| Recording.AdvertisementEvidence | internal/adapter/kafka/metadata.go:627-658 | a topology node about the endpoint: PASS when it is usable, otherwise FAIL for what the peer answered; no refusal for control-free paths |
| Recording.Record | internal/adapter/kafka/apiversions.go:398-406 | succeeds exactly when the node is new and its parent already present |
| Recording.RecordAdvertisements | internal/adapter/kafka/metadata.go:570-595 | with no advertisement recorded before, recording succeeds: one new node each, derived from the exchange, saying what the advertisement does; each broker handed on with its own host and port; nothing else changed |
| Recording.OneNodeEach | internal/adapter/kafka/metadata.go:570-595 | the graph grows by exactly the number of distinct advertisements |
| Hosts.ParseHost | internal/probe/host.go:95-115 | refuses exactly the empty host and an address with a zone; anything the parser rejects is a name |
| Transports.SweepAddress | internal/probe/transport/run.go:190-256 | one address leaves its connection, skipped with the budget's class when the context was done, and the handshake over it when TLS was asked for; refused exactly for a repeated identifier or an absent parent |
| Transports.SweepIsValid | internal/probe/transport/run.go:45-81 | every step of a sweep makes legal evidence, no two share an identifier, and each is derived from an earlier one |
| Transports.EveryAddressOnce | internal/probe/transport/run.go:69-256 | every address is tried once and in order: its connection says what the network answered or that the context was done, its handshake what followed |
| Transports.Run | internal/probe/transport/run.go:45-444 | runs exactly for a measurable host under a known parent with new identifiers; the builder then holds what it held and the chain, and the context is spent by one check per address |
| SweepGraphs.Swept | internal/probe/transport/run.go:425-444 | every step is a node under the one it came from, a skipped handshake blocked by its connection, and nothing else is touched |
| Reachability.NewScopeIsFresh | internal/adapter/kafka/reachability.go:266-282 | a scope not used before gives identifiers the graph does not hold, by scope and by arity |
| Reachability.HealthyIsClean | internal/adapter/kafka/reachability.go:214-264 | on a healthy graph every sweep there is a host for finds its identifiers new and its advertisement present |
| Measuring.MeasureAdvertised | internal/adapter/kafka/reachability.go:170-264 | on a healthy graph it fails if and only if a broker it considers is usable and has an unmeasurable host; otherwise the counters, the context and the whole graph are a function of the inputs, and the graph reads as the sweep of every considered broker's own host and port, through TLS exactly when the run asks for it |
| SweepReadings.PlacedReads | internal/probe/transport/run.go:84-256 | a recorded sweep as nodes and edges: a lookup for a name and none for an address, one connection per answer with what the network said or that the budget was spent, and beneath each exactly one handshake with TLS, run over a passed connection and otherwise skipped and blocked, and none without |
| SweepReadings.FreshSweepIsPlaced | internal/probe/transport/run.go:425-444 | the steps of a sweep that was just recorded hang alone under a node that had nothing beneath it |
| Reachability.SweepsLeave | internal/adapter/kafka/reachability.go:112-169 | every step of every sweep is recorded, what was there before is untouched, and what is new hangs only under measured advertisements |
| Topologies.BootstrapSweepKeeps | internal/probe/evidenceid.go:97-102 | a sweep without a scope leaves the graph as unswept and unadvertised as it found it |
| Topologies.OtherStepKeeps | internal/probe/evidenceid.go:97-102 | so does the node any other step mints without a scope |
| Topologies.RecordedIsHealthy | internal/adapter/kafka/reachability.go:214-233 | whatever the brokers said, recording their advertisements leaves exactly the healthy graph that measuring needs |
| Topologies.DescribeTopology | internal/app/kafka.go:489-536 | listing, recording and measuring one response fails if and only if a considered broker is usable and unmeasurable |
| Refusals.UnmeasurableExactly | internal/probe/host.go:104-111 | a listed usable advertisement is unmeasurable exactly for an address with a zone or a name with a space, and is a PASS node all the same |
| Refusals.SpacedBroker | internal/probe/dns/lookup.go:100-108 | a broker that advertises "broker 1" is listed as usable and makes the run fail |
| Refusals.ZonedBroker | internal/probe/host.go:104-111 | so does one that advertises an address with a zone |
| Topologies.MissedOnlyWhenDone | internal/probe/transport/run.go:198-204 | while the context is alive no connection was skipped for want of it |
| Topologies.EarlyStopIsVisible | internal/adapter/kafka/reachability.go:160-169 | a usable advertisement the context did not reach makes the run incomplete from the graph alone |
| Completeness.ChildrenAt | internal/app/kafkacompleteness.go:323-333 | the children that record a step, each once |
| Completeness.SingleChild | internal/app/kafkacompleteness.go:343-351 | a node exactly when one child records the step |
| Completeness.ReadPath | internal/app/kafkacompleteness.go:251-286 | refuses a second handshake; otherwise the path agrees with the graph on being reached and on being unmeasured |
| Completeness.AdvertisedConnections | internal/app/kafkacompleteness.go:199-230 | tells a failed lookup, a sweep's connections and every other shape apart, exactly |
| Completeness.AdvertisementResolved | internal/app/kafkacompleteness.go:118-161 | true exactly when the lookup failed, some path was reached, or every path was measured |
| Completeness.MetadataNode | internal/app/kafkacompleteness.go:99-106 | the first exchange in graph order, or none when there is none |
| Completeness.AnyUnknownExec | internal/app/kafkacompleteness.go:313-320 | finds a locally stopped node exactly when there is one |
| Completeness.IncompleteKafkaRun | internal/app/kafkacompleteness.go:58-90 | incomplete exactly when the context is done, a passed advertisement is not decided by its children, or without a passed exchange a node was cut off by a local timeout or a cancellation |
| Completeness.ResolvedReads | internal/app/kafkacompleteness.go:118-161 | resolved, read off the children: a lone failed lookup, or connections of which none has two handshakes and one got through or all ran out |
| CompletenessLaws.ResolvedVerdictStands | internal/app/kafkacompleteness.go:29-42 | a resolved advertisement none of whose addresses was missed, or one of which was reached, keeps its verdict however what was cut short had ended |
| CompletenessLaws.MissedVerdictIsOpen | internal/app/kafkacompleteness.go:29-42 | any other recognized sweep would have been reachable had the rest succeeded |
| CompletenessLaws.ResolvedIffVerdictStands | internal/app/kafkacompleteness.go:29-51 | the verdict of a recognized sweep stands if and only if it is resolved and no connection is unattempted or one is reached |
| CompletenessLaws.CompletenessIsMonotone | internal/app/kafkacompleteness.go:58-90 | on every graph, replacing what was stopped by any outcome never makes a complete run incomplete or changes a promised verdict |
| CompletenessLaws.StaysCompleteExactly | internal/app/kafkacompleteness.go:58-90 | a complete run stays complete however everything that was cut short had ended, untried addresses included, if and only if none was missed where it matters |
| CompletenessLaws.ChildlessIsUnresolved | internal/app/kafkacompleteness.go:221-228 | an advertisement with nothing beneath it is unresolved |
| CompletenessLaws.SeveralLiteralConnectionsResolve | internal/app/kafkacompleteness.go:221-230 | several connections under a literal address are one sweep: resolved exactly when they are settled |
| SweepShapes.NamedShape | internal/probe/transport/run.go:84-145 | in the graph a name's sweep is one lookup under its advertisement with every connection beneath it |
| SweepShapes.ShapeIsRead | internal/probe/transport/run.go:258-372 | every recorded sweep has at most one handshake over a connection, run once it is established and skipped otherwise |
| SweepPlaces.SweepIsPlaced | internal/adapter/kafka/reachability.go:266-282 | nothing but its own steps hangs under an advertisement or under its steps |
| Verdicts.SweepVerdict | internal/app/kafkacompleteness.go:118-161 | a sweep as the chain records it is resolved exactly when its lookup was not cut short and nothing else that was could change its verdict |
| Verdicts.CompleteIffVerdictsStand | internal/app/kafkacompleteness.go:58-90 | a run whose context outlived it is complete if and only if every promised lookup ended and every promised verdict stands |
| Verdicts.ProducedNoneMissed | internal/probe/transport/run.go:198-204 | a run whose context outlived its measurements missed no address |
| Verdicts.DiagnoseTopology | internal/app/kafka.go:211-260 | from the response to the verdict: refused exactly for an unmeasurable broker, otherwise the graph is what recording and measuring leave, reads as the sweeps of the brokers come to, and is incomplete exactly when the context is done or a promised verdict is open |
| KafkaRuns.RecordStep | internal/adapter/kafka/saslauthenticate.go:590-610 | a stage's node is accepted exactly when it is new, what it derives from and what blocks it are there, and only a SKIPPED node is blocked; then it derives from and is blocked by exactly what it names |
| KafkaRuns.RecordSteps | internal/adapter/kafka/apiversions.go:398-406 | every node of a stage is recorded, or the first that does not fit ends the run |
| KafkaRuns.NotedHolds | internal/adapter/kafka/apiversions.go:398-406 | nodes that fit are all there afterwards with their own parent and blocker, nothing before them changed, and nothing else was added |
| KafkaRuns.BootstrapKeeps | internal/app/kafka.go:332-346 | the bootstrap sweep leaves the graph fit for the stages, and misses an address only when the context is done |
| KafkaRuns.BootstrapReads | internal/app/kafka.go:332-346 | after the bootstrap sweep the graph reads as the sweep of the requested host and port |
| KafkaRuns.SessionAsks | internal/app/kafka.go:489-514 | the exchange that was answered is the only one, and without an answer none passed |
| KafkaRuns.ToldIsShown | internal/app/kafka.go:373-536 | the frozen graph shows every step of discovery, and every step of the session exactly when the context was alive for the credential; a run that was over adds nothing beyond discovery |
| KafkaRuns.DeliveredKeeps | internal/app/kafka.go:489-536 | recording and measuring an answer leave every earlier node, what it derives from and what blocks it as they were |
| KafkaRuns.DiagnoseStages | internal/app/kafka.go:373-536 | the stages end in an error exactly when a node does not fit or a considered broker is unmeasurable; otherwise the graph holds what was recorded and measured and nothing else, every step with its own parent and blocker |
| KafkaRuns.DiagnoseKafka | internal/app/kafka.go:211-250 | from an empty graph to the verdict: the exact condition for an error, the graph, how its sweeps read and every step a stage recorded, the moment the context is done, and incomplete exactly when it is done, a promised verdict is open, or without an answer a step was stopped |
| Witnesses.MissedAddress | internal/probe/transport/run.go:198-204 | one address failed and one never tried: resolved by the predicate, reachable had the missed one answered |
| Witnesses.MissedAddressWitness | internal/probe/transport/run.go:324-343 | such a frozen graph exists |
| Witnesses.SeveralConnectionsWitness | internal/app/kafkacompleteness.go:225-229 | a frozen graph with two connections under one address is resolved |
| Ownership.OwnedConn.TakeConn | internal/adapter/kafka/ownedconn.go:31-37 | succeeds exactly while the connection is here, and therefore at most once |
| Ownership.OwnedConn.Close | internal/adapter/kafka/ownedconn.go:41-47 | closes an owned connection once, and does nothing after that or after a transfer |
| Ownership.CloseSessions | internal/adapter/kafka/result.go:127-135 | everything still owned is closed once; afterwards nothing is owned, so closing again may change nothing |
| Ownership.Advance | internal/adapter/kafka/apiversions.go:163-199 | a taken connection goes to one new session or is closed once, on every outcome |
| Ownership.ContinueEach | internal/adapter/kafka/apiversions.go:138-155 | the loop with its deferred close: the account of every path, on success and on a refusal in the middle |
| Ownership.Run | internal/adapter/kafka/apiversions.go:120-156 | after success the connection of a path that was available is held by the result and open exactly when its exchange completed, whatever the error code, and closed once otherwise |
| Ownership.SASLHandshake | internal/adapter/kafka/saslhandshake.go:104-184 | after success the connection of a session that was available is held by the result and open exactly when its exchange completed with error code zero, and closed once otherwise |
| Ownership.OneOwnerAfterSuccess | internal/adapter/kafka/apiversions.go:120-199 | afterwards a connection is open in exactly one session, or in none and closed once |
| Ownership.NoLeakAfterRefusal | internal/adapter/kafka/apiversions.go:138-155 | after a refusal each connection is closed once or untouched at the path not reached |
| Ownership.Authenticate | internal/adapter/kafka/saslauthenticate.go:166-298 | the session is consumed in every outcome; only an accepted credential keeps the connection open, otherwise it is closed once |
| Ownership.Metadata | internal/adapter/kafka/metadata.go:190-256 | the connection is handed back only when the exchange completed and was recorded, otherwise closed once |
| Ownership.DescribeTopology | internal/app/kafka.go:489-536 | the connection the description was asked over ends closed once, errors included |
| Ownership.SelectBootstrapPath | internal/app/kafka.go:617-619 | the session with the least address, the first of them on a tie, or none when there is none |
| Ownership.ContinueOneBootstrapPath | internal/app/kafka.go:406-478 | at most the least-address session meets the credential; in every outcome each connection ends closed exactly once, and the errors are exact |
| Selection.CanonicalMinimum | internal/app/select.go:107-118 | the first admitted candidate with the least address, or none |
| Selection.CanonicalFirst | internal/app/select.go:93-97 | the least address of one class, or none when the class is empty |
| Selection.SelectPath | internal/app/select.go:81-89 | the preferred class decides whenever it has a member |
| Selection.SelectionIsStable | internal/app/select.go:74-80 | the same address for every arrangement of the candidates |

## Left out

- Attributes, timestamps and elapsed times of recorded evidence: validated by NewEvidence, read by none of the properties here, and so not carried.
- JSON, String methods, exit codes, flags, usage text and the command line: presentation.
- DNS, TCP, TLS, the Kafka wire format and the classification of their errors: their outcomes are parameters with what each probe's classification guarantees, and a lookup's answers are distinct addresses.
- Error texts: an operation's refusal is kept, its wording is not.
- Invalid UTF-8: text is a sequence of scalar values, so the source's validity checks cannot fail.
- Enumeration values outside their declared range: the datatypes have none.
- Failure classes the modelled code does not name: one constructor with an ordinal stands for them.
- netip parsing and comparison: the parser is a function parameter with what netip guarantees about it, and addresses are compared through a total order given as a parameter.
- SHA-256: a function parameter that tells apart the identifiers of the response's own entries.
- Unbounded memory and integer width: only the int32 node identifiers and ports have a range that matters, and they have it.
- Go's slices and maps as shared storage: lists and maps are values held in fields and reassigned, so aliasing of a returned slice is not modelled; arrays are used where the source sorts in place.
- The four connection-holding session types: one class stands for them, so the compile-time order of the steps is not modelled.
- The channel, mechanism and channel evidence a session copies from the path it continues: endpoint, address and evidence identifier are kept.
- Boundaries.BoundaryFinding: the fixed English wording is a parameter that is valid text; which of the wordings applies is kept.
- Ownership.ContinueEach: whether evidence could be built and recorded is a parameter of each exchange; recording itself is proved separately.
- Nil contexts, builders, resolvers and dialers, negative step timeouts and contradictory TLS version bounds: refusals of a caller's own defects that no broker's answer can cause.
- The connections a sweep hands to its caller: MeasureAdvertised closes them at once; the ownership of a bootstrap sweep's connections starts at its paths.
- What the protocol stages and the Metadata exchange observe: their nodes, with the parents and blockers they name, are parameters, of which SoundProtocol says what the stages' code makes of them; DiagnoseKafka records them and proves the rest.
- DiagnoseKafka's checks of its parameters and its report: the parameters are valid, and building the report is proved separately.
- Rule packages, PostgreSQL, Redis, RabbitMQ and Kubernetes composition, redaction, version detection: not part of this model.
- Run report counters and progress output: bookkeeping that no decision reads.
