# Sisyphus Harness: a Dafny model

Sisyphus Harness is a control plane for coding agents. This project models the five
parts of it that carry unbounded promises, and proves those promises for every input,
every run and every interleaving.

* **Knowledge dependency graph** (`DependencyGraph`, `KnowledgeModel`,
  `KnowledgeIntegrity`, `KnowledgeStore`, `KnowledgeHistory`, `GraphPaths`, `PathOrder`,
  `KnowledgeResults`, `KnowledgeReadContext`, `KnowledgeDependencies`, `KnowledgeLimits`,
  `KnowledgeSearch`, `KnowledgePlanning`, `KnowledgeRanking`). An insert-only store
  of nodes and typed edges keeps its dependency edges acyclic. Two guards, a
  breadth-first search before each insert and a topological count over the whole store,
  are proved to agree. On top of the store sit level-by-level traversals with least-key
  shortest paths and an exact `truncated` flag, and three read operations whose closing
  revision check makes many separate reads equal to reading one snapshot, and whose
  results are accepted by their own constructors.
* **Evidence contracts** (`EvidenceExpression`, `EvidenceLogic`, `EvidenceEvaluation`,
  `EvidenceTruth`).
  A parser with a threaded node counter and two stack walks are matched to recursive
  definitions; the linter makes expressions read-once, and for those the three-valued
  verdict is exact; verdicts move only one way as observations change.
* **Leases, attempts and outcomes** (`Formats`, `ControlState`, `ControlRuns`,
  `ControlHistory`, `ControlPublications`, `ControlDatabase`, `ControlOutcomes`). Jobs, finished attempts and outcomes change only
  through transactions; the results are about every run of them, with Control sessions
  that read, adjudicate and publish in separate transactions.
* **Agent runs** (`Compaction`, `AgentState`, `AgentTrace`, `AgentRuns`, `AgentEndings`,
  `AgentEvents`, `AgentCriteria`, `AgentLoop`).
  Every counter of the run state is recomputed from the record of the steps; the cadence,
  stagnation and cycle rules, what success means, and the history summary follow.
* **Receipts** (`VerificationReceipts`, `ReceiptObservations`, `ReceiptFacts`). The host verifier builds a
  chain of workspace states, the binding check accepts it exactly when nothing but
  commands changed the workspace, and the adapter's facts are always usable by the
  evaluator.

`Options`, `Collections` and `Ordering` hold what several parts use.

What an operation does is specified by a function that the method implements and the main
results are about. What that function means is then stated without it: `PathOrder` and
`KnowledgeRanking` say what the orders compare, `KnowledgeHistory`, `ControlHistory` and
`ControlPublications` read every reply off the events before it, `EvidenceTruth` is the
truth table of the operators, `AgentEndings` and `AgentEvents` say from the record alone why
a run ends and what it writes, and `ReceiptFacts` names the facts and their values.

## How the source is modelled

* A digest stands for the content it covers, so digests are injective; a digest over a
  sorted list stands for its multiset. Identifiers of knowledge nodes are natural
  numbers; job, run, clause and observation identifiers are strings, ordered by code
  point where the source sorts them.
* A database transaction is one atomic step that commits or changes nothing. Other
  writers are a schedule of transactions, of which any number commit before each read of
  the knowledge index and before each transaction of a Control session.
* A loop that takes elements in sorted order, where the result does not depend on the
  order, takes them in an arbitrary order here, so the results hold for every order.
  Where the order shows in the result, the model sorts by the source's key.
* The two level-by-level traversals share one loop (`LevelPaths`); the dependency
  traversal counts its start outside the limit, so its allowance is one larger. The depth
  bound of three is a parameter of the traversals and is enforced where the services
  enforce it.
* The model provider, tools, clocks, the adjudicator, process captures and workspace
  readings are arbitrary inputs. The verifier called by an agent run is one that reports
  an outcome for each requested command, as the local verifier does
  (`src/sisyphus_harness/verifier.py:67-169`, one result per command at 134-143); the
  receipts modelled are those of the Docker host verifier.
* A search, an inspection or a plan is put through the checks of its constructors
  (`KnowledgeResults`); a result that fails them makes the operation raise
  (`ResultRefused`). The limits of the services are arbitrary numbers; under those of the
  knowledge graph (`GRAPH_LIMITS`) no constructor ever refuses
  (`KnowledgeLimits.GraphLimitsNeverRefuse`).
* A command result copies arguments and criteria that the constructor of the command
  specification has checked already, and workspace states that are digests; what its own
  constructor checks beyond that is `ConsistentResult`.
* Profiles have at least one command and unique command names, contracts have unique
  clause identifiers, and attempts carry the identifier of their job and number: what the
  constructors of those records enforce is a precondition or a subset type here.

## What the source does not promise

* `complete` and `fail` compare the worker's name and the lease but not the attempt
  number, so a worker whose lease ran out can end the newer claim of a namesake.
  `StaleNamesakeCompletes` gives such a run, and `FinishAcceptedIff` says exactly when the
  calls are accepted. A worker that calls them ends its own attempt, and not a later one,
  exactly when its name was not used again for a later claim (`FinishEndsOwnAttemptIff`).
  `finish_attempt` is fenced (`AcceptedAttemptIsFenced`).
* Without the rule against repeated references the three-valued verdict would be sound
  but not exact (`RepeatedReferenceIsInexact`).
* `not_equals` is meant for values of one schema, but on lists it compares item types only
  as far as the shorter list goes. `NotEqualsMissesLaterTypes` gives two lists of different
  item types that are called unequal rather than mistyped; `NotEqualsOnLists` says that
  this happens exactly when the item types of one list continue those of the other.
* Coverage of an acceptance criterion strips the texts that commands list, the reported
  status of the criterion does not. `CoveredYetNotRun` gives a covered criterion that is
  still reported as not run; `SuccessShowsPassedIff` says that a successful run ends with
  a criterion reported as passed exactly when some command lists it to the letter.
* The services accept any limit on dependencies, but no inspection of more than a thousand
  can be built. Some call of a permitted depth is refused by its constructor exactly when
  the limit is above a thousand (`EverRefusedIff`); `LargeLimitIsRefused` gives a sound
  store and a task for which every such limit fails.
* Not every capture becomes a receipt: a command result rejects an error text that holds a
  NUL. `NulLeavesNoResult` gives a command that cannot be started and writes a single NUL;
  `LaunchErrorIsTextIff` says when the text is accepted, in terms of what the container
  wrote, and `Execute` returns a result only if all errors can be reported.

## Model

| member | source | states |
|---|---|---|
| KnowledgeIntegrity.DependencyEdgesContainCycle | src/sisyphus_harness/infra/knowledge_integrity.py:115-143 | true exactly when the dependency edges contain a directed cycle, for every edge list with parallel edges and whatever order ready nodes are taken in |
| KnowledgeIntegrity.CountRemovable | src/sisyphus_harness/infra/knowledge_integrity.py:129-143 | the removal loop counts every node exactly when the graph is acyclic |
| KnowledgeIntegrity.BuildTables | src/sisyphus_harness/infra/knowledge_integrity.py:121-128 | the tables list one target per edge and count one arrival per edge, so parallel edges count twice on both sides |
| KnowledgeIntegrity.ReleaseTargets | src/sisyphus_harness/infra/knowledge_integrity.py:136-141 | lowering the counts of a removed node's targets leaves exactly the remaining in-degrees and makes a node ready only when its count reaches zero |
| KnowledgeIntegrity.RemovalLowersInDegree | src/sisyphus_harness/infra/knowledge_integrity.py:136-139 | removing a node lowers each in-degree by the number of parallel arcs from it |
| KnowledgeIntegrity.AllRemovedIffAcyclic | src/sisyphus_harness/infra/knowledge_integrity.py:143-143 | when nothing is ready any more, nodes remain exactly if there is a cycle |
| DependencyGraph.EveryNodePrecededImpliesCycle | src/sisyphus_harness/infra/knowledge_integrity.py:129-143 | a finite nonempty set in which every node has a predecessor inside contains a cycle: the pigeonhole step behind the count |
| DependencyGraph.NewArcClosesCycleIff | src/sisyphus_harness/infra/knowledge_projection.py:117-124 | adding an arc to an acyclic graph closes a cycle exactly when its source was reachable from its target, which is what lets the search stand in for the count |
| KnowledgeStore.DependencyReaches | src/sisyphus_harness/infra/knowledge_projection.py:222-257 | the breadth-first search ends and answers reachability along dependency edges exactly |
| KnowledgeStore.CheckIntegrity | src/sisyphus_harness/infra/knowledge_integrity.py:17-100 | the whole-store check accepts exactly the stores whose rows are filed under their keys, whose edges have stored endpoints, whose dependencies join tasks acyclically and whose term table repeats the nodes |
| KnowledgeStore.KnowledgeIndex.PutNode | src/sisyphus_harness/infra/knowledge_projection.py:31-87 | reply and new store of a node write: inserted once, unchanged when repeated, refused on other content, nothing changed on error |
| KnowledgeStore.KnowledgeIndex.PutEdge | src/sisyphus_harness/infra/knowledge_projection.py:89-103 | reply and new store of a non-dependency edge write |
| KnowledgeStore.KnowledgeIndex.PutDependencyEdge | src/sisyphus_harness/infra/knowledge_projection.py:105-127 | a valid dependency edge that is not stored gets CYCLE exactly when it would close a cycle, and otherwise is inserted: the check after the insert never rejects |
| KnowledgeStore.KnowledgeIndex.InsertChecked | src/sisyphus_harness/infra/knowledge_projection.py:83-86 | an insert that breaks integrity is rolled back |
| KnowledgeStore.WriteKeepsIntegrity | src/sisyphus_harness/infra/knowledge_projection.py:31-127 | every write keeps the whole-store invariant and every stored record |
| KnowledgeStore.EveryReachableStoreHasIntegrity | src/sisyphus_harness/infra/knowledge_projection.py:31-127 | every store reachable by any writes is sound and acyclic, and extends each of its earlier states |
| KnowledgeStore.ExtendsAntisymmetric | src/sisyphus_harness/infra/knowledge_projection.py:31-127 | insert-only histories cannot leave a store and come back to it, so no A-B-A change is possible |
| KnowledgeHistory.StoredIffInserted | src/sisyphus_harness/infra/knowledge_projection.py:31-127 | after any writes to an empty index a record is stored, as written, exactly if some write of it was answered INSERTED |
| KnowledgeHistory.KeyIsTaken | src/sisyphus_harness/infra/knowledge_projection.py:43-184 | over all histories: a write is answered UNCHANGED exactly if the same record was inserted before, and with a conflict exactly if other content was inserted under its key |
| KnowledgeHistory.RefusedIff | src/sisyphus_harness/infra/knowledge_projection.py:91-158 | over all histories: the wrong writer, a missing endpoint and an endpoint that is no task are reported exactly when the edge type or the inserts so far call for it, and the index is never found corrupt |
| KnowledgeHistory.CycleIff | src/sisyphus_harness/infra/knowledge_projection.py:112-124 | over all histories: CYCLE exactly for a new edge between stored tasks whose target already depends on its source |
| KnowledgeHistory.ArcsAreInserted | src/sisyphus_harness/infra/knowledge_projection.py:105-127 | the dependency graph of an index has the arcs of the dependency edges inserted, and no others |
| KnowledgeHistory.NewRecordIsKept | src/sisyphus_harness/infra/knowledge_projection.py:31-127 | a valid new record is inserted and stays stored under any later writes, all of which find its key taken |
| KnowledgeStore.KnowledgeIndex.OtherWriters | src/sisyphus_harness/knowledge_read_context.py:46-59 | any transactions of other writers may commit before a read; the store stays sound and only grows |
| KnowledgeStore.KnowledgeIndex.TermScores | src/sisyphus_harness/infra/knowledge_queries.py:63-131 | with writers committing between the two reads of every node, the cross-check of term rows against node payloads never trips for stored nodes, and the scores are those of the store at the start |
| GraphPaths.KeyTotal | src/sisyphus_harness/knowledge_read_context.py:21-30 | the deterministic key orders any two paths, so the least candidate does not depend on the order of meeting them |
| GraphPaths.KeyTransitive | src/sisyphus_harness/knowledge_read_context.py:21-30 | the key order is transitive |
| GraphPaths.KeyExtends | src/sisyphus_harness/knowledge_read_context.py:76-92 | extending two equally long paths by the same step keeps their order, so least paths extend to least paths |
| GraphPaths.NextLevel | src/sisyphus_harness/knowledge_read_context.py:71-102 | committing one level's proposals turns the least shortest paths of one depth into those of the next |
| GraphPaths.ProposalIsLeast | src/sisyphus_harness/knowledge_read_context.py:80-98 | no path of the new length to a new node has a smaller key than its proposal |
| GraphPaths.EmptyFrontierIsFinal | src/sisyphus_harness/knowledge_read_context.py:99-100 | a level without proposals may end the traversal: deeper levels would add nothing |
| GraphPaths.BallIsWithinDepth | src/sisyphus_harness/knowledge_read_context.py:61-103 | the nodes reached level by level are exactly those with a path of at most that length |
| GraphPaths.LeastPathUnique | src/sisyphus_harness/knowledge_read_context.py:21-30 | a node has only one shortest path of least key |
| GraphPaths.LeastPathIsSimple | src/sisyphus_harness/contracts/knowledge.py:840-841 | a least path never comes back to a node: cutting out the loop would give a shorter one |
| PathOrder.LeastPathIsFirst | src/sisyphus_harness/knowledge_read_context.py:21-30 | a path of least key is shortest, and against any other path of that length it has the smaller node identifier where the nodes first differ, or, with the same nodes, the earlier step where the steps first differ: smaller edge type name, then backward before forward, then smaller digest |
| PathOrder.LinkedIff | src/sisyphus_harness/knowledge_read_context.py:162-224 | nodes are neighbours exactly if a stored edge joins them either way round, and direct dependencies exactly if a stored `depends_on` or `requires` edge leads from one to the other |
| KnowledgeResults.LeastPathAcceptedIff | src/sisyphus_harness/contracts/knowledge.py:820-866 | the path check accepts a least path to another node exactly when it has at most three steps: nodes differ, steps connect, and dependency paths only go forward along dependencies |
| KnowledgeResults.MatchedTerms | src/sisyphus_harness/contracts/knowledge.py:884-899 | the terms that a normalised query matches are exactly those in both the query and the node, with their weights there; they are sorted and unique, and their weights add up to the lexical score |
| KnowledgeResults.ScoreIsAccepted | src/sisyphus_harness/contracts/knowledge.py:869-904 | the score check accepts the score of every node against every query of at most 128 terms |
| KnowledgeResults.InspectionReasons | src/sisyphus_harness/knowledge_dependencies.py:84-92 | the reasons of an accepted inspection name exactly the dependencies that are not COMPLETED, each with its status, and the truncation depth exactly if it was truncated |
| KnowledgeResults.UnmetInOrder | src/sisyphus_harness/knowledge_dependencies.py:84-88 | the reasons come in the order of the dependencies |
| KnowledgeResults.CandidateReasons | src/sisyphus_harness/contracts/knowledge.py:637-650 | a candidate adds its own status exactly if that is not READY, and nothing else |
| KnowledgeReadContext.MergeLinks | src/sisyphus_harness/knowledge_read_context.py:80-98 | folding in one node's links keeps, for every new node, the least candidate met, or trips the limit because too many new nodes were met |
| KnowledgeReadContext.ReadContext.constructor | src/sisyphus_harness/knowledge_read_context.py:36-48 | a read operation opens on the current revision with empty caches |
| KnowledgeReadContext.ReadContext.NoWayBack | src/sisyphus_harness/knowledge_read_context.py:156-160 | a store that is the opening revision now has been it ever since the operation opened |
| KnowledgeReadContext.ReadContext.RequiredNode | src/sisyphus_harness/knowledge_read_context.py:50-59 | a cached or read node is that of the opening revision, as long as that still is the store |
| KnowledgeReadContext.ReadContext.EdgesFor | src/sisyphus_harness/knowledge_read_context.py:226-231 | cached or read edges are those of the opening revision, as long as that still is the store |
| KnowledgeReadContext.ReadContext.StableRevision | src/sisyphus_harness/knowledge_read_context.py:156-160 | the closing comparison holds exactly when nothing was committed since the operation opened |
| KnowledgeReadContext.ReadContext.LevelPaths | src/sisyphus_harness/knowledge_read_context.py:61-103 | with reads interleaved with writers: on an unchanged store the level loop yields least shortest paths to the ball of the depth, or an overflow that the ball really has |
| KnowledgeReadContext.ReadContext.ReachablePaths | src/sisyphus_harness/knowledge_read_context.py:61-103 | exactly the nodes within the depth, each with a shortest path that comes first among the shortest in node identifiers and then in steps; an error exactly when more than the permitted number of nodes lie in that ball |
| KnowledgeReadContext.ReadContext.DependencyPathsOf | src/sisyphus_harness/knowledge_read_context.py:105-154 | exactly the dependencies within the depth, each with the shortest path that comes first in the same order; `truncated` exactly when that is not the full transitive closure; an error exactly when there are too many |
| KnowledgeReadContext.LeavesIffBallGrows | src/sisyphus_harness/knowledge_read_context.py:148-153 | the last frontier leads outside exactly when the next ball is larger |
| KnowledgeReadContext.TruncatedIffMissing | src/sisyphus_harness/knowledge_read_context.py:148-153 | the next ball is larger exactly when some transitive dependency, at any depth, is missing |
| KnowledgeDependencies.InspectInContext | src/sisyphus_harness/knowledge_dependencies.py:50-101 | on an unchanged store an inspection, or its error, is the one that the snapshot determines; it is refused exactly when the depth is beyond three or more than a thousand dependencies are in range |
| KnowledgeDependencies.InspectDependencies | src/sisyphus_harness/knowledge_dependencies.py:28-48 | for any limits: an inspection that is returned is that of the one snapshot that still is the store when the call ends, whatever other writers did in between, and an error of an unchanged store is that snapshot's |
| KnowledgeDependencies.InspectionAcceptedIff | src/sisyphus_harness/contracts/knowledge.py:514-581 | the constructor accepts the inspection of a snapshot exactly when the depth is a permitted one and at most a thousand dependencies lie within it |
| KnowledgeDependencies.DependencyCount | src/sisyphus_harness/contracts/knowledge.py:535-560 | an inspection lists every node of the dependency ball but the task, each once |
| KnowledgeLimits.EverRefusedIff | src/sisyphus_harness/knowledge_graph.py:22-24 | some inspection of a permitted depth in some sound store is refused by its constructor exactly when the service's limit is above a thousand |
| KnowledgeLimits.LargeLimitIsRefused | src/sisyphus_harness/contracts/knowledge.py:535-538 | a sound store with 1001 direct dependencies of one task, whose inspection is refused under every larger limit |
| KnowledgeLimits.StarIsSound | src/sisyphus_harness/infra/knowledge_integrity.py:17-100 | a task that depends directly on any number of others makes a sound store |
| KnowledgeDependencies.AllSatisfiedIff | src/sisyphus_harness/knowledge_dependencies.py:81-101 | `all_satisfied` exactly when every transitive dependency at any depth is COMPLETED and within the depth bound |
| KnowledgeDependencies.InspectionUnique | src/sisyphus_harness/knowledge_dependencies.py:66-101 | a snapshot determines the inspection: order, paths, statuses, reasons |
| KnowledgeRanking.NearerDependenciesFirst | src/sisyphus_harness/knowledge_dependencies.py:66-68 | dependencies are listed by depth and then by identifier |
| KnowledgeDependencies.LinkedNodeIsStored | src/sisyphus_harness/infra/knowledge_integrity.py:62-84 | in a sound store every node on a path is stored, and every dependency is a task |
| KnowledgeSearch.Search | src/sisyphus_harness/knowledge_search.py:27-90 | hits that are returned are those of the one snapshot that still is the store when the call ends; errors of an unchanged store are that snapshot's |
| KnowledgeSearch.SearchUnique | src/sisyphus_harness/knowledge_search.py:50-90 | a snapshot determines the hits, their scores and their order |
| KnowledgeSearch.HitIsAccepted | src/sisyphus_harness/contracts/knowledge.py:422-476 | the constructor accepts every hit of a search within depth three and 128 terms |
| KnowledgeRanking.HitsIff | src/sisyphus_harness/knowledge_search.py:49-50 | a node is a hit exactly if it is another stored node within the depth that has a term of the query |
| KnowledgeRanking.SearchReturnsTheBest | src/sisyphus_harness/knowledge_search.py:81-90 | the listed hits are ordered by higher total, then smaller depth, then smaller identifier, and a hit that is not listed was cut off by a full limit and is worse than every listed one |
| KnowledgePlanning.NextStepContext | src/sisyphus_harness/knowledge_planning.py:39-151 | for any limits: a plan that is returned is that of the one snapshot that still is the store when the call ends, and an error of an unchanged store is that snapshot's, the first in the order of the tasks |
| KnowledgePlanning.EligibleIffAdmissible | src/sisyphus_harness/knowledge_planning.py:85-96 | a candidate is eligible exactly when its task is READY and every transitive dependency is COMPLETED and within the dependency depth |
| KnowledgePlanning.AdmissibleComeFirst | src/sisyphus_harness/knowledge_planning.py:120-141 | if an ineligible candidate made the list, every admissible task stands before it: the limit cuts off no admissible task in favour of an inadmissible one |
| KnowledgeRanking.PlanListsTheBest | src/sisyphus_harness/knowledge_planning.py:58-142 | candidates are ranked from one, eligible ones first and each class by total, depth and identifier; one that is not listed was cut off by a full limit and is worse than every listed one; the plan asks for the first 128 terms of the query or of the text of its anchor |
| KnowledgePlanning.PlanUnique | src/sisyphus_harness/knowledge_planning.py:58-151 | a snapshot determines the plan |
| KnowledgePlanning.PlanIsAccepted | src/sisyphus_harness/contracts/knowledge.py:584-749 | the constructors accept every candidate and every plan: ranks, order, distinct tasks, depths, terms, scores and reasons |
| KnowledgePlanning.TasksAmong | src/sisyphus_harness/knowledge_planning.py:66-74 | the nearby tasks, or an error exactly when there are more than the candidate limit |
| Ordering.SortAscends | src/sisyphus_harness/knowledge_planning.py:132-132 | sorting entries with distinct keys puts the same entries in strictly ascending order |
| Ordering.AscendingUnique | src/sisyphus_harness/knowledge_planning.py:132-132 | there is only one ascending list of given entries |
| EvidenceExpression.ExpressionFromDict | src/sisyphus_harness/contracts/evidence_contract.py:234-236 | parsing returns only expressions that the input stands for, read kind by kind, within the limits, and it returns the printed expression exactly when that is within them |
| EvidenceExpression.ParseExpression | src/sisyphus_harness/contracts/evidence_contract.py:877-931 | from any depth and count: success exactly when the input is the wire form of a well-formed expression that still fits, with its node count added to the counter |
| EvidenceExpression.ParseChildren | src/sisyphus_harness/contracts/evidence_contract.py:898-905 | children are read in order with the counter threaded through; the list fails exactly when it denotes no expressions that fit |
| EvidenceExpression.PrintInjective | src/sisyphus_harness/contracts/evidence_contract.py:152-227 | different expressions print differently |
| EvidenceExpression.ReadsIffPrinted | src/sisyphus_harness/contracts/evidence_contract.py:877-931 | reading an object by its `kind`, with exactly the fields of that kind and children read in order, undoes printing and accepts nothing but printed well-formed expressions |
| EvidenceExpression.ValidateHardLimits | src/sisyphus_harness/contracts/evidence_contract.py:944-962 | the stack walk accepts exactly the expressions whose recursive node count and depth are within the hard limits |
| EvidenceExpression.VisitMeasures | src/sisyphus_harness/contracts/evidence_contract.py:950-962 | visiting the top of the stack moves one node from the stack's measures to the visited part |
| EvidenceEvaluation.MeasureExpression | src/sisyphus_harness/evidence_contract.py:299-326 | the linter's stack walk computes the leaves in order, the node count and the depth of the recursive definitions |
| EvidenceEvaluation.Lint | src/sisyphus_harness/evidence_contract.py:281-384 | exactly the deserved issues are reported, each characterised by the expression tree and the clauses |
| EvidenceEvaluation.LintReferences | src/sisyphus_harness/evidence_contract.py:347-371 | one pass with the seen set finds exactly the unknown and the repeated references |
| EvidenceEvaluation.BadExpectedIffNeverDecided | src/sisyphus_harness/evidence_contract.py:387-419 | the type lint rejects exactly the clauses that no observed value could decide |
| EvidenceEvaluation.LintedIsReadOnce | src/sisyphus_harness/evidence_contract.py:344-371 | a linted contract is read-once: its leaves are a permutation of its clause IDs |
| EvidenceEvaluation.OperatorLaws | src/sisyphus_harness/evidence_contract.py:540-591 | opposite comparisons are opposite, NOT_EQUALS negates EQUALS where it applies, CONTAINS is a singleton SUBSET, and only an empty list is both subset and disjoint |
| EvidenceEvaluation.NotEqualsOnLists | src/sisyphus_harness/evidence_contract.py:663-671 | on lists NOT_EQUALS reports a type mismatch exactly when neither list of item types continues the other; with equal lengths, exactly when the item types differ |
| EvidenceEvaluation.NotEqualsMissesLaterTypes | src/sisyphus_harness/evidence_contract.py:547-550 | two lists of different item types that NOT_EQUALS calls unequal |
| EvidenceEvaluation.EvaluateClauses | src/sisyphus_harness/evidence_contract.py:468-537 | one predicate evaluation per clause, in order |
| EvidenceEvaluation.ClauseResultIs | src/sisyphus_harness/evidence_contract.py:473-537 | only matching observations count and only a single one can decide a clause; what it decides is `EvidenceTruth.ClauseTruthTable` |
| EvidenceTruth.ClauseTruthTable | src/sisyphus_harness/evidence_contract.py:502-591 | a clause with one matching observation that has a value is satisfied if the types fit the operator and its relation holds, not satisfied if they fit and it does not, and a type mismatch otherwise, for all nine operators and with the reason code each time |
| EvidenceTruth.UnmatchedClause | src/sisyphus_harness/evidence_contract.py:476-503 | without a matching observation a clause is open as missing, with two or more as ambiguous |
| EvidenceTruth.UnobservedClause | src/sisyphus_harness/evidence_contract.py:504-527 | a clause whose one observation is unavailable or an error is open, and says which |
| EvidenceTruth.ClauseResultMeans | src/sisyphus_harness/evidence_contract.py:468-537 | a clause passes exactly if it is true of its one observation, fails exactly if it is decided and not true, and is open otherwise |
| EvidenceEvaluation.Evaluate | src/sisyphus_harness/evidence_contract.py:106-170 | the evaluation with its error order: too many observations, lint, duplicate IDs, then predicates and verdict; what the verdict means is `EvidenceTruth.VerdictMeans` |
| EvidenceTruth.VerdictMeans | src/sisyphus_harness/evidence_contract.py:155-170 | a completed verdict is PASS exactly if the expression is true under every valuation that agrees with the observations of the decided clauses, and FAIL exactly if it is false under every one |
| EvidenceTruth.SingleClauseVerdict | src/sisyphus_harness/evidence_contract.py:155-170 | the verdict of a contract that asks for one clause: PASS if the relation holds of the observed value, FAIL if it does not, open if nothing decides |
| EvidenceLogic.Sound | src/sisyphus_harness/evidence_contract.py:594-639 | a definite three-valued verdict holds under every true/false completion of the indeterminate clauses |
| EvidenceLogic.VerdictIsExact | src/sisyphus_harness/evidence_contract.py:594-639 | for read-once expressions PASS iff every completion is true, FAIL iff every one is false, INDETERMINATE iff there is one of each |
| EvidenceLogic.RepeatedReferenceIsInexact | src/sisyphus_harness/evidence_contract.py:347-371 | without the read-once rule the verdict is only sound: a concrete expression is INDETERMINATE although every completion is true |
| EvidenceLogic.VerdictIsMonotone | src/sisyphus_harness/evidence_contract.py:594-639 | learning more about clauses never flips a definite verdict |
| EvidenceEvaluation.CompletedVerdictIsExact | src/sisyphus_harness/evidence_contract.py:155-170 | every completed verdict of a contract is exact in this sense |
| EvidenceEvaluation.ResolvingNeverFlips | src/sisyphus_harness/evidence_contract.py:504-537 | replacing an unavailable or errored observation never flips PASS or FAIL |
| EvidenceEvaluation.AddingAnObservation | src/sisyphus_harness/evidence_contract.py:476-503 | an observation for a missing selector never flips PASS or FAIL; one for a matched selector moves the verdict only towards INDETERMINATE |
| EvidenceEvaluation.PermutationChangesNothing | src/sisyphus_harness/evidence_contract.py:263-278 | permuting the observations changes neither digest, errors, predicate evaluations nor verdict |
| Formats.AttemptIdInjective | src/sisyphus_harness/contracts/control/_validation.py:9-14 | attempt IDs never collide, for any job IDs and attempts of any number of digits |
| ControlDatabase.FindClaimable | src/sisyphus_harness/queue.py:82-95 | the job claimed is the claimable one whose text of the creation time is least, by identifier among equals; none exactly if no job is claimable |
| ControlDatabase.ControlStore.Enqueue | src/sisyphus_harness/queue.py:30-67 | reply and new tables of an enqueue: one job per idempotency key, a conflict for another request under it |
| ControlDatabase.ControlStore.Claim | src/sisyphus_harness/queue.py:69-112 | reply and new tables of a claim; there is nothing to claim exactly if no job is claimable |
| ControlDatabase.ControlStore.Heartbeat | src/sisyphus_harness/queue.py:114-148 | reply and new tables of a heartbeat |
| ControlDatabase.ControlStore.Finish | src/sisyphus_harness/queue.py:269-318 | reply and new tables of `complete` and `fail`: an accepted `complete` leaves the job COMPLETED and an accepted `fail` leaves it FAILED, with the result that was passed, and nothing else changed |
| ControlDatabase.ControlStore.FinishAttempt | src/sisyphus_harness/queue.py:182-259 | reply and new tables of a finished attempt; its insert never meets a uniqueness constraint |
| ControlDatabase.ControlStore.CommitAttempt | src/sisyphus_harness/queue.py:212-252 | job update and attempt insert commit together or not at all |
| ControlState.FinishedRowIsNew | src/sisyphus_harness/database.py:40-53 | an accepted attempt is new under primary key, attempt ID and digest |
| ControlState.StepIsSafe | src/sisyphus_harness/queue.py:30-318 | every transaction keeps the invariant that ties finished attempts and outcomes to completed jobs, and only lets final rows grow |
| ControlRuns.EveryRunKeepsInv | src/sisyphus_harness/queue.py:30-318 | the invariant holds in every run |
| ControlRuns.RowsTellHistory | src/sisyphus_harness/queue.py:96-108 | in every run `attempts` equals the number of claims, a running job belongs to the latest claimer and carries the lease last recorded |
| ControlRuns.NothingFinalChanges | src/sisyphus_harness/database.py:66-91 | completed and failed jobs, finished attempts and outcomes stay as they are in every continuation |
| ControlHistory.EndingStep | src/sisyphus_harness/queue.py:182-318 | the event that ends a job sets FAILED for `fail` and COMPLETED for `complete` and `finish_attempt`, stores the result it carries, and changes no other field, no other job and no outcome |
| ControlHistory.FinalIffEnded | src/sisyphus_harness/queue.py:150-318 | in every run a job is final exactly if an accepted `complete`, `fail` or `finish_attempt` ended it |
| ControlHistory.EndsOnce | src/sisyphus_harness/queue.py:283-309 | no job is ended twice |
| ControlHistory.EndingTellsAll | src/sisyphus_harness/queue.py:182-318 | at any later time an ended job has the status and result that its ending event gave it and otherwise the fields from before that event |
| ControlHistory.StatusTellsEnding | src/sisyphus_harness/queue.py:150-180 | a job is FAILED exactly if an accepted `fail` ended it and COMPLETED exactly if an accepted `complete` or `finish_attempt` did |
| ControlHistory.JobIsAsEnqueued | src/sisyphus_harness/queue.py:30-67 | every job was put there by an accepted enqueue and still has its key, kind, payload and creation text |
| ControlHistory.KeyAnswersForEver | src/sisyphus_harness/queue.py:46-67 | an accepted idempotency key answers the same request with the same job in every continuation, refuses every other request, and neither changes a table |
| ControlHistory.NewKeyIsQueued | src/sisyphus_harness/queue.py:42-67 | a new key under a new identifier is queued as requested |
| ControlHistory.HoldsLeaseIff | src/sisyphus_harness/queue.py:114-148 | a worker holds an open lease exactly if it made the latest claim of a job that has not ended and the lease last recorded is open |
| ControlHistory.WorkerRequestAcceptedIff | src/sisyphus_harness/queue.py:114-318 | a heartbeat, `complete` or `fail` is accepted exactly with such a lease, and a finished attempt exactly if it also carries the number of the latest claim of a coding job |
| ControlHistory.ClaimableIff | src/sisyphus_harness/queue.py:82-95 | a job is claimable exactly if it has not ended and was never claimed or its lease ran out |
| ControlHistory.ClaimTakesFirst | src/sisyphus_harness/queue.py:82-95 | a claim takes a waiting job, and of all waiting jobs the one first by creation text and then by identifier |
| ControlRuns.AtMostOneFinishedAttempt | src/sisyphus_harness/queue.py:233-252 | a job has at most one finished attempt, whose number and payload are those of the completed job |
| ControlRuns.AcceptedAttemptIsFenced | src/sisyphus_harness/queue.py:212-236 | an accepted attempt numbered n comes from the worker that made the n-th and latest claim, even when worker names are reused |
| ControlRuns.NoTakeoverBeforeExpiry | src/sisyphus_harness/queue.py:69-148 | a running job is claimed only at or after the expiry its lease last recorded, heartbeats included |
| ControlRuns.FinishAcceptedIff | src/sisyphus_harness/queue.py:283-309 | `complete` and `fail` are accepted exactly for the name of the latest claimer while the lease is open |
| ControlRuns.FinishEndsOwnAttemptIff | src/sisyphus_harness/queue.py:283-309 | an accepted `complete` or `fail` from the caller of attempt m ends that attempt, and not a later one, exactly when its worker name was not used for a later claim of the job |
| ControlRuns.StaleNamesakeCompletes | src/sisyphus_harness/queue.py:283-309 | a concrete run in which a worker whose lease ran out completes a namesake's newer claim, although its attempt would be refused |
| ControlRuns.OutcomeBelongsToAttempt | src/sisyphus_harness/infra/control_outcomes.py:56-144 | each outcome belongs to its job's unique finished attempt |
| ControlPublications.RowIffFiled | src/sisyphus_harness/queue.py:212-252 | the table of finished attempts holds exactly the attempts whose `finish_attempt` was accepted |
| ControlPublications.FenceAcceptsIffFiled | src/sisyphus_harness/infra/control_outcomes.py:68-116 | the row fence accepts exactly the attempts that were filed |
| ControlPublications.StoredIffPublished | src/sisyphus_harness/infra/control_outcomes.py:117-144 | the outcomes stored are exactly those whose publication was accepted |
| ControlPublications.PublicationReply | src/sisyphus_harness/infra/control_outcomes.py:56-159 | over all runs: a publication is stale exactly unless its outcome describes, field by field, an attempt that was filed; a conflict exactly if another outcome of the job was published before; otherwise it returns and stores the outcome and changes nothing else |
| ControlPublications.RepliesShowTables | src/sisyphus_harness/queue.py:30-318 | every reply shows the row or outcome stored when the transaction ends, and a refusal changes nothing |
| ControlRuns.AttemptReadEarlierPassesFence | src/sisyphus_harness/infra/control_outcomes.py:76-116 | an attempt read at one time still passes the row fence whenever it is published later |
| ControlRuns.EndedWithoutAttemptNeverGainsOutcome | src/sisyphus_harness/queue.py:150-180 | a job ended by `complete` or `fail` never gains an outcome, even if its result repeats the text of an attempt |
| ControlDatabase.ControlStore.GetAttemptFinished | src/sisyphus_harness/infra/control_outcomes.py:30-42 | the latest finished attempt of a job, which the row fence accepts, or none exactly when it has none |
| ControlDatabase.ControlStore.PublishTaskOutcome | src/sisyphus_harness/infra/control_outcomes.py:56-144 | reply and new tables of a publication |
| ControlOutcomes.ControlTaskOutcomeService.PublishLater | src/sisyphus_harness/services/control_outcomes.py:60-63 | publishing after any transactions of others succeeds or meets another outcome; it is never stale |
| ControlOutcomes.ControlTaskOutcomeService.Adjudicate | src/sisyphus_harness/services/control_outcomes.py:37-148 | over all interleavings: success returns the job's one outcome for the session's own inputs, repeating a request returns the same outcome, other inputs are turned away, an adjudication is refused only if it is not identity-bound, not of this attempt or of another contract, and a publication only when the stored outcome differs from the one the session made; a session that nobody interrupts answers a first request by the three checks in their order and with an outcome made, field by field, of the attempt, the request and the evidence found |
| Compaction.CompactEvents | src/sisyphus_harness/compaction.py:12-65 | the loop folds the dropped events into the previous summary and keeps the recent ones: as many as are to be kept if that is positive and fewer than there are, and otherwise all of them |
| Compaction.AbsorbContinues | src/sisyphus_harness/compaction.py:25-64 | folding more events into the summary of a history gives the summary of the whole, including tool counts, files, the last five errors and the latest verification |
| Compaction.LastFiveComposes | src/sisyphus_harness/compaction.py:62-62 | trimming to five errors before or after adding more gives the same five |
| Compaction.EveryTranscriptRepresents | src/sisyphus_harness/agent_state.py:61-89 | after any appends and compactions the kept events are a suffix of the history, the counts add up, and the summary is one fold over the dropped prefix |
| AgentLoop.AgentRunState.CompactIfDue | src/sisyphus_harness/agent_state.py:61-89 | compaction happens exactly when cadence, budget and size say so, keeps the configured number of events, and otherwise nothing changes |
| AgentLoop.AgentRunState.ObserveDecision | src/sisyphus_harness/agent_state.py:91-103 | the repeat counter after a decision and whether it stagnates |
| AgentLoop.AgentRunState.ObserveWorkspaceState | src/sisyphus_harness/agent_state.py:130-156 | the cycle streak after a mutation and whether it reached the limit |
| AgentLoop.AgentRunState.UpdateCriterionStatus | src/sisyphus_harness/agent_state.py:115-128 | the last report of each criterion stands |
| AgentLoop.AgentRunLoop.ExecuteTool | src/sisyphus_harness/agent_transitions.py:31-105 | the run state after a tool step |
| AgentLoop.AgentRunLoop.AfterTool | src/sisyphus_harness/agent_transitions.py:168-202 | the run state after the verification that a tool step may trigger |
| AgentLoop.AgentRunLoop.Finish | src/sisyphus_harness/agent_transitions.py:117-166 | the run state after a finish decision; the run succeeds exactly if the verifier is asked, all its commands pass and the workspace is unchanged |
| AgentLoop.AgentRunLoop.RunStep | src/sisyphus_harness/agent_loop.py:66-208 | one step of the loop |
| AgentLoop.AgentRunLoop.Run | src/sisyphus_harness/agent_loop.py:43-64 | the whole run: it succeeds exactly if its last step is a finish whose final verification passed with the workspace unchanged, it ends for exactly the reason that its steps and inputs give, its events are those they call for, and it keeps all promises of every run |
| AgentTrace.StepTracks | src/sisyphus_harness/agent_transitions.py:31-226 | a continuing step moves every counter of the run state as its record says, so that each counter can be recomputed from the steps alone |
| AgentRuns.EveryRunIsOrderly | src/sisyphus_harness/agent_loop.py:43-208 | at the start of every step the counters agree with the history and are within their limits |
| AgentRuns.VerificationCadence | src/sisyphus_harness/agent_transitions.py:168-182 | fewer than the cadence's number of mutations are unverified at each step start |
| AgentRuns.FailedStateIsNotRechecked | src/sisyphus_harness/agent_transitions.py:126-138 | an executed finish runs the verifier exactly when the latest verification did not fail on this state |
| AgentRuns.NoStagnation | src/sisyphus_harness/agent_loop.py:175-193 | no `stagnation_limit` consecutive equal decisions all execute; protocol errors in between do not reset the count |
| AgentRuns.FreshStateInEveryWindow | src/sisyphus_harness/agent_state.py:130-156 | in a continuing run any `stagnation_limit` consecutive mutating steps include a state and criteria key not seen before |
| AgentRuns.RunIdInjective | src/sisyphus_harness/agent_transitions.py:211-215 | verification run IDs of different steps or kinds differ |
| AgentRuns.RunIdsDistinct | src/sisyphus_harness/agent_transitions.py:204-226 | at most one verification per step, each under an ID of its own |
| AgentRuns.StepSuccess | src/sisyphus_harness/agent_transitions.py:146-156 | a step ends the run in success only as a finish whose receipt passed with the workspace unchanged |
| AgentEndings.StepEndsAsCaused | src/sisyphus_harness/agent_loop.py:66-208 | a recorded step ends the run for a reason exactly if its record and the counters give it; and the record says what was asked and answered: when a decision is executed, when the verifier runs and what it reported |
| AgentEndings.RecordEndsIff | src/sisyphus_harness/agent_loop.py:66-208 | the same with all counters recomputed from the steps of the run |
| AgentEndings.RunEndsIff | src/sisyphus_harness/agent_loop.py:43-208 | every run: success exactly if the last step is an executed finish with a final verification that passed and kept the workspace; stagnation, state cycle, tool failure after mutation, mutating verification, protocol errors, clock, provider and step budget each exactly if steps and inputs show their cause |
| AgentEvents.StagnatesIff | src/sisyphus_harness/agent_state.py:91-103 | a run stagnates exactly if the last decisions, as many as the limit, all finish or all call one tool with the same arguments |
| AgentEvents.EveryRunTellsEvents | src/sisyphus_harness/agent_transitions.py:31-226 | every step of every run appends exactly the events that its decision and the answers of tool and verifier call for, and verifies under an ID made of run, kind and step |
| AgentRuns.PassingReceiptCovers | src/sisyphus_harness/agent.py:153-171 | a passing receipt for all commands covers every acceptance criterion by a passing command, listed texts stripped |
| AgentCriteria.ReportedPassedIff | src/sisyphus_harness/agent_state.py:115-128 | after a receipt in which all commands passed, a criterion not passed before is reported as passed exactly when some command lists it to the letter |
| AgentCriteria.LastReportStands | src/sisyphus_harness/agent_state.py:115-128 | the last report of a criterion decides its status |
| AgentCriteria.LastCommandDecides | src/sisyphus_harness/agent_transitions.py:229-283 | after a receipt the status of a criterion is the outcome of the last command that lists it |
| AgentCriteria.CoveredYetNotRun | src/sisyphus_harness/agent.py:157-166 | a criterion listed with a space before it is covered by a passing command and still reported as not run |
| AgentCriteria.SuccessShowsPassedIff | src/sisyphus_harness/agent_transitions.py:117-166 | every successful run ends with an acceptance criterion reported as passed if some command lists it to the letter, and as not run otherwise |
| AgentCriteria.StepCriteria | src/sisyphus_harness/agent_loop.py:66-208 | a step leaves the statuses alone or takes in one verification; a step that ends in success takes in outcomes that all passed |
| AgentRuns.EveryRun | src/sisyphus_harness/agent_loop.py:43-64 | every run ends within the step budget, keeps one artifact per verification under distinct IDs, and succeeds only as described |
| VerificationReceipts.ExecuteCommand | src/sisyphus_harness/adapters/docker_host_verification.py:254-296 | the result passes exactly if the process was launched, kept within time and output, exited with zero and left the workspace as it was; the constructor accepts it exactly when the name and the error to report are non-empty and free of NUL |
| VerificationReceipts.FailureIsReported | src/sisyphus_harness/verifier.py:346-382 | which failure category a result carries: launch error before output limit, timeout and workspace mutation, and only then what the output shows; and which error text: output limit before timeout before that of the launch |
| VerificationReceipts.LaunchErrorIsTextIff | src/sisyphus_harness/adapters/docker_runtime.py:356-364 | the error of a command that cannot be started is accepted unless the last 2000 characters of its stripped output hold a NUL |
| VerificationReceipts.NulLeavesNoResult | src/sisyphus_harness/contracts/verification.py:155-156 | a command that cannot be started and writes a single NUL leaves no result |
| VerificationReceipts.AssembledIsBoundIff | src/sisyphus_harness/adapters/docker_host_verification.py:127-172 | the binding check accepts the receipt assembled from any captures exactly when only commands changed the workspace and command names are tokens |
| VerificationReceipts.AssembledIsConsistentIff | src/sisyphus_harness/contracts/verification.py:104-165 | the constructors accept the receipt assembled from any captures exactly when all names and reported errors are non-empty and free of NUL |
| VerificationReceipts.ReceiptPassesIff | src/sisyphus_harness/adapters/docker_host_verification.py:127-172 | if only commands changed the workspace, the receipt passes exactly if every process ran clean and every reading after it is the baseline |
| VerificationReceipts.BoundIsDetermined | src/sisyphus_harness/adapters/receipt_observations.py:73-240 | two bound results of one request with equal command results and digests are equal: the binding leaves nothing else open |
| VerificationReceipts.Execute | src/sisyphus_harness/adapters/docker_host_verification.py:74-172 | the verifier returns a result exactly when its inputs held, all errors can be reported, only commands changed the workspace, and names are tokens; the result is bound, and it passes exactly if every process ran clean and left the workspace at the baseline |
| VerificationReceipts.ValidateCommands | src/sisyphus_harness/adapters/receipt_observations.py:183-240 | the loop with the running state accepts exactly the command lists that match the profile and form a chain |
| VerificationReceipts.ValidateBindings | src/sisyphus_harness/adapters/receipt_observations.py:73-240 | the binding check accepts exactly the bound results |
| VerificationReceipts.ChainTelescopes | src/sisyphus_harness/adapters/receipt_observations.py:219-240 | when every command kept the workspace, the chain of states never moved |
| VerificationReceipts.PassedIffAllCommandsPassed | src/sisyphus_harness/contracts/verification.py:415-418 | for every accepted receipt `passed` is equivalent to all commands passing |
| ReceiptObservations.Adapt | src/sisyphus_harness/adapters/receipt_observations.py:332-357 | exactly five observations per command of a bound receipt, command by command |
| ReceiptObservations.FactIdInjective | src/sisyphus_harness/adapters/receipt_observations.py:373-391 | observation IDs of different commands or facts differ, for command indices of any number of digits |
| ReceiptObservations.FactsDistinct | src/sisyphus_harness/adapters/receipt_observations.py:359-426 | the observations of a bound receipt have pairwise distinct IDs and selectors |
| ReceiptObservations.AdaptsIffExitCodesFit | src/sisyphus_harness/adapters/receipt_observations.py:393-426 | adaptation of a bound receipt fails exactly for an exit code outside 64 bits |
| ReceiptObservations.ValidateObservations | src/sisyphus_harness/adapters/receipt_observations.py:243-321 | the validator accepts exactly the observation lists that report each fact of the result once and correctly |
| ReceiptFacts.FactsOfCommand | src/sisyphus_harness/adapters/receipt_observations.py:359-426 | the five facts of each command in order and by name, with their IDs, sources and the value that the receipt has under that name |
| ReceiptFacts.AcceptedFactsAreTrue | src/sisyphus_harness/adapters/receipt_observations.py:243-321 | in accepted observations whatever is reported under the name of a fact is the value in the receipt |
| ReceiptFacts.EveryFactIsReported | src/sisyphus_harness/adapters/receipt_observations.py:243-321 | in accepted observations all five facts of every command are reported |
| ReceiptFacts.CleanRunSatisfiesItsClause | src/sisyphus_harness/evidence_contract.py:502-537 | from the process to the clause: asking whether a command passed gives PASS exactly if it ran clean and FAIL otherwise |
| ReceiptObservations.FactsAreAccepted | src/sisyphus_harness/adapters/receipt_observations.py:243-321 | the validator accepts what the adapter makes of any bound receipt |
| ReceiptObservations.FactsAreUnambiguous | src/sisyphus_harness/evidence_contract.py:455-501 | on adapted facts the evaluator reports neither a duplicate ID nor an ambiguous observation |
| ReceiptObservations.FactIsJudged | src/sisyphus_harness/evidence_contract.py:502-537 | a clause about a command fact is judged on exactly that fact: it passes if the value has a fitting type and stands in the relation of the operator to the expected value, and fails if the type fits and it does not |
| ReceiptObservations.EveryStageSatisfiesTheNext | src/sisyphus_harness/adapters/receipt_observations.py:332-357 | whatever was captured, if errors can be reported and only commands changed the workspace: the assembled receipt is bound, `passed` means that every process ran clean, the facts are valid and accepted, and the evaluation completes |

## Left out

- A container runtime that raises instead of capturing a command.
- Docker and subprocess execution, process groups, threads and lease heartbeat timing: a
  capture is an arbitrary value and a heartbeat a step that may or may not happen.
- File-system code for bundles, assets, receipts and workspaces, prompt rendering, the
  provider client, configuration, the command line, evolution and benchmarks.
- SHA-256, HMAC, JSON text and canonical encoding; the size of a contract's canonical form
  is an input of the linter.
- SQL text, write-ahead logging and the comparison of row columns with stored payloads.
- Unicode case folding and tokenising of terms: terms come as tokens with weights, and a
  normalised text as a strictly ascending list of them.
- Stripping of surrounding whitespace from names.
- Timestamps other than the creation texts of jobs, which are arbitrary strings, and schema
  version strings beyond the choice between the two request versions.
- Identifier syntax, the length of reason texts and the fixed authority field of search
  hits, inspections, candidates and plans.
- Gap closure rules: the same linter, clause evaluation and verdict under other names.
- Explanations, rendered feedback and the file-state hints that only feed the prompt.
- Field-by-field parsing of wire records other than evidence expressions.
- AgentRuns.EveryRun: a verifier, tool or provider that raises an unexpected exception
  leaves the loop, and such a run is not part of the model.
- EvidenceEvaluation.Lint: the issues are a set, each with its clause or position; the
  sorted order in which they are listed and their messages are not part of the model.
- ReceiptObservations.AdaptsIffExitCodesFit: at most ten to the ninety-ninth commands,
  beyond which an observation identifier would exceed its length limit.
