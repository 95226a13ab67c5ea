# kuery: model and proofs

kuery answers nested questions about Kubernetes objects stored in a relational database. A query names
root objects and, below them, a tree of relation blocks (descendants, owners, selects, events, ...). The
engine compiles the whole tree into one `UNION ALL` query, with `WITH RECURSIVE` for transitive
relations; every row carries a textual `path`, and the nested answer is rebuilt from those paths. A sync
controller, event handlers and a garbage collector keep the tables up to date.

This project models the compiler, the meaning of the SQL it emits, the assembly of the answer, paging,
validation, the SQL text with its arguments, and the lifecycle of the stored data, in Dafny 4.11. Verify
it with `dafny verify dfyconfig.toml`.

## How it is organised

| modules | what they hold |
|---|---|
| Text, Options, Objects, Spec, Paths | strings, stored rows, query specs, object paths |
| Relations, Filters, Projections | JSON access, join conditions, WHERE clauses in three-valued logic, sparse projections |
| Plans, Arguments, Reordering, Generator | the generated query as syntax and as a bag of rows; map iteration order; the breadth-first generator loop |
| Meaning, Bags, Walks, Attachments, Scopes, Compile, PlanShape | the plain recursive meaning of a relation spec, and that the generated query returns exactly its rows |
| Assembly, Conservation, IndexTrees, Forest, Reassembly, EndToEnd, Reference, Truncation, Siblings, Presentation | the mutable tree assembly, what it keeps, that it inverts the flattening, when paths are distinct, and which fields results show |
| RelationNames | what each relation name finds and reaches, in stored columns only |
| Closure, Reachability, Visited | transitive relations: chains below one object, the CTE a query really evaluates, and the text trail of visited UIDs |
| Paging, Pages, Engine, Validation, RootQuery, Responses, Runs | ordering, cursors, limits, counts, completeness flags, and clients that follow the cursor |
| SqlText, SqlWords, Placeholders, QueryKeys | the SQLite text, what its comparisons, ORDER BY and cursor filter say, its placeholders and its argument list |
| Store, Lifecycle, Races, Overlaps | tables, engage, disengage, events, garbage collection, all their serialised runs, runs of whole calls without serialisation, and runs of calls that overlap |

Generated SQL is modelled as syntax (sources, join steps, clauses, path expressions, recursive CTEs) with
bag semantics and SQL's three truth values, the SQLite way: labels and projections by JSON path, which fails
at an empty part, and the visited trail as text under `LIKE`. Real strings are used where the code depends
on their structure: object paths, dotted JSON paths, the visited trail, object id keys and keys copied into
SQL.

## Main results

- **Compile, evaluate, reassemble** (`EndToEnd.QueryAnswersSpec`, `Reference.PipelineComputesReference`,
  `Responses.RunWithRelations`): the response is the recursive answer "each root, each relation, all
  related objects that pass the filters, down to the depth limit", whenever the database answers the
  generated query, which it does exactly for acceptable specs (`Compile.CompiledCorrectly`).
- **Relation names** (`RelationNames.NamedMatches`, `FoundAsNamed`, `ReachAsNamed`): each of the eight names
  finds, and each transitive name reaches, exactly the stored objects with the columns it promises.
- **Transitive closure** (`Reachability.EmittedClosureExact`, `EmittedConverse`,
  `OneRowPerParentAndChain`, `BlockHoldsReach`): bounded reachability in spite of cycles, for the CTE
  that starts from all parents at once; descendants and owners are converses; one row per parent and
  chain; the transitive blocks of an answer hold exactly the objects within reach. On plain UIDs the CTE
  with text trails that SQLite evaluates returns the same rows (`Visited.EmittedRefined`).
- **Keyset paging** (`Pages.RunVisitsAll`, `CursorPageIsOffsetPage`, `Paging.CursorRightIff`,
  `Pages.BoundaryExact`, `Pages.RunReachesEnd`, `Runs.FollowingShowsAll`): whole runs of pages, how long they
  are, and exactly when a cursor is right; a client that follows the cursors of the responses until one is not
  incomplete has been shown every matching row once, in order.
- **Placeholders** (`Placeholders.ReadAsIntendedIff`, `QueryKeys.Send`): text and arguments line up, in
  every map iteration order, and no such order changes the rows (`Reordering.PlanAnyOrder`,
  `Reordering.RootAnyOrder`).
- **Completeness** (`RootQuery.RunFlat`, `Responses.RunWithRelations`): a response that does not call
  itself incomplete holds all ordered matching roots after the offset or cursor.
- **Lifecycle** (`Lifecycle.RunsAreSafe`, `CollectionIsSafe`, `ObjectsLeaveOnlyBy`, `Races.RaceExactly`,
  `Overlaps.EngagedStaleExactly`, `Overlaps.DeleteRace`): every run that is serialised per cluster is safe
  with any delete allowed to fail; without serialisation, exactly when collection destroys data of an
  engaged cluster, for calls as single steps and for calls taken apart into their map and store steps.

## Where a promise does not hold, and exactly when it does

- A child row is attached to a row at its parent's path if and only if the child's kind, namespace and
  name have no dot (`Paths.ParentOfChild`, `Truncation.ChildPlacedIff`). Kubernetes names may have dots;
  such a child is left out, or attached to another object whose path happens to be what is looked up
  (`Truncation.DottedChildMisplaced`, with an instance in `Truncation.MisplacedExample`). Stripping two
  parts inverts appending only if the ancestor path has a dot itself, as all paths do
  (`Paths.ParentPathInverse`).
- On SQLite a label is read right, and without error, if and only if its key is not empty and has no dot
  (`Relations.LabelsReadableIff`, `Filters.LabelFilterRightIff`); `Filters.FilterMeaning` and
  `Filters.RootMeaning` say what every filter selects, dots or not. The same holds of selector keys
  (`Relations.SqliteSelectsExact`) and of the keys on the way to a projected leaf
  (`Projections.SqliteRightIff`); on Postgres such keys must have no dot, and only a way of several keys
  must not start with an empty one (`Projections.PostgresRightIff`).
- SQLite fails on a JSON path with an empty part. A projection never fails if and only if no leaf path has
  one (`Projections.RaisesNothingIff`), a WHERE if no label key in it has one (`Filters.EntryReadableIff`,
  `Filters.RootReadableIff`). The projection `object: true`, for whole objects, is such a path, and
  fails on every document (`Projections.WholeObjectRaises`, `PlanShape.WholeObjectRejected`).
- The cursor filter is right if and only if all deciding sort columns, tiebreakers included, have one
  direction (`Paging.CursorRightIff`; `Paging.UniformIff` says which requests those are), and a page boundary is right if and only if it does not cut a tie
  (`Pages.BoundaryExact`).
- Every alias of a generated query is in scope, and no JSON path has an empty part, if and only if no linked
  relation stands below another, no transitive block filters on kind, name or namespace, and no label key
  or projection path of a block has an empty part (`PlanShape.PlanRunnableIff`).
- The `LIKE` test of the visited trail is list membership if and only if the UID has no comma, no
  wildcard and no upper-case letter (`Visited.TestRightIff`). The end-to-end theorems therefore ask for
  plain stored UIDs as soon as a block is transitive; with the UIDs `a` and `A` in one chain the SQLite
  query stops at the first (`Visited.MixedCaseStops`).
- A result in a transitive block shows the fields the block asks for only one step down. Further down it
  shows what the block's own shape lists under the same relation name, usually nothing
  (`Presentation.TransitiveShown`, `Presentation.DeepResultsAreBare`).
- Paths leave out cluster and API group. If no kind, namespace or name has a dot, all paths of an answer
  differ if and only if no two siblings have the same segment (`Siblings.DistinctIff`); of two rows at
  one path the later one takes everything below either (`Siblings.LaterTwinTakesAll`).
- Nothing serialises engaging a cluster against a running collection pass. With each call of Engage and
  Disengage and the work on one listed cluster as one step, a collection step changes a row of an engaged
  cluster if and only if the cluster's row had expired when it was listed, the cluster was engaged after
  the listing, and a succeeding delete finds a row (`Races.RaceExactly`); such a run exists
  (`Races.RaceHappens`). A row is left without its cluster row if and only if an event or a refresh writes
  one for an engaged cluster that has lost its row (`Races.OrphanExactly`).
- The code releases its lock inside Engage and Disengage, so calls can overlap, and more goes wrong. A
  cluster is engaged with a stale row if and only if the Engage call that put it into the map and a
  Disengage call that marked it stale overlapped and nothing changed since (`Overlaps.EngagedStaleExactly`).
  A single delete touches rows of an engaged cluster if and only if it is at that cluster, succeeds and
  finds rows; then the cluster was engaged after the listing, or it was listed with a stale row although
  engaged, from such an overlap (`Overlaps.DeleteRace`); such a run exists (`Overlaps.OverlapHappens`).
- Text and arguments line up if and only if no key with a question mark stands before a placeholder
  (`Placeholders.ReadAsIntendedIff`).

Where the design document and the code disagree, the code is modelled: filter entries without any
criterion are passed over instead of matching everything (docs/design.md:73 has all entries OR-ed);
with relations the response is in path order and not in the requested order, and there is no ordering
within subtrees after assembly (docs/design.md:672); the default order is name, then namespace
(docs/design.md:668-670 has namespace as the first tiebreaker).

## Model

| member | source | states |
|---|---|---|
| Paths.ParentPathInverse | internal/engine/tree.go:118-129 | stripping two parts undoes appending `.kind.rest` if and only if the ancestor path has a dot and the two appended parts have none |
| Paths.ParentOfChild | internal/engine/tree.go:118-129 | for every ancestor path and child object the parent path is recovered if and only if the child's kind, namespace and name have no dot |
| Text.LowerExactly | internal/engine/generator.go:537-540 | lower case moves the 26 capital letters and changes nothing else, as in SQLite |
| Assembly.BuildNodes | internal/engine/tree.go:85-107 | the loop over rows with its map and mutable nodes leaves every node holding, per relation, exactly the rows that hang from it, in row order, and the root nodes in row order |
| Assembly.AssembleTree | internal/engine/tree.go:80-115 | the mutable-node assembly returns the nested results that the row-index specification describes, repeated paths included |
| Assembly.NodeToResult | internal/engine/tree.go:143-179 | the recursion over nodes terminates, because a node's children come from later rows, with the result of its row |
| Assembly.ChildRelations | internal/engine/tree.go:165-176 | each relation maps to its children's results in row order |
| Assembly.NodesToResults | internal/engine/tree.go:109-114 | results in node order, one per node |
| Conservation.PlacedOnceOrDropped | internal/engine/tree.go:80-115 | every row occurs in the answer exactly once if its chain of owners ends at a root row and not at all otherwise, for any rows |
| Conservation.NothingDropped | internal/engine/tree.go:96-107 | if every non-root row has an earlier row at its parent path, every row occurs exactly once |
| IndexTrees.AnswerHoldsOnce | internal/engine/tree.go:80-179 | one forest of row indices, shown, is the assembled answer, and it holds every row once or not at all, as its owners lead to a root or not |
| Conservation.OneTop | internal/engine/tree.go:96-107 | the rows above a row form one chain with one top |
| Forest.HangingIsKid | internal/engine/tree.go:100-104 | among the rows of a relation forest, stripping two path parts finds exactly the real parent |
| Reassembly.AssemblyUndoesFlattening | internal/engine/tree.go:80-179 | assembling the path-ordered rows of any relation forest gives back that forest's answer, filtered objects and what is below them left out |
| Truncation.ParentSortsFirst | internal/engine/tree.go:118-129 | a parent path sorts strictly before the path it was taken from |
| Truncation.CutDropsNothing | internal/engine/tree.go:39-64 | of path-ordered rows with all parents present, any prefix is assembled without loss |
| Truncation.TruncatedAnswerIsWhole | internal/engine/tree.go:39-64 | cutting the ordered rows of an unfiltered answer at any row count loses no row that was read |
| Truncation.ChildPlacedIff | internal/engine/tree.go:100-105 | among any rows, a row that continues an earlier row's path is attached to a row at that path if and only if its kind, namespace and name have no dot |
| Truncation.DottedChildLooksAt | internal/engine/tree.go:118-129 | a child with one dot in namespace or name is looked up at its parent's path continued by its kind |
| Truncation.DottedChildMisplaced | internal/engine/tree.go:100-105 | such a child is attached to any root at that path, with rows in path order |
| Truncation.MisplacedExample | internal/engine/tree.go:100-105 | objects for which that happens |
| Siblings.DistinctIff | internal/engine/generator.go:537-540 | where no kind, namespace or name has a dot, all paths of a forest differ if and only if no two siblings, anywhere, have the same segment |
| Siblings.PathsUsableOnData | internal/engine/generator.go:537-540 | without transitive blocks, paths differ and are dot-free if stored objects are dot-free with unique segments, roots are listed once and no object is found twice below another |
| Siblings.LaterTwinTakesAll | internal/engine/tree.go:95-104 | of rows in path order that share a path, every row below either hangs from the later one |
| Presentation.FollowShape | internal/engine/tree.go:143-190 | any number of steps down an answer, a result is that of the object there, shown with the shape that the lookup by relation name arrives at |
| Presentation.ResultsShow | internal/engine/tree.go:143-163 | at any depth a result has the id, cluster and mutable path of the object there, if its shape asks for them, and its projected document |
| Presentation.MutablePathSplits | internal/engine/generator.go:855-866 | split at its slashes a mutable path is `api` or `apis` and the group, the version, the namespace if there is one, the resource and the name |
| Presentation.MutablePathTells | internal/engine/generator.go:855-866 | two objects with one mutable path agree in group, version, namespace, resource and name, if none of these has a slash |
| Presentation.TransitiveShown | internal/engine/tree.go:165-190 | along a transitive relation, one step down a result is shown with the block's shape, two steps down with the shape that the block's shape lists under the same name |
| Presentation.FirstResultsShow | internal/engine/tree.go:147-157 | one step down a result shows id, cluster and mutable path if the block asks for them |
| Presentation.DeepResultsAreBare | internal/engine/tree.go:165-190 | unless the block's shape lists the relation again, everything two or more steps down shows none of them |
| Relations.ExtractLabelMeaning | internal/engine/generator.go:612-615 | reading a label by JSON path finds it if and only if its key is not empty, has no dot and is present |
| Relations.WhenLabelRaises | internal/engine/generator.go:612-615 | a label key without empty part never makes SQLite fail, the empty key always does |
| Relations.LabelsReadableIff | internal/engine/generator.go:612-615 | on all labels a key is read right and without error if and only if it is not empty and has no dot |
| Relations.SqliteSelectsExact | internal/engine/relations.go:209-228 | the NOT EXISTS encoding under NULL rules holds and cannot fail if and only if the labels contain the selector and every selector key is non-empty and dot-free; with an empty key it can always fail |
| Relations.ReadableSelectorsNeverRaise | internal/engine/relations.go:209-228 | if no stored selector has a key with an empty part, no selector test fails on any labels |
| Relations.MatchesExact | internal/engine/relations.go:44-66 | each kind of join finds exactly the stored objects that satisfy its condition |
| RelationNames.NamedMatches | internal/engine/relations.go:44-360 | for every relation name and any stored objects, the relation finds exactly those whose columns it promises: owner UIDs in one cluster, names in the reference fields, selector and labels, events by involved UID, annotation elements, group label; any other name finds nothing |
| RelationNames.NamedOften | internal/engine/relations.go:44-360 | it yields an object as often as it is stored, and a linked one once more for each further annotation element that names it |
| RelationNames.BlockAccepts | internal/engine/generator.go:329-346 | the WHERE of a relation block accepts exactly the objects that meet all its filter entries, and for references are of a kind that these name |
| RelationNames.InnerClausesIff | internal/engine/transitive.go:157-175 | a transitive block has inner filters if and only if some filter entry gives a kind, name or namespace |
| RelationNames.FoundAsNamed | internal/engine/generator.go:217-457 | below an object the reference answer lists for a block, in segment order and as often as stored, exactly the stored objects that its name leads to and that meet its filters |
| RelationNames.WantedIs | internal/engine/tree.go:143-179 | in the reference answer an object shows the fields and the document its shape asks for, and results for exactly the relation blocks that find anything |
| RelationNames.WantedBelow | internal/engine/tree.go:165-176 | for each such block one result per object found, in order, shown in turn with the block's own shape |
| RelationNames.AllWantedAre | internal/engine/tree.go:109-114 | and one result per root, in segment order |
| RelationNames.PlusIsTransitive | internal/engine/relations.go:23-31 | a relation is transitive if and only if its name ends in a plus sign, and its base is the name without it |
| RelationNames.FollowsAsNamed | internal/engine/transitive.go:42-54 | descendants, owners and linked, and no other names, can be followed, each step leading within one cluster to exactly the objects that the name promises |
| RelationNames.ReachAsNamed | internal/engine/transitive.go:142-191 | the block `descendants+`, `owners+` or `linked+` of an answer holds, below any object, exactly the objects at the end of 1 to maxDepth steps along owner UIDs or annotation elements |
| Relations.ConversesAgree | internal/engine/relations.go:194-269 | selects and selected-by, whose join conditions are written separately, descendants and owners, and grouped with itself are exact converses over every set of objects |
| Relations.GroupedTransitive | internal/engine/relations.go:337-360 | grouping is transitive up to the object itself |
| Filters.FilterMeaning | internal/engine/generator.go:569-749 | under three-valued logic an entry's WHERE is true of an object if and only if the object, its labels cut down to non-empty dot-free keys, meets every criterion; for every entry |
| Filters.PlainKeysSuffice | internal/engine/generator.go:605-616 | for entries whose label keys are non-empty and dot-free that is the plain meaning of the entry |
| Filters.LabelFilterRightIff | internal/engine/generator.go:605-616 | a label-only entry raises nothing and selects the right objects for all stored data if and only if each of its keys is non-empty and dot-free |
| Filters.EntryReadableIff | internal/engine/generator.go:605-730 | no label path in an entry's WHERE has an empty part if and only if no label key that the entry uses has one |
| Filters.ReadableNeverRaises | internal/engine/generator.go:605-730 | a WHERE without such a path raises on no object |
| Filters.ExpressionMeaning | internal/engine/generator.go:685-730 | each label expression is true exactly when it holds of the readable labels; empty value lists and unknown operators restrict nothing |
| Filters.ExpressionsPartition | internal/engine/generator.go:685-730 | In and NotIn over equal non-empty values, and Exists and DoesNotExist, split all objects in two, for every key |
| Filters.RootMeaning | internal/engine/generator.go:484-527 | the root WHERE is true of an object if and only if its cluster is asked for and some restricting entry holds of it, or no entry restricts anything |
| Filters.PlainRootMeaning | internal/engine/generator.go:484-527 | the same with plain label meaning, for queries whose label keys are non-empty and dot-free |
| Filters.RootReadableIff | internal/engine/generator.go:484-527 | no label path in the root WHERE has an empty part if and only if no label key of the query has one |
| Filters.RestrictsIff | internal/engine/generator.go:514-520 | an entry yields clauses if and only if it has some criterion |
| Projections.ProjectionMeaning | internal/engine/projection.go:37-99 | if every key on the way to a read leaf is non-empty and dot-free, both dialects raise nothing and compute the same pruning of any document, SQLite with boolean leaves as 0 or 1 |
| Projections.SqliteRightIff | internal/engine/projection.go:36-62 | on SQLite a projection raises nothing and is right on every document if and only if every key on the way to a read leaf is non-empty and dot-free |
| Projections.PostgresRightIff | internal/engine/projection.go:64-99 | on Postgres, if and only if no such key has a dot and no such way of several keys starts with an empty one |
| Projections.RaisesNothingIff | internal/engine/projection.go:36-62 | on SQLite a projection fails on no document if and only if no path of a read leaf has an empty part |
| Projections.WholeObjectRaises | internal/engine/projection.go:37-42 | the projection `true` fails on every document in SQLite |
| Projections.ProjectedDocument | internal/engine/generator.go:530-535 | without a projection a row's document is the whole stored document, and otherwise what the projection asks for |
| Projections.MemberProjected | internal/engine/projection.go:36-99 | a single member comes out as stored, null if it is missing, on SQLite a boolean as the number 0 or 1 |
| Plans.LimitKeeps | internal/engine/generator.go:397-402 | a limit keeps that many of a branch's rows, or all if there are no more |
| Plans.CteRowsStep | internal/engine/transitive.go:142-191 | the recursion keeps one depth per generation and, below the limit, continues with the successors of its working table; it ends because no row is deeper than the limit |
| Reordering.LabelsAnyOrder | internal/engine/generator.go:612-615 | visiting a label map in another order gives the same clauses in another order |
| Reordering.AcceptsAnyOrder | internal/engine/generator.go:385-395 | the order of the clauses of a WHERE does not matter |
| Reordering.RootAnyOrder | internal/engine/generator.go:497-523 | in whatever order cluster and object labels are visited, the root WHERE is true of the same objects |
| Reordering.PlanAnyOrder | internal/engine/generator.go:263-318 | in whatever order maps are visited, the plan returns the same bag of rows |
| Generator.SortKeys | internal/engine/generator.go:213-214 | visiting a map's keys in any order and sorting gives the ascending list of its keys |
| Generator.BuildObjectFilter | internal/engine/generator.go:569-749 | with the labels visited in any order, the step-by-step builder yields the clauses whose meaning is proved, in that order, with their arguments in placeholder order |
| Generator.BuildLabelClauses | internal/engine/generator.go:612-615 | whatever order the labels are visited in, clause and argument stay paired |
| Generator.BuildExpression | internal/engine/generator.go:685-730 | the clause of one expression with one argument per listed value |
| Generator.BuildConditions | internal/engine/generator.go:619-650 | one EXISTS per condition with the arguments of exactly the given parts |
| Generator.BuildBlockClauses | internal/engine/generator.go:329-346 | join conditions first, then all filter entries, each with its labels in any order, and the arguments in that order |
| Generator.BuildJoined | internal/engine/generator.go:325-403 | a joined branch re-joins through all ancestors under the next alias |
| Generator.BuildAttached | internal/engine/generator.go:260-319 | with the sub-relations visited in any order, one branch per sub-relation of a transitive block, nested transitive ones passed over |
| Generator.AttachedAnyOrder | internal/engine/generator.go:263-318 | any order of the sub-relations gives the same branches |
| Generator.Process | internal/engine/generator.go:225-429 | one block's branches, arguments and the blocks it adds to the queue |
| Generator.GenerateWithRelations | internal/engine/generator.go:196-430 | whatever order maps are visited in, the queue loop terminates with the plan of the breadth-first pass up to that order, or the error for an unsupported transitive relation, and with the branches' arguments in branch order |
| Generator.SuccessorsLighter | internal/engine/generator.go:411-427 | replacing a block by its sub-blocks always shrinks the remaining work |
| Scopes.EnvSpots | internal/engine/generator.go:375-382 | re-joining from the roots under fresh aliases reaches exactly the objects and paths that the chain of relations leads to |
| Bags.JoinedBlock | internal/engine/generator.go:325-409 | below any spots, a joined block is its selected rows plus what lies below all joined objects, whether or not they pass its filters |
| Walks.CteComplete | internal/engine/transitive.go:142-191 | the CTE's rows and what is attached to them are exactly the rows of all walks, with multiplicity |
| Attachments.SubSelectsBag | internal/engine/generator.go:260-319 | the branches that read a CTE return exactly what is attached to its rows |
| Compile.CompiledCorrectly | internal/engine/generator.go:217-457 | for every plan of a spec without limits, transitive blocks included if stored UIDs are plain, the database runs it without error if and only if the spec is acceptable for the stored selectors, and the UNION ALL then returns the rows of the recursive answer as a bag |
| Compile.AnswersAnyOrder | internal/engine/generator.go:263-318 | in whatever order maps are visited, the database answers the plan in the same cases, with the same bag of rows |
| EndToEnd.QueryAnswersSpec | internal/engine/generator.go:217-457 | whenever the database answers the generated query, ordering the rows by path in any way and assembling them gives exactly the recursive answer, filters allowed on any block, transitive blocks with plain stored UIDs |
| Reference.PipelineComputesReference | internal/engine/generator.go:217-457 | for specs without transitive blocks that answer is "each root, each relation, all related objects passing the filters, in segment order, down to the depth limit" |
| PlanShape.OneBranchPerBlock | internal/engine/generator.go:200-430 | without transitive blocks the generator succeeds with one branch per relation block within the depth limit |
| PlanShape.ShallowAtMostAll | internal/engine/generator.go:221-223 | those blocks are at most all blocks, and all of them if none is too deep |
| PlanShape.BreadthFirst | internal/engine/generator.go:217-430 | branches come in non-decreasing level |
| PlanShape.ChainScopedIff | internal/engine/relations.go:316-331 | a join chain declares every alias once if and only if it has at most one linked join |
| PlanShape.PlanRunnableIff | internal/engine/generator.go:325-430 | every alias is declared once and used in scope and no JSON path has an empty part if and only if no linked relation stands below another, no transitive block filters on kind, name or namespace, and no label key or projection path of a block has an empty part |
| PlanShape.SelectorsSafeIff | internal/engine/relations.go:209-269 | the selectors that a generated query reads cannot make it fail if and only if no block within the depth limit is `selects` or `selected-by`, or no stored selector has a key with an empty part |
| PlanShape.WholeObjectRejected | internal/engine/projection.go:37-42 | a query for whole root objects, the projection `true`, is never acceptable |
| Closure.Shorten | internal/engine/transitive.go:95-99 | every walk can be shortened to one without repeated UIDs with the same end |
| Closure.OneRowPerChain | internal/engine/transitive.go:86-140 | below one parent each row belongs to exactly one chain of distinct UIDs, which gives its depth, trail, object and path, and no two rows share a trail |
| Closure.ChainBound | internal/engine/transitive.go:188-189 | no chain is longer than the number of stored UIDs |
| Reachability.EmittedByParent | internal/engine/transitive.go:145-191 | the emitted CTE, started from all parents at once, returns the rows below each parent and nothing else, with multiplicity |
| Reachability.EmittedRowsAreChains | internal/engine/transitive.go:145-191 | it returns the row of every chain within the depth limit below any of its parents, and no other row |
| Reachability.OneRowPerParentAndChain | internal/engine/transitive.go:86-140 | it returns a row exactly as often as it is the row of a chain below one of the parents |
| Reachability.EmittedClosureExact | internal/engine/transitive.go:145-191 | for every parent it finds exactly the objects within 1 to maxDepth steps, cycles or not |
| Reachability.EmittedConverse | internal/engine/transitive.go:242-263 | from a the descendants CTE finds b if and only if from b the owners CTE finds a, at equal depth limits |
| Reachability.EmittedDeepEnough | internal/engine/transitive.go:188-189 | with a depth limit of at least the number of stored UIDs it finds everything reachable at any distance |
| Reachability.EmittedPrefixClosed | internal/engine/transitive.go:122-140 | every row that is not a direct child extends the path and trail of another returned row |
| Reachability.SharedChildTwice | internal/engine/transitive.go:93-98 | two parents that own one object give two rows with equal trails at different paths |
| Reachability.BlockHoldsReach | internal/engine/transitive.go:145-191 | the rows of a transitive block of the recursive answer hold, below any object, exactly the objects within reach |
| Visited.SeenIsMember | internal/engine/transitive.go:96-100 | the SQLite text test of the trail is list membership, the Postgres form, on comma-free, wildcard-free, lower-case UIDs |
| Visited.TestRightIff | internal/engine/transitive.go:99-99 | it is so for every trail of such UIDs if and only if the UID has no comma, no wildcard and no upper-case letter |
| Visited.StepRefined | internal/engine/transitive.go:184-189 | one recursion step on text trails is the step on list trails |
| Visited.RunRefined | internal/engine/transitive.go:142-191 | the whole recursion with text trails ends with the same rows, from any working table |
| Visited.EmittedRefined | internal/engine/transitive.go:142-191 | on plain stored UIDs the emitted CTE, evaluated with text trails as in SQLite, returns the rows that it returns with list trails, at the same objects and paths |
| Visited.MixedCaseStops | internal/engine/transitive.go:99-99 | with UIDs `a` and `A` in one chain the text recursion stops where the list recursion goes on |
| Paging.BuildOrderBy | internal/engine/generator.go:752-781 | the requested fields in their order, descending exactly where `desc` is requested, then ascending namespace and name unless requested; without a request name and then namespace |
| Paging.BeforeMeans | internal/engine/generator.go:752-781 | rows are compared by the first column on which they differ, in its direction |
| Text.LessMeans | internal/engine/generator.go:752-781 | texts are compared in dictionary order |
| Pages.SortedAsAsked | internal/engine/generator.go:752-781 | of two ordered rows the first has, on the first requested field on which they differ, the smaller value, or the greater one where `desc` is requested |
| Paging.CursorFollowsOrder | internal/engine/generator.go:804-832 | the cursor compares exactly the ORDER BY columns, in order, for every order spec, although the two lists are built separately |
| Paging.CursorIsAfter | internal/engine/generator.go:834-845 | with one direction a row passes the cursor filter if and only if it sorts after the row the token came from |
| Paging.CursorRightIff | internal/engine/generator.go:834-845 | that is right for all rows if and only if every deciding column has the first one's direction |
| Paging.UniformIff | internal/engine/generator.go:834-837 | the deciding columns have one direction if and only if the first uses of the requested fields have, and, if that is `desc`, namespace and name are requested |
| Pages.CursorPageIsOffsetPage | internal/engine/generator.go:81-98 | the k-th page of a cursor run is what OFFSET k*Limit LIMIT Limit returns |
| Pages.RunVisitsAll | internal/engine/generator.go:752-845 | following the cursor until a short page visits every matching row exactly once, in order |
| Pages.FullPagesBounded | internal/engine/generator.go:81-98 | a run of full pages has at most as many pages as the number of rows divided by the limit |
| Pages.RunReachesEnd | internal/engine/generator.go:752-845 | following the cursor can always go on: there is a run of one page more than that, and its last page is short |
| Pages.TiesAreSkipped | internal/engine/generator.go:839-842 | a row that does not sort after the token's row is not on the page of that token |
| Pages.TiesNeverReturn | internal/engine/generator.go:839-842 | in a run, a row tied with the last row of a page is on no later page at all |
| Pages.BoundaryExact | internal/engine/generator.go:839-842 | a cursor continues where the sorted list was cut if and only if the cut is not inside a tie |
| Pages.FullKeyIsDistinct | internal/engine/generator.go:766-775 | listing cluster, group and kind makes sort keys distinct, by the unique index |
| Validation.CountRelationBlocks | internal/engine/validate.go:76-85 | the number of relation blocks, nested ones included |
| Validation.Query.Validate | internal/engine/validate.go:30-73 | gives the first complaint in the order of the checks, accepts exactly the acceptable queries, fills in the defaults and changes nothing else |
| Validation.CheckOrder | internal/engine/validate.go:47-55 | the loop returns the complaint about the first bad order entry, if any |
| Validation.AcceptedIff | internal/engine/validate.go:30-73 | no check complains if and only if limit is at most 10000, depth at most 20, every sort field and direction known, the offset not negative and there are at most 10 relation blocks |
| Validation.VerdictIsFirst | internal/engine/validate.go:30-73 | limit, depth, the first bad order entry, offset and block count are complained about in this order |
| Validation.Bounds | internal/engine/validate.go:31-45 | a query that runs has limit 1 to 10000, by default 100, and depth 1 to 20, by default 10, and validating again changes nothing |
| Validation.AtMostElevenBranches | internal/engine/validate.go:64-70 | every plan of an accepted query has at most 11 branches, transitive blocks included |
| Engine.ScanRows | internal/engine/tree.go:39-64 | truncated if and only if there were more rows than the bound, and then exactly the first rows |
| Engine.ExtractLastRow | internal/engine/tree.go:193-211 | the backward scan finds a root after which there is no root, and nothing only if there is no root |
| Engine.CountRoots | internal/engine/engine.go:181-187 | the number of root rows |
| Engine.ExecuteFlat | internal/engine/engine.go:94-139 | one result per row, in row order, each with its row's object, the asked fields and the projected document; never truncated, incomplete if and only if the page is full; the cursor is the sort key of the last root row |
| Engine.ExecuteWithRelations | internal/engine/engine.go:142-193 | truncation at 10000 rows, assembled objects and completeness flag; the cursor is the sort key of the last root row that was read |
| Engine.OneRowPerRoot | internal/engine/engine.go:181-187 | a generated query returns exactly one root row per root, whatever its relations find |
| RootQuery.JoinChangesNothing | internal/engine/generator.go:495-508 | the join with clusters neither repeats nor loses a matching row |
| RootQuery.MatchedOnce | internal/engine/generator.go:571-593 | every stored row the query asks for is matched as often as it is stored, no other row is |
| RootQuery.MatchingAnyOrder | internal/engine/generator.go:484-527 | in whatever order the root WHERE is written the same rows match |
| RootQuery.AskedPlain | internal/engine/generator.go:484-527 | for queries whose label keys are non-empty and dot-free, what is matched is what the query means |
| RootQuery.OrderedExactly | internal/engine/generator.go:74-98 | what the root query orders is every row asked for after the cursor, as often as it is stored |
| RootQuery.CountIsUnpaged | internal/engine/generator.go:100-113 | the count is the number of rows the same query returns unpaged |
| RootQuery.NothingLeftOut | internal/engine/generator.go:74-98 | an answer shorter than the limit is, in order, everything after the offset |
| RootQuery.RunFlat | internal/engine/engine.go:94-139 | a flat response shows the returned rows one by one in the requested order; not marked incomplete it holds every matching root after the cursor and offset, and its count agrees with its rows; its cursor is the sort key of its last row |
| RootQuery.RelationAnswerComplete | internal/engine/engine.go:142-193 | a response with relations is marked incomplete if and only if rows were cut or the page of roots is full; otherwise its roots are everything after the offset |
| Responses.RunWithRelations | internal/engine/engine.go:142-193 | for a plan written in any map order and answered by the database: unless truncated, the response is the recursive answer for its roots, transitive blocks included if stored UIDs are plain; unless marked incomplete, the roots are all ordered matching ones after the offset |
| Runs.ResponseIsPage | internal/engine/engine.go:94-139 | the rows that a response shows are the page that its request asks for |
| Runs.ConversationIsRun | internal/engine/engine.go:118-128 | requests that each carry the cursor of the response before form a run of pages |
| Runs.FollowingShowsAll | internal/engine/engine.go:94-139 | following the cursors until a response is not marked incomplete shows every matching row exactly once, in order |
| SqlText.ClauseHoles | internal/engine/generator.go:569-749 | the placeholders of a clause's text are those of its own arguments, in order |
| SqlWords.ClauseReads | internal/engine/generator.go:569-749 | read as SQL, the text of a comparison of columns, labels, lists or times has the truth value of its clause on every object |
| SqlWords.OrderReads | internal/engine/generator.go:752-781 | read as SQL, the ORDER BY of text columns puts rows in the order of the sort columns |
| SqlWords.CursorReads | internal/engine/generator.go:834-845 | read as SQL, the cursor filter compares the sort columns with the token's values as the cursor comparison does |
| SqlWords.KindArgsFit | internal/engine/generator.go:575-594 | the four arguments of the test for a kind name make its four comparisons say that the resource type has that name, whether or not the short name is put in lower case by the database |
| SqlWords.PageReads | internal/engine/generator.go:81-98 | the root query ends with its limit, and with its offset if it has one |
| SqlWords.LimitReads | internal/engine/generator.go:397-402 | a branch with a limit ends with it |
| SqlWords.DepthReads | internal/engine/transitive.go:184-189 | the recursion of a CTE goes on while the depth is below its limit |
| SqlText.FlatAligned | internal/engine/generator.go:64-98 | the same for a whole query without relations, cursor included |
| SqlText.CountAligned | internal/engine/generator.go:100-113 | the same for the count query |
| SqlText.QueryAligned | internal/engine/generator.go:432-457 | the same for a whole query with relations, for all clause lists and plans, although CTEs and the root branch stand between the placeholders |
| Placeholders.BuildRootClauses | internal/engine/generator.go:484-527 | the root clauses with cluster and object labels visited in any order, their arguments in placeholder order, dropped entries dropped from both |
| Placeholders.BuildCursor | internal/engine/generator.go:789-845 | the cursor values in the order of the compared columns |
| Placeholders.Generate | internal/engine/generator.go:37-43 | in every map iteration order, the separately collected arguments of query and count query are those of the placeholders of the text that was written, one by one |
| Placeholders.ReadAsIntendedIff | internal/engine/engine.go:64-64 | putting arguments in place of question marks gives the intended text if and only if no key with a question mark stands before a placeholder |
| QueryKeys.Send | internal/engine/generator.go:148-155 | in every map iteration order, for queries without question marks in label keys, projection keys and relation names, the database reads query and count query as intended |
| Store.Database.UpsertObject | internal/store/store.go:100-116 | after success the row of the key is there with the new columns, with the id it had if it was stored and the given one otherwise; every other row is unchanged |
| Store.Database.DeleteObject | internal/store/store.go:118-123 | after success there is no row of that key; every other row is unchanged |
| Store.Database.UpsertCluster | internal/store/store.go:156-163 | after success the cluster's row is the given one as a whole; every other row is unchanged |
| Store.Database.DeleteObjectsForCluster | internal/store/store.go:193-195 | an object's row stays exactly if the delete failed or the object is of another cluster, and everything that stays is unchanged |
| Store.Database.DeleteResourceTypesForCluster | internal/store/store.go:150-154 | a resource type's row stays exactly if the delete failed or it is of another cluster, and everything that stays is unchanged |
| Store.Database.DeleteCluster | internal/store/store.go:189-191 | after success that cluster has no row; every other row is unchanged |
| Store.IdKeyInjective | internal/sync/handler.go:83-83 | different objects have different id texts if no part has a slash |
| Lifecycle.SyncController.Engage | internal/sync/controller.go:60-118 | the store and the engaged set after success or failure at each step; the row is active, seen and engaged now, with a time to live of 3600 seconds |
| Lifecycle.SyncController.RunDiscovery | internal/sync/discovery.go:29-46 | clears and refills the cluster's resource types, each write allowed to fail |
| Lifecycle.DiscoveredExactly | internal/sync/discovery.go:29-46 | after discovery that could list and clear, the cluster has exactly the resource types that could be written, each as reported last, and nothing else has changed |
| Lifecycle.SyncController.Disengage | internal/sync/controller.go:122-146 | the cluster is no longer engaged and its row is stale, seen now, with the default time to live of 3600 seconds |
| Lifecycle.EventHandler.Upsert | internal/sync/handler.go:57-79 | the object's row is under the handler's own cluster with the event's columns, its id kept or derived from its key; other objects are unchanged |
| Lifecycle.EventHandler.OnDelete | internal/sync/handler.go:41-55 | removes exactly that object of the handler's own cluster |
| Lifecycle.GarbageCollector.Collect | internal/gc/gc.go:50-88 | in whatever order, a pass removes of each expired stale cluster what its succeeding deletes remove, in closed form |
| Lifecycle.CleanPassExactly | internal/gc/gc.go:50-88 | a pass without failures removes all rows of the clusters that are stale and whose time to live in seconds has passed since they were last seen, and changes nothing of any other |
| Lifecycle.RemovedAfterAnHour | internal/gc/gc.go:59-64 | a disengaged cluster is removed by a clean pass if and only if an hour has passed |
| Lifecycle.PassIsSafe | internal/gc/gc.go:50-88 | whatever fails, a pass touches no other cluster and leaves no object or resource type without its cluster row |
| Lifecycle.FailedPassIsRepaired | internal/gc/gc.go:71-83 | whatever failed, a later pass without failure leaves no row of a cluster that had expired |
| Lifecycle.StepsMakeAPass | internal/gc/gc.go:50-88 | the interleavable steps of an undisturbed pass do together what one call does |
| Lifecycle.Perform | internal/sync/controller.go:60-146 | each step outside collection is one call of the controller, its discovery or an event handler, with the same outcome on store and engaged set |
| Lifecycle.StepKeeps | internal/sync/controller.go:60-146 | every step keeps the invariant: rows have their cluster row, engaged clusters are active, listed stale clusters are unchanged |
| Lifecycle.RunsAreSafe | internal/gc/gc.go:50-88 | the invariant holds at every point of every run of engage, disengage, event, refresh and collection steps |
| Lifecycle.CollectionIsSafe | internal/gc/gc.go:59-83 | in every run collection touches nothing of a cluster that is engaged, active, or within its time to live |
| Lifecycle.ObjectsLeaveOnlyBy | internal/gc/gc.go:59-83 | in every run an object disappears only by its own delete event or by collection of its stale, expired, disengaged cluster |
| Races.EngagedNeverStale | internal/sync/controller.go:60-146 | in every run of whole calls, serialised or not, an engaged cluster's row, if there is one, is active |
| Races.PendingWasListed | internal/gc/gc.go:53-59 | in every run of whole calls the pass works with rows as they were when it listed them |
| Races.PendingEngagedLater | internal/gc/gc.go:53-59 | in every run of whole calls an engaged cluster that a pass has still to look at was engaged after the listing |
| Races.RaceExactly | internal/gc/gc.go:53-83 | in every run of whole calls a collection step changes any row of an engaged cluster if and only if the step is at that cluster, the listed row had expired, the cluster was engaged after the listing, and a succeeding delete finds a row |
| Races.OrphanExactly | internal/sync/controller.go:150-224 | a step leaves an object or resource-type row without its cluster row if and only if an event or a refresh writes one for an engaged cluster that has no row |
| Races.ColumnsAreLast | internal/sync/handler.go:57-79 | in every run the stored columns of an object are those of the last event that stored it, after which it was not removed, and its id is derived from its key |
| Races.StoringStores | internal/store/store.go:100-116 | every event that stores an object leaves it stored with its columns |
| Races.SerialisedIsFree | internal/gc/gc.go:50-88 | the serialised runs are among these runs |
| Races.RaceHappens | internal/gc/gc.go:53-83 | such a run exists for any cluster and object, and the next event then leaves an object without a cluster row |
| Overlaps.UndisturbedEngage | internal/sync/controller.go:60-118 | the map and store steps of an Engage call that nothing comes between do what the whole call does, whatever fails |
| Overlaps.UndisturbedDisengage | internal/sync/controller.go:122-146 | the same for Disengage |
| Overlaps.UndisturbedCollect | internal/gc/gc.go:59-83 | the same for the deletes of one listed cluster |
| Overlaps.EventsAgree | internal/sync/handler.go:27-79 | events and the listing of stale clusters are one step, with the same outcome as for whole calls |
| Overlaps.UndisturbedRefresh | internal/sync/discovery.go:29-46 | the same for a refresh that could list and clear |
| Overlaps.IdsAreGiven | internal/sync/controller.go:60-146 | in every run, running calls have ids that were given out before |
| Overlaps.OneCallPerId | internal/sync/controller.go:60-146 | in every run, an id names one call |
| Overlaps.EngagedIff | internal/sync/controller.go:64-129 | in every run, a cluster is engaged if and only if a step added it to the map and none took it out since |
| Overlaps.StaleIff | internal/sync/controller.go:72-139 | in every run, a cluster's row is stale if and only if a step marked it so and none marked it active or deleted it since |
| Overlaps.EngagedStaleExactly | internal/sync/controller.go:64-146 | in every run of overlapping calls, a cluster is engaged with a stale row if and only if the Engage call that last added it and a Disengage call that marked it stale overlapped, and nothing changed either since |
| Overlaps.WithoutOverlapNeverStale | internal/sync/controller.go:64-146 | if no Engage and Disengage call of a cluster overlap, an engaged cluster's row is never stale |
| Overlaps.PendingWasListed | internal/gc/gc.go:53-59 | in every run, what a pass has still to look at was stale, with that row, when it was listed |
| Overlaps.EngagedWhilePending | internal/gc/gc.go:53-59 | in every run, an engaged cluster that a pass has still to look at was added to the map after the listing, or was listed with a stale row though engaged, from overlapping calls |
| Overlaps.DeleteRace | internal/gc/gc.go:59-83 | in every run, a single delete changes rows of an engaged cluster if and only if it is at that cluster, succeeds and finds rows; the listed row had then expired, and one of these two is why |
| Overlaps.OrphanExactly | internal/gc/gc.go:71-83 | a step leaves a row without its cluster row if and only if it writes one for a cluster without a row, or deletes the row of a cluster that has other rows |
| Overlaps.WrittenMeanwhile | internal/gc/gc.go:71-83 | in every run, an object that a cluster has after its objects were deleted in a pass was written during the rest of that work |
| Overlaps.ColumnsAreLast | internal/sync/handler.go:57-79 | however calls overlap, the stored columns of an object are those of the last event that stored it, after which it was not removed |
| Overlaps.OverlapHappens | internal/sync/controller.go:64-146 | a run exists, for any cluster and object, in which a cluster engaged before the listing loses all its rows |

## Left out

- SQL engines, GORM and drivers: replaced by the evaluation of query syntax over sequences of rows; GORM's replacement of question marks is modelled, quoting and injection are not.
- Base64 and JSON encoding of the page token: a token is nothing, undecodable, or the key values it carries.
- SHA-1 UUIDs: the id is represented by the text it is derived from.
- The creationTimestamp sort field: the paging theorems are about text sort fields; the completeness results hold for every order, but say in which order only for text fields, and allow a page token only with these.
- Cursors combined with relations: the cursor filter names an alias that the root query does not have.
- Relation limits in the end-to-end theorems: LIMIT cuts a whole branch and not each parent's children; it is modelled as a prefix, and the theorems ask for none.
- Nested transitive relations: the code passes over them; their absence is modelled.
- The words of joins, subqueries, projections and path expressions: their text is modelled for its placeholders and keys; what it says is modelled by the join conditions and clauses beside it.
- Postgres text: the Postgres forms of projections, trails and label containment are modelled, the Postgres query text is not.
- JSONPath filters, the kcp identity column and the table of built-in reference paths: the names an object refers to and the decoded relates-to annotation are part of a stored object, and the reference subquery stands as one fragment in the SQL text.
- JSON path syntax other than dots and empty parts (brackets and quotes inside keys).
- The moment of failure: a query with a failing JSON path counts as failed, although the database fails only when it evaluates the path on some row, and may skip parts of a WHERE.
- The number in the resource_types alias: it is `rt` everywhere, since each use is inside its own EXISTS.
- Map iteration order inside projections: the text has their keys in ascending order; no placeholder depends on it.
- Projection builders: their loops over map keys are modelled as recursive functions, since only the resulting expression matters.
- Errors while scanning rows, timeouts, contexts, metrics, logging and warnings texts.
- In `Overlaps`, the writes of events and refreshes may come at any time; which informer is still running is not tracked.
- Informers, discovery clients, blacklists and the filtering of discovered resources: what they report is a parameter of the modelled methods, and each database write may fail.
- Store reads, migrations, indexes, the API server, command line and deployment.
