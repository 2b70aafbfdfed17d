# ArrayUpdater in Dafny

A model of the ArrayUpdater Swift library: the diff that turns two
snapshots of an array of updatable elements into the insertions,
deletions and reloads a table or collection view needs, and the view
update that gathers such edit sets, section by section, into one set of
index paths.

- `IndexUpdates` (`index_update.dfy`): the flat edit set `IndexUpdate`,
  the `Step` enum, `+` as `Plus`, `hasChanges` as `HasChanges`, and the
  shape a diff's edit set has (`WellFormed`: each list strictly ascending
  within its array, no position both deleted and reloaded).
- `Alignment` (`alignment.dfy`): the updatable element (`id` plus content,
  compared by id for identity and as a whole value for reloads) and what
  an edit set says about the two arrays: the old positions it does not
  delete and the new positions it does not insert pair up in order with
  equal ids, and exactly the pairs whose values differ are reloaded.
- `Comparison` (`sequence_comparison.dfy`): `SequenceComparison`, its
  table-filling `buildTable` (a method with nested loops, proved against
  the recurrence `Lcs`), its initializer, the walk back `generateUpdate`
  and `Array.update(to:)`.
- `ComparisonProperties` (`comparison_properties.dfy`): the shape of the
  table, the optimality of the alignment, and the special cases of an
  unchanged array and of an array whose ids stayed in place.
- `ViewUpdates` (`view_update.dfy`): `IndexPath` ordered by section then
  item, `indexPaths(inSection:)`, `ViewUpdate` with `noUpdate`, `inverse`,
  `init(update:section:)`, `+=` and `append(update:inSection:)`, and the
  algebra of the merge.
- `Scenarios` (`scenarios.dfy`): the library's own test cases over a list
  of national parks, proved for the model.

Swift structs are values here: `IndexUpdate`, `ViewUpdate` and
`SequenceComparison` are datatypes, the memberwise initializers are their
constructors (`NoChanges` is the all-defaults one, and `NoUpdate()` the
static property that calls it), and
the in-place `+=` and `append` are methods that take the old value and
return the new one. `buildTable` keeps its loops and its in-place cell
writes on a table held by value. `generateUpdate` is modelled as the
recursion the source uses.

## Model

| member | source | states |
|---|---|---|
| IndexUpdates.HasChanges | Sources/ArrayUpdater.swift:59-61 | true exactly when some list is non-empty: iff the update differs from the all-empty one, iff it holds at least one step |
| IndexUpdates.Plus | Sources/ArrayUpdater.swift:65-76 | appending a step adds exactly one step; the old lists are prefixes of the new ones and the step's index is the new last element of its kind's list |
| IndexUpdates.PlusChangesOneList | Sources/ArrayUpdater.swift:65-76 | `update + step` changes exactly the list of the step's kind, leaves the other two unchanged, and always has changes |
| IndexUpdates.InsertKeepsWellFormed | Sources/ArrayUpdater.swift:161-162 | appending insertion m - 1 to an edit set for (n, m - 1) gives a well-formed edit set for (n, m) |
| IndexUpdates.DeleteKeepsWellFormed | Sources/ArrayUpdater.swift:163-164 | appending deletion n - 1 to an edit set for (n - 1, m) gives a well-formed edit set for (n, m) |
| IndexUpdates.ReloadKeepsWellFormed | Sources/ArrayUpdater.swift:165-166 | appending reload n - 1 to an edit set for (n - 1, m - 1) gives a well-formed edit set for (n, m) |
| IndexUpdates.KeepKeepsWellFormed | Sources/ArrayUpdater.swift:167-168 | leaving the pair (n - 1, m - 1) alone turns an edit set for (n - 1, m - 1) into one for (n, m) |
| Alignment.InsertStep | Sources/ArrayUpdater.swift:161-162 | an insertion of new position j - 1 keeps the alignment of x[..i] with y[..j] and the number of kept pairs |
| Alignment.DeleteStep | Sources/ArrayUpdater.swift:163-164 | a deletion of old position i - 1 keeps the alignment and the number of kept pairs |
| Alignment.ReloadStep | Sources/ArrayUpdater.swift:165-166 | a reload of a pair with equal ids and different values extends the alignment by that pair, reloaded |
| Alignment.KeepStep | Sources/ArrayUpdater.swift:167-168 | an equal pair left alone extends the alignment by that pair, not reloaded |
| Alignment.KeptLength | Sources/ArrayUpdater.swift:158-170 | removing an ascending list of positions of [0, n) leaves n minus its length |
| Comparison.BuildTable | Sources/ArrayUpdater.swift:135-150 | the table the nested loops fill has (n + 1) rows of (m + 1) cells and every cell (i, j) is the LCS length, by id, of x[..i] and y[..j] |
| Comparison.CellIsLcs | Sources/ArrayUpdater.swift:140-146 | in any table whose cells follow the rule `buildTable` fills them by (zero first row and column, diagonal plus one on matching ids, the larger of the upper and left neighbours otherwise), cell (i, j) is the LCS length of x[..i] and y[..j] |
| Comparison.TableIsUnique | Sources/ArrayUpdater.swift:135-150 | any table whose cells follow that rule is the LCS table |
| Comparison.LcsTableFollowsRecurrence | Sources/ArrayUpdater.swift:140-146 | conversely, the LCS table follows the rule, so the rule determines exactly one table |
| Comparison.NewComparison | Sources/ArrayUpdater.swift:152-156 | the initializer stores both arrays and the table built from them |
| Comparison.GenerateUpdate | Sources/ArrayUpdater.swift:158-170 | the walk back from (i, j) terminates, indexes the arrays only in bounds, and returns a well-formed edit set that aligns x[..i] with y[..j] and keeps as many pairs as the table's cell (i, j) |
| Comparison.WalkHasBranch | Sources/ArrayUpdater.swift:158-170 | away from (0, 0) one of the branches applies, and the reload and keep branches are reached only with i > 0, j > 0 and equal ids |
| Comparison.MatchedCell | Sources/ArrayUpdater.swift:142-143 | a cell whose ids match is its diagonal neighbour plus one |
| Comparison.Update | Sources/ArrayUpdater.swift:120-123 | `update(to:)` returns the walk back from the corner of the table of the two arrays, a well-formed edit set for (count, other.count) |
| ComparisonProperties.LcsBounds | Sources/ArrayUpdater.swift:135-150 | every cell lies between 0 and the smaller of i and j |
| ComparisonProperties.LcsSteps | Sources/ArrayUpdater.swift:135-150 | one step down or right never lowers a cell and raises it by at most one |
| ComparisonProperties.LcsMonotone | Sources/ArrayUpdater.swift:135-150 | the table is non-decreasing along rows and columns |
| ComparisonProperties.TableShape | Sources/ArrayUpdater.swift:135-150 | the table `buildTable` produces: zero first row and column, diagonal plus one on matching ids, the larger neighbour otherwise, bounded by min(i, j), and at least every cell above or to the left |
| ComparisonProperties.LcsIsMaximal | Sources/ArrayUpdater.swift:135-150 | no common subsequence, by id, of x[..i] and y[..j] is longer than cell (i, j) |
| ComparisonProperties.KeptAscending | Sources/ArrayUpdater.swift:158-170 | the positions an edit set leaves alone ascend |
| ComparisonProperties.KeptMembers | Sources/ArrayUpdater.swift:158-170 | a position is left alone exactly when it lies in the array and is not removed |
| ComparisonProperties.DiffAlignment | Sources/ArrayUpdater.swift:158-170 | after deleting from the old array and inserting from the new one, the same ids remain in the same order; every reload is such a pair and a pair is reloaded exactly when its values differ |
| ComparisonProperties.DiffReproducesNewIds | Sources/ArrayUpdater.swift:158-170 | after its deletions, the old array holds the ids of the new array without its insertions, in order, and an element differs from its counterpart exactly when the diff reloads it |
| ComparisonProperties.DiffCounts | Sources/ArrayUpdater.swift:120-123 | the diff deletes n - L and inserts m - L elements, L being the LCS length |
| ComparisonProperties.DiffKeepsLongestCommonSubsequence | Sources/ArrayUpdater.swift:120-123 | what the diff leaves alone is a common subsequence by id of length L |
| ComparisonProperties.DiffIsMinimal | Sources/ArrayUpdater.swift:120-123 | no edit set that leaves a common subsequence alone deletes or inserts fewer elements than the diff |
| ComparisonProperties.DiffOfSameIds | Sources/ArrayUpdater.swift:161-168 | when the ids did not move, the diff neither inserts nor deletes and reloads exactly the positions whose values changed |
| ComparisonProperties.DiffOfSelf | Sources/ArrayUpdater.swift:120-123 | an array diffed with itself yields the empty edit set, which has no changes |
| ComparisonProperties.NoChangesMeansEqual | Sources/ArrayUpdater.swift:120-123 | an empty diff means the two arrays are equal |
| ComparisonProperties.DiffHasChangesIff | Sources/ArrayUpdater.swift:59-61 | the diff has changes exactly when the two arrays differ |
| ViewUpdates.PrecedesIsStrictTotalOrder | Sources/ArrayUpdater.swift:113-115 | the order `sorted()` uses on index paths, by section then item, is irreflexive, asymmetric, transitive and total |
| ViewUpdates.IndexPaths | Sources/ArrayUpdater.swift:35-37 | `indexPaths(inSection:)` keeps the length, and position k holds item s[k] in the given section |
| ViewUpdates.IndexPathsMembers | Sources/ArrayUpdater.swift:35-37 | an index path is among the mapped ones exactly when it is in the section and its item is in the list |
| ViewUpdates.IndexPathsAscending | Sources/ArrayUpdater.swift:35-37 | the mapped paths ascend exactly when the items strictly ascend |
| ViewUpdates.InsertSorted | Sources/ArrayUpdater.swift:113-115 | inserting into an ascending, duplicate-free list keeps it so and adds exactly the new path |
| ViewUpdates.SortedSet | Sources/ArrayUpdater.swift:113-115 | `Array(Set(s)).sorted()` is strictly ascending and holds exactly the members of s |
| ViewUpdates.AscendingUnique | Sources/ArrayUpdater.swift:113-115 | two strictly ascending lists with the same members are equal |
| ViewUpdates.SortedSetOfSameMembers | Sources/ArrayUpdater.swift:113-115 | the sorted set depends only on the members |
| ViewUpdates.SortedSetOfAscending | Sources/ArrayUpdater.swift:113-115 | an already ascending list is its own sorted set |
| ViewUpdates.NoUpdate | Sources/ArrayUpdater.swift:84 | `noUpdate` has all three lists empty, and so is sorted |
| ViewUpdates.Inverse | Sources/ArrayUpdater.swift:86-88 | `inverse` trades insertions and deletions, keeps reloads, and is sorted exactly when the update is |
| ViewUpdates.FromIndexUpdate | Sources/ArrayUpdater.swift:96-100 | `init(update:section:)` keeps the length of each list |
| ViewUpdates.Merged | Sources/ArrayUpdater.swift:112-116 | after `left += right` each list is strictly ascending and holds exactly the union of the two operands' lists |
| ViewUpdates.AddAssign | Sources/ArrayUpdater.swift:112-116 | the in-place `+=` leaves the merge: each list sorted, duplicate-free, the union of the two |
| ViewUpdates.Append | Sources/ArrayUpdater.swift:102-108 | `append(update:inSection:)` is `+=` with the section-mapped edit set: each list sorted and holding the old paths plus the edit set's positions in that section |
| ViewUpdates.MergedIdempotent | Sources/ArrayUpdater.swift:112-116 | merging a sorted update with itself changes nothing |
| ViewUpdates.MergedCommutative | Sources/ArrayUpdater.swift:112-116 | the merge does not depend on the order of its operands |
| ViewUpdates.MergedAssociative | Sources/ArrayUpdater.swift:112-116 | merging three updates does not depend on the grouping |
| ViewUpdates.MergedAbsorbs | Sources/ArrayUpdater.swift:112-116 | merging the same update a second time changes nothing |
| ViewUpdates.NoUpdateIsNeutral | Sources/ArrayUpdater.swift:84 | `noUpdate` merged on either side of a sorted update leaves it as it was |
| ViewUpdates.InverseInvolution | Sources/ArrayUpdater.swift:86-88 | `inverse` of `inverse` is the original, and `noUpdate` is its own inverse |
| ViewUpdates.InverseOfMerged | Sources/ArrayUpdater.swift:86-88 | the inverse of a merge is the merge of the inverses |
| ViewUpdates.FromWellFormedIsCanonical | Sources/ArrayUpdater.swift:96-100 | the view update of a diff's edit set is already sorted in one section |
| ViewUpdates.AppendToNoUpdate | Sources/ArrayUpdater.swift:102-108 | appending a diff's edit set to `noUpdate` gives its own view update |
| ViewUpdates.AppendTwoIndexUpdates | Sources/ArrayUpdater.swift:102-116 | appending two edit sets to `noUpdate` gives the view update of any well-formed edit set holding exactly their positions |
| Scenarios.DiffRemovesParks | Tests/ArrayUpdaterTests.swift:52 | dropping two parks deletes old positions 0 and 2 and nothing else |
| Scenarios.DiffInsertsParks | Tests/ArrayUpdaterTests.swift:53 | adding two parks inserts new positions 0 and 2 and nothing else |
| Scenarios.DiffReloadsRenamedPark | Tests/ArrayUpdaterTests.swift:54 | renaming a park under the same code reloads old position 1 only |
| Scenarios.DiffMixedChanges | Tests/ArrayUpdaterTests.swift:55 | moving, adding and renaming at once inserts 0, 1, 4, deletes 0, 3 and reloads 1 |
| Scenarios.AppendTwoUpdates | Tests/ArrayUpdaterTests.swift:64-73 | the two appends of the test give insertions {0, 4}, deletions {0, 2, 3} and reload {1} in section 0 |
| Scenarios.AppendTwoUpdatesInPlace | Tests/ArrayUpdaterTests.swift:64-73 | the same, by two in-place appends on a view update that starts as `noUpdate` |
| Scenarios.HasChangesAndInverseExamples | Tests/ArrayUpdaterTests.swift:75-88 | the empty edit set has no changes, the test's edit set has, and its inverse trades insertions and deletions |

## Left out

- The UIKit, Cocoa and Foundation imports: `IndexPath` is a plain (item, section) pair ordered by section, then item.
- The hashing behind `Set` in `+=`: only its observable effect, a sorted list without duplicates, is modelled.
- The `Updatable` protocol is not part of this model: an element is an `id` plus a content, with identity by `id` and the synthesized whole-value equality for reloads.
- Recursion depth of `generateUpdate`: a runtime limit, not behaviour.
- Swift `Int` overflow: table cells never exceed the shorter array's length, so integers are unbounded here.
- `indexPaths(inSection:)` is generic over any sequence of `Int`; it is modelled on a list of integers.
- Value semantics and copy-on-write of the Swift structs: `+=` and `append` return the new value instead of writing through `inout`.
- `ViewUpdates.FromIndexUpdate`: states only the lengths in its own contract; the positions and sections it holds are stated by `ViewUpdates.IndexPaths` and `ViewUpdates.IndexPathsMembers`.
- The test `testNoUpdate` compares `ViewUpdate()` with `.noUpdate`, which are the same constructor call here; `testUpdatableContains` exercises the standard library's `contains` only.
