# Sharding conditions, same-encryptor checks and rule item paths

A Dafny model of four small pieces of logic in a distributed SQL middleware.

1. **The optimize engine** (modules `ShardingModel`, `ValueMerge`,
   `OptimizeEngine`, `OptimizeEngineCases`). A WHERE predicate reaches the
   engine as an `OrCondition`: a sequence of `AndCondition` branches, each a
   sequence of `Condition`s. A condition ties a sharding column to an IN list,
   an equality (the one-element list) or a BETWEEN pair. Within a branch, all
   conditions on one column are folded left to right into one `ShardingValue`:
   either `List(set<int>)` or `Range(lower, upper)`. A list is kept as a set,
   so repeated IN values and their order are not kept.
   - List ∧ List gives the intersection.
   - Range ∧ Range gives `[max lower, min upper]`.
   - List ∧ Range, in either order, keeps the list values inside the range.

   A fold that leaves nothing is a `Contradiction`, and the branch is dropped.
   `Optimize` emits one `ShardingCondition` per surviving branch. Each one
   carries the branch's position and one value per column, in first-seen
   column order. `alwaysFalse` holds when the OR condition has branches and
   none survives.

   The central theorem is exactness. A merged value admits a value `x`
   exactly when every condition on that column admits `x`. A branch is
   always false exactly when some column's conditions admit no value at all.
2. **`SameEncryptorComparator.isSame`**. It compares two optional encryptors.
   An encryptor is a type name plus properties, and equality is structural.
3. **`InsertSelectColumnsSameEncryptorUsageChecker.isSame`**. It walks the
   INSERT columns and the SELECT projections in step. It answers false at the
   first pair whose encryptors differ. The encrypt rule's lookup from
   original table and column to encryptor is a function parameter.
4. **Rule item node paths** (modules `RuleNodePath`, `PathStrings`). These
   are the relative paths of a rule's named items (`tables/<name>`) and
   unique items. A dotted unique type `tables.type` is keyed by its last
   segment `type` and lives at `tables/type`.

Two behaviours that the engine's unit test leaves open are fixed here:

- **Pruning.** In List ∧ Range, list values outside the range are removed.
  The test at `OptimizeEngineTest.java:105-120` has every list value inside
  the range, so it holds under either policy. A legacy engine that only
  checks overlap and keeps the list unpruned would differ in two ways:
  - It emits a wider list.
  - When a later atom follows, it can reach a different verdict.

  For example, take IN (1, 5), then BETWEEN 4 AND 6, then = 1. Pruning leaves
  {5}, and the equality then gives a contradiction, which
  `OptimizeEngineCases.PrunedListMeetsLaterEquality` proves. The overlap-only
  fold keeps {1, 5} and lets 1 through. The exactness theorem above holds
  only with pruning. On a column with just two atoms, the two policies agree
  on the verdict.
- **Empty input.** An empty OR condition yields no sharding conditions and
  `alwaysFalse = false`. The absence of any predicate is not a contradiction.

In the model, an empty IN list, or a BETWEEN whose lower bound exceeds its
upper bound, admits no value and so makes its branch contradictory. The
engine's design instead rejects an empty IN list as malformed input; see
"## Left out".

The classes `OptimizeEngine`, `ShardingConditions` and `RuleNodePath` are
modelled from what their unit tests assert, together with the choices stated
in this file.

## Model

| member | source | states |
|---|---|---|
| ValueMerge.DomainOf | sharding-core/src/test/java/io/shardingjdbc/core/optimizer/OptimizeEngineTest.java:31-32 | an IN list or equality admits exactly its values and becomes a List; a BETWEEN admits exactly [lower, upper] and becomes a Range; an atom admitting nothing is a contradiction |
| ValueMerge.MergeValues | sharding-core/src/test/java/io/shardingjdbc/core/optimizer/OptimizeEngineTest.java:69-120 | the merged value admits exactly the values both inputs admit; it is never empty; it is a List when either input is a List and a Range only when both are; a merged list is a subset of each input list and a merged range lies inside both input ranges |
| ValueMerge.MergeValuesContradictionIffDisjoint | sharding-core/src/test/java/io/shardingjdbc/core/optimizer/OptimizeEngineTest.java:30-66 | two values merge to a contradiction exactly when no value lies in both ({1,2} ∧ {3}, [1,2] ∧ [3,4], {1,2} ∧ [3,4]) |
| ValueMerge.MergeValuesCommutes | sharding-core/src/test/java/io/shardingjdbc/core/optimizer/OptimizeEngineTest.java:56-66 | the order of two atoms on a column does not change the merged value, a list meeting a range in either order included |
| ValueMerge.MergeFrom | sharding-core/src/test/java/io/shardingjdbc/core/optimizer/OptimizeEngineTest.java:33-35 | folding the atoms of a branch into a running value admits exactly the values the running value and every atom admit, and stops at the first contradiction |
| ValueMerge.MergeColumn | sharding-core/src/test/java/io/shardingjdbc/core/optimizer/OptimizeEngineTest.java:31-35 | all atoms on one column merge into one non-empty value admitting exactly the values every atom admits; it is a Range only when every atom is a BETWEEN |
| ValueMerge.MergeColumnContradictionIffUnsatisfiable | sharding-core/src/test/java/io/shardingjdbc/core/optimizer/OptimizeEngineTest.java:38-39 | a column merges to a contradiction exactly when no value satisfies all its atoms |
| OptimizeEngine.Group | sharding-core/src/test/java/io/shardingjdbc/core/optimizer/OptimizeEngineTest.java:31-35 | the atoms gathered for a column are exactly the branch's atoms on that column, and there is one when the branch mentions it |
| OptimizeEngine.Columns | sharding-core/src/test/java/io/shardingjdbc/core/optimizer/OptimizeEngineTest.java:31-35 | the columns of a branch are listed once each, and they are exactly the columns some atom mentions |
| OptimizeEngine.ColumnsFirstSeenOrder | sharding-core/src/test/java/io/shardingjdbc/core/optimizer/OptimizeEngineTest.java:79-80 | the columns of a branch are listed in the order of their first atom |
| OptimizeEngine.ResolveColumns | sharding-core/src/test/java/io/shardingjdbc/core/optimizer/OptimizeEngineTest.java:78-84 | resolving columns in order gives one exact, non-empty value per column, or always-false exactly when one of them is unsatisfiable |
| OptimizeEngine.ResolveBranch | sharding-core/src/test/java/io/shardingjdbc/core/optimizer/OptimizeEngineTest.java:78-84 | a branch resolves to one value per mentioned column, in first-seen order, each admitting exactly what the column's atoms admit; columns it does not mention never appear; it is always false exactly when some column's atoms admit no value |
| OptimizeEngine.CollectFrom | sharding-core/src/test/java/io/shardingjdbc/core/optimizer/OptimizeEngineTest.java:79-80 | each collected condition is a resolved branch tagged with its position; positions rise strictly |
| OptimizeEngine.CollectFromComplete | sharding-core/src/test/java/io/shardingjdbc/core/optimizer/OptimizeEngineTest.java:78-80 | no resolved branch is dropped from the collected conditions |
| OptimizeEngine.CollectFromEmpty | sharding-core/src/test/java/io/shardingjdbc/core/optimizer/OptimizeEngineTest.java:39 | nothing is collected exactly when every branch is always false |
| OptimizeEngine.Optimize | sharding-core/src/test/java/io/shardingjdbc/core/optimizer/OptimizeEngineTest.java:38-39 | the emitted conditions are exactly the resolvable branches in input order; alwaysFalse holds iff there is a branch and every branch is always false; an empty OR condition gives no conditions and alwaysFalse false |
| OptimizeEngineCases.TwoAtomsResolve | sharding-core/src/test/java/io/shardingjdbc/core/optimizer/OptimizeEngineTest.java:79-80 | the one branch of a satisfiable two-atom condition resolves to a single value for the test column, admitting exactly what both atoms admit, a Range only when both atoms are BETWEENs |
| OptimizeEngineCases.SatisfiableTwoAtoms | sharding-core/src/test/java/io/shardingjdbc/core/optimizer/OptimizeEngineTest.java:77-80 | a satisfiable two-atom branch yields one condition at position 0 with one value for the test column, exact and of the right shape |
| OptimizeEngineCases.AlwaysFalseListConditions | sharding-core/src/test/java/io/shardingjdbc/core/optimizer/OptimizeEngineTest.java:30-40 | {1,2} ∧ = 3 is always false |
| OptimizeEngineCases.AlwaysFalseRangeConditions | sharding-core/src/test/java/io/shardingjdbc/core/optimizer/OptimizeEngineTest.java:43-53 | [1,2] ∧ [3,4] is always false |
| OptimizeEngineCases.AlwaysFalseListAndRangeConditions | sharding-core/src/test/java/io/shardingjdbc/core/optimizer/OptimizeEngineTest.java:56-66 | {1,2} ∧ [3,4] is always false |
| OptimizeEngineCases.ListConditions | sharding-core/src/test/java/io/shardingjdbc/core/optimizer/OptimizeEngineTest.java:69-84 | {1,2} ∧ = 1 is satisfiable and emits exactly the list {1} |
| OptimizeEngineCases.RangeConditions | sharding-core/src/test/java/io/shardingjdbc/core/optimizer/OptimizeEngineTest.java:87-102 | [1,2] ∧ [1,3] is satisfiable and emits the range [1,2] |
| OptimizeEngineCases.ListConditionsAndRangeConditions | sharding-core/src/test/java/io/shardingjdbc/core/optimizer/OptimizeEngineTest.java:105-120 | {1,2} ∧ [1,2] is satisfiable and emits the list {1,2}, not a range |
| OptimizeEngineCases.PrunedListMeetsLaterEquality | sharding-core/src/test/java/io/shardingjdbc/core/optimizer/OptimizeEngineTest.java:105-120 | a list met by a range keeps only its values inside the range, so IN (1, 5) ∧ BETWEEN 4 AND 6 ∧ = 1 is always false |
| SameEncryptorComparator.IsSame | features/encrypt/core/src/main/java/org/apache/shardingsphere/encrypt/rewrite/token/acrosstable/SameEncryptorComparator.java:37-45 | two absent encryptors are the same, one absent is different, two present ones are the same iff type and value match; with structural equality this is exactly equality of the optional values |
| SameEncryptorComparator.DifferentTypesDiffer | features/encrypt/core/src/main/java/org/apache/shardingsphere/encrypt/rewrite/token/acrosstable/SameEncryptorComparator.java:42 | encryptors of different types are never the same |
| SameEncryptorComparator.IsSameReflexive | features/encrypt/core/src/main/java/org/apache/shardingsphere/encrypt/rewrite/token/acrosstable/SameEncryptorComparator.java:38-42 | every encryptor, absent included, is the same as itself |
| SameEncryptorComparator.IsSameSymmetric | features/encrypt/core/src/main/java/org/apache/shardingsphere/encrypt/rewrite/token/acrosstable/SameEncryptorComparator.java:37-45 | the comparison does not depend on argument order |
| SameEncryptorComparator.IsSameTransitive | features/encrypt/core/src/main/java/org/apache/shardingsphere/encrypt/rewrite/token/acrosstable/SameEncryptorComparator.java:41-43 | two encryptors the same as a third are the same as each other |
| InsertSelectColumnsSameEncryptorUsageChecker.GetColumnSegmentBoundInfo | features/encrypt/core/src/main/java/org/apache/shardingsphere/encrypt/rewrite/token/acrosstable/InsertSelectColumnsSameEncryptorUsageChecker.java:64-68 | a column projection is looked up by its original table and column; any other projection by its column label |
| InsertSelectColumnsSameEncryptorUsageChecker.IsSame | features/encrypt/core/src/main/java/org/apache/shardingsphere/encrypt/rewrite/token/acrosstable/InsertSelectColumnsSameEncryptorUsageChecker.java:47-62 | the answer is true iff there is a projection for every INSERT column and each INSERT column's encryptor (looked up by its bound original table and column) is the same as that of the projection at its position; when false, there is a first mismatching pair with every earlier pair the same; requires only that the projections do not run out before that answer, so a mismatch ahead of the last projection answers false even when projections are fewer than INSERT columns |
| InsertSelectColumnsSameEncryptorUsageChecker.NoInsertColumnsIsSame | features/encrypt/core/src/main/java/org/apache/shardingsphere/encrypt/rewrite/token/acrosstable/InsertSelectColumnsSameEncryptorUsageChecker.java:50-61 | with no INSERT columns the answer is true |
| InsertSelectColumnsSameEncryptorUsageChecker.ExtraProjectionsIgnored | features/encrypt/core/src/main/java/org/apache/shardingsphere/encrypt/rewrite/token/acrosstable/InsertSelectColumnsSameEncryptorUsageChecker.java:50-54 | projections past the last INSERT column do not change the answer |
| InsertSelectColumnsSameEncryptorUsageChecker.MismatchDecides | features/encrypt/core/src/main/java/org/apache/shardingsphere/encrypt/rewrite/token/acrosstable/InsertSelectColumnsSameEncryptorUsageChecker.java:57-59 | one mismatching pair makes the answer false whatever the other pairs are |
| InsertSelectColumnsSameEncryptorUsageChecker.SameOriginAgrees | features/encrypt/core/src/main/java/org/apache/shardingsphere/encrypt/rewrite/token/acrosstable/InsertSelectColumnsSameEncryptorUsageChecker.java:52-56 | an INSERT column bound to the same original table and column as a column projection always agrees with it |
| PathStrings.JoinSplitIsReplace | mode/node/src/test/java/org/apache/shardingsphere/mode/node/path/config/rule/RuleNodePathTest.java:54 | splitting at one character and joining with another replaces every occurrence of the first |
| PathStrings.SplitJoinRoundTrip | mode/node/src/test/java/org/apache/shardingsphere/mode/node/path/config/rule/RuleNodePathTest.java:39 | splitting a type at its dots and joining with dots gives the type back |
| PathStrings.JoinSplitRoundTrip | mode/node/src/test/java/org/apache/shardingsphere/mode/node/path/config/rule/RuleNodePathTest.java:39 | joining dot-free segments with dots and splitting again gives the segments back |
| RuleNodePath.NamedPath | mode/node/src/test/java/org/apache/shardingsphere/mode/node/path/config/rule/RuleNodePathTest.java:46 | a named item's path lies one level below its type: split at slashes it is exactly [type, item name] (NamedItemFound gives `tables/foo_tbl`) |
| RuleNodePath.UniquePath | mode/node/src/test/java/org/apache/shardingsphere/mode/node/path/config/rule/RuleNodePathTest.java:52-54 | an undotted unique item's path is its type; a dotted one's path is its parent's segments followed by its own (UniquePathReplacesDots: the type with dots turned into slashes) |
| RuleNodePath.NewRuleNodePath | mode/node/src/test/java/org/apache/shardingsphere/mode/node/path/config/rule/RuleNodePathTest.java:38-40 | the rule type becomes the root; the named registry is keyed by exactly the named types and the unique registry by exactly the keys of the unique types |
| RuleNodePath.GetNamedItem | mode/node/src/test/java/org/apache/shardingsphere/mode/node/path/config/rule/RuleNodePathTest.java:45 | an item is returned exactly when its type is registered, and it is the registered item (NamedItemFound: found iff the type was given to the constructor) |
| RuleNodePath.GetUniqueItem | mode/node/src/test/java/org/apache/shardingsphere/mode/node/path/config/rule/RuleNodePathTest.java:51-53 | an item is returned exactly when its key is registered, and it is the registered item (UniqueItemFound: found iff some unique type has that key, the last such type winning) |
| RuleNodePath.NamedItems | mode/node/src/test/java/org/apache/shardingsphere/mode/node/path/config/rule/RuleNodePathTest.java:38-40 | one named item per declared type, keyed by that type |
| RuleNodePath.UniqueItemOf | mode/node/src/test/java/org/apache/shardingsphere/mode/node/path/config/rule/RuleNodePathTest.java:51-54 | a unique item's key has no dot, and an undotted type is its own key with no parent |
| RuleNodePath.UniqueItems | mode/node/src/test/java/org/apache/shardingsphere/mode/node/path/config/rule/RuleNodePathTest.java:39 | the unique registry's keys are exactly the keys of the declared types |
| RuleNodePath.UniqueItemsLastWins | mode/node/src/test/java/org/apache/shardingsphere/mode/node/path/config/rule/RuleNodePathTest.java:39 | each key holds the item of the last type declared under it |
| RuleNodePath.UniquePathReplacesDots | mode/node/src/test/java/org/apache/shardingsphere/mode/node/path/config/rule/RuleNodePathTest.java:52-54 | a unique item's path is its type with every dot replaced by a slash |
| RuleNodePath.DottedTypeKeyedByLastSegment | mode/node/src/test/java/org/apache/shardingsphere/mode/node/path/config/rule/RuleNodePathTest.java:53 | a dotted unique type is keyed by the segment after its last dot |
| RuleNodePath.DottedUniqueItem | mode/node/src/test/java/org/apache/shardingsphere/mode/node/path/config/rule/RuleNodePathTest.java:53-54 | a type `a.b` gives the item `b` under parent `a` |
| RuleNodePath.NamedItemFound | mode/node/src/test/java/org/apache/shardingsphere/mode/node/path/config/rule/RuleNodePathTest.java:45-46 | a named item is found iff its type was declared, and its item paths are `type/name` |
| RuleNodePath.UniqueItemFound | mode/node/src/test/java/org/apache/shardingsphere/mode/node/path/config/rule/RuleNodePathTest.java:51-54 | a unique item is found iff some declared type has that key, and its path is that type with dots turned into slashes |
| RuleNodePath.ItemsIndependentOfRuleType | mode/node/src/test/java/org/apache/shardingsphere/mode/node/path/config/rule/RuleNodePathTest.java:40 | the item registries do not depend on the rule type, so item paths are relative |
| RuleNodePath.FooRulePaths | mode/node/src/test/java/org/apache/shardingsphere/mode/node/path/config/rule/RuleNodePathTest.java:37-55 | for rule `foo` with named `tables` and unique `tables` and `tables.type`: named `tables` gives `tables/foo_tbl`, unique `tables` gives `tables`, unique `type` gives `tables/type`, each registry answering for its own `tables` |

## Left out

- `LockSegmentBinder.bind` is not modelled. It delegates each column to a column binder that is not part of this model. Otherwise it only copies the start and stop indices and the table list.
- SQL expression objects, the parameter list and the generated key passed to `optimize` are left out. Condition operands are already-resolved `int`s.
- Comparing values of incompatible types is a separate error in the engine. It is not modelled, because every value here is an `int`.
- The Guava `Range` class and the `ShardingValue` class hierarchy with its downcasts are left out. The `ShardingValue` datatype replaces them.
- The encrypt rule's `findQueryEncryptor` internals and the encrypt-algorithm plug-in interface are left out. The lookup is a function parameter.
- Encryptor equality is structural. An algorithm class whose `equals` is object identity would make distinct but equal-looking encryptors differ. The reflexivity and symmetry lemmas hold either way.
- The bound info built for a non-column projection uses a constructor that is not part of this model. It is modelled as an empty original table with the column label as the original column.
- When projections run out before any mismatch, the Java iterator throws `NoSuchElementException`. Here the precondition `ProjectionsSuffice` excludes exactly that case: it admits every input with at least as many projections as INSERT columns, and every input with a mismatching pair inside the projections, which answers false before they run out.
- ValueMerge.DomainOf: the engine's design rejects an empty IN list as malformed input and fails fast with an error. The model has no error outcome. An empty IN list admits no value and makes its branch a contradiction, so the error is not modelled. A BETWEEN with lower bound above upper bound is treated the same way.
- ValueMerge.MergeValues: List ∧ Range prunes the list to the range. This departs on purpose from a legacy engine that only checks overlap and keeps the list whole. That engine emits wider lists, and when a later atom follows it can reach a different always-false verdict (see `OptimizeEngineCases.PrunedListMeetsLaterEquality`).
- ShardingModel.ShardingValue: a list value is a `set<int>`, whereas the Java value is a `Collection`. Repeated IN values and their order are dropped, so a `size()` counts distinct values only.
- Persistence and registry storage of rule node paths are left out.
- A lookup of an unregistered item type gives `None` in place of Java's null.
- Unique types with more than one dot are generalised from the two-segment case the test shows: key = last segment, path = all segments joined by `/`.
- Java's `String.split` drops trailing empty segments. `PathStrings.Split` keeps them. No declared type ends in a dot.
