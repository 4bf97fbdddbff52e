# lambda-utils, modelled in Dafny

This project models `com.leshana.lambdautils.LambdaUtils`, a small Java library of
helpers for working with function values and streams:

- `alwaysNull()`, a function that returns null for every input.
- `function`, `predicate` and `consumer`, casts that return their argument.
- `streamOf`, which turns a collection extractor that may return null into a
  null-safe stream extractor for `flatMap`.
- `testing`, which builds a predicate that tests a key taken from an element.
  Both of its arguments are checked for null when the predicate is built.
- `throwingMerger`, a merge function that always throws `IllegalStateException`.
- `toMap`, which collects records into a caller-supplied map and throws on a
  duplicate key. "Duplicate" is decided by the supplied map's own equality or
  comparator.

Modules:

- `Wrappers` (`wrappers.dfy`): `Option` stands for a reference that may be null.
  `Result` stands for a call that returns or throws.
- `Jdk` (`jdk.dfy`): the JDK behaviour that the helpers delegate to.
  - `Stream.flatMap` collected to a list is `FlatMap`.
  - The accumulation of `Collectors.toMap(keyMapper, valueMapper, merge, supplier)` is
    `Accumulate`: `Map.merge` folded over the records in order, stopping at the
    first failure of the merge function.
  - `Map.get` is `Get`, and `Predicate.isEqual` is `IsEqual`.
  - A map's key equivalence is a parameter `canon: K -> C`. Two keys are the same
    map key when `canon` sends them to the same value. For a `TreeMap` with a
    comparator, `canon` picks one representative per class of keys that compare
    equal.
  - An entry keeps the first key object inserted under it, as `TreeMap.put` does,
    together with its value.
- `LambdaUtils` (`lambda_utils.dfy`): the helpers and what they promise.
- `LambdaUtilsExamples` (`examples.dfy`): the scenarios of `LambdaUtilsTest`.
  The `Widget` and `Warehouse` fixtures are datatypes. `String.CASE_INSENSITIVE_ORDER`
  becomes ASCII case folding.

Two points about the behaviour of the code:

- The duplicate-key error carries the value already in the map. `throwingMerger`
  formats its first argument, and `Map.merge` passes the old value as that argument.
  It does not carry the key, even though the message says "Duplicate key".
- `toMap` never returns a partially filled map. On a duplicate the result is a
  `Failure` and carries no map.

## Model

| member | source | states |
|---|---|---|
| `LambdaUtils.AlwaysNull` | src/main/java/com/leshana/lambdautils/LambdaUtils.java:37-46 | the returned function gives null for every input, null included |
| `LambdaUtils.AsFunction` | src/main/java/com/leshana/lambdautils/LambdaUtils.java:48-58 | returns its argument unchanged, null included |
| `LambdaUtils.AsPredicate` | src/main/java/com/leshana/lambdautils/LambdaUtils.java:60-69 | returns its argument unchanged, null included |
| `LambdaUtils.AsConsumer` | src/main/java/com/leshana/lambdautils/LambdaUtils.java:71-80 | returns its argument unchanged, null included |
| `LambdaUtils.StreamOf` | src/main/java/com/leshana/lambdautils/LambdaUtils.java:82-98 | for an input whose collection is null the stream is empty; otherwise it is exactly the collection's items in order |
| `LambdaUtils.FlatMapStreamOfSize` | src/main/java/com/leshana/lambdautils/LambdaUtils.java:93-98 | flat-mapping with streamOf yields as many items as the non-null collections hold together (independent count `PresentSize`) |
| `LambdaUtils.FlatMapStreamOfMember` | src/main/java/com/leshana/lambdautils/LambdaUtils.java:93-98 | an item is produced if and only if some element's collection is non-null and contains it |
| `LambdaUtils.FlatMapStreamOfAt` | src/main/java/com/leshana/lambdautils/LambdaUtils.java:93-98 | element i's items (none if its collection is null) appear after those of elements before i and before those of elements after i |
| `LambdaUtils.Testing` | src/main/java/com/leshana/lambdautils/LambdaUtils.java:100-118 | fails with NullPointerException exactly when the extractor or the predicate is null, before any element is tested; otherwise the predicate built accepts t iff predicate(keyExtractor(t)) |
| `LambdaUtils.TestingInt` | src/main/java/com/leshana/lambdautils/LambdaUtils.java:135-148 | the int overload: the same null checks and the same composition over 32-bit keys |
| `LambdaUtils.TestingLong` | src/main/java/com/leshana/lambdautils/LambdaUtils.java:150-163 | the long overload: the same null checks and the same composition over 64-bit keys |
| `LambdaUtils.ThrowingMerger` | src/main/java/com/leshana/lambdautils/LambdaUtils.java:165-179 | never produces a merged value: every pair fails with a duplicate-key error carrying the value already present |
| `LambdaUtils.ToMap` | src/main/java/com/leshana/lambdautils/LambdaUtils.java:181-203 | an empty input gives the supplier's empty map; a successful result has exactly the records' keys, up to the map's equivalence |
| `LambdaUtils.ToMapDistinct` | src/main/java/com/leshana/lambdautils/LambdaUtils.java:181-203 | pairwise non-equivalent keys: success, one entry per record, and a lookup of any key equivalent to a record's key finds that record's value |
| `LambdaUtils.ToMapFirstDuplicate` | src/main/java/com/leshana/lambdautils/LambdaUtils.java:175-203 | the first record whose key repeats an earlier record's key makes toMap fail, carrying the earlier record's value; no map is returned |
| `LambdaUtils.ToMapSucceedsIffDistinct` | src/main/java/com/leshana/lambdautils/LambdaUtils.java:181-203 | toMap succeeds if and only if no two records have equivalent keys |
| `Jdk.FlatMap` | src/main/java/com/leshana/lambdautils/LambdaUtils.java:82-86 | flatMap of no elements is empty; of one element it is that element's sequence |
| `Jdk.FlatMapAppend` | src/main/java/com/leshana/lambdautils/LambdaUtils.java:82-86 | flatMap distributes over concatenation, keeping encounter order |
| `Jdk.FlatMapAt` | src/main/java/com/leshana/lambdautils/LambdaUtils.java:82-86 | element i's sequence sits between the flattening of the elements before it and after it |
| `Jdk.FlatMapMember` | src/main/java/com/leshana/lambdautils/LambdaUtils.java:82-86 | an item is flattened out if and only if some element's sequence contains it |
| `Jdk.Accumulate` | src/main/java/com/leshana/lambdautils/LambdaUtils.java:202 | Collectors.toMap's fold: on success the keys are the starting map's plus the records' keys, and every starting entry keeps its original key object |
| `Jdk.AccumulateNewKey` | src/main/java/com/leshana/lambdautils/LambdaUtils.java:202 | a record whose key is new to the map is stored with its own key and value, and the fold goes on from there |
| `Jdk.AccumulateFresh` | src/main/java/com/leshana/lambdautils/LambdaUtils.java:198-203 | records with pairwise distinct keys that are not yet in the map are all inserted, each as an entry holding that record's key and value; existing entries are untouched and the merge function is never called |
| `Jdk.AccumulateAppend` | src/main/java/com/leshana/lambdautils/LambdaUtils.java:202 | folding a + b is folding a, then, only if that succeeded, folding b from its map; a failure stops the fold |
| `Jdk.Get` | src/test/java/com/leshna/lambdautils/LambdaUtilsTest.java:74-76 | Map.get: the value stored under the key equivalent to k, or None when no stored key is equivalent to k |
| `Jdk.IsEqual` | src/test/java/com/leshna/lambdautils/LambdaUtilsTest.java:53 | Predicate.isEqual(target) accepts exactly the values equal to target |
| `LambdaUtilsExamples.FoldCase` | src/test/java/com/leshna/lambdautils/LambdaUtilsTest.java:73 | case folding keeps the length and lower-cases each ASCII letter |
| `LambdaUtilsExamples.CaseInsensitive` | src/test/java/com/leshna/lambdautils/LambdaUtilsTest.java:73 | the key equivalence of the tests' case-insensitive TreeMap: a present name gives a present key of the same length; a null name is its own key |
| `LambdaUtilsExamples.CaseInsensitiveSameKey` | src/test/java/com/leshna/lambdautils/LambdaUtilsTest.java:84 | two names are one key if and only if both are null, or both are present and equal letter by letter after ASCII folding |
| `LambdaUtilsExamples.AlwaysNullExample` | src/test/java/com/leshna/lambdautils/LambdaUtilsTest.java:30-34 | alwaysNull gives null for a null input and for an object |
| `LambdaUtilsExamples.StreamOfExample` | src/test/java/com/leshna/lambdautils/LambdaUtilsTest.java:36-46 | warehouses [a,b], [c], null flatten to exactly [a, b, c] |
| `LambdaUtilsExamples.TestingExample` | src/test/java/com/leshna/lambdautils/LambdaUtilsTest.java:48-57 | testing(getName, isEqual("A")) accepts "A" and rejects "B" and a null name |
| `LambdaUtilsExamples.TestingNullArguments` | src/test/java/com/leshna/lambdautils/LambdaUtilsTest.java:59-67 | a null extractor or null predicate fails at construction. The tests exercise the generic form only; the int and long cases go beyond them and follow LambdaUtils.java:145-146 and 160-161 |
| `LambdaUtilsExamples.ToMapExample` | src/test/java/com/leshna/lambdautils/LambdaUtilsTest.java:69-77 | [B, a] case-insensitively: two entries, "A" and "a" find the widget "a", "b" finds the widget "B" |
| `LambdaUtilsExamples.ToMapDuplicateExample` | src/test/java/com/leshna/lambdautils/LambdaUtilsTest.java:79-85 | [B, a, A] case-insensitively fails with a duplicate-key error carrying the widget "a" |

## Left out

- `Serializable` intersection casts (LambdaUtils.java:45, 117, 132, 147, 162): a serialisation concern with no behaviour to state.
- The `double` overload of `testing` (LambdaUtils.java:129-133): it is the generic composition at floating-point keys, and floating point is not modelled. `Testing` covers its behaviour.
- The text of the duplicate-key message (`String.format`): only the error and the value it names are modelled.
- Stream laziness and the parallel combiner of `Collectors.toMap`: the model is an eager, sequential, left-to-right fold.
- The `Collector` object: `ToMap` takes the records directly, standing for `records.stream().collect(toMap(...))`.
- The concrete `TreeMap` and `String.CASE_INSENSITIVE_ORDER`: the map's key equivalence is the parameter `canon`. In the examples it is ASCII case folding; Unicode case mapping is not modelled.
- Null keys and null values in `toMap`: `Map.merge` throws NullPointerException on a null value. A `TreeMap` whose comparator rejects null throws on a null key; the tests' `CASE_INSENSITIVE_ORDER` is such a comparator. A `HashMap` accepts a null key. The model treats every key and value as an ordinary value, so `CaseInsensitive` sends a null name to itself where the tests' comparator would throw.
- `Accumulate`: `Map.merge` removes the entry when the merge function returns null. This is not modelled, because the merge function here either returns a value or fails, and `throwingMerger` never returns.
- Exceptions thrown by the caller's functions (key and value mappers, collection extractor, key extractor, predicate): the model takes them as total functions that never throw. In the source such an exception propagates out of streamOf's function, out of the testing predicate, and out of toMap. In toMap it comes before any duplicate-key error: the value mapper runs before `Map.merge` calls `throwingMerger`. `ToMapFirstDuplicate` and `ToMapSucceedsIffDistinct` therefore hold only for mappers that do not throw.
- `StreamOf`: a null extractor passed to `streamOf` throws only when the returned function is applied. The model takes the extractor as a function that is always present.
- `ToMap`: its extractor and supplier arguments are not null-checked by the source. The model takes them as functions that are always present.
- A collection's iteration order is its sequence order; a `Collection` that is not a list iterates in an order of its own.
- A consumer's side effect is represented by the value it returns (type `E`); effects themselves are not modelled.
- Object identity (the tests' `assertSame`) becomes value equality of the `Widget` datatype.
