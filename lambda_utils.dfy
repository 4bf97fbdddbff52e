/** The helpers of com.leshana.lambdautils.LambdaUtils. A Java function value
    that may be null is an Option of a Dafny function; a reference result that
    may be null is an Option; a thrown exception is the Failure of a Result. */
module LambdaUtils {
  import opened Wrappers
  import opened Jdk

  /** The NullPointerException thrown by Objects.requireNonNull (no message). */
  datatype NullPointer = NullPointer

  /** The IllegalStateException thrown by throwingMerger. Its message names the
      value already in the map (the merger's first argument), not the key. */
  datatype DuplicateKey<V> = DuplicateKey(existing: V)

  /** The int and long keys of the primitive overloads of `testing`. */
  newtype Int32 = x: int | -0x8000_0000 <= x < 0x8000_0000
  newtype Int64 = x: int | -0x8000_0000_0000_0000 <= x < 0x8000_0000_0000_0000

  /** alwaysNull(): a function that returns null for every input, null included. */
  function AlwaysNull<P(!new), R>(): (f: Option<P> -> Option<R>)
    ensures forall p :: f(p).None?
  {
    p => None
  }

  /** function(f), predicate(p), consumer(c): casts that return their argument
      unchanged, null included. A consumer's side effect is described by the
      value of type E it gives. */
  function AsFunction<T, R>(f: Option<T -> R>): (g: Option<T -> R>)
    ensures g == f
  {
    f
  }

  function AsPredicate<T>(p: Option<T -> bool>): (q: Option<T -> bool>)
    ensures q == p
  {
    p
  }

  function AsConsumer<T, E>(c: Option<T -> E>): (d: Option<T -> E>)
    ensures d == c
  {
    c
  }

  /** streamOf(collectionExtractor): for each input, the items of the extracted
      collection in iteration order, or nothing when the extractor gives null. */
  function StreamOf<T(!new), R>(collectionExtractor: T -> Option<seq<R>>): (stream: T -> seq<R>)
    ensures forall t :: collectionExtractor(t).None? ==> stream(t) == []
    ensures forall t :: collectionExtractor(t).Some? ==> stream(t) == collectionExtractor(t).value
  {
    t => if collectionExtractor(t).Some? then collectionExtractor(t).value else []
  }

  /** Reference count for flat-mapping with StreamOf: the summed sizes of the
      collections that are present. */
  function PresentSize<T, R>(xs: seq<T>, collectionExtractor: T -> Option<seq<R>>): nat
  {
    if xs == [] then 0
    else
      (match collectionExtractor(xs[0]) case None => 0 case Some(items) => |items|)
      + PresentSize(xs[1..], collectionExtractor)
  }

  lemma {:induction false} FlatMapStreamOfSize<T(!new), R>(xs: seq<T>, collectionExtractor: T -> Option<seq<R>>)
    ensures |FlatMap(xs, StreamOf(collectionExtractor))| == PresentSize(xs, collectionExtractor)
  {
    if xs != [] {
      FlatMapStreamOfSize(xs[1..], collectionExtractor);
    }
  }

  /** An item comes out of the flattening exactly when some element's
      collection is present and holds it. */
  lemma FlatMapStreamOfMember<T(!new), R>(xs: seq<T>, collectionExtractor: T -> Option<seq<R>>, y: R)
    ensures y in FlatMap(xs, StreamOf(collectionExtractor))
        <==> exists i :: 0 <= i < |xs| && collectionExtractor(xs[i]).Some? && y in collectionExtractor(xs[i]).value
  {
    var stream := StreamOf(collectionExtractor);
    FlatMapMember(xs, stream, y);
    if y in FlatMap(xs, stream) {
      var i :| 0 <= i < |xs| && y in stream(xs[i]);
      assert collectionExtractor(xs[i]).Some?;
    }
    if exists i :: 0 <= i < |xs| && collectionExtractor(xs[i]).Some? && y in collectionExtractor(xs[i]).value {
      var i :| 0 <= i < |xs| && collectionExtractor(xs[i]).Some? && y in collectionExtractor(xs[i]).value;
      assert y in stream(xs[i]);
    }
  }

  /** The flattening is, element by element and in order, exactly the items of
      each present collection: the part of element i sits between the parts of
      the elements before it and those after it. */
  lemma FlatMapStreamOfAt<T(!new), R>(xs: seq<T>, collectionExtractor: T -> Option<seq<R>>, i: nat)
    requires i < |xs|
    ensures FlatMap(xs, StreamOf(collectionExtractor))
         == FlatMap(xs[..i], StreamOf(collectionExtractor))
          + (if collectionExtractor(xs[i]).Some? then collectionExtractor(xs[i]).value else [])
          + FlatMap(xs[i + 1..], StreamOf(collectionExtractor))
  {
    FlatMapAt(xs, StreamOf(collectionExtractor), i);
  }

  /** testing(keyExtractor, predicate): both arguments are checked for null when
      the predicate is built, before anything is tested; the predicate built
      tests the extracted key. */
  function Testing<T(!new), U>(keyExtractor: Option<T -> U>, keyPredicate: Option<U -> bool>): (r: Result<T -> bool, NullPointer>)
    ensures r.Failure? <==> keyExtractor.None? || keyPredicate.None?
    ensures r.Success? ==> forall t :: r.value(t) == keyPredicate.value(keyExtractor.value(t))
  {
    if keyExtractor.None? then Failure(NullPointer)
    else if keyPredicate.None? then Failure(NullPointer)
    else
      var extract := keyExtractor.value;
      var test := keyPredicate.value;
      Success(t => test(extract(t)))
  }

  /** The int overload of `testing`: the generic form at 32-bit keys. */
  function TestingInt<T(!new)>(keyExtractor: Option<T -> Int32>, keyPredicate: Option<Int32 -> bool>): (r: Result<T -> bool, NullPointer>)
    ensures r.Failure? <==> keyExtractor.None? || keyPredicate.None?
    ensures r.Success? ==> forall t :: r.value(t) == keyPredicate.value(keyExtractor.value(t))
  {
    Testing(keyExtractor, keyPredicate)
  }

  /** The long overload of `testing`: the generic form at 64-bit keys. */
  function TestingLong<T(!new)>(keyExtractor: Option<T -> Int64>, keyPredicate: Option<Int64 -> bool>): (r: Result<T -> bool, NullPointer>)
    ensures r.Failure? <==> keyExtractor.None? || keyPredicate.None?
    ensures r.Success? ==> forall t :: r.value(t) == keyPredicate.value(keyExtractor.value(t))
  {
    Testing(keyExtractor, keyPredicate)
  }

  /** throwingMerger(): a merge function that never merges; it always throws,
      naming the value already present. */
  function ThrowingMerger<V(!new)>(): (merge: (V, V) -> Result<V, DuplicateKey<V>>)
    ensures forall existing, incoming :: merge(existing, incoming) == Failure(DuplicateKey(existing))
  {
    (existing, incoming) => Failure(DuplicateKey(existing))
  }

  /** records.stream().collect(toMap(keyMapper, valueMapper, mapSupplier)): the
      supplier's map is empty and compares keys by `canon`; duplicates throw. */
  function ToMap<T, K, C, V(!new)>(records: seq<T>, keyMapper: T -> K, valueMapper: T -> V, canon: K -> C)
    : (r: Result<map<C, (K, V)>, DuplicateKey<V>>)
    ensures records == [] ==> r == Success(map[])
    ensures r.Success? ==> r.value.Keys == KeysOf(records, keyMapper, canon)
  {
    Accumulate(records, keyMapper, valueMapper, ThrowingMerger(), canon, map[])
  }

  /** Records with pairwise distinct keys are collected into a map with one
      entry per record, in which every key equivalent to a record's key finds
      that record's value. */
  lemma ToMapDistinct<T, K, C, V(!new)>(records: seq<T>, keyMapper: T -> K, valueMapper: T -> V, canon: K -> C)
    requires DistinctKeys(records, keyMapper, canon)
    ensures var r := ToMap(records, keyMapper, valueMapper, canon);
      && r.Success?
      && |r.value| == |records|
      && (forall i, k :: 0 <= i < |records| && canon(k) == canon(keyMapper(records[i])) ==>
            Get(r.value, canon, k) == Some(valueMapper(records[i])))
  {
    AccumulateFresh(records, keyMapper, valueMapper, ThrowingMerger(), canon, map[]);
    KeysOfDistinct(records, keyMapper, canon);
    var m := ToMap(records, keyMapper, valueMapper, canon).value;
    assert |m| == |m.Keys|;
  }

  /** The first repeated key ends the collection: if records[..j] have
      distinct keys and records[j]'s key is equivalent to that of an earlier
      record i, toMap throws with record i's value and returns no map. */
  lemma ToMapFirstDuplicate<T, K, C, V(!new)>(records: seq<T>, keyMapper: T -> K, valueMapper: T -> V, canon: K -> C,
                                             i: nat, j: nat)
    requires i < j < |records|
    requires canon(keyMapper(records[i])) == canon(keyMapper(records[j]))
    requires DistinctKeys(records[..j], keyMapper, canon)
    ensures ToMap(records, keyMapper, valueMapper, canon) == Failure(DuplicateKey(valueMapper(records[i])))
  {
    var merge := ThrowingMerger<V>();
    var prefix := records[..j];
    assert records == prefix + records[j..];
    AccumulateAppend(prefix, records[j..], keyMapper, valueMapper, merge, canon, map[]);
    AccumulateFresh(prefix, keyMapper, valueMapper, merge, canon, map[]);
    assert prefix[i] == records[i];
    assert records[j..][0] == records[j];
  }

  /** Some pair of records shares a key only if there is a first record whose
      key repeats an earlier one. */
  lemma {:induction false} FirstDuplicate<T, K, C>(records: seq<T>, keyMapper: T -> K, canon: K -> C) returns (i: nat, j: nat)
    requires !DistinctKeys(records, keyMapper, canon)
    ensures i < j < |records|
    ensures canon(keyMapper(records[i])) == canon(keyMapper(records[j]))
    ensures DistinctKeys(records[..j], keyMapper, canon)
  {
    var n := |records| - 1;
    var prefix := records[..n];
    if DistinctKeys(prefix, keyMapper, canon) {
      var a, b :| 0 <= a < b < |records| && canon(keyMapper(records[a])) == canon(keyMapper(records[b]));
      if b < n {
        assert false;
      }
      i, j := a, n;
    } else {
      i, j := FirstDuplicate(prefix, keyMapper, canon);
      assert prefix[..j] == records[..j];
    }
  }

  /** toMap succeeds exactly when no two records have equivalent keys. */
  lemma ToMapSucceedsIffDistinct<T, K, C, V(!new)>(records: seq<T>, keyMapper: T -> K, valueMapper: T -> V, canon: K -> C)
    ensures ToMap(records, keyMapper, valueMapper, canon).Success? <==> DistinctKeys(records, keyMapper, canon)
  {
    if DistinctKeys(records, keyMapper, canon) {
      ToMapDistinct(records, keyMapper, valueMapper, canon);
    } else {
      var i, j := FirstDuplicate(records, keyMapper, canon);
      ToMapFirstDuplicate(records, keyMapper, valueMapper, canon, i, j);
    }
  }
}
