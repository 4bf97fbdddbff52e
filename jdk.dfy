/** The behaviour of the JDK library calls that LambdaUtils delegates to:
    Stream.flatMap collected to a list, the accumulation step of
    Collectors.toMap (Map.merge on the supplied map), Map.get and
    Predicate.isEqual. A map whose keys are compared by a comparator or by
    equals is modelled by a canonicalising function `canon`: two keys are the
    same map key exactly when `canon` sends them to the same value. An entry
    keeps the key object first inserted under it together with its value. */
module Jdk {
  import opened Wrappers

  /** stream.flatMap(f).collect(toList()): the sequences f gives for each
      element, concatenated in encounter order. */
  function FlatMap<T, R>(xs: seq<T>, f: T -> seq<R>): (r: seq<R>)
    ensures xs == [] ==> r == []
    ensures |xs| == 1 ==> r == f(xs[0])
  {
    if xs == [] then [] else f(xs[0]) + FlatMap(xs[1..], f)
  }

  /** Flat-mapping distributes over concatenation: the items of earlier
      elements come first. */
  lemma {:induction false} FlatMapAppend<T, R>(a: seq<T>, b: seq<T>, f: T -> seq<R>)
    ensures FlatMap(a + b, f) == FlatMap(a, f) + FlatMap(b, f)
  {
    if a == [] {
      assert a + b == b;
    } else {
      assert (a + b)[1..] == a[1..] + b;
      FlatMapAppend(a[1..], b, f);
    }
  }

  /** The part of element i sits between the parts of the elements before
      it and those after it. */
  lemma {:induction false} FlatMapAt<T, R>(xs: seq<T>, f: T -> seq<R>, i: nat)
    requires i < |xs|
    ensures FlatMap(xs, f) == FlatMap(xs[..i], f) + f(xs[i]) + FlatMap(xs[i + 1..], f)
  {
    assert xs == xs[..i] + ([xs[i]] + xs[i + 1..]);
    FlatMapAppend(xs[..i], [xs[i]] + xs[i + 1..], f);
    FlatMapAppend([xs[i]], xs[i + 1..], f);
  }

  /** An item is in the flattened sequence exactly when it is an item of the
      sequence of some element. */
  lemma {:induction false} FlatMapMember<T, R>(xs: seq<T>, f: T -> seq<R>, y: R)
    ensures y in FlatMap(xs, f) <==> exists i :: 0 <= i < |xs| && y in f(xs[i])
  {
    if xs != [] {
      FlatMapMember(xs[1..], f, y);
      if y in FlatMap(xs[1..], f) {
        var i :| 0 <= i < |xs[1..]| && y in f(xs[1..][i]);
        assert y in f(xs[i + 1]);
      }
      if exists i :: 0 <= i < |xs| && y in f(xs[i]) {
        var i :| 0 <= i < |xs| && y in f(xs[i]);
        if i > 0 {
          assert y in f(xs[1..][i - 1]);
        }
      }
    }
  }

  /** The map keys of the records: the canonical forms of their extracted keys. */
  function KeysOf<T, K, C>(records: seq<T>, keyMapper: T -> K, canon: K -> C): set<C>
  {
    set i | 0 <= i < |records| :: canon(keyMapper(records[i]))
  }

  lemma KeysOfCons<T, K, C>(records: seq<T>, keyMapper: T -> K, canon: K -> C)
    requires records != []
    ensures KeysOf(records, keyMapper, canon)
         == {canon(keyMapper(records[0]))} + KeysOf(records[1..], keyMapper, canon)
  {
    var rest := records[1..];
    forall c | c in KeysOf(records, keyMapper, canon)
      ensures c in {canon(keyMapper(records[0]))} + KeysOf(rest, keyMapper, canon)
    {
      var i :| 0 <= i < |records| && c == canon(keyMapper(records[i]));
      if i > 0 {
        assert c == canon(keyMapper(rest[i - 1]));
      }
    }
    forall c | c in KeysOf(rest, keyMapper, canon)
      ensures c in KeysOf(records, keyMapper, canon)
    {
      var i :| 0 <= i < |rest| && c == canon(keyMapper(rest[i]));
      assert c == canon(keyMapper(records[i + 1]));
    }
  }

  /** Collectors.toMap(keyMapper, valueMapper, merge, supplier) run over
      `records` in order, starting from the map `acc`: each record is put with
      Map.merge, which stores (key, value) when the key is new and otherwise
      asks `merge` to combine the present value with the new one. The first
      failure of `merge` ends the fold and no map is returned. */
  function Accumulate<T, K, C, V, E>(records: seq<T>, keyMapper: T -> K, valueMapper: T -> V,
                                     merge: (V, V) -> Result<V, E>, canon: K -> C,
                                     acc: map<C, (K, V)>): (r: Result<map<C, (K, V)>, E>)
    ensures r.Success? ==> r.value.Keys == acc.Keys + KeysOf(records, keyMapper, canon)
    ensures r.Success? ==> forall c :: c in acc ==> r.value[c].0 == acc[c].0
    decreases |records|
  {
    if records == [] then
      Success(acc)
    else
      KeysOfCons(records, keyMapper, canon);
      var k := keyMapper(records[0]);
      var v := valueMapper(records[0]);
      var c := canon(k);
      if c in acc then
        match merge(acc[c].1, v)
        case Failure(e) => Failure(e)
        case Success(merged) =>
          Accumulate(records[1..], keyMapper, valueMapper, merge, canon, acc[c := (acc[c].0, merged)])
      else
        Accumulate(records[1..], keyMapper, valueMapper, merge, canon, acc[c := (k, v)])
  }

  /** A record whose key is new to the map is stored as it is, whatever the
      merge function. */
  lemma AccumulateNewKey<T, K, C, V, E>(records: seq<T>, keyMapper: T -> K, valueMapper: T -> V,
                                        merge: (V, V) -> Result<V, E>, canon: K -> C, acc: map<C, (K, V)>)
    requires records != [] && canon(keyMapper(records[0])) !in acc
    ensures Accumulate(records, keyMapper, valueMapper, merge, canon, acc)
         == Accumulate(records[1..], keyMapper, valueMapper, merge, canon,
                       acc[canon(keyMapper(records[0])) := (keyMapper(records[0]), valueMapper(records[0]))])
  {
  }

  /** No two records have equivalent keys. */
  ghost predicate DistinctKeys<T, K, C>(records: seq<T>, keyMapper: T -> K, canon: K -> C)
  {
    forall i, j :: 0 <= i < j < |records| ==> canon(keyMapper(records[i])) != canon(keyMapper(records[j]))
  }

  /** Records with pairwise distinct keys have as many map keys as records. */
  lemma {:induction false} KeysOfDistinct<T, K, C>(records: seq<T>, keyMapper: T -> K, canon: K -> C)
    requires DistinctKeys(records, keyMapper, canon)
    ensures |KeysOf(records, keyMapper, canon)| == |records|
    decreases |records|
  {
    if records != [] {
      var rest := records[1..];
      KeysOfCons(records, keyMapper, canon);
      forall i, j | 0 <= i < j < |rest|
        ensures canon(keyMapper(rest[i])) != canon(keyMapper(rest[j]))
      {
        assert rest[i] == records[i + 1] && rest[j] == records[j + 1];
      }
      KeysOfDistinct(rest, keyMapper, canon);
    }
  }

  /** Records whose keys are pairwise distinct and new to the map are all
      added, one entry each holding the record's key and value, and nothing
      present changes: the merge function is never consulted. */
  lemma {:induction false} AccumulateFresh<T, K, C, V, E>(records: seq<T>, keyMapper: T -> K, valueMapper: T -> V,
                                                         merge: (V, V) -> Result<V, E>, canon: K -> C,
                                                         acc: map<C, (K, V)>)
    requires DistinctKeys(records, keyMapper, canon)
    requires forall i :: 0 <= i < |records| ==> canon(keyMapper(records[i])) !in acc
    ensures var r := Accumulate(records, keyMapper, valueMapper, merge, canon, acc);
      && r.Success?
      && (forall c :: c in acc ==> c in r.value && r.value[c] == acc[c])
      && (forall i :: 0 <= i < |records| ==>
            && canon(keyMapper(records[i])) in r.value
            && r.value[canon(keyMapper(records[i]))] == (keyMapper(records[i]), valueMapper(records[i])))
    decreases |records|
  {
    if records != [] {
      var rest := records[1..];
      var k := keyMapper(records[0]);
      var c := canon(k);
      assert c !in acc;
      var acc' := acc[c := (k, valueMapper(records[0]))];
      AccumulateNewKey(records, keyMapper, valueMapper, merge, canon, acc);
      forall i | 0 <= i < |rest|
        ensures canon(keyMapper(rest[i])) !in acc'
      {
        assert rest[i] == records[i + 1];
      }
      forall i, j | 0 <= i < j < |rest|
        ensures canon(keyMapper(rest[i])) != canon(keyMapper(rest[j]))
      {
        assert rest[i] == records[i + 1] && rest[j] == records[j + 1];
      }
      AccumulateFresh(rest, keyMapper, valueMapper, merge, canon, acc');
      var m := Accumulate(rest, keyMapper, valueMapper, merge, canon, acc').value;
      forall i | 0 <= i < |records|
        ensures canon(keyMapper(records[i])) in m
        ensures m[canon(keyMapper(records[i]))] == (keyMapper(records[i]), valueMapper(records[i]))
      {
        if i > 0 {
          assert records[i] == rest[i - 1];
        }
      }
    }
  }

  /** Folding a concatenation is folding the first part and then, if that
      succeeded, the second part from the map it produced. */
  lemma {:induction false} AccumulateAppend<T, K, C, V, E>(a: seq<T>, b: seq<T>, keyMapper: T -> K,
                                                          valueMapper: T -> V, merge: (V, V) -> Result<V, E>,
                                                          canon: K -> C, acc: map<C, (K, V)>)
    ensures var first := Accumulate(a, keyMapper, valueMapper, merge, canon, acc);
      Accumulate(a + b, keyMapper, valueMapper, merge, canon, acc)
        == if first.Success? then Accumulate(b, keyMapper, valueMapper, merge, canon, first.value) else first
    decreases |a|
  {
    if a == [] {
      assert a + b == b;
    } else {
      assert (a + b)[0] == a[0];
      assert (a + b)[1..] == a[1..] + b;
      var c := canon(keyMapper(a[0]));
      var v := valueMapper(a[0]);
      if c in acc {
        match merge(acc[c].1, v)
        case Failure(e) =>
        case Success(merged) =>
          AccumulateAppend(a[1..], b, keyMapper, valueMapper, merge, canon, acc[c := (acc[c].0, merged)]);
      } else {
        AccumulateAppend(a[1..], b, keyMapper, valueMapper, merge, canon, acc[c := (keyMapper(a[0]), v)]);
      }
    }
  }

  /** Map.get: the value stored under the key equivalent to `k`, or null. */
  function Get<K, C, V>(m: map<C, (K, V)>, canon: K -> C, k: K): (r: Option<V>)
    ensures r.Some? <==> canon(k) in m
    ensures r.Some? ==> r.value == m[canon(k)].1
  {
    if canon(k) in m then Some(m[canon(k)].1) else None
  }

  /** Predicate.isEqual(target): accepts exactly the values equal to target
      (null equals only null). */
  function IsEqual<U(==,!new)>(target: Option<U>): (p: Option<U> -> bool)
    ensures forall u :: p(u) <==> u == target
  {
    u => u == target
  }
}
