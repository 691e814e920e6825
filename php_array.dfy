/** PHP's ordered array with string keys, restricted to what the core uses: a
    map whose keys remember the order in which they were first assigned. */
module PhpArray {

  /** An ordered map: `keys` lists the keys in insertion order, `values`
      holds the entry of each key. */
  datatype OrderedMap<V> = OrderedMap(keys: seq<string>, values: map<string, V>) {

    /** Every key occurs once in `keys`, and `keys` and `values` agree. */
    ghost predicate Valid() {
      && (forall i, j :: 0 <= i < j < |keys| ==> keys[i] != keys[j])
      && (forall k :: k in values <==> k in keys)
    }

    /** `count($a)`. */
    function Count(): nat {
      |keys|
    }

    /** The entries in key order, as `foreach ($a as $v)` visits them. */
    function Items(): (r: seq<V>)
      requires Valid()
      ensures |r| == Count()
      ensures forall i :: 0 <= i < |r| ==> keys[i] in values && r[i] == values[keys[i]]
    {
      seq(|keys|, i requires 0 <= i < |keys| => values[keys[i]])
    }

    /** `$a[$k] = $v`: a new key is appended at the end; a key already
        present keeps its position and only its entry changes. */
    function Put(k: string, v: V): (r: OrderedMap<V>)
      requires Valid()
      ensures r.Valid()
      ensures k in r.values && r.values[k] == v
      ensures forall q :: q != k ==> (q in r.values <==> q in values)
      ensures forall q :: q != k && q in values ==> r.values[q] == values[q]
      ensures keys <= r.keys
      ensures |r.keys| == if k in values then |keys| else |keys| + 1
    {
      if k in values then OrderedMap(keys, values[k := v])
      else OrderedMap(keys + [k], values[k := v])
    }
  }

  /** `[]`. */
  function Empty<V>(): (r: OrderedMap<V>)
    ensures r.Valid() && r.Count() == 0
  {
    OrderedMap([], map[])
  }

  /** The keys of a sequence of assignments, in order. */
  function Firsts<V>(pairs: seq<(string, V)>): (r: seq<string>)
    ensures |r| == |pairs|
    ensures forall i :: 0 <= i < |pairs| ==> r[i] == pairs[i].0
  {
    seq(|pairs|, i requires 0 <= i < |pairs| => pairs[i].0)
  }

  /** The elements of `s` in the order of their first occurrence. */
  function Dedup(s: seq<string>): seq<string>
  {
    if s == [] then []
    else
      var d := Dedup(s[..|s| - 1]);
      if s[|s| - 1] in d then d else d + [s[|s| - 1]]
  }

  /** Dedup keeps every element once and drops nothing. */
  lemma {:induction false} DedupProperties(s: seq<string>)
    ensures forall i, j :: 0 <= i < j < |Dedup(s)| ==> Dedup(s)[i] != Dedup(s)[j]
    ensures forall x :: x in Dedup(s) <==> x in s
  {
    if s != [] {
      var init := s[..|s| - 1];
      DedupProperties(init);
      assert s == init + [s[|s| - 1]];
    }
  }

  /** The array built by the assignments `$a[$k] = $v` of `pairs`, in order. */
  function PutAll<V>(m: OrderedMap<V>, pairs: seq<(string, V)>): (r: OrderedMap<V>)
    requires m.Valid()
    ensures r.Valid()
  {
    if pairs == [] then m
    else PutAll(m, pairs[..|pairs| - 1]).Put(pairs[|pairs| - 1].0, pairs[|pairs| - 1].1)
  }

  /** Starting from the empty array, the keys come out in the order of their
      first assignment, each once. */
  lemma {:induction false} PutAllKeys<V>(pairs: seq<(string, V)>)
    ensures PutAll(Empty(), pairs).keys == Dedup(Firsts(pairs))
  {
    if pairs != [] {
      var init := pairs[..|pairs| - 1];
      PutAllKeys(init);
      assert Firsts(pairs)[..|pairs| - 1] == Firsts(init);
    }
  }

  /** Starting from the empty array, the assigned keys are exactly the keys of
      the pairs, and each holds the value of its LAST assignment. */
  lemma {:induction false} PutAllLastWins<V>(pairs: seq<(string, V)>, i: nat)
    requires i < |pairs|
    requires forall j :: i < j < |pairs| ==> pairs[j].0 != pairs[i].0
    ensures pairs[i].0 in PutAll(Empty(), pairs).values
    ensures PutAll(Empty(), pairs).values[pairs[i].0] == pairs[i].1
  {
    if i < |pairs| - 1 {
      PutAllLastWins(pairs[..|pairs| - 1], i);
    }
  }

  /** Starting from the empty array, a key is present iff some pair assigns it. */
  lemma {:induction false} PutAllDomain<V>(pairs: seq<(string, V)>, k: string)
    ensures k in PutAll(Empty(), pairs).values <==> k in Firsts(pairs)
  {
    if pairs != [] {
      var init := pairs[..|pairs| - 1];
      PutAllDomain(init, k);
      assert Firsts(pairs) == Firsts(init) + [pairs[|pairs| - 1].0];
    }
  }

  /** Starting from the empty array, every entry is the value of some
      assignment to its key. */
  lemma {:induction false} PutAllValueFromSomePair<V>(pairs: seq<(string, V)>, k: string)
    requires k in PutAll(Empty(), pairs).values
    ensures exists i :: 0 <= i < |pairs| && pairs[i].0 == k && PutAll(Empty(), pairs).values[k] == pairs[i].1
  {
    var n := |pairs|;
    if pairs[n - 1].0 == k {
      assert pairs[n - 1].0 == k && PutAll(Empty(), pairs).values[k] == pairs[n - 1].1;
    } else {
      var init := pairs[..n - 1];
      PutAllValueFromSomePair(init, k);
      var i :| 0 <= i < |init| && init[i].0 == k && PutAll(Empty(), init).values[k] == init[i].1;
      assert pairs[i] == init[i];
    }
  }
}
