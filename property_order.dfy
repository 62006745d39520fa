/** The order in which `Object.entries` visits the own properties of a plain
    JavaScript object (OrdinaryOwnPropertyKeys in ECMAScript): first the keys
    that are array indices, in ascending numeric order, then every other
    string key in the order it was first added. The correlator walks its
    `combined` dictionary in this order, so it decides the order of the
    per-stop departure lists. */
module PropertyOrder {
  import opened JsText

  /** 2^32 - 1: array indices lie below it. */
  const ArrayIndexLimit: nat := 4294967295

  /** A canonical array index: a decimal numeral without leading zeros whose
      value is below 2^32 - 1. */
  predicate IsArrayIndex(k: string) {
    && |k| >= 1
    && (forall i :: 0 <= i < |k| ==> IsDigit(k[i], 10))
    && (k[0] != '0' || |k| == 1)
    && Value(k, 10) < ArrayIndexLimit
  }

  function IndexValue(k: string): nat
    requires IsArrayIndex(k)
  {
    Value(k, 10)
  }

  /** The array-index keys of `keys`, in their order. */
  function IndexKeys(keys: seq<string>): (r: seq<string>)
    ensures forall i :: 0 <= i < |r| ==> IsArrayIndex(r[i])
  {
    if keys == [] then []
    else (if IsArrayIndex(keys[0]) then [keys[0]] else []) + IndexKeys(keys[1..])
  }

  /** The other keys of `keys`, in their order. */
  function OtherKeys(keys: seq<string>): (r: seq<string>)
    ensures forall i :: 0 <= i < |r| ==> !IsArrayIndex(r[i])
  {
    if keys == [] then []
    else (if IsArrayIndex(keys[0]) then [] else [keys[0]]) + OtherKeys(keys[1..])
  }

  predicate Ascending(ks: seq<string>)
    requires forall i :: 0 <= i < |ks| ==> IsArrayIndex(ks[i])
  {
    forall i, j :: 0 <= i < j < |ks| ==> IndexValue(ks[i]) <= IndexValue(ks[j])
  }

  /** Insert an array index into an ascending list of array indices. */
  function Insert(k: string, ks: seq<string>): (r: seq<string>)
    requires IsArrayIndex(k)
    requires forall i :: 0 <= i < |ks| ==> IsArrayIndex(ks[i])
    requires Ascending(ks)
    ensures forall i :: 0 <= i < |r| ==> IsArrayIndex(r[i])
    ensures Ascending(r)
    ensures multiset(r) == multiset(ks) + multiset{k} && |r| == |ks| + 1
  {
    if ks == [] || IndexValue(k) <= IndexValue(ks[0]) then
      [k] + ks
    else
      var rest := Insert(k, ks[1..]);
      assert ks == [ks[0]] + ks[1..];
      LowerBound(ks[0], k, ks[1..], rest);
      [ks[0]] + rest
  }

  /** A rearrangement of `tail` plus `k` keeps a lower bound of both. */
  lemma LowerBound(low: string, k: string, tail: seq<string>, rest: seq<string>)
    requires IsArrayIndex(low) && IsArrayIndex(k)
    requires forall i :: 0 <= i < |tail| ==> IsArrayIndex(tail[i])
    requires forall i :: 0 <= i < |rest| ==> IsArrayIndex(rest[i])
    requires multiset(rest) == multiset(tail) + multiset{k}
    requires IndexValue(low) <= IndexValue(k)
    requires forall i :: 0 <= i < |tail| ==> IndexValue(low) <= IndexValue(tail[i])
    ensures forall i :: 0 <= i < |rest| ==> IndexValue(low) <= IndexValue(rest[i])
  {
    forall i | 0 <= i < |rest| ensures IndexValue(low) <= IndexValue(rest[i]) {
      assert rest[i] in multiset(rest);
      if rest[i] != k {
        assert rest[i] in multiset(tail);
        var j :| 0 <= j < |tail| && tail[j] == rest[i];
      }
    }
  }

  /** Array-index keys in ascending numeric order (insertion sort). */
  function SortIndices(ks: seq<string>): (r: seq<string>)
    requires forall i :: 0 <= i < |ks| ==> IsArrayIndex(ks[i])
    ensures forall i :: 0 <= i < |r| ==> IsArrayIndex(r[i])
    ensures Ascending(r)
    ensures multiset(r) == multiset(ks) && |r| == |ks|
  {
    if ks == [] then []
    else
      assert ks == [ks[0]] + ks[1..];
      Insert(ks[0], SortIndices(ks[1..]))
  }

  /** The order in which `Object.entries` lists an object whose keys were
      added in the order `keys`. */
  function EnumerationOrder(keys: seq<string>): seq<string> {
    SortIndices(IndexKeys(keys)) + OtherKeys(keys)
  }

  lemma {:induction false} SplitKeys(keys: seq<string>)
    ensures multiset(IndexKeys(keys)) + multiset(OtherKeys(keys)) == multiset(keys)
  {
    if keys != [] {
      SplitKeys(keys[1..]);
      assert keys == [keys[0]] + keys[1..];
    }
  }

  /** Every key is visited exactly as often as it was added: the enumeration
      is a permutation of the insertion order, the array indices come first
      and ascend, and the other keys keep their insertion order. */
  lemma EnumerationOrderIsPermutation(keys: seq<string>)
    ensures multiset(EnumerationOrder(keys)) == multiset(keys)
    ensures EnumerationOrder(keys)[..|IndexKeys(keys)|] == SortIndices(IndexKeys(keys))
    ensures EnumerationOrder(keys)[|IndexKeys(keys)|..] == OtherKeys(keys)
  {
    SplitKeys(keys);
  }

  /** A plain object whose keys are not array indices is visited in insertion
      order. */
  lemma {:induction false} NoIndexKeysKeepInsertionOrder(keys: seq<string>)
    requires forall i :: 0 <= i < |keys| ==> !IsArrayIndex(keys[i])
    ensures EnumerationOrder(keys) == keys
  {
    NoIndexKeys(keys);
  }

  lemma {:induction false} NoIndexKeys(keys: seq<string>)
    requires forall i :: 0 <= i < |keys| ==> !IsArrayIndex(keys[i])
    ensures IndexKeys(keys) == [] && OtherKeys(keys) == keys
  {
    if keys != [] {
      NoIndexKeys(keys[1..]);
      assert keys == [keys[0]] + keys[1..];
    }
  }
}
