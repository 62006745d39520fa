/** Shared value types: optional values (JavaScript `undefined`), the
    source's "code|title|detail" errors as a structured value, and JavaScript
    truthiness for the few primitive kinds the core tests with `!x` or `x || y`. */
module Util {

  /** `None` stands for JavaScript `undefined` (or `null`). */
  datatype Option<+T> = None | Some(value: T)

  /** An `Error('code|title|detail')` of the source; the detail text, which
      quotes a foreign exception, is not modelled. */
  datatype Error = Error(code: int, title: string)

  datatype Result<+T> = Ok(value: T) | Err(error: Error)

  /** Truthiness of an optional number: `undefined` and `0` are falsy. */
  predicate TruthyInt(o: Option<int>) {
    o.Some? && o.value != 0
  }

  /** Truthiness of an optional floating-point coordinate. */
  predicate TruthyReal(o: Option<real>) {
    o.Some? && o.value != 0.0
  }

  /** Truthiness of an optional string: `undefined` and `""` are falsy. */
  predicate TruthyString(o: Option<string>) {
    o.Some? && o.value != ""
  }

  /** The defined elements of `s`, in order (the `if (x) rtn.push(x)` idiom):
      each defined value as often as the input holds it, and nothing else. */
  function Defined<T(==,!new)>(s: seq<Option<T>>): (r: seq<T>)
    ensures |r| <= |s|
    ensures forall i :: 0 <= i < |r| ==> Some(r[i]) in s
    ensures forall i :: 0 <= i < |s| && s[i].Some? ==> s[i].value in r
  {
    if s == [] then []
    else Defined(s[..|s| - 1]) + Kept(s[|s| - 1])
  }

  /** Multiplicity: each value is kept exactly as often as the input holds
      it defined. */
  lemma {:induction false} DefinedCounts<T(!new)>(s: seq<Option<T>>)
    ensures forall x :: multiset(Defined(s))[x] == multiset(s)[Some(x)]
  {
    if s != [] {
      var init := s[..|s| - 1];
      assert s == init + [s[|s| - 1]];
      DefinedCounts(init);
    }
  }

  /** What one element contributes to `Defined`. */
  function Kept<T>(o: Option<T>): (r: seq<T>)
    ensures |r| <= 1 && (r == [] <==> o.None?)
  {
    if o.Some? then [o.value] else []
  }

  /** Order: an element pushed at the end is kept at the end exactly when it
      is defined. */
  lemma {:induction false} DefinedSnoc<T(!new)>(s: seq<Option<T>>, o: Option<T>)
    ensures Defined(s + [o]) == Defined(s) + Kept(o)
  {
    assert (s + [o])[..|s|] == s;
  }
}
