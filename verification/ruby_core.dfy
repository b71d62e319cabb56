/** The slice of Ruby's value, Array and Hash semantics that the router relies on:
    truthiness, `||`, `Hash#[]` on a missing key, `Array#reverse`, `Array#drop_while`,
    `Array#|` (order-preserving union without duplicates), `Array#keep_if`, and
    `Hash[pairs]` (later pairs overwrite earlier ones). */
module RubyCore {

  datatype Option<+T> = None | Some(value: T)

  /** Hash keys: Ruby symbols such as `:controller`, written by their name. */
  type Key = string

  /** A Ruby object as the router sees it: `nil`, `false`, or a string value. */
  datatype Value = Nil | False | Str(s: string)

  /** Ruby truthiness: everything except `nil` and `false`. */
  predicate Truthy(v: Value) {
    !v.Nil? && !v.False?
  }

  /** Ruby's `a || b`. */
  function Or(a: Value, b: Value): Value {
    if Truthy(a) then a else b
  }

  /** Ruby's `Hash#[]`, which answers `nil` for a missing key. */
  function Get(m: map<Key, Value>, k: Key): Value {
    if k in m then m[k] else Nil
  }

  predicate NoDuplicates<T(==)>(s: seq<T>) {
    forall i, j :: 0 <= i < j < |s| ==> s[i] != s[j]
  }

  /** `Array#reverse`. */
  function Reverse<T>(s: seq<T>): (r: seq<T>)
    ensures |r| == |s|
    ensures forall i :: 0 <= i < |s| ==> r[i] == s[|s| - 1 - i]
  {
    if |s| == 0 then [] else [s[|s| - 1]] + Reverse(s[..|s| - 1])
  }

  /** `Array#drop_while`: the suffix that starts at the first element `p` rejects. */
  function DropWhile<T>(s: seq<T>, p: T -> bool): (r: seq<T>)
    ensures |r| <= |s| && r == s[|s| - |r|..]
    ensures forall i :: 0 <= i < |s| - |r| ==> p(s[i])
    ensures |r| > 0 ==> !p(r[0])
  {
    if |s| == 0 || !p(s[0]) then s else DropWhile(s[1..], p)
  }

  /** `Array#uniq`: keeps the first occurrence of every element. */
  function Uniq<T(==,!new)>(s: seq<T>): (r: seq<T>)
    ensures forall x :: x in r <==> x in s
    ensures NoDuplicates(r)
  {
    if |s| == 0 then []
    else
      var r := Uniq(s[..|s| - 1]);
      var last := s[|s| - 1];
      assert forall x :: x in s <==> x in s[..|s| - 1] || x == last;
      if last in r then r else r + [last]
  }

  /** `Array#|`: the elements of `a` then those of `b`, each once. */
  function ArrayUnion<T(==,!new)>(a: seq<T>, b: seq<T>): (r: seq<T>)
    ensures forall x :: x in r <==> x in a || x in b
    ensures NoDuplicates(r)
  {
    Uniq(a + b)
  }

  /** `Array#keep_if`: the elements accepted by `p`, in order. */
  function Filter<T(==,!new)>(s: seq<T>, p: T -> bool): (r: seq<T>)
    ensures |r| <= |s|
    ensures forall x :: x in r <==> x in s && p(x)
  {
    if |s| == 0 then []
    else
      var rest := Filter(s[1..], p);
      assert forall x :: x in s <==> x == s[0] || x in s[1..];
      if p(s[0]) then [s[0]] + rest else rest
  }

  /** `Hash[pairs]`: a map built from key/value pairs, a later pair overwriting an earlier one. */
  function HashOf<K(!new), V>(pairs: seq<(K, V)>): (m: map<K, V>)
    ensures forall k :: k in m <==> exists i :: 0 <= i < |pairs| && pairs[i].0 == k
    ensures |pairs| > 0 ==> m[pairs[|pairs| - 1].0] == pairs[|pairs| - 1].1
  {
    if |pairs| == 0 then map[]
    else
      var init := pairs[..|pairs| - 1];
      var m := HashOf(init);
      assert forall i :: 0 <= i < |init| ==> init[i] == pairs[i];
      m[pairs[|pairs| - 1].0 := pairs[|pairs| - 1].1]
  }

  /** Appending a pair to the list overwrites that one key. */
  lemma HashOfSnoc<K(!new), V>(pairs: seq<(K, V)>, p: (K, V))
    ensures HashOf(pairs + [p]) == HashOf(pairs)[p.0 := p.1]
  {
    assert (pairs + [p])[..|pairs|] == pairs;
  }

  /** When every pair's value is determined by its key, `Hash[pairs]` maps each key to that value. */
  lemma {:induction false} HashOfFunctional<K(!new), V>(pairs: seq<(K, V)>, f: K -> V)
    requires forall i :: 0 <= i < |pairs| ==> pairs[i].1 == f(pairs[i].0)
    ensures forall k :: k in HashOf(pairs) ==> HashOf(pairs)[k] == f(k)
  {
    if |pairs| > 0 {
      HashOfFunctional(pairs[..|pairs| - 1], f);
    }
  }
}
