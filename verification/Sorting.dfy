/** Python's stable `sorted(..., key=...)` on keyed lists. */
module Sorting {

  predicate Ascending<T(!new)>(s: seq<(nat, T)>)
  {
    forall i, j :: 0 <= i < j < |s| ==> s[i].0 <= s[j].0
  }

  /** The values filed under `key`, in list order. */
  function Filed<T(!new)>(s: seq<(nat, T)>, key: nat): seq<T>
  {
    if s == [] then []
    else (if s[0].0 == key then [s[0].1] else []) + Filed(s[1..], key)
  }

  function Insert<T(!new)>(x: (nat, T), s: seq<(nat, T)>): (r: seq<(nat, T)>)
    requires Ascending(s)
    ensures Ascending(r) && |r| == |s| + 1
    ensures forall y :: y in r <==> y == x || y in s
  {
    if s == [] || x.0 <= s[0].0 then [x] + s
    else
      var rest := Insert(x, s[1..]);
      assert forall y :: y in rest ==> s[0].0 <= y.0;
      [s[0]] + rest
  }

  /** Ascending by key; `SortIsStable` adds that equal keys keep their order, which fixes the result. */
  function SortByKey<T(!new)>(s: seq<(nat, T)>): (r: seq<(nat, T)>)
    ensures Ascending(r) && |r| == |s|
    ensures forall y :: y in r <==> y in s
  {
    if s == [] then [] else Insert(s[0], SortByKey(s[1..]))
  }

  lemma {:induction false} InsertIsStable<T(!new)>(x: (nat, T), s: seq<(nat, T)>, key: nat)
    requires Ascending(s)
    ensures Filed(Insert(x, s), key) == Filed([x] + s, key)
  {
    if s != [] && x.0 > s[0].0 {
      InsertIsStable(x, s[1..], key);
      var rest := Insert(x, s[1..]);
      assert ([s[0]] + rest)[1..] == rest;
      assert ([x] + s)[1..] == s && ([x] + s[1..])[1..] == s[1..];
    }
  }

  /** Sorting moves no value to another key and never swaps two values with the same key. */
  lemma {:induction false} SortIsStable<T(!new)>(s: seq<(nat, T)>, key: nat)
    ensures Filed(SortByKey(s), key) == Filed(s, key)
  {
    if s != [] {
      SortIsStable(s[1..], key);
      InsertIsStable(s[0], SortByKey(s[1..]), key);
      assert ([s[0]] + SortByKey(s[1..]))[1..] == SortByKey(s[1..]);
    }
  }
}
