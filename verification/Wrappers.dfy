/** Option, Result, and the list filter the queries of the other modules are written with. */
module Wrappers {

  datatype Option<+T> = None | Some(value: T)

  datatype Result<+T, +E> = Success(value: T) | Failure(error: E)

  function Min(a: int, b: int): int {
    if a <= b then a else b
  }

  function Max(a: int, b: int): int {
    if a >= b then a else b
  }

  /** The elements of a sequence that satisfy a test, in their original order. */
  function Filter<T(!new)>(s: seq<T>, keep: T -> bool): (r: seq<T>)
    ensures forall x :: x in r <==> x in s && keep(x)
    ensures |r| <= |s|
  {
    if s == [] then []
    else if keep(s[0]) then [s[0]] + Filter(s[1..], keep)
    else Filter(s[1..], keep)
  }

  lemma {:induction false} FilterNone<T(!new)>(s: seq<T>, keep: T -> bool)
    requires forall x :: x in s ==> !keep(x)
    ensures Filter(s, keep) == []
  {
    if s != [] {
      assert s[0] in s;
      FilterNone(s[1..], keep);
    }
  }

  lemma {:induction false} FilterSame<T(!new)>(s: seq<T>, keep: T -> bool, keep': T -> bool)
    requires forall x :: x in s ==> keep(x) == keep'(x)
    ensures Filter(s, keep) == Filter(s, keep')
  {
    if s != [] {
      assert s[0] in s;
      FilterSame(s[1..], keep, keep');
    }
  }

  lemma {:induction false} FilterAppend<T(!new)>(s: seq<T>, added: seq<T>, keep: T -> bool)
    ensures Filter(s + added, keep) == Filter(s, keep) + Filter(added, keep)
  {
    if s == [] {
      assert s + added == added;
    } else {
      assert (s + added)[1..] == s[1..] + added;
      FilterAppend(s[1..], added, keep);
    }
  }

  lemma FilterOneMore<T(!new)>(s: seq<T>, x: T, keep: T -> bool)
    ensures Filter(s + [x], keep) == Filter(s, keep) + if keep(x) then [x] else []
  {
    FilterAppend(s, [x], keep);
    assert [x][1..] == [];
  }

  /** A row-by-row stricter test keeps no more rows. */
  lemma {:induction false} FilterFewer<T(!new)>(s: seq<T>, keep: T -> bool, s': seq<T>, keep': T -> bool)
    requires |s'| == |s| && forall i :: 0 <= i < |s| && keep'(s'[i]) ==> keep(s[i])
    ensures |Filter(s', keep')| <= |Filter(s, keep)|
  {
    if s != [] {
      FilterFewer(s[1..], keep, s'[1..], keep');
    }
  }

  /** True when no element occurs twice. */
  predicate Distinct<T(==)>(s: seq<T>) {
    forall i, j :: 0 <= i < j < |s| ==> s[i] != s[j]
  }
}
