/** The console's sorts: values without repeats, and a stable sort of anything by a key. */
module Sorting {

  /** A total order, law by law; a proof names the instance it uses. */
  ghost predicate TotalOrder(le: (string, string) -> bool) {
    && (forall a, b :: Comparable(le, a, b))
    && (forall a, b, c :: Transitive(le, a, b, c))
  }

  predicate Comparable(le: (string, string) -> bool, a: string, b: string) {
    (le(a, b) || le(b, a)) && (le(a, b) && le(b, a) ==> a == b)
  }

  predicate Transitive(le: (string, string) -> bool, a: string, b: string, c: string) {
    le(a, b) && le(b, c) ==> le(a, c)
  }

  predicate StrictlySorted(le: (string, string) -> bool, s: seq<string>) {
    forall i, j :: 0 <= i < j < |s| ==> le(s[i], s[j]) && s[i] != s[j]
  }

  function InsertOnce(le: (string, string) -> bool, x: string, s: seq<string>): seq<string> {
    if s == [] then [x]
    else if x == s[0] then s
    else if le(x, s[0]) then [x] + s
    else [s[0]] + InsertOnce(le, x, s[1..])
  }

  /** `[...new Set(values)].sort(le)`. */
  function UniqueSorted(le: (string, string) -> bool, values: seq<string>): seq<string> {
    if values == [] then [] else InsertOnce(le, values[0], UniqueSorted(le, values[1..]))
  }

  lemma {:induction false} InsertOnceSorts(le: (string, string) -> bool, x: string, s: seq<string>)
    requires TotalOrder(le) && StrictlySorted(le, s)
    ensures StrictlySorted(le, InsertOnce(le, x, s))
    ensures forall y :: y in InsertOnce(le, x, s) <==> y == x || y in s
    decreases |s|
  {
    if s != [] && x != s[0] {
      assert s == [s[0]] + s[1..];
      if le(x, s[0]) {
        Prepend(le, x, s);
      } else {
        assert Comparable(le, x, s[0]);
        InsertOnceSorts(le, x, s[1..]);
        var rest := InsertOnce(le, x, s[1..]);
        forall j | 0 <= j < |rest| ensures le(s[0], rest[j]) && s[0] != rest[j] {
          assert rest[j] in rest;
          if rest[j] != x {
            var k :| 0 <= k < |s[1..]| && s[1..][k] == rest[j];
            assert s[k + 1] == rest[j];
          }
        }
      }
    }
  }

  lemma Prepend(le: (string, string) -> bool, x: string, s: seq<string>)
    requires TotalOrder(le) && StrictlySorted(le, s) && s != [] && le(x, s[0]) && x != s[0]
    ensures StrictlySorted(le, [x] + s)
  {
    forall j | 0 <= j < |s| ensures le(x, s[j]) && x != s[j] {
      assert j > 0 ==> le(s[0], s[j]) && s[0] != s[j];
      assert Transitive(le, x, s[0], s[j]) && Comparable(le, x, s[0]);
    }
  }

  /** The values in ascending order, each once. */
  lemma {:induction false} UniqueSortedIs(le: (string, string) -> bool, values: seq<string>)
    requires TotalOrder(le)
    ensures StrictlySorted(le, UniqueSorted(le, values))
    ensures forall y :: y in UniqueSorted(le, values) <==> y in values
    decreases |values|
  {
    if values != [] {
      UniqueSortedIs(le, values[1..]);
      InsertOnceSorts(le, values[0], UniqueSorted(le, values[1..]));
      assert values == [values[0]] + values[1..];
    }
  }

  lemma {:induction false} SortedIsFixed(le: (string, string) -> bool, s: seq<string>)
    requires StrictlySorted(le, s)
    ensures UniqueSorted(le, s) == s
    decreases |s|
  {
    if s != [] {
      SortedIsFixed(le, s[1..]);
      assert |s| > 1 ==> le(s[0], s[1]) && s[0] != s[1];
    }
  }

  // ---------------------------------------------------------------- stable sort

  /** A stable insertion sort: earlier elements go before equal later ones. */
  function Insert<T>(le: (T, T) -> bool, x: T, s: seq<T>): seq<T> {
    if s == [] then [x]
    else if le(x, s[0]) then [x] + s
    else [s[0]] + Insert(le, x, s[1..])
  }

  function StableSort<T>(le: (T, T) -> bool, s: seq<T>): seq<T> {
    if s == [] then [] else Insert(le, s[0], StableSort(le, s[1..]))
  }

  ghost predicate Preorder<T(!new)>(le: (T, T) -> bool) {
    && (forall a, b :: le(a, b) || le(b, a))
    && (forall a, b, c :: le(a, b) && le(b, c) ==> le(a, c))
  }

  predicate Sorted<T>(le: (T, T) -> bool, s: seq<T>) {
    forall i, j :: 0 <= i < j < |s| ==> le(s[i], s[j])
  }

  function Select<T>(p: T -> bool, s: seq<T>): seq<T> {
    if s == [] then [] else (if p(s[0]) then [s[0]] else []) + Select(p, s[1..])
  }

  lemma {:induction false} InsertSorts<T(!new)>(le: (T, T) -> bool, x: T, s: seq<T>)
    requires Preorder(le) && Sorted(le, s)
    ensures Sorted(le, Insert(le, x, s))
    decreases |s|
  {
    if s != [] {
      assert s == [s[0]] + s[1..];
      if le(x, s[0]) {
        forall j | 0 <= j < |s| ensures le(x, s[j]) {
          assert j > 0 ==> le(s[0], s[j]);
        }
      } else {
        InsertSorts(le, x, s[1..]);
        var rest := Insert(le, x, s[1..]);
        InsertAdds(le, x, s[1..]);
        forall j | 0 <= j < |rest| ensures le(s[0], rest[j]) {
          assert rest[j] in multiset(rest);
          assert rest[j] == x || rest[j] in s[1..];
        }
      }
    }
  }

  lemma {:induction false} InsertAdds<T(!new)>(le: (T, T) -> bool, x: T, s: seq<T>)
    ensures multiset(Insert(le, x, s)) == multiset(s) + multiset{x}
    decreases |s|
  {
    if s != [] {
      assert s == [s[0]] + s[1..];
      if !le(x, s[0]) {
        InsertAdds(le, x, s[1..]);
      }
    }
  }

  /** Sorted, and a rearrangement. */
  lemma {:induction false} StableSortSorts<T(!new)>(le: (T, T) -> bool, s: seq<T>)
    requires Preorder(le)
    ensures Sorted(le, StableSort(le, s)) && multiset(StableSort(le, s)) == multiset(s)
    decreases |s|
  {
    if s != [] {
      StableSortSorts(le, s[1..]);
      InsertSorts(le, s[0], StableSort(le, s[1..]));
      InsertAdds(le, s[0], StableSort(le, s[1..]));
      assert s == [s[0]] + s[1..];
    }
  }

  /** Elements that `p` cannot tell from each other by `le` keep their order. */
  lemma {:induction false} StableSortIsStable<T(!new)>(le: (T, T) -> bool, p: T -> bool, s: seq<T>)
    requires forall a, b :: p(a) && p(b) ==> le(a, b)
    ensures Select(p, StableSort(le, s)) == Select(p, s)
    decreases |s|
  {
    if s != [] {
      StableSortIsStable(le, p, s[1..]);
      InsertIsStable(le, p, s[0], StableSort(le, s[1..]));
      SelectCons(p, s[0], s[1..]);
      assert s == [s[0]] + s[1..];
    }
  }

  lemma SelectCons<T(!new)>(p: T -> bool, x: T, s: seq<T>)
    ensures Select(p, [x] + s) == if p(x) then [x] + Select(p, s) else Select(p, s)
  {
    assert ([x] + s)[1..] == s;
  }

  lemma {:induction false} InsertIsStable<T(!new)>(le: (T, T) -> bool, p: T -> bool, x: T, s: seq<T>)
    requires forall a, b :: p(a) && p(b) ==> le(a, b)
    ensures Select(p, Insert(le, x, s)) == if p(x) then [x] + Select(p, s) else Select(p, s)
    decreases |s|
  {
    if s == [] || le(x, s[0]) {
      SelectCons(p, x, s);
      assert [x] + s == Insert(le, x, s);
    } else {
      InsertIsStable(le, p, x, s[1..]);
      SelectCons(p, s[0], Insert(le, x, s[1..]));
      SelectCons(p, s[0], s[1..]);
      assert s == [s[0]] + s[1..];
    }
  }

  lemma {:induction false} SortOfSorted<T(!new)>(le: (T, T) -> bool, s: seq<T>)
    requires Sorted(le, s)
    ensures StableSort(le, s) == s
    decreases |s|
  {
    if s != [] {
      SortOfSorted(le, s[1..]);
    }
  }
}
