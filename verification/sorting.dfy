/**
 * Python's ordering of `str` values and the two uses of `sorted` in the pipeline:
 * `sorted(set(xs))` over strings, and a stable `sorted(xs, key=..., reverse=True)`.
 */
module Sorting {

  /** `a < b` on Python strings: code-point lexicographic order, a proper prefix first. */
  predicate Less(a: string, b: string)
    decreases |a|
  {
    if a == [] then b != []
    else if b == [] then false
    else if a[0] != b[0] then a[0] < b[0]
    else Less(a[1..], b[1..])
  }

  lemma {:induction false} LessIrreflexive(a: string)
    ensures !Less(a, a)
    decreases |a|
  {
    if a != [] {
      LessIrreflexive(a[1..]);
    }
  }

  lemma {:induction false} LessTransitive(a: string, b: string, c: string)
    requires Less(a, b) && Less(b, c)
    ensures Less(a, c)
    decreases |a|
  {
    if a != [] && b != [] && c != [] && a[0] == b[0] && b[0] == c[0] {
      LessTransitive(a[1..], b[1..], c[1..]);
    }
  }

  lemma {:induction false} LessTotal(a: string, b: string)
    ensures a == b || Less(a, b) || Less(b, a)
    decreases |a|
  {
    if a != [] && b != [] && a[0] == b[0] {
      LessTotal(a[1..], b[1..]);
      if a[1..] == b[1..] {
        assert a == [a[0]] + a[1..] && b == [b[0]] + b[1..];
      }
    }
  }

  lemma {:induction false} LessAsymmetric(a: string, b: string)
    requires Less(a, b)
    ensures !Less(b, a)
    decreases |a|
  {
    if a != [] && b != [] && a[0] == b[0] {
      LessAsymmetric(a[1..], b[1..]);
    }
  }

  /** Strictly increasing: sorted and free of duplicates. */
  predicate StrictlySorted(xs: seq<string>) {
    forall i, j :: 0 <= i < j < |xs| ==> Less(xs[i], xs[j])
  }

  /** Inserts `x` into a strictly sorted sequence, leaving it unchanged when `x` is present. */
  function Insert(x: string, xs: seq<string>): (r: seq<string>)
    requires StrictlySorted(xs)
    ensures StrictlySorted(r)
    ensures forall y :: y in r <==> y == x || y in xs
    decreases |xs|
  {
    if xs == [] then [x]
    else if x == xs[0] then xs
    else if Less(x, xs[0]) then
      assert forall j :: 0 < j < |xs| ==> Less(x, xs[j]) by {
        forall j | 0 < j < |xs| ensures Less(x, xs[j]) { LessTransitive(x, xs[0], xs[j]); }
      }
      [x] + xs
    else
      LessTotal(x, xs[0]);
      var rest := Insert(x, xs[1..]);
      assert forall j :: 0 <= j < |rest| ==> Less(xs[0], rest[j]) by {
        forall j | 0 <= j < |rest| ensures Less(xs[0], rest[j]) {
          assert rest[j] in rest;
          if rest[j] != x {
            var k :| 0 <= k < |xs[1..]| && xs[1..][k] == rest[j];
            assert xs[k + 1] == rest[j];
          }
        }
      }
      [xs[0]] + rest
  }

  /** `sorted(set(xs))`. */
  function SortedDistinct(xs: seq<string>): (r: seq<string>)
    ensures StrictlySorted(r)
    ensures forall y :: y in r <==> y in xs
    decreases |xs|
  {
    if xs == [] then []
    else
      var init := xs[..|xs| - 1];
      var rest := SortedDistinct(init);
      assert xs == init + [xs[|xs| - 1]];
      Insert(xs[|xs| - 1], rest)
  }

  /** The head of a strictly sorted sequence is below every other element. */
  lemma HeadLeast(xs: seq<string>, y: string)
    requires StrictlySorted(xs) && y in xs
    ensures y == xs[0] || Less(xs[0], y)
  {
    var k :| 0 <= k < |xs| && xs[k] == y;
    if k > 0 {
      assert Less(xs[0], xs[k]);
    }
  }

  /** The tail of a strictly sorted sequence holds exactly its elements other than the head. */
  lemma TailMembers(xs: seq<string>, y: string)
    requires StrictlySorted(xs) && xs != []
    ensures y in xs[1..] <==> y in xs && y != xs[0]
  {
    if y in xs[1..] {
      var k :| 1 <= k < |xs| && xs[k] == y;
      assert Less(xs[0], xs[k]);
      LessIrreflexive(y);
    }
    if y in xs && y != xs[0] {
      var k :| 0 <= k < |xs| && xs[k] == y;
      assert xs[1..][k - 1] == y;
    }
  }

  lemma SameMembersBothEmpty(xs: seq<string>, ys: seq<string>)
    requires forall y :: y in xs <==> y in ys
    ensures xs == [] <==> ys == []
  {
    if xs != [] {
      assert xs[0] in ys;
    }
    if ys != [] {
      assert ys[0] in xs;
    }
  }

  /** Two strictly sorted sequences with the same elements are equal: `sorted(set(...))` is canonical. */
  lemma {:induction false} StrictlySortedUnique(xs: seq<string>, ys: seq<string>)
    requires StrictlySorted(xs) && StrictlySorted(ys)
    requires forall y :: y in xs <==> y in ys
    ensures xs == ys
    decreases |xs|
  {
    SameMembersBothEmpty(xs, ys);
    if xs != [] {
      // both heads are the least element of the common set
      var a, b := xs[0], ys[0];
      HeadLeast(ys, a);
      HeadLeast(xs, b);
      if Less(a, b) {
        LessAsymmetric(a, b);
      }
      assert a == b;
      forall y ensures y in xs[1..] <==> y in ys[1..] {
        TailMembers(xs, y);
        TailMembers(ys, y);
      }
      StrictlySortedUnique(xs[1..], ys[1..]);
      assert xs == [a] + xs[1..] && ys == [b] + ys[1..];
    }
  }

  /** `sorted(set(xs))` leaves a strictly sorted sequence as it is. */
  lemma SortedDistinctOfSorted(xs: seq<string>)
    requires StrictlySorted(xs)
    ensures SortedDistinct(xs) == xs
  {
    StrictlySortedUnique(SortedDistinct(xs), xs);
  }

  /** Keys never increase from left to right. */
  predicate NonIncreasing<T>(xs: seq<T>, key: T -> nat) {
    forall i, j :: 0 <= i < j < |xs| ==> key(xs[i]) >= key(xs[j])
  }

  /** Putting `h` in front of a non-increasing sequence whose keys `h`'s key bounds keeps it non-increasing. */
  lemma ConsNonIncreasing<T>(h: T, rest: seq<T>, key: T -> nat)
    requires NonIncreasing(rest, key)
    requires forall j :: 0 <= j < |rest| ==> key(h) >= key(rest[j])
    ensures NonIncreasing([h] + rest, key)
  {
    var r := [h] + rest;
    forall i, j | 0 <= i < j < |r| ensures key(r[i]) >= key(r[j]) {
      assert r[j] == rest[j - 1];
      if i > 0 {
        assert r[i] == rest[i - 1];
      }
    }
  }

  /** Every element of `x` inserted into the tail of `ys` has a key the head of `ys` bounds. */
  lemma HeadBoundsInsertion<T>(x: T, ys: seq<T>, rest: seq<T>, key: T -> nat)
    requires NonIncreasing(ys, key) && ys != [] && key(ys[0]) > key(x)
    requires multiset(rest) == multiset(ys[1..]) + multiset{x}
    ensures forall j :: 0 <= j < |rest| ==> key(ys[0]) >= key(rest[j])
  {
    forall j | 0 <= j < |rest| ensures key(ys[0]) >= key(rest[j]) {
      var y := rest[j];
      assert y in multiset(rest);
      if y != x {
        assert y in multiset(ys[1..]);
        var k :| 0 <= k < |ys[1..]| && ys[1..][k] == y;
        assert ys[k + 1] == y;
      }
    }
  }

  /** Inserts `x` before the first element whose key is not larger: stable for `reverse=True`. */
  function InsertByKeyDesc<T>(x: T, ys: seq<T>, key: T -> nat): (r: seq<T>)
    requires NonIncreasing(ys, key)
    ensures NonIncreasing(r, key)
    ensures multiset(r) == multiset(ys) + multiset{x}
    ensures |r| == |ys| + 1
    decreases |ys|
  {
    if ys == [] || key(ys[0]) <= key(x) then
      ConsNonIncreasing(x, ys, key);
      [x] + ys
    else
      assert NonIncreasing(ys[1..], key);
      var rest := InsertByKeyDesc(x, ys[1..], key);
      assert ys == [ys[0]] + ys[1..];
      HeadBoundsInsertion(x, ys, rest, key);
      ConsNonIncreasing(ys[0], rest, key);
      [ys[0]] + rest
  }

  /** `sorted(xs, key=key, reverse=True)`: a stable sort on descending keys. */
  function SortByKeyDesc<T>(xs: seq<T>, key: T -> nat): (r: seq<T>)
    ensures NonIncreasing(r, key)
    ensures multiset(r) == multiset(xs)
    ensures |r| == |xs|
    decreases |xs|
  {
    if xs == [] then []
    else
      assert xs == [xs[0]] + xs[1..];
      InsertByKeyDesc(xs[0], SortByKeyDesc(xs[1..], key), key)
  }

  /** Keeps the first occurrence of every element, in order. */
  function Dedup(xs: seq<string>): (r: seq<string>)
    ensures forall y :: y in r <==> y in xs
    ensures forall i, j :: 0 <= i < j < |r| ==> r[i] != r[j]
    decreases |xs|
  {
    if xs == [] then []
    else
      var init := Dedup(xs[..|xs| - 1]);
      assert xs == xs[..|xs| - 1] + [xs[|xs| - 1]];
      if xs[|xs| - 1] in init then init else init + [xs[|xs| - 1]]
  }

  /** Strictly increasing integers. */
  predicate Increasing(xs: seq<int>) {
    forall i, j :: 0 <= i < j < |xs| ==> xs[i] < xs[j]
  }

  /** Inserts `x` into a strictly increasing sequence, leaving it unchanged when `x` is present. */
  function InsertInt(x: int, xs: seq<int>): (r: seq<int>)
    requires Increasing(xs)
    ensures Increasing(r)
    ensures forall y :: y in r <==> y == x || y in xs
    decreases |xs|
  {
    if xs == [] then [x]
    else if x == xs[0] then xs
    else if x < xs[0] then [x] + xs
    else
      var rest := InsertInt(x, xs[1..]);
      assert forall j :: 0 <= j < |rest| ==> xs[0] < rest[j] by {
        forall j | 0 <= j < |rest| ensures xs[0] < rest[j] {
          assert rest[j] in rest;
          if rest[j] != x {
            var k :| 0 <= k < |xs[1..]| && xs[1..][k] == rest[j];
            assert xs[k + 1] == rest[j];
          }
        }
      }
      [xs[0]] + rest
  }

  /** `sorted(set(xs))` over integers. */
  function SortedDistinctInts(xs: seq<int>): (r: seq<int>)
    ensures Increasing(r)
    ensures forall y :: y in r <==> y in xs
    decreases |xs|
  {
    if xs == [] then []
    else
      var init := xs[..|xs| - 1];
      assert xs == init + [xs[|xs| - 1]];
      InsertInt(xs[|xs| - 1], SortedDistinctInts(init))
  }
}
