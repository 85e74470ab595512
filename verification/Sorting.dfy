// The stable sort behind SQL's ORDER BY: rows that tie keep table order.
module Sorting {
  import opened Seqs

  ghost predicate TotalPreorder<T(!new)>(before: (T, T) -> bool) {
    && (forall a, b :: before(a, b) || before(b, a))
    && (forall a, b, c :: before(a, b) && before(b, c) ==> before(a, c))
  }

  ghost predicate Sorted<T>(before: (T, T) -> bool, s: seq<T>) {
    forall i, j :: 0 <= i < j < |s| ==> before(s[i], s[j])
  }

  // Puts x in front of the first element it may precede.
  function Insert<T>(before: (T, T) -> bool, x: T, s: seq<T>): seq<T> {
    if s == [] || before(x, s[0]) then [x] + s
    else [s[0]] + Insert(before, x, s[1..])
  }

  function StableSort<T>(before: (T, T) -> bool, s: seq<T>): seq<T> {
    if s == [] then [] else Insert(before, s[0], StableSort(before, s[1..]))
  }

  lemma {:induction false} InsertKeepsRows<T>(before: (T, T) -> bool, x: T, s: seq<T>)
    ensures multiset(Insert(before, x, s)) == multiset(s) + multiset{x}
    ensures |Insert(before, x, s)| == |s| + 1
  {
    if s == [] || before(x, s[0]) {
    } else {
      InsertKeepsRows(before, x, s[1..]);
      assert s == [s[0]] + s[1..];
    }
  }

  lemma {:induction false} InsertSorted<T(!new)>(before: (T, T) -> bool, x: T, s: seq<T>)
    requires TotalPreorder(before) && Sorted(before, s)
    ensures Sorted(before, Insert(before, x, s))
  {
    if s == [] {
    } else if before(x, s[0]) {
      var r := [x] + s;
      forall i, j | 0 <= i < j < |r| ensures before(r[i], r[j]) {
        if i == 0 && j > 1 {
          assert before(s[0], s[j - 1]);
        }
      }
    } else {
      var t := Insert(before, x, s[1..]);
      InsertSorted(before, x, s[1..]);
      InsertKeepsRows(before, x, s[1..]);
      forall j | 0 <= j < |t| ensures before(s[0], t[j]) {
        assert t[j] in multiset(t);
        assert t[j] == x || t[j] in multiset(s[1..]);
        if t[j] != x {
          var k :| 0 <= k < |s[1..]| && s[1..][k] == t[j];
          assert before(s[0], s[k + 1]);
        }
      }
    }
  }

  // The result is an ordered permutation of the input.
  lemma {:induction false} StableSortCorrect<T(!new)>(before: (T, T) -> bool, s: seq<T>)
    requires TotalPreorder(before)
    ensures Sorted(before, StableSort(before, s))
    ensures multiset(StableSort(before, s)) == multiset(s)
  {
    if s == [] {
    } else {
      StableSortCorrect(before, s[1..]);
      InsertSorted(before, s[0], StableSort(before, s[1..]));
      InsertKeepsRows(before, s[0], StableSort(before, s[1..]));
      assert s == [s[0]] + s[1..];
    }
  }

  lemma {:induction false} FilterInsert<T(!new)>(before: (T, T) -> bool, keep: T -> bool, x: T, s: seq<T>)
    requires forall a, b :: keep(a) && keep(b) ==> before(a, b)
    ensures Filter(keep, Insert(before, x, s)) == (if keep(x) then [x] else []) + Filter(keep, s)
  {
    if s == [] || before(x, s[0]) {
      assert ([x] + s)[1..] == s;
    } else {
      FilterInsert(before, keep, x, s[1..]);
      assert ([s[0]] + Insert(before, x, s[1..]))[1..] == Insert(before, x, s[1..]);
    }
  }

  // Stability: any family of elements that all tie with one another comes out in its original order.
  lemma {:induction false} StableSortKeepsTies<T(!new)>(before: (T, T) -> bool, tied: T -> bool, s: seq<T>)
    requires forall a, b :: tied(a) && tied(b) ==> before(a, b)
    ensures Filter(tied, StableSort(before, s)) == Filter(tied, s)
  {
    if s != [] {
      StableSortKeepsTies(before, tied, s[1..]);
      FilterInsert(before, tied, s[0], StableSort(before, s[1..]));
    }
  }

  // Text in code point order, as SQL's BINARY collation compares it.
  predicate TextBefore(a: string, b: string) {
    a == "" || (b != "" && (a[0] < b[0] || (a[0] == b[0] && TextBefore(a[1..], b[1..]))))
  }

  // Where the texts first differ, the first has the smaller character.
  predicate SmallerAt(a: string, b: string, i: nat) {
    i < |a| && i < |b| && a[..i] == b[..i] && a[i] < b[i]
  }

  lemma SmallerBehind(a: string, b: string, i: nat)
    requires a != "" && b != "" && a[0] == b[0] && i > 0
    ensures SmallerAt(a, b, i) <==> SmallerAt(a[1..], b[1..], i - 1)
  {
    if i < |a| && i < |b| {
      assert a[..i] == [a[0]] + a[1..][..i - 1] && b[..i] == [b[0]] + b[1..][..i - 1];
      assert a[1..][..i - 1] == a[..i][1..] && b[1..][..i - 1] == b[..i][1..];
    }
  }

  // The first text begins the second, or is smaller where they first differ.
  lemma {:induction false} TextBeforeIff(a: string, b: string)
    ensures TextBefore(a, b) <==> a <= b || exists i: nat :: SmallerAt(a, b, i)
  {
    if a != "" && b != "" {
      if a[0] == b[0] {
        TextBeforeIff(a[1..], b[1..]);
        assert a <= b <==> a[1..] <= b[1..];
        if i: nat :| SmallerAt(a, b, i) {
          SmallerBehind(a, b, i);
        }
        if i: nat :| SmallerAt(a[1..], b[1..], i) {
          SmallerBehind(a, b, i + 1);
        }
      } else if a[0] < b[0] {
        assert SmallerAt(a, b, 0);
      } else {
        forall i: nat ensures !SmallerAt(a, b, i) {
          if 0 < i < |a| && i < |b| {
            assert a[..i][0] != b[..i][0];
          }
        }
      }
    }
  }

  lemma {:induction false} TextBeforeTotal(a: string, b: string)
    ensures TextBefore(a, b) || TextBefore(b, a)
  {
    if a != "" && b != "" && a[0] == b[0] {
      TextBeforeTotal(a[1..], b[1..]);
    }
  }

  lemma {:induction false} TextBeforeTransitive(a: string, b: string, c: string)
    requires TextBefore(a, b) && TextBefore(b, c)
    ensures TextBefore(a, c)
  {
    if a != "" && a[0] == b[0] == c[0] {
      TextBeforeTransitive(a[1..], b[1..], c[1..]);
    }
  }

  lemma {:induction false} TextBeforeAntisymmetric(a: string, b: string)
    requires TextBefore(a, b) && TextBefore(b, a)
    ensures a == b
  {
    if a != "" && b != "" {
      TextBeforeAntisymmetric(a[1..], b[1..]);
      assert a == [a[0]] + a[1..] && b == [b[0]] + b[1..];
    }
  }
}
