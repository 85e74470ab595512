// Inserting rows one at a time into a table with a skip column and a primary key.
module Tables {
  import opened Wrappers
  import opened Seqs

  predicate Has<R(==,!new)>(key: R -> string, t: seq<R>, k: string) {
    exists r :: r in t && key(r) == k
  }

  lemma HasInParts<R(!new)>(key: R -> string, t: seq<R>, k: string)
    requires t != []
    ensures Has(key, t, k) <==> key(t[0]) == k || Has(key, t[1..], k)
  {
    assert t == [t[0]] + t[1..];
    assert t[0] in t;
    assert forall r :: r in t[1..] ==> r in t;
  }

  // The rows whose key the table does not hold yet.
  function NewBy<R(==,!new)>(key: R -> string, t: seq<R>): R -> bool { (r: R) => !Has(key, t, key(r)) }

  // Skip a row whose key is present; otherwise its id must be free and the row acceptable.
  function Put<R(==,!new)>(
    key: R -> string, id: R -> string, ok: R -> bool, t: seq<R>, r: R): Option<seq<R>>
  {
    if Has(key, t, key(r)) then Some(t)
    else if Has(id, t, id(r)) || !ok(r) then None
    else Some(t + [r])
  }

  function PutAll<R(==,!new)>(
    key: R -> string, id: R -> string, ok: R -> bool, t: seq<R>, rows: seq<R>): Option<seq<R>>
  {
    if rows == [] then Some(t)
    else
      var n := |rows| - 1;
      var front := PutAll(key, id, ok, t, rows[..n]);
      if front.None? then None else Put(key, id, ok, front.value, rows[n])
  }

  // The row's key is neither in the table nor on an earlier row.
  predicate NewAt<R(==,!new)>(key: R -> string, t: seq<R>, rows: seq<R>, i: nat)
    requires i < |rows|
  {
    !Has(key, t, key(rows[i])) && forall h :: 0 <= h < i ==> key(rows[h]) != key(rows[i])
  }

  // A new row must be acceptable, and its id neither in the table nor on an earlier new row.
  predicate FitsAt<R(==,!new)>(
    key: R -> string, id: R -> string, ok: R -> bool, t: seq<R>, rows: seq<R>, i: nat)
    requires i < |rows|
  {
    NewAt(key, t, rows, i) ==>
      && ok(rows[i]) && !Has(id, t, id(rows[i]))
      && forall h :: 0 <= h < i && NewAt(key, t, rows, h) ==> id(rows[h]) != id(rows[i])
  }

  // Where the key is the id, being new leaves only acceptance to ask for.
  lemma FitsAtById<R(!new)>(id: R -> string, ok: R -> bool, t: seq<R>, rows: seq<R>, i: nat)
    requires i < |rows|
    ensures FitsAt(id, id, ok, t, rows, i) <==> (NewAt(id, t, rows, i) ==> ok(rows[i]))
  {
  }

  function NewRows<R(==,!new)>(key: R -> string, t: seq<R>, rows: seq<R>): seq<R> {
    if rows == [] then []
    else
      var n := |rows| - 1;
      NewRows(key, t, rows[..n]) + if NewAt(key, t, rows, n) then [rows[n]] else []
  }

  lemma NewAtInFront<R(!new)>(key: R -> string, t: seq<R>, rows: seq<R>, n: nat)
    requires n <= |rows|
    ensures forall h :: 0 <= h < n ==> NewAt(key, t, rows[..n], h) == NewAt(key, t, rows, h)
  {
    assert forall h :: 0 <= h < n ==> rows[..n][h] == rows[h];
  }

  lemma FitsAtInFront<R(!new)>(
    key: R -> string, id: R -> string, ok: R -> bool, t: seq<R>, rows: seq<R>, n: nat)
    requires n <= |rows|
    ensures forall i :: 0 <= i < n ==> FitsAt(key, id, ok, t, rows[..n], i) == FitsAt(key, id, ok, t, rows, i)
  {
    NewAtInFront(key, t, rows, n);
    forall i | 0 <= i < n ensures FitsAt(key, id, ok, t, rows[..n], i) == FitsAt(key, id, ok, t, rows, i) {
      assert forall h :: 0 <= h <= i ==> rows[..n][h] == rows[h];
    }
  }

  // A column value is in the grown table if it was there or came with a new row.
  lemma {:induction false} NewRowsHave<R(!new)>(
    key: R -> string, col: R -> string, t: seq<R>, rows: seq<R>, v: string)
    ensures Has(col, t + NewRows(key, t, rows), v) <==>
      Has(col, t, v) || exists h :: 0 <= h < |rows| && NewAt(key, t, rows, h) && col(rows[h]) == v
  {
    if rows == [] {
      assert t + [] == t;
    } else {
      var n := |rows| - 1;
      var front := NewRows(key, t, rows[..n]);
      var last := if NewAt(key, t, rows, n) then [rows[n]] else [];
      NewRowsHave(key, col, t, rows[..n], v);
      NewAtInFront(key, t, rows, n);
      HasInConcat(col, t + front, last, v);
      assert t + NewRows(key, t, rows) == t + front + last;
      assert Has(col, last, v) <==> NewAt(key, t, rows, n) && col(rows[n]) == v by {
        if NewAt(key, t, rows, n) { assert rows[n] in last; }
      }
      assert forall h :: 0 <= h < n ==> rows[..n][h] == rows[h];
    }
  }

  lemma HasInConcat<R(!new)>(col: R -> string, s: seq<R>, t: seq<R>, v: string)
    ensures Has(col, s + t, v) <==> Has(col, s, v) || Has(col, t, v)
  {
    assert forall r :: r in s + t <==> r in s || r in t;
  }

  // The key of every row is in the grown table.
  lemma {:induction false} NewRowsCover<R(!new)>(key: R -> string, t: seq<R>, rows: seq<R>, v: string)
    ensures Has(key, t + NewRows(key, t, rows), v) <==>
      Has(key, t, v) || exists h :: 0 <= h < |rows| && key(rows[h]) == v
  {
    NewRowsHave(key, key, t, rows, v);
    if !Has(key, t, v) && exists h :: 0 <= h < |rows| && key(rows[h]) == v {
      var h := FirstWith(key, rows, v);
      assert NewAt(key, t, rows, h);
    }
  }

  lemma {:induction false} FirstWith<R(!new)>(key: R -> string, rows: seq<R>, v: string) returns (h: nat)
    requires exists i :: 0 <= i < |rows| && key(rows[i]) == v
    ensures h < |rows| && key(rows[h]) == v && forall i :: 0 <= i < h ==> key(rows[i]) != v
  {
    if key(rows[0]) == v {
      h := 0;
    } else {
      var i :| 0 <= i < |rows| && key(rows[i]) == v;
      assert rows[1..][i - 1] == rows[i];
      h := FirstWith(key, rows[1..], v);
      assert forall j :: 0 < j < |rows| ==> rows[1..][j - 1] == rows[j];
      h := h + 1;
    }
  }

  // One more row goes in exactly when it fits.
  lemma PutFits<R(!new)>(key: R -> string, id: R -> string, ok: R -> bool, t: seq<R>, rows: seq<R>)
    requires rows != []
    ensures var n := |rows| - 1;
      var r := Put(key, id, ok, t + NewRows(key, t, rows[..n]), rows[n]);
      && (r.Some? <==> FitsAt(key, id, ok, t, rows, n))
      && (r.Some? ==> r.value == t + NewRows(key, t, rows))
  {
    var n := |rows| - 1;
    NewRowsCover(key, t, rows[..n], key(rows[n]));
    NewRowsHave(key, id, t, rows[..n], id(rows[n]));
    NewAtInFront(key, t, rows, n);
    assert forall h :: 0 <= h < n ==> rows[..n][h] == rows[h];
    assert NewAt(key, t, rows, n) <==> !Has(key, t + NewRows(key, t, rows[..n]), key(rows[n]));
    var front := NewRows(key, t, rows[..n]);
    assert NewRows(key, t, rows) == front + if NewAt(key, t, rows, n) then [rows[n]] else [];
    assert t + (front + [rows[n]]) == t + front + [rows[n]] && t + (front + []) == t + front;
  }

  // Rows go in one by one exactly when each fits, a condition on the rows and the original table;
  // and then exactly the new ones are appended, in order.
  lemma {:induction false} PutAllExact<R(!new)>(
    key: R -> string, id: R -> string, ok: R -> bool, t: seq<R>, rows: seq<R>)
    ensures PutAll(key, id, ok, t, rows).Some? <==>
      forall i :: 0 <= i < |rows| ==> FitsAt(key, id, ok, t, rows, i)
    ensures PutAll(key, id, ok, t, rows).Some? ==>
      PutAll(key, id, ok, t, rows).value == t + NewRows(key, t, rows)
  {
    if rows == [] {
      assert t + [] == t;
    } else {
      var n := |rows| - 1;
      PutAllExact(key, id, ok, t, rows[..n]);
      FitsAtInFront(key, id, ok, t, rows, n);
      PutFits(key, id, ok, t, rows);
    }
  }

  // ---- rows that differ among themselves ---------------------------------------------

  lemma {:induction false} NewRowsOfDistinct<R(!new)>(key: R -> string, t: seq<R>, rows: seq<R>)
    requires DistinctBy(key, rows)
    ensures NewRows(key, t, rows) == Filter(NewBy(key, t), rows)
  {
    if rows != [] {
      var n := |rows| - 1;
      NewRowsOfDistinct(key, t, rows[..n]);
      assert rows == rows[..n] + [rows[n]];
      FilterSnoc(NewBy(key, t), rows[..n], rows[n]);
    }
  }

  lemma FitsAtOfDistinct<R(!new)>(key: R -> string, id: R -> string, ok: R -> bool, t: seq<R>, rows: seq<R>)
    requires DistinctBy(key, rows) && DistinctBy(id, rows)
    ensures (forall i :: 0 <= i < |rows| ==> FitsAt(key, id, ok, t, rows, i)) <==>
      forall r :: r in rows && !Has(key, t, key(r)) ==> ok(r) && !Has(id, t, id(r))
  {
    if forall i :: 0 <= i < |rows| ==> FitsAt(key, id, ok, t, rows, i) {
      forall r | r in rows && !Has(key, t, key(r)) ensures ok(r) && !Has(id, t, id(r)) {
        var i :| 0 <= i < |rows| && rows[i] == r;
        assert FitsAt(key, id, ok, t, rows, i);
      }
    }
    if forall r :: r in rows && !Has(key, t, key(r)) ==> ok(r) && !Has(id, t, id(r)) {
      forall i | 0 <= i < |rows| ensures FitsAt(key, id, ok, t, rows, i) {
        assert rows[i] in rows;
      }
    }
  }

  lemma AllNewToNothing<R(!new)>(key: R -> string, rows: seq<R>)
    ensures Filter(NewBy(key, []), rows) == rows
  {
    FilterAll(NewBy(key, []), rows);
  }
}
