/** Recorded hashes of the program's own binaries, the startup check, and the admission map. */
module Integrity {
  import opened Wrappers
  import opened Seqs
  import opened Sorting
  import opened Schema

  // The hash of each readable file.
  type Files = map<string, string>

  // ORDER BY component
  predicate ComponentBefore(a: IntegrityRow, b: IntegrityRow) { TextBefore(a.component, b.component) }

  function ListRecords(rows: seq<IntegrityRow>): seq<IntegrityRow> { StableSort(ComponentBefore, rows) }

  lemma ListRecordsIsPermutation(rows: seq<IntegrityRow>)
    ensures multiset(ListRecords(rows)) == multiset(rows)
  {
    forall a, b ensures ComponentBefore(a, b) || ComponentBefore(b, a) {
      TextBeforeTotal(a.component, b.component);
    }
    forall a, b, c | ComponentBefore(a, b) && ComponentBefore(b, c) ensures ComponentBefore(a, c) {
      TextBeforeTransitive(a.component, b.component, c.component);
    }
    StableSortCorrect(ComponentBefore, rows);
  }

  predicate Genuine(files: Files, r: IntegrityRow) { r.path in files && files[r.path] == r.sha256 }

  predicate AllGenuine(files: Files, rows: seq<IntegrityRow>) { forall r :: r in rows ==> Genuine(files, r) }

  ghost predicate FirstFailure(files: Files, rows: seq<IntegrityRow>, i: nat, error: StoreError) {
    && i < |rows| && AllGenuine(files, rows[..i]) && !Genuine(files, rows[i])
    && error == if rows[i].path in files then IntegrityFailure else NotFound
  }

  // The first record that fails decides the error: unreadable, or modified.
  method VerifyRecords(files: Files, rows: seq<IntegrityRow>) returns (error: Option<StoreError>)
    ensures error.None? <==> AllGenuine(files, rows)
    ensures error.Some? ==> exists i :: FirstFailure(files, rows, i, error.value)
  {
    for i := 0 to |rows|
      invariant AllGenuine(files, rows[..i])
    {
      assert rows[..i + 1] == rows[..i] + [rows[i]];
      if rows[i].path !in files {
        assert rows[i] in rows && FirstFailure(files, rows, i, NotFound);
        return Some(NotFound);
      }
      if files[rows[i].path] != rows[i].sha256 {
        assert rows[i] in rows && FirstFailure(files, rows, i, IntegrityFailure);
        return Some(IntegrityFailure);
      }
    }
    assert rows[..|rows|] == rows;
    error := None;
  }

  // Collecting (path, hash) pairs into a map: the last record of a path wins.
  function KnownHashes(rows: seq<IntegrityRow>): map<string, string> {
    if rows == [] then map[]
    else KnownHashes(rows[..|rows| - 1])[rows[|rows| - 1].path := rows[|rows| - 1].sha256]
  }

  predicate Recorded(rows: seq<IntegrityRow>, path: string) { exists r :: r in rows && r.path == path }

  lemma {:induction false} KnownHashesCover(rows: seq<IntegrityRow>)
    ensures forall path :: path in KnownHashes(rows) <==> Recorded(rows, path)
    ensures forall path :: path in KnownHashes(rows) ==>
      exists r :: r in rows && r.path == path && r.sha256 == KnownHashes(rows)[path]
  {
    if rows != [] {
      var n := |rows| - 1;
      assert rows == rows[..n] + [rows[n]];
      KnownHashesCover(rows[..n]);
      assert rows[n] in rows;
      forall path | path in KnownHashes(rows)
        ensures exists r :: r in rows && r.path == path && r.sha256 == KnownHashes(rows)[path]
      {
        if path != rows[n].path {
          assert path in KnownHashes(rows[..n]);
          var r :| r in rows[..n] && r.path == path && r.sha256 == KnownHashes(rows[..n])[path];
          assert r in rows;
        }
      }
    }
  }

  // Once the startup check has passed, the map gives each recorded path the hash its file has.
  lemma VerifiedHashesAreActual(files: Files, rows: seq<IntegrityRow>, path: string)
    requires AllGenuine(files, rows)
    ensures path in KnownHashes(rows) <==> Recorded(rows, path)
    ensures path in KnownHashes(rows) ==> path in files && KnownHashes(rows)[path] == files[path]
  {
    KnownHashesCover(rows);
  }

  predicate RecordsAgree(rows: seq<IntegrityRow>) {
    forall r, s :: r in rows && s in rows && r.path == s.path ==> r.sha256 == s.sha256
  }

  // The map is the same in every record order exactly when the records of each path agree.
  lemma KnownHashesOrderIff(rows: seq<IntegrityRow>)
    ensures (forall other :: multiset(other) == multiset(rows) ==> KnownHashes(other) == KnownHashes(rows))
      <==> RecordsAgree(rows)
  {
    if RecordsAgree(rows) {
      forall other | multiset(other) == multiset(rows) ensures KnownHashes(other) == KnownHashes(rows) {
        AgreeingHashesSame(rows, other);
      }
    } else {
      var r, s :| r in rows && s in rows && r.path == s.path && r.sha256 != s.sha256;
      KnownHashesCover(rows);
      assert Recorded(rows, r.path);
      var w := if KnownHashes(rows)[r.path] == r.sha256 then s else r;
      var other := MoveToBack(rows, w);
      assert KnownHashes(other)[w.path] == w.sha256;
    }
  }

  lemma AgreeingHashesSame(rows: seq<IntegrityRow>, other: seq<IntegrityRow>)
    requires RecordsAgree(rows) && multiset(other) == multiset(rows)
    ensures KnownHashes(other) == KnownHashes(rows)
  {
    forall r ensures r in rows <==> r in other {
      assert r in rows <==> r in multiset(rows);
      assert r in other <==> r in multiset(other);
    }
    KnownHashesCover(rows);
    KnownHashesCover(other);
    forall path ensures path in KnownHashes(rows) <==> path in KnownHashes(other) {
      assert Recorded(rows, path) <==> Recorded(other, path);
    }
  }

  ghost function MoveToBack(rows: seq<IntegrityRow>, w: IntegrityRow): (t: seq<IntegrityRow>)
    requires w in rows
    ensures multiset(t) == multiset(rows) && t != [] && t[|t| - 1] == w
  {
    var i :| 0 <= i < |rows| && rows[i] == w;
    assert rows == rows[..i] + [w] + rows[i + 1..];
    rows[..i] + rows[i + 1..] + [w]
  }

  // After recording a binary the check passes exactly if the new record is genuine and so is every
  // record with another id; the new id is random, so an old record of the same path stays.
  lemma RecordingRepairsNothing(db: Db, files: Files, row: IntegrityRow)
    ensures AllGenuine(files, InsertOrReplaceIntegrity(db, row).integrity) <==>
      Genuine(files, row) && forall r :: r in db.integrity && r.id != row.id ==> Genuine(files, r)
    ensures !HasIntegrity(db, row.id) && Genuine(files, row) ==>
      (AllGenuine(files, InsertOrReplaceIntegrity(db, row).integrity) <==> AllGenuine(files, db.integrity))
  {
    var kept := Filter(AnotherRecord(row.id), db.integrity);
    assert forall r :: r in InsertOrReplaceIntegrity(db, row).integrity <==> r in kept || r == row;
    assert forall r :: r in kept <==> r in db.integrity && r.id != row.id;
  }

  // An upgraded binary, recorded again as it is now: the check still fails.
  const OLD_BUILD := IntegrityRow("1", "coned", "/usr/bin/coned", "0f", "1.0", 0, None)
  const NEW_BUILD := IntegrityRow("2", "coned", "/usr/bin/coned", "1e", "1.1", 9, None)

  lemma UpgradeStaysBroken()
    ensures var files := map["/usr/bin/coned" := "1e"];
      var db := InsertOrReplaceIntegrity(EMPTY_DB.(integrity := [OLD_BUILD]), NEW_BUILD);
      Genuine(files, NEW_BUILD) && !AllGenuine(files, db.integrity)
  {
    var db := EMPTY_DB.(integrity := [OLD_BUILD]);
    RecordingRepairsNothing(db, map["/usr/bin/coned" := "1e"], NEW_BUILD);
    assert db.integrity[0] in db.integrity;
  }
}
