/** Comparing the freshly merged stock pool with the stored one: the stored
    table's default, the added and removed companies, and the change flag. */
module Differ {
  import opened Tables

  datatype Option<T> = None | Some(value: T)

  /** The stored table: the rows read back from the stored file, or, when there
      is no file yet, the empty table with the canonical header. */
  function Stored(file: Option<seq<Row>>): Table {
    match file
    case None => Table(Columns, [])
    case Some(rows) => Table(Columns, rows)
  }

  /** The rows whose code is not among `codes`, in their original order
      (a boolean mask `~isin(codes)` applied to the table). */
  function Without(rows: seq<Row>, codes: set<Code>): (r: seq<Row>)
    ensures forall x :: x in r <==> x in rows && x.id !in codes
    ensures |r| <= |rows|
  {
    if rows == [] then []
    else
      assert rows == [rows[0]] + rows[1..];
      if rows[0].id in codes then Without(rows[1..], codes)
      else [rows[0]] + Without(rows[1..], codes)
  }

  /** Companies in the current table whose code the stored table lacks. */
  function Added(current: Table, stored: Table): seq<Row> {
    Without(current.rows, Codes(stored.rows))
  }

  /** Companies in the stored table whose code the current table lacks. */
  function Removed(current: Table, stored: Table): seq<Row> {
    Without(stored.rows, Codes(current.rows))
  }

  /** Whole-table equality decides a change: header, rows and their order. */
  predicate Changed(current: Table, stored: Table) {
    current != stored
  }

  /** `a` occurs in `b` keeping its order (rows of `b` may be skipped). */
  predicate IsSubsequence(a: seq<Row>, b: seq<Row>)
    decreases |b|
  {
    if a == [] then true
    else if b == [] then false
    else if a[0] == b[0] then IsSubsequence(a[1..], b[1..])
    else IsSubsequence(a, b[1..])
  }

  /** The mask keeps the order of the rows it keeps. */
  lemma {:induction false} WithoutKeepsOrder(rows: seq<Row>, codes: set<Code>)
    ensures IsSubsequence(Without(rows, codes), rows)
  {
    if rows != [] {
      WithoutKeepsOrder(rows[1..], codes);
      var r := Without(rows, codes);
      if rows[0].id in codes {
        assert r == Without(rows[1..], codes);
        assert r != [] ==> r[0] != rows[0] by {
          if r != [] {
            assert r[0] in r;
          }
        }
      } else {
        assert r == [rows[0]] + Without(rows[1..], codes);
        assert r[1..] == Without(rows[1..], codes);
      }
    }
  }

  /** The mask keeps every occurrence of a row it keeps and none of the others:
      nothing is dropped, added or de-duplicated beyond the codes removed. */
  lemma {:induction false} WithoutCount(rows: seq<Row>, codes: set<Code>, x: Row)
    ensures multiset(Without(rows, codes))[x] == if x.id in codes then 0 else multiset(rows)[x]
  {
    if rows != [] {
      WithoutCount(rows[1..], codes, x);
      assert rows == [rows[0]] + rows[1..];
      assert multiset(rows) == multiset{rows[0]} + multiset(rows[1..]);
    }
  }

  /** Masking with no codes keeps the table whole. */
  lemma {:induction false} WithoutNothing(rows: seq<Row>)
    ensures Without(rows, {}) == rows
  {
    if rows != [] {
      WithoutNothing(rows[1..]);
      assert rows == [rows[0]] + rows[1..];
    }
  }

  /** Masking a table with its own codes removes every row. */
  lemma WithoutAll(rows: seq<Row>, codes: set<Code>)
    requires Codes(rows) <= codes
    ensures Without(rows, codes) == []
  {
  }

  lemma CodesOfWithout(rows: seq<Row>, codes: set<Code>)
    ensures Codes(Without(rows, codes)) == Codes(rows) - codes
  {
  }

  /** The codes added and removed are the two set differences of the codes. */
  lemma DiffCodes(current: Table, stored: Table)
    ensures Codes(Added(current, stored)) == Codes(current.rows) - Codes(stored.rows)
    ensures Codes(Removed(current, stored)) == Codes(stored.rows) - Codes(current.rows)
  {
  }

  /** Nothing is added and nothing removed exactly when both tables have the
      same codes; names are not compared. */
  lemma NoDiffIffSameCodes(current: Table, stored: Table)
    ensures (Added(current, stored) == [] && Removed(current, stored) == [])
            <==> Codes(current.rows) == Codes(stored.rows)
  {
    DiffCodes(current, stored);
    if Codes(current.rows) == Codes(stored.rows) {
      WithoutAll(current.rows, Codes(stored.rows));
      WithoutAll(stored.rows, Codes(current.rows));
    }
  }

  /** An unchanged table has neither additions nor removals. */
  lemma UnchangedHasNoDiff(current: Table, stored: Table)
    requires !Changed(current, stored)
    ensures Added(current, stored) == [] && Removed(current, stored) == []
  {
    NoDiffIffSameCodes(current, stored);
  }

  /** A company renamed under the same code changes the table but shows up
      neither as added nor as removed. */
  lemma RenameIsChangeWithoutDiff(current: Table, i: nat, other: Name)
    requires i < |current.rows| && other != current.rows[i].name
    ensures var stored := Table(current.columns, current.rows[i := Row(current.rows[i].id, other)]);
      Changed(current, stored) && Added(current, stored) == [] && Removed(current, stored) == []
  {
    var stored := Table(current.columns, current.rows[i := Row(current.rows[i].id, other)]);
    assert current.rows[i] != stored.rows[i];
    assert Codes(current.rows) == Codes(stored.rows) by {
      forall c | c in Codes(current.rows) ensures c in Codes(stored.rows) {
        var k :| 0 <= k < |current.rows| && current.rows[k].id == c;
        assert stored.rows[k].id == c;
      }
      forall c | c in Codes(stored.rows) ensures c in Codes(current.rows) {
        var k :| 0 <= k < |stored.rows| && stored.rows[k].id == c;
        assert current.rows[k].id == c;
      }
    }
    NoDiffIffSameCodes(current, stored);
  }

  /** Without a stored file the stored table is the empty table with the
      canonical header, every current company is an addition, none is a
      removal, and the table counts as changed exactly when it has rows. */
  lemma FirstRun(current: Table)
    requires current.columns == Columns
    ensures Stored(None) == Table(Columns, [])
    ensures Added(current, Stored(None)) == current.rows
    ensures Removed(current, Stored(None)) == []
    ensures Changed(current, Stored(None)) <==> current.rows != []
  {
    WithoutNothing(current.rows);
    assert Codes(Stored(None).rows) == {};
  }
}
