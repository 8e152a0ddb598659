/** Merging the two exchange tables into the canonical, sorted stock pool:
    concatenate, keep the code and short-name columns, rename them, sort by code. */
module Merger {
  import opened Tables

  /** Header labels of the code and short-name columns in the downloaded tables. */
  const SourceCodeColumn: string := "公司代號"
  const SourceNameColumn: string := "公司簡稱"

  /** A downloaded record, as far as the merge reads it: its entries under the
      company-code and short-name columns. An entry under a column that the
      record's own table does not have is never read. */
  datatype Record = Record(code: Code, shortName: Name)

  /** A downloaded table: its header (any labels, in any order) and its records. */
  datatype Frame = Frame(header: seq<string>, records: seq<Record>)

  /** Selecting columns a table lacks fails, naming the absent ones. */
  datatype MergeError = MissingColumns(columns: seq<string>)

  datatype Result<T> = Ok(value: T) | Err(error: MergeError)

  /** The labels of `b` that `a` does not already have, in `b`'s order. */
  function FreshLabels(b: seq<string>, a: seq<string>): (r: seq<string>)
    ensures forall c :: c in r <==> c in b && c !in a
  {
    if b == [] then []
    else (if b[0] in a then [] else [b[0]]) + FreshLabels(b[1..], a)
  }

  /** The entry of a record under a column, seen from the concatenated table:
      a table without that column contributes the missing value. */
  function Entry<T>(f: Frame, column: string, v: Cell<T>): Cell<T> {
    if column in f.header then v else NaN
  }

  function Widen(f: Frame): seq<Record> {
    seq(|f.records|, i requires 0 <= i < |f.records| =>
      Record(Entry(f, SourceCodeColumn, f.records[i].code),
             Entry(f, SourceNameColumn, f.records[i].shortName)))
  }

  /** Row-wise concatenation with a fresh index: the header is the union of the
      two headers, every record of both tables is kept (duplicates too), first
      table first. */
  function Concat(a: Frame, b: Frame): (c: Frame)
    ensures forall col :: col in c.header <==> col in a.header || col in b.header
    ensures |c.records| == |a.records| + |b.records|
    ensures forall i :: 0 <= i < |a.records| ==>
              c.records[i] == Record(Entry(a, SourceCodeColumn, a.records[i].code),
                                     Entry(a, SourceNameColumn, a.records[i].shortName))
    ensures forall j :: 0 <= j < |b.records| ==>
              c.records[|a.records| + j] == Record(Entry(b, SourceCodeColumn, b.records[j].code),
                                                   Entry(b, SourceNameColumn, b.records[j].shortName))
  {
    Frame(a.header + FreshLabels(b.header, a.header), Widen(a) + Widen(b))
  }

  /** The selected labels that a header lacks, in selection order. */
  function Absent(header: seq<string>): seq<string> {
    (if SourceCodeColumn in header then [] else [SourceCodeColumn])
      + (if SourceNameColumn in header then [] else [SourceNameColumn])
  }

  /** Selection of the code and short-name columns, in that order. */
  function Select(f: Frame): (r: Result<Table>)
    ensures r.Err? <==> SourceCodeColumn !in f.header || SourceNameColumn !in f.header
    ensures r.Err? ==> r.error.columns != []
    ensures r.Err? ==> forall c :: c in r.error.columns <==>
                         c in [SourceCodeColumn, SourceNameColumn] && c !in f.header
    ensures r.Ok? ==> r.value.columns == [SourceCodeColumn, SourceNameColumn]
    ensures r.Ok? ==> |r.value.rows| == |f.records|
    ensures r.Ok? ==> forall i :: 0 <= i < |f.records| ==>
                        r.value.rows[i] == Row(f.records[i].code, f.records[i].shortName)
  {
    var missing := Absent(f.header);
    if missing != [] then Err(MissingColumns(missing))
    else Ok(Table([SourceCodeColumn, SourceNameColumn],
                  seq(|f.records|, i requires 0 <= i < |f.records| =>
                    Row(f.records[i].code, f.records[i].shortName))))
  }

  /** Renaming the two selected columns to the canonical header. */
  function Rename(t: Table): Table {
    Table(Columns, t.rows)
  }

  /** `rows` with `r` placed before the first row whose code is not smaller. */
  function Insert(r: Row, rows: seq<Row>): (s: seq<Row>)
    requires Sorted(rows)
    ensures Sorted(s)
    ensures multiset(s) == multiset(rows) + multiset{r}
  {
    if rows == [] then [r]
    else if CodeLe(r.id, rows[0].id) then
      SortedCons(r, rows);
      [r] + rows
    else
      var rest := Insert(r, rows[1..]);
      assert rows == [rows[0]] + rows[1..];
      assert forall k :: 0 <= k < |rest| ==> CodeLe(rows[0].id, rest[k].id) by {
        forall k | 0 <= k < |rest| ensures CodeLe(rows[0].id, rest[k].id) {
          assert rest[k] in multiset(rest);
          if rest[k] != r {
            assert rest[k] in rows[1..];
          } else {
            CodeLeIsTotalOrder(r.id, rows[0].id, r.id);
          }
        }
      }
      SortedCons(rows[0], rest);
      [rows[0]] + rest
  }

  /** A row no greater than every row of a sorted table can head it. */
  lemma SortedCons(x: Row, t: seq<Row>)
    requires Sorted(t)
    requires forall k :: 0 <= k < |t| ==> CodeLe(x.id, t[k].id)
    ensures Sorted([x] + t)
  {
  }

  /** Sorting by code. */
  function SortByCode(rows: seq<Row>): (s: seq<Row>)
    ensures Sorted(s)
    ensures multiset(s) == multiset(rows)
  {
    if rows == [] then []
    else
      assert rows == [rows[0]] + rows[1..];
      Insert(rows[0], SortByCode(rows[1..]))
  }

  /** The projection the merge is specified by: the rows of a downloaded table
      as they stand in the code and short-name columns of the concatenation. */
  function Projection(f: Frame): seq<Row> {
    seq(|f.records|, i requires 0 <= i < |f.records| =>
      Row(Entry(f, SourceCodeColumn, f.records[i].code),
          Entry(f, SourceNameColumn, f.records[i].shortName)))
  }

  /** The merged stock pool: concatenation, selection, renaming, sorting and a
      dense index, in that order. */
  function Merge(twse: Frame, tpex: Frame): (r: Result<Table>)
    ensures r.Err? <==>
      (SourceCodeColumn !in twse.header && SourceCodeColumn !in tpex.header) ||
      (SourceNameColumn !in twse.header && SourceNameColumn !in tpex.header)
    ensures r.Err? ==> r.error.columns != []
    ensures r.Err? ==> forall c :: c in r.error.columns <==>
      c in [SourceCodeColumn, SourceNameColumn] && c !in twse.header && c !in tpex.header
    ensures r.Ok? ==> r.value.columns == Columns
    ensures r.Ok? ==> Sorted(r.value.rows)
    ensures r.Ok? ==> multiset(r.value.rows) == multiset(Projection(twse) + Projection(tpex))
  {
    match Select(Concat(twse, tpex))
    case Err(e) => Err(e)
    case Ok(t) =>
      SelectOfConcat(twse, tpex);
      var named := Rename(t);
      Ok(Table(named.columns, SortByCode(named.rows)))
  }

  /** Selecting after concatenating gives the two projections one after the
      other: every downloaded record yields exactly one row, at its place. */
  lemma SelectOfConcat(a: Frame, b: Frame)
    requires Select(Concat(a, b)).Ok?
    ensures Select(Concat(a, b)).value.rows == Projection(a) + Projection(b)
  {
  }

  /** Two sorted orderings of the same rows are the same ordering when no two
      rows share a code: the tie order the sort leaves open never arises then. */
  lemma {:induction false} SortedPermutationUnique(s: seq<Row>, t: seq<Row>)
    requires Sorted(s) && Sorted(t)
    requires multiset(s) == multiset(t)
    requires DistinctCodes(s)
    ensures s == t
  {
    if s != [] {
      SameHead(s, t);
      TailsArePermutations(s, t);
      DistinctCodesOfTail(s);
      SortedTail(s);
      SortedTail(t);
      SortedPermutationUnique(s[1..], t[1..]);
      assert s == [s[0]] + s[1..];
      assert t == [t[0]] + t[1..];
    }
  }

  lemma TailsArePermutations(s: seq<Row>, t: seq<Row>)
    requires multiset(s) == multiset(t)
    requires s != [] && t != [] && s[0] == t[0]
    ensures multiset(s[1..]) == multiset(t[1..])
  {
    assert s == [s[0]] + s[1..];
    assert t == [t[0]] + t[1..];
    assert multiset(s[1..]) == multiset(s) - multiset{s[0]};
    assert multiset(t[1..]) == multiset(t) - multiset{t[0]};
  }

  lemma SortedTail(s: seq<Row>)
    requires Sorted(s) && s != []
    ensures Sorted(s[1..])
  {
  }

  /** Both sorted orderings start with the row of least code. */
  lemma SameHead(s: seq<Row>, t: seq<Row>)
    requires Sorted(s) && Sorted(t)
    requires multiset(s) == multiset(t)
    requires DistinctCodes(s)
    requires s != []
    ensures t != [] && s[0] == t[0]
  {
    assert s[0] in multiset(t);
    assert t[0] in multiset(s);
    var j :| 0 <= j < |t| && t[j] == s[0];
    var k :| 0 <= k < |s| && s[k] == t[0];
    assert CodeLe(t[0].id, s[0].id);
    assert CodeLe(s[0].id, t[0].id);
    CodeLeIsTotalOrder(s[0].id, t[0].id, t[0].id);
    assert s[k].id == s[0].id;
  }

  lemma DistinctCodesOfTail(s: seq<Row>)
    requires DistinctCodes(s) && s != []
    ensures DistinctCodes(s[1..])
  {
  }

  /** With distinct codes, the merged table is the only sorted arrangement of
      the projected rows, so it does not depend on how ties would be broken. */
  lemma MergeIsTheSortedTable(twse: Frame, tpex: Frame, other: seq<Row>)
    requires Merge(twse, tpex).Ok?
    requires DistinctCodes(Projection(twse) + Projection(tpex))
    requires Sorted(other)
    requires multiset(other) == multiset(Projection(twse) + Projection(tpex))
    ensures Merge(twse, tpex).value.rows == other
  {
    var rows := Merge(twse, tpex).value.rows;
    DistinctCodesOfPermutation(Projection(twse) + Projection(tpex), other);
    SortedPermutationUnique(other, rows);
  }

  lemma DistinctCodesOfPermutation(s: seq<Row>, t: seq<Row>)
    requires DistinctCodes(s)
    requires multiset(s) == multiset(t)
    ensures DistinctCodes(t)
  {
    forall i, j | 0 <= i < j < |t| ensures t[i].id != t[j].id {
      assert t[i] in multiset(s) && t[j] in multiset(s);
      var p :| 0 <= p < |s| && s[p] == t[i];
      var q :| 0 <= q < |s| && s[q] == t[j];
      CountOne(s, p);
      if t[i] == t[j] {
        CountTwo(t, i, j);
      }
      assert p != q ==> s[p].id != s[q].id;
    }
  }

  /** A row of a table with distinct codes occurs in it once. */
  lemma CountOne(s: seq<Row>, p: nat)
    requires DistinctCodes(s)
    requires p < |s|
    ensures multiset(s)[s[p]] == 1
  {
    assert s == s[..p] + [s[p]] + s[p+1..];
    forall i | 0 <= i < p ensures s[..p][i] != s[p] {
      assert s[..p][i] == s[i];
    }
    var tail := s[p+1..];
    forall i | 0 <= i < |tail| ensures tail[i] != s[p] {
      assert tail[i] == s[p + 1 + i];
    }
    assert s[p] !in s[..p];
    assert s[p] !in s[p+1..];
    assert multiset(s[..p])[s[p]] == 0;
    assert multiset(s[p+1..])[s[p]] == 0;
  }

  /** A row at two positions occurs at least twice. */
  lemma CountTwo(t: seq<Row>, i: nat, j: nat)
    requires i < j < |t|
    requires t[i] == t[j]
    ensures multiset(t)[t[i]] >= 2
  {
    assert t == t[..i] + [t[i]] + t[i+1..j] + [t[j]] + t[j+1..];
  }
}
