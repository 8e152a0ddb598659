/** The tables the stock-pool updater works on: rows of (company code, short name),
    the canonical column names, and the order the merged table is sorted by. */
module Tables {

  /** A table cell: a value, or the missing value a table shows where a column
      had no entry (it compares equal to itself and sorts after every value). */
  datatype Cell<T> = Value(v: T) | NaN

  /** Company codes are numeric, as they read back from the stored file. */
  type Code = Cell<int>
  type Name = Cell<string>

  datatype Row = Row(id: Code, name: Name)

  /** A table with its header; positions in `rows` are the dense 0-based index. */
  datatype Table = Table(columns: seq<string>, rows: seq<Row>)

  const CodeColumn: string := "代號"
  const NameColumn: string := "名稱"
  /** The header of the merged table and of the stored file. */
  const Columns: seq<string> := [CodeColumn, NameColumn]

  /** Ascending order of codes; the missing code goes last. */
  predicate CodeLe(a: Code, b: Code) {
    match (a, b)
    case (Value(x), Value(y)) => x <= y
    case (_, NaN) => true
    case (NaN, Value(_)) => false
  }

  lemma CodeLeIsTotalOrder(a: Code, b: Code, c: Code)
    ensures CodeLe(a, a)
    ensures CodeLe(a, b) || CodeLe(b, a)
    ensures CodeLe(a, b) && CodeLe(b, a) ==> a == b
    ensures CodeLe(a, b) && CodeLe(b, c) ==> CodeLe(a, c)
  {
  }

  /** Rows in non-decreasing order of code. */
  predicate Sorted(rows: seq<Row>) {
    forall i, j :: 0 <= i < j < |rows| ==> CodeLe(rows[i].id, rows[j].id)
  }

  /** No two rows share a code: what the exchanges' lists are expected to satisfy. */
  predicate DistinctCodes(rows: seq<Row>) {
    forall i, j :: 0 <= i < j < |rows| ==> rows[i].id != rows[j].id
  }

  /** The codes occurring in a column of codes, as a set (the argument of `isin`). */
  function Codes(rows: seq<Row>): set<Code> {
    set r | r in rows :: r.id
  }
}
