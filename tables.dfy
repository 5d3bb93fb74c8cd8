/** What loading one CSV does to the database, as functions on values.
    A CSV is a sequence of rows of cells, a cell being a value or missing
    (pandas' NaN). The database is a map from each existing table to its rows
    in insertion order; a table's primary key is an abstract function of
    the row. */
module TableOps {
  import opened Catalog

  datatype Cell = NaN | Value(text: string)
  datatype DbValue = Null | Text(text: string)

  type CsvRow = seq<Cell>
  type Row = seq<DbValue>
  type Tables = map<Table, seq<Row>>

  /** The primary key of a row of a table, as the schema defines it. */
  type KeyFn = (Table, Row) -> Row

  /** A downloaded object as pandas sees it: parsed rows, or a file that
      `read_csv` rejects. */
  datatype CsvFile = Parsed(rows: seq<CsvRow>) | Unreadable

  /** `df.where(pd.notna(df), None)` followed by the tuple of a row's cells:
      a missing cell becomes NULL, every other cell keeps its value. */
  function ToRecord(r: CsvRow): (rec: Row)
    ensures |rec| == |r|
    ensures forall j :: 0 <= j < |r| ==> (rec[j] == Null <==> r[j] == NaN)
    ensures forall j :: 0 <= j < |r| && r[j].Value? ==> rec[j] == Text(r[j].text)
  {
    seq(|r|, j requires 0 <= j < |r| => if r[j] == NaN then Null else Text(r[j].text))
  }

  function ToRecords(rows: seq<CsvRow>): (recs: seq<Row>)
    ensures |recs| == |rows|
    ensures forall i :: 0 <= i < |rows| ==> recs[i] == ToRecord(rows[i])
  {
    seq(|rows|, i requires 0 <= i < |rows| => ToRecord(rows[i]))
  }

  function KeysOf(pk: KeyFn, t: Table, rows: seq<Row>): set<Row> {
    set r | r in rows :: pk(t, r)
  }

  ghost predicate UniqueKeys(pk: KeyFn, t: Table, rows: seq<Row>) {
    forall i, j :: 0 <= i < j < |rows| ==> pk(t, rows[i]) != pk(t, rows[j])
  }

  /** One row of `INSERT ... ON CONFLICT DO NOTHING`. */
  function InsertOne(pk: KeyFn, t: Table, existing: seq<Row>, rec: Row): seq<Row> {
    if pk(t, rec) in KeysOf(pk, t, existing) then existing else existing + [rec]
  }

  /** `INSERT INTO t ... VALUES ... ON CONFLICT DO NOTHING`: the records are
      taken in order and a record whose key is already present, in the table
      or earlier in the batch, is skipped. */
  function InsertIgnoring(pk: KeyFn, t: Table, existing: seq<Row>, records: seq<Row>): (r: seq<Row>)
    ensures |existing| <= |r| <= |existing| + |records|
    decreases |records|
  {
    if records == [] then existing
    else InsertIgnoring(pk, t, InsertOne(pk, t, existing, records[0]), records[1..])
  }

  /** Rows already in the table are never removed or moved. */
  lemma {:induction false} InsertKeepsExisting(pk: KeyFn, t: Table, existing: seq<Row>, records: seq<Row>)
    ensures var r := InsertIgnoring(pk, t, existing, records);
      |existing| <= |r| && r[..|existing|] == existing
    decreases |records|
  {
    if records != [] {
      var next := InsertOne(pk, t, existing, records[0]);
      InsertKeepsExisting(pk, t, next, records[1..]);
      var r := InsertIgnoring(pk, t, existing, records);
      assert r[..|existing|] == r[..|next|][..|existing|];
    }
  }

  lemma KeysOfCons(pk: KeyFn, t: Table, records: seq<Row>)
    requires records != []
    ensures KeysOf(pk, t, records) == {pk(t, records[0])} + KeysOf(pk, t, records[1..])
  {
    assert records == [records[0]] + records[1..];
  }

  lemma KeysOfSnoc(pk: KeyFn, t: Table, rows: seq<Row>, row: Row)
    ensures KeysOf(pk, t, rows + [row]) == KeysOf(pk, t, rows) + {pk(t, row)}
  {
  }

  /** Every row the insert adds is one of the records, with a key that was
      not in the table before. */
  lemma {:induction false} InsertAddsFreshRecords(pk: KeyFn, t: Table, existing: seq<Row>, records: seq<Row>)
    ensures var r := InsertIgnoring(pk, t, existing, records);
      forall i :: |existing| <= i < |r| ==> r[i] in records && pk(t, r[i]) !in KeysOf(pk, t, existing)
    decreases |records|
  {
    if records != [] {
      var next := InsertOne(pk, t, existing, records[0]);
      InsertAddsFreshRecords(pk, t, next, records[1..]);
      InsertKeepsExisting(pk, t, next, records[1..]);
      var r := InsertIgnoring(pk, t, existing, records);
      if next != existing {
        KeysOfSnoc(pk, t, existing, records[0]);
        forall i | |existing| <= i < |r|
          ensures r[i] in records && pk(t, r[i]) !in KeysOf(pk, t, existing)
        {
          if i == |existing| {
            assert r[i] == r[..|next|][i] == next[i];
          }
        }
      }
    }
  }

  /** Afterwards the table's keys are its old keys plus every record's key. */
  lemma {:induction false} InsertCoversRecordKeys(pk: KeyFn, t: Table, existing: seq<Row>, records: seq<Row>)
    ensures KeysOf(pk, t, InsertIgnoring(pk, t, existing, records)) == KeysOf(pk, t, existing) + KeysOf(pk, t, records)
    decreases |records|
  {
    if records != [] {
      var next := InsertOne(pk, t, existing, records[0]);
      InsertCoversRecordKeys(pk, t, next, records[1..]);
      KeysOfCons(pk, t, records);
      KeysOfSnoc(pk, t, existing, records[0]);
    }
  }

  /** A table whose keys are unique keeps them unique. */
  lemma {:induction false} InsertKeepsKeysUnique(pk: KeyFn, t: Table, existing: seq<Row>, records: seq<Row>)
    requires UniqueKeys(pk, t, existing)
    ensures UniqueKeys(pk, t, InsertIgnoring(pk, t, existing, records))
    decreases |records|
  {
    if records != [] {
      var next := InsertOne(pk, t, existing, records[0]);
      if next != existing {
        forall i, j | 0 <= i < j < |next| ensures pk(t, next[i]) != pk(t, next[j]) {
          if j == |existing| {
            assert next[i] in existing;
          }
        }
      }
      InsertKeepsKeysUnique(pk, t, next, records[1..]);
    }
  }

  /** The rows an insert adds have pairwise different keys, whatever the
      table held before. */
  lemma {:induction false} InsertAddsDistinctKeys(pk: KeyFn, t: Table, existing: seq<Row>, records: seq<Row>)
    ensures var r := InsertIgnoring(pk, t, existing, records);
      forall i, j :: |existing| <= i < j < |r| ==> pk(t, r[i]) != pk(t, r[j])
    decreases |records|
  {
    if records != [] {
      var next := InsertOne(pk, t, existing, records[0]);
      InsertAddsDistinctKeys(pk, t, next, records[1..]);
      if next != existing {
        var r := InsertIgnoring(pk, t, existing, records);
        InsertKeepsExisting(pk, t, next, records[1..]);
        InsertAddsFreshRecords(pk, t, next, records[1..]);
        KeysOfSnoc(pk, t, existing, records[0]);
        forall i, j | |existing| <= i < j < |r| ensures pk(t, r[i]) != pk(t, r[j]) {
          if i == |existing| {
            assert r[i] == r[..|next|][i] == next[i];
          }
        }
      }
    }
  }

  /** Of several records sharing a key, the first is the one stored: a record
      is kept when its key is absent from the table and no earlier record of
      the batch has it. */
  lemma {:induction false} FirstFreshRecordIsKept(pk: KeyFn, t: Table, existing: seq<Row>, records: seq<Row>, k: nat)
    requires k < |records|
    requires pk(t, records[k]) !in KeysOf(pk, t, existing)
    requires forall j :: 0 <= j < k ==> pk(t, records[j]) != pk(t, records[k])
    ensures records[k] in InsertIgnoring(pk, t, existing, records)
    decreases k
  {
    var next := InsertOne(pk, t, existing, records[0]);
    KeysOfSnoc(pk, t, existing, records[0]);
    if k == 0 {
      InsertKeepsExisting(pk, t, next, records[1..]);
      var r := InsertIgnoring(pk, t, existing, records);
      assert r[..|next|] == next && next[|existing|] == records[0];
      assert r[|existing|] == records[0];
    } else {
      assert records[1..][k - 1] == records[k];
      FirstFreshRecordIsKept(pk, t, next, records[1..], k - 1);
    }
  }

  /** Inserting records whose keys are all present changes nothing. */
  lemma {:induction false} InsertPresentKeysIsNoop(pk: KeyFn, t: Table, existing: seq<Row>, records: seq<Row>)
    requires KeysOf(pk, t, records) <= KeysOf(pk, t, existing)
    ensures InsertIgnoring(pk, t, existing, records) == existing
    decreases |records|
  {
    if records != [] {
      assert records[0] in records;
      assert KeysOf(pk, t, records[1..]) <= KeysOf(pk, t, records);
      InsertPresentKeysIsNoop(pk, t, existing, records[1..]);
    }
  }

  /** Inserting the same batch twice is the same as inserting it once. */
  lemma InsertIgnoringIdempotent(pk: KeyFn, t: Table, existing: seq<Row>, records: seq<Row>)
    ensures var once := InsertIgnoring(pk, t, existing, records);
      InsertIgnoring(pk, t, once, records) == once
  {
    InsertCoversRecordKeys(pk, t, existing, records);
    InsertPresentKeysIsNoop(pk, t, InsertIgnoring(pk, t, existing, records), records);
  }

  /** `TRUNCATE TABLE t CASCADE`: t and every table referencing it, directly
      or not, lose all their rows; no table appears or disappears. */
  function Truncated(db: Tables, t: Table): (r: Tables)
    ensures r.Keys == db.Keys
    ensures forall u :: u in db && u in Cascade(t) ==> r[u] == []
    ensures forall u :: u in db && u !in Cascade(t) ==> r[u] == db[u]
  {
    map u | u in db :: if u in Cascade(t) then [] else db[u]
  }

  /** load_csv_into_table: nothing happens for an empty CSV; otherwise the
      table (and, through CASCADE, its dependants) is emptied first when
      truncate is set, and then the records are inserted with ON CONFLICT DO
      NOTHING. No load creates or drops a table, and tables outside the
      cascade are untouched. */
  function LoadEffect(pk: KeyFn, db: Tables, t: Table, rows: seq<CsvRow>, truncate: bool): (r: Tables)
    requires t in db
    ensures r.Keys == db.Keys
    ensures rows == [] ==> r == db
    ensures forall u :: u in db && u !in Cascade(t) ==> r[u] == db[u]
  {
    if rows == [] then db
    else
      var base := if truncate then Truncated(db, t) else db;
      base[t := InsertIgnoring(pk, t, base[t], ToRecords(rows))]
  }

  /** Replace mode: the old rows are gone; the table then holds CSV records
      (NaN cells as NULL), one per key, covering every key of the CSV, and of
      several CSV records with one key it holds the first; the tables
      referencing it are emptied and no other table is touched. */
  lemma LoadWithTruncate(pk: KeyFn, db: Tables, t: Table, rows: seq<CsvRow>)
    requires t in db && rows != []
    ensures var r := LoadEffect(pk, db, t, rows, true);
      && (forall row :: row in r[t] ==> exists c :: c in rows && row == ToRecord(c))
      && KeysOf(pk, t, r[t]) == KeysOf(pk, t, ToRecords(rows))
      && UniqueKeys(pk, t, r[t])
      && (forall k :: 0 <= k < |rows| && (forall j :: 0 <= j < k ==> pk(t, ToRecord(rows[j])) != pk(t, ToRecord(rows[k]))) ==>
            ToRecord(rows[k]) in r[t])
      && (forall u :: u in db && u != t ==> r[u] == if u in Cascade(t) then [] else db[u])
  {
    var recs := ToRecords(rows);
    var r := LoadEffect(pk, db, t, rows, true);
    assert Truncated(db, t)[t] == [];
    InsertAddsFreshRecords(pk, t, [], recs);
    InsertCoversRecordKeys(pk, t, [], recs);
    InsertKeepsKeysUnique(pk, t, [], recs);
    forall k | 0 <= k < |rows| && (forall j :: 0 <= j < k ==> pk(t, ToRecord(rows[j])) != pk(t, ToRecord(rows[k])))
      ensures ToRecord(rows[k]) in r[t]
    {
      FirstFreshRecordIsKept(pk, t, [], recs, k);
    }
    forall row | row in r[t] ensures exists c :: c in rows && row == ToRecord(c) {
      var i :| 0 <= i < |r[t]| && r[t][i] == row;
      var k :| 0 <= k < |recs| && recs[k] == row;
      assert rows[k] in rows;
    }
  }

  /** Append mode: existing rows are never removed; each added row is a CSV
      record (NaN cells as NULL) whose key was not present, and of several
      such records with one key the first is added, so the added rows have
      pairwise different keys; afterwards every key of the CSV is present; a
      table with unique keys keeps them unique; no other table is touched. */
  lemma LoadWithoutTruncate(pk: KeyFn, db: Tables, t: Table, rows: seq<CsvRow>)
    requires t in db
    ensures var r := LoadEffect(pk, db, t, rows, false);
      && |db[t]| <= |r[t]| && r[t][..|db[t]|] == db[t]
      && (forall i :: |db[t]| <= i < |r[t]| ==>
            pk(t, r[t][i]) !in KeysOf(pk, t, db[t]) && exists c :: c in rows && r[t][i] == ToRecord(c))
      && KeysOf(pk, t, r[t]) == KeysOf(pk, t, db[t]) + KeysOf(pk, t, ToRecords(rows))
      && (forall k ::
            (&& 0 <= k < |rows| && pk(t, ToRecord(rows[k])) !in KeysOf(pk, t, db[t])
             && (forall j :: 0 <= j < k ==> pk(t, ToRecord(rows[j])) != pk(t, ToRecord(rows[k])))) ==>
            ToRecord(rows[k]) in r[t])
      && (forall i, j :: |db[t]| <= i < j < |r[t]| ==> pk(t, r[t][i]) != pk(t, r[t][j]))
      && (UniqueKeys(pk, t, db[t]) ==> UniqueKeys(pk, t, r[t]))
      && (forall u :: u in db && u != t ==> r[u] == db[u])
  {
    var recs := ToRecords(rows);
    var r := LoadEffect(pk, db, t, rows, false);
    if rows != [] {
      assert r[t] == InsertIgnoring(pk, t, db[t], recs);
      assert |db[t]| <= |r[t]| && r[t][..|db[t]|] == db[t] by {
        InsertKeepsExisting(pk, t, db[t], recs);
      }
      assert KeysOf(pk, t, r[t]) == KeysOf(pk, t, db[t]) + KeysOf(pk, t, recs) by {
        InsertCoversRecordKeys(pk, t, db[t], recs);
      }
      forall i, j | |db[t]| <= i < j < |r[t]| ensures pk(t, r[t][i]) != pk(t, r[t][j]) {
        InsertAddsDistinctKeys(pk, t, db[t], recs);
        assert |db[t]| <= i < j < |InsertIgnoring(pk, t, db[t], recs)|;
        assert pk(t, InsertIgnoring(pk, t, db[t], recs)[i]) != pk(t, InsertIgnoring(pk, t, db[t], recs)[j]);
      }
      assert UniqueKeys(pk, t, db[t]) ==> UniqueKeys(pk, t, r[t]) by {
        if UniqueKeys(pk, t, db[t]) {
          InsertKeepsKeysUnique(pk, t, db[t], recs);
        }
      }
      var ins := InsertIgnoring(pk, t, db[t], recs);
      InsertAddsFreshRecords(pk, t, db[t], recs);
      forall i | |db[t]| <= i < |ins|
        ensures pk(t, ins[i]) !in KeysOf(pk, t, db[t]) && exists c :: c in rows && ins[i] == ToRecord(c)
      {
        assert |db[t]| <= i < |InsertIgnoring(pk, t, db[t], recs)|;
        assert InsertIgnoring(pk, t, db[t], recs)[i] in recs;
        var k :| 0 <= k < |recs| && recs[k] == ins[i];
        assert rows[k] in rows;
      }
      forall k | 0 <= k < |rows| && pk(t, ToRecord(rows[k])) !in KeysOf(pk, t, db[t])
          && (forall j :: 0 <= j < k ==> pk(t, ToRecord(rows[j])) != pk(t, ToRecord(rows[k])))
        ensures ToRecord(rows[k]) in r[t]
      {
        FirstFreshRecordIsKept(pk, t, db[t], recs, k);
      }
    }
  }

  /** The load order at work: loading t never changes a table that comes
      before t in LOAD_ORDER, even through a cascading truncate. */
  lemma LoadSparesEarlierTables(pk: KeyFn, db: Tables, t: Table, rows: seq<CsvRow>, truncate: bool, u: Table)
    requires t in db && u in db
    requires Position(u) < Position(t)
    ensures LoadEffect(pk, db, t, rows, truncate)[u] == db[u]
  {
    if u in Cascade(t) {
      CascadeFollowsLoadOrder(t, u);
    }
  }

  /** The smart-skip comparison of check_data_match. */
  datatype MatchReport = MatchReport(matches: bool, csvRows: nat, dbRows: nat)

  /** check_data_match: a match exactly when the CSV's row count equals the
      table's; when either count cannot be taken (unreadable CSV, missing
      table) the answer is (False, 0, 0). */
  function CheckDataMatch(csv: CsvFile, db: Tables, t: Table): (r: MatchReport)
    ensures r.matches <==> csv.Parsed? && t in db && |csv.rows| == |db[t]|
    ensures csv.Parsed? && t in db ==> r.csvRows == |csv.rows| && r.dbRows == |db[t]|
    ensures !(csv.Parsed? && t in db) ==> r == MatchReport(false, 0, 0)
  {
    match csv
    case Unreadable => MatchReport(false, 0, 0)
    case Parsed(rows) =>
      if t !in db then MatchReport(false, 0, 0)
      else MatchReport(|rows| == |db[t]|, |rows|, |db[t]|)
  }
}
