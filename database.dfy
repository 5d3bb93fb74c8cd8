/** The loader's side effects on PostgreSQL. `Database` holds the rows of
    each existing table and counts the connections the loader has open; its
    methods run the SQL statements of load_csv_into_table and the loop of
    load_all_raw_tables step by step, and each is proved to leave the
    database as the corresponding function of TableOps or LoadPlan says. */
module RdsLoader {
  import opened Catalog
  import opened TableOps
  import opened LoadPlan

  class Database {
    /** Existing tables and their rows, in insertion order. */
    var tables: Tables
    /** Connections opened by get_rds_connection and not yet closed. */
    var openConnections: nat
    /** The primary key of each table, as the schema declares it. */
    const pk: KeyFn

    constructor (pk: KeyFn, tables: Tables)
      ensures this.pk == pk && this.tables == tables && openConnections == 0
    {
      this.pk := pk;
      this.tables := tables;
      openConnections := 0;
    }

    /** get_rds_connection. */
    method Connect()
      modifies this
      ensures tables == old(tables) && openConnections == old(openConnections) + 1
    {
      openConnections := openConnections + 1;
    }

    /** conn.close(). */
    method Close()
      requires openConnections > 0
      modifies this
      ensures tables == old(tables) && openConnections == old(openConnections) - 1
    {
      openConnections := openConnections - 1;
    }

    /** `TRUNCATE TABLE t CASCADE`. */
    method TruncateCascade(t: Table)
      requires t in tables
      modifies this
      ensures tables == Truncated(old(tables), t)
      ensures openConnections == old(openConnections)
    {
      tables := Truncated(tables, t);
    }

    /** execute_values of `INSERT INTO t ... VALUES %s ON CONFLICT DO
        NOTHING`, one record after the other: a record whose key is already
        in the table is skipped, any other record is appended. */
    method InsertOnConflictDoNothing(t: Table, records: seq<Row>)
      requires t in tables
      modifies this
      ensures tables == old(tables)[t := InsertIgnoring(pk, t, old(tables)[t], records)]
      ensures openConnections == old(openConnections)
    {
      var i := 0;
      while i < |records|
        invariant 0 <= i <= |records|
        invariant t in tables && tables == old(tables)[t := tables[t]]
        invariant InsertIgnoring(pk, t, tables[t], records[i..]) == InsertIgnoring(pk, t, old(tables)[t], records)
        invariant openConnections == old(openConnections)
      {
        var rec := records[i];
        assert records[i..][1..] == records[i + 1..];
        if pk(t, rec) !in KeysOf(pk, t, tables[t]) {
          tables := tables[t := tables[t] + [rec]];
        }
        i := i + 1;
      }
      assert records[i..] == [];
    }

    /** load_csv_into_table on a downloaded object. `read_csv` raising on an
        unreadable object is reported as `raised` with nothing changed; an
        empty CSV is skipped; otherwise NaN cells become NULL, the table is
        truncated with CASCADE when `truncate` is set, and the records are
        inserted. */
    method LoadCsvIntoTable(csv: CsvFile, t: Table, truncate: bool) returns (raised: bool)
      requires t in tables
      modifies this
      ensures raised <==> csv.Unreadable?
      ensures raised ==> tables == old(tables)
      ensures !raised ==> tables == LoadEffect(pk, old(tables), t, csv.rows, truncate)
      ensures openConnections == old(openConnections)
    {
      if csv.Unreadable? {
        return true;
      }
      var rows := csv.rows;
      if rows == [] {
        return false;
      }
      var records := ToRecords(rows);
      if truncate {
        TruncateCascade(t);
      }
      InsertOnConflictDoNothing(t, records);
      return false;
    }

    /** One iteration of the loop in load_all_raw_tables: the table_exists
        query, the download, check_data_match and, unless the counts match
        (`continue`), load_csv_into_table. `aborted` reports the paths that
        end the run with False. */
    method ProcessFile(cx: LoadContext, key: string, t: Table) returns (aborted: bool)
      requires cx.pk == pk
      modifies this
      ensures var a := Decide(old(tables), cx.objects, key, t);
        && aborted == a.Abort?
        && (aborted ==> tables == old(tables))
        && (!aborted ==> tables == After(cx, old(tables), t, a))
      ensures openConnections == old(openConnections)
    {
      if t !in tables {
        return true;
      }
      if key !in cx.objects {
        // download_key_to_temp raises; the except branch returns False
        return true;
      }
      var csv := cx.objects[key];
      var report := CheckDataMatch(csv, tables, t);
      if report.matches {
        return false;
      }
      var raised := LoadCsvIntoTable(csv, t, cx.truncate);
      return raised;
    }

    /** The `for` loop of load_all_raw_tables over the planned files, on an
        open connection. */
    method ProcessFiles(cx: LoadContext, files: seq<string>) returns (ok: bool)
      requires cx.pk == pk && Fits(cx, files)
      modifies this
      ensures RunResult(ok, tables) == RunFiles(cx, files, old(tables))
      ensures openConnections == old(openConnections)
    {
      var i := 0;
      assert files[i..] == files;
      while i < |files|
        invariant 0 <= i <= |files|
        invariant Fits(cx, files[i..])
        invariant RunFiles(cx, files[i..], tables) == RunFiles(cx, files, old(tables))
        invariant openConnections == old(openConnections)
      {
        var filename := files[i];
        assert files[i..][0] == filename && files[i..][1..] == files[i + 1..];
        var aborted := ProcessFile(cx, cx.keyMap[filename], CsvTableMap[filename]);
        if aborted {
          return false;
        }
        i := i + 1;
      }
      assert files[i..] == [];
      return true;
    }

    /** load_all_raw_tables. With no ".csv" key it returns False before
        connecting. Otherwise it connects, walks the planned files in
        LOAD_ORDER, and returns False at the first missing table, or at a
        failed download or unreadable CSV inside the loop (the `except`
        branch), True after the last file; the `finally` clause closes the
        connection on every one of these paths. The listing and the
        connection are assumed to succeed: their errors come before the
        `try` and are not modelled. */
    method LoadAllRawTables(store: ObjectStore, truncate: bool) returns (ok: bool)
      modifies this
      ensures RunResult(ok, tables) == LoadAll(pk, store, truncate, old(tables))
      ensures openConnections == old(openConnections)
    {
      var keys := ListRawCsvKeys(store.pages);
      if keys == [] {
        return false;
      }
      var keyMap := KeyMap(keys);
      var files := FilesToProcess(keyMap);
      var cx := LoadContext(pk, truncate, store.objects, keyMap);
      assert LoadAll(pk, store, truncate, tables) == RunFiles(cx, files, tables);
      Connect();
      ok := ProcessFiles(cx, files);
      Close();
    }
  }
}
