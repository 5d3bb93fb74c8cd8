/** load_all_raw_tables as a specification: which object keys are listed,
    which files are planned and in what order, what is decided for each
    file, and what the whole run returns and leaves in the database. The
    class in RdsLoader runs the same steps in place and is proved against
    these functions. */
module LoadPlan {
  import opened Names
  import opened Catalog
  import opened TableOps

  /** The object store as the loader sees it: the pages that the
      `list_objects_v2` paginator yields under the raw prefix (a page without
      "Contents" is an empty page), and what pandas reads from each key that
      can be downloaded. A listed key missing from `objects` fails to
      download. */
  datatype ObjectStore = ObjectStore(pages: seq<seq<string>>, objects: map<string, CsvFile>)

  /** The keys of all pages, page after page. */
  function Flatten(pages: seq<seq<string>>): seq<string> {
    if pages == [] then [] else Flatten(pages[..|pages| - 1]) + pages[|pages| - 1]
  }

  function CsvKeys(pages: seq<seq<string>>): seq<string> {
    CsvOnly(Flatten(pages))
  }

  /** list_raw_csv_keys: the nested loop over pages and their objects. */
  method ListRawCsvKeys(pages: seq<seq<string>>) returns (keys: seq<string>)
    ensures keys == CsvKeys(pages)
  {
    keys := [];
    var p := 0;
    while p < |pages|
      invariant 0 <= p <= |pages|
      invariant keys == CsvOnly(Flatten(pages[..p]))
    {
      var page := pages[p];
      var i := 0;
      assert Flatten(pages[..p]) + page[..0] == Flatten(pages[..p]);
      while i < |page|
        invariant 0 <= i <= |page|
        invariant keys == CsvOnly(Flatten(pages[..p]) + page[..i])
      {
        var key := page[i];
        CsvOnlyAppend(Flatten(pages[..p]) + page[..i], [key]);
        assert Flatten(pages[..p]) + page[..i + 1] == Flatten(pages[..p]) + page[..i] + [key];
        if IsCsv(key) {
          keys := keys + [key];
        }
        i := i + 1;
      }
      assert page[..i] == page;
      assert pages[..p + 1][..p] == pages[..p];
      p := p + 1;
    }
    assert pages[..p] == pages;
  }

  /** The listing keeps exactly the ".csv" keys, and keeps them in listing
      order across pages: a further page only appends its own ".csv" keys. */
  lemma {:induction false} CsvKeysSpec(pages: seq<seq<string>>, page: seq<string>)
    ensures forall k :: k in CsvKeys(pages) <==> IsCsv(k) && exists p :: 0 <= p < |pages| && k in pages[p]
    ensures CsvKeys(pages + [page]) == CsvKeys(pages) + CsvOnly(page)
  {
    FlattenHolds(pages);
    assert (pages + [page])[..|pages|] == pages;
    CsvOnlyAppend(Flatten(pages), page);
  }

  lemma {:induction false} FlattenHolds(pages: seq<seq<string>>)
    ensures forall k :: k in Flatten(pages) <==> exists p :: 0 <= p < |pages| && k in pages[p]
  {
    if pages != [] {
      var init := pages[..|pages| - 1];
      FlattenHolds(init);
      forall k | k in Flatten(pages) ensures exists p :: 0 <= p < |pages| && k in pages[p] {
        if k !in pages[|pages| - 1] {
          assert k in Flatten(init);
          var p :| 0 <= p < |init| && k in init[p];
          assert k in pages[p];
        }
      }
      forall k, p | 0 <= p < |pages| && k in pages[p] ensures k in Flatten(pages) {
        if p < |init| {
          assert init[p] == pages[p];
          assert k in Flatten(init);
        }
      }
    }
  }

  /** `{os.path.basename(k): k for k in keys}`: every key's basename is
      present and maps to a key with that basename. */
  function KeyMap(keys: seq<string>): (m: map<string, string>)
    ensures forall k :: k in keys ==> Basename(k) in m
    ensures forall b :: b in m ==> m[b] in keys && Basename(m[b]) == b
  {
    if keys == [] then map[]
    else
      var last := keys[|keys| - 1];
      var init := keys[..|keys| - 1];
      assert forall k :: k in keys ==> k in init || k == last;
      KeyMap(init)[Basename(last) := last]
  }

  /** Later keys overwrite earlier ones with the same basename, as in a
      Python dict comprehension: a key wins when no later key shares its
      basename. */
  lemma {:induction false} KeyMapLastWins(keys: seq<string>, i: nat)
    requires i < |keys|
    requires forall j :: i < j < |keys| ==> Basename(keys[j]) != Basename(keys[i])
    ensures KeyMap(keys)[Basename(keys[i])] == keys[i]
  {
    if i < |keys| - 1 {
      var init := keys[..|keys| - 1];
      KeyMapLastWins(init, i);
    }
  }

  /** Files whose tables are planned strictly in LOAD_ORDER. */
  ghost predicate Planned(files: seq<string>) {
    && (forall f :: f in files ==> f in CsvTableMap)
    && (forall i, j :: 0 <= i < j < |files| ==>
          Position(CsvTableMap[files[i]]) < Position(CsvTableMap[files[j]]))
  }

  /** LOAD_ORDER itself is planned in LOAD_ORDER. */
  lemma LoadOrderIsPlanned()
    ensures Planned(LoadOrder)
  {
    LoadOrderMatchesTableMap();
  }

  /** `[f for f in order if f in key_map]` for a planned `order`: the kept
      files are still planned, and a file is kept iff it has a key. */
  function KeepListed(order: seq<string>, keyMap: map<string, string>): (r: seq<string>)
    requires Planned(order)
    ensures Planned(r)
    ensures forall f :: f in r <==> f in order && f in keyMap
  {
    if order == [] then []
    else
      var rest := KeepListed(order[1..], keyMap);
      if order[0] !in keyMap then rest
      else
        forall j | 0 <= j < |rest|
          ensures Position(CsvTableMap[order[0]]) < Position(CsvTableMap[rest[j]])
        {
          assert rest[j] in rest;
          assert rest[j] in order[1..];
          var k :| 0 <= k < |order[1..]| && order[1..][k] == rest[j];
          assert order[k + 1] == rest[j];
        }
        [order[0]] + rest
  }

  /** files_to_process: the planned files, as a subsequence of LOAD_ORDER.
      Planned implies that no file occurs twice. */
  function FilesToProcess(keyMap: map<string, string>): (r: seq<string>)
    ensures Planned(r)
    ensures forall f :: f in r <==> f in LoadOrder && f in keyMap
  {
    LoadOrderIsPlanned();
    KeepListed(LoadOrder, keyMap)
  }

  /** The fixed inputs of one run. */
  datatype LoadContext = LoadContext(
    pk: KeyFn,
    truncate: bool,
    objects: map<string, CsvFile>,
    keyMap: map<string, string>)

  /** Every planned file has a key and a target table. */
  ghost predicate Fits(cx: LoadContext, files: seq<string>) {
    forall f :: f in files ==> f in cx.keyMap && f in CsvTableMap
  }

  /** What the loop does with one file. */
  datatype Action = Abort | Skip | Load(rows: seq<CsvRow>)

  /** One iteration of the loop: a missing table, a download error or an
      unreadable CSV ends the run; matching row counts skip the file;
      otherwise its rows are loaded. Whether the run ends does not depend on
      the rows in the tables. */
  function Decide(db: Tables, objects: map<string, CsvFile>, key: string, t: Table): (a: Action)
    ensures a.Abort? <==> t !in db || key !in objects || objects[key].Unreadable?
    ensures a.Skip? <==> t in db && key in objects && objects[key].Parsed? && |objects[key].rows| == |db[t]|
    ensures a.Load? ==> t in db && key in objects && objects[key] == Parsed(a.rows) && |a.rows| != |db[t]|
  {
    if t !in db then Abort
    else if key !in objects then Abort
    else if CheckDataMatch(objects[key], db, t).matches then Skip
    else match objects[key]
      case Unreadable => Abort
      case Parsed(rows) => Load(rows)
  }

  /** The database after a non-aborting action on table t. */
  function After(cx: LoadContext, db: Tables, t: Table, a: Action): (r: Tables)
    requires t in db
    ensures r.Keys == db.Keys
  {
    if a.Load? then
      LoadEffect(cx.pk, db, t, a.rows, cx.truncate)
    else db
  }

  /** The action empties the tables referencing t. */
  predicate Truncates(cx: LoadContext, a: Action) {
    a.Load? && cx.truncate && a.rows != []
  }

  datatype RunResult = RunResult(ok: bool, tables: Tables)

  /** The `for` loop over files_to_process, with its `continue` and its early
      `return False`. */
  function RunFiles(cx: LoadContext, files: seq<string>, db: Tables): (r: RunResult)
    requires Fits(cx, files)
    ensures r.tables.Keys == db.Keys
    decreases |files|
  {
    if files == [] then RunResult(true, db)
    else
      var t := CsvTableMap[files[0]];
      var a := Decide(db, cx.objects, cx.keyMap[files[0]], t);
      if a.Abort? then RunResult(false, db)
      else RunFiles(cx, files[1..], After(cx, db, t, a))
  }

  /** load_all_raw_tables: False without any ".csv" key; otherwise the loop
      over the planned files. */
  function LoadAll(pk: KeyFn, store: ObjectStore, truncate: bool, db: Tables): (r: RunResult)
    ensures r.tables.Keys == db.Keys
  {
    var keys := CsvKeys(store.pages);
    if keys == [] then RunResult(false, db)
    else
      var keyMap := KeyMap(keys);
      RunFiles(LoadContext(pk, truncate, store.objects, keyMap), FilesToProcess(keyMap), db)
  }

  /** A planned file can be processed: its table exists and its object
      downloads and parses. */
  predicate Processable(cx: LoadContext, db: Tables, f: string)
    requires f in cx.keyMap && f in CsvTableMap
  {
    CsvTableMap[f] in db && cx.keyMap[f] in cx.objects && cx.objects[cx.keyMap[f]].Parsed?
  }

  /** The run returns True exactly when every planned file can be
      processed: True only after the last file, False at the first missing
      table, failed download or unreadable CSV. */
  lemma {:induction false} RunOkIffAllProcessable(cx: LoadContext, files: seq<string>, db: Tables)
    requires Fits(cx, files)
    ensures RunFiles(cx, files, db).ok <==> forall f :: f in files ==> Processable(cx, db, f)
    decreases |files|
  {
    if files != [] {
      var t := CsvTableMap[files[0]];
      var a := Decide(db, cx.objects, cx.keyMap[files[0]], t);
      if !a.Abort? {
        var db' := After(cx, db, t, a);
        RunOkIffAllProcessable(cx, files[1..], db');
        assert forall f :: f in files ==> f == files[0] || f in files[1..];
        assert forall f :: f in files[1..] ==> (Processable(cx, db', f) <==> Processable(cx, db, f));
      } else {
        assert files[0] in files;
      }
    }
  }

  /** load_all_raw_tables returns False without touching anything when the
      listing has no ".csv" key, and otherwise True exactly when every
      planned file can be processed. */
  lemma LoadAllOutcome(pk: KeyFn, store: ObjectStore, truncate: bool, db: Tables)
    ensures CsvKeys(store.pages) == [] ==> LoadAll(pk, store, truncate, db) == RunResult(false, db)
    ensures var keyMap := KeyMap(CsvKeys(store.pages));
      LoadAll(pk, store, truncate, db).ok <==>
        && CsvKeys(store.pages) != []
        && forall f :: f in FilesToProcess(keyMap) ==>
             Processable(LoadContext(pk, truncate, store.objects, keyMap), db, f)
  {
    var keys := CsvKeys(store.pages);
    if keys != [] {
      var keyMap := KeyMap(keys);
      RunOkIffAllProcessable(LoadContext(pk, truncate, store.objects, keyMap), FilesToProcess(keyMap), db);
    }
  }

  /** When file i is the first that cannot be processed, the run returns
      False with the database exactly as the first i files left it: no later
      file is touched, and the earlier loads stay applied. */
  lemma {:induction false} RunStopsAtFirstFailure(cx: LoadContext, files: seq<string>, db: Tables, i: nat)
    requires Fits(cx, files)
    requires i < |files|
    requires forall j :: 0 <= j < i ==> Processable(cx, db, files[j])
    requires !Processable(cx, db, files[i])
    ensures RunFiles(cx, files, db) == RunResult(false, RunFiles(cx, files[..i], db).tables)
    decreases i
  {
    var t := CsvTableMap[files[0]];
    var a := Decide(db, cx.objects, cx.keyMap[files[0]], t);
    if i > 0 {
      var db' := After(cx, db, t, a);
      assert files[1..][..i - 1] == files[..i][1..];
      RunStopsAtFirstFailure(cx, files[1..], db', i - 1);
    }
  }

  /** A run only changes tables at or after the first planned position:
      every table before all planned files keeps its rows. */
  lemma {:induction false} RunSparesEarlierTables(cx: LoadContext, files: seq<string>, db: Tables, u: Table)
    requires Fits(cx, files)
    requires u in db
    requires forall f :: f in files ==> Position(u) < Position(CsvTableMap[f])
    ensures u in RunFiles(cx, files, db).tables && RunFiles(cx, files, db).tables[u] == db[u]
    decreases |files|
  {
    if files != [] {
      var t := CsvTableMap[files[0]];
      var a := Decide(db, cx.objects, cx.keyMap[files[0]], t);
      if !a.Abort? {
        if a.Load? {
          LoadSparesEarlierTables(cx.pk, db, t, a.rows, cx.truncate, u);
        }
        RunSparesEarlierTables(cx, files[1..], After(cx, db, t, a), u);
      }
    }
  }

  /** Because the cascade of a truncate only reaches tables later in
      LOAD_ORDER, what the loop does to a table is final: no later iteration
      undoes the first file's load. */
  lemma LoadsAreNotUndone(cx: LoadContext, files: seq<string>, db: Tables)
    requires Fits(cx, files) && Planned(files) && files != []
    requires Processable(cx, db, files[0])
    ensures var t := CsvTableMap[files[0]];
      var a := Decide(db, cx.objects, cx.keyMap[files[0]], t);
      RunFiles(cx, files, db).tables[t] == After(cx, db, t, a)[t]
  {
    var t := CsvTableMap[files[0]];
    var a := Decide(db, cx.objects, cx.keyMap[files[0]], t);
    forall f | f in files[1..] ensures Position(t) < Position(CsvTableMap[f]) {
      var j :| 0 <= j < |files[1..]| && files[1..][j] == f;
      assert files[j + 1] == f;
    }
    RunSparesEarlierTables(cx, files[1..], After(cx, db, t, a), t);
  }

  /** The tables a run empties through the CASCADE of a truncate, other than
      the truncated table itself. */
  ghost function Emptied(cx: LoadContext, files: seq<string>, db: Tables): set<Table>
    requires Fits(cx, files)
    decreases |files|
  {
    if files == [] then {}
    else
      var t := CsvTableMap[files[0]];
      var a := Decide(db, cx.objects, cx.keyMap[files[0]], t);
      if a.Abort? then {}
      else
        (if Truncates(cx, a) then Cascade(t) - {t} else {}) + Emptied(cx, files[1..], After(cx, db, t, a))
  }

  /** Cascades only reach forward: everything a run empties lies after a
      position that precedes all planned files. */
  lemma {:induction false} EmptiedLiesAhead(cx: LoadContext, files: seq<string>, db: Tables, p: nat)
    requires Fits(cx, files)
    requires forall f :: f in files ==> p < Position(CsvTableMap[f])
    ensures forall u :: u in Emptied(cx, files, db) ==> p < Position(u)
    decreases |files|
  {
    if files != [] {
      var t := CsvTableMap[files[0]];
      var a := Decide(db, cx.objects, cx.keyMap[files[0]], t);
      if !a.Abort? {
        forall u | u in Cascade(t) - {t} ensures p < Position(u) {
          CascadeFollowsLoadOrder(t, u);
        }
        EmptiedLiesAhead(cx, files[1..], After(cx, db, t, a), p);
      }
    }
  }

  /** Processing a file a second time, on the table its first processing
      produced, leaves that table as it is; and it truncates only if the
      first processing did. */
  lemma SecondVisitKeepsTable(cx: LoadContext, x: Tables, z: Tables, t: Table, key: string)
    requires t in x && z.Keys == x.Keys
    requires !Decide(x, cx.objects, key, t).Abort?
    requires z[t] == After(cx, x, t, Decide(x, cx.objects, key, t))[t]
    ensures var ax := Decide(x, cx.objects, key, t);
      var az := Decide(z, cx.objects, key, t);
      && !az.Abort?
      && After(cx, z, t, az)[t] == z[t]
      && (Truncates(cx, az) ==> Truncates(cx, ax))
  {
    var ax := Decide(x, cx.objects, key, t);
    var az := Decide(z, cx.objects, key, t);
    if az.Load? && az.rows != [] {
      var recs := ToRecords(az.rows);
      assert ax.Load?;
      if !cx.truncate {
        InsertIgnoringIdempotent(cx.pk, t, x[t], recs);
      }
    }
  }

  /** The heart of idempotence. Run the planned files from x, giving S; a
      state z that agrees with S except on tables that are empty in z and
      that were empty in x or emptied by a cascade during the run gives, when
      the same files are run again from it, exactly the same result. */
  lemma {:induction false} RerunAgrees(cx: LoadContext, files: seq<string>, x: Tables, z: Tables)
    requires Fits(cx, files) && Planned(files)
    requires z.Keys == x.Keys
    requires forall u :: u in x ==>
      || z[u] == RunFiles(cx, files, x).tables[u]
      || (z[u] == [] && (x[u] == [] || u in Emptied(cx, files, x)))
    ensures RunFiles(cx, files, z) == RunFiles(cx, files, x)
    decreases |files|
  {
    if files == [] {
      assert z == x;
    } else {
      var t := CsvTableMap[files[0]];
      var key := cx.keyMap[files[0]];
      var ax := Decide(x, cx.objects, key, t);
      var az := Decide(z, cx.objects, key, t);
      if ax.Abort? {
        assert z == x;
      } else {
        var rest := files[1..];
        var x' := After(cx, x, t, ax);
        var S := RunFiles(cx, files, x).tables;
        forall f | f in rest ensures Position(t) < Position(CsvTableMap[f]) {
          var j :| 0 <= j < |rest| && rest[j] == f;
          assert files[j + 1] == f;
        }
        RunSparesEarlierTables(cx, rest, x', t);
        EmptiedLiesAhead(cx, rest, x', Position(t));
        // z[t] is either the first run's final value of t or x[t] itself
        assert z[t] == x'[t] || z[t] == x[t];
        var z' := After(cx, z, t, az);
        if z[t] == x[t] {
          assert az == ax;
        } else {
          SecondVisitKeepsTable(cx, x, z, t, key);
        }
        assert z'[t] == x'[t];
        assert Truncates(cx, az) ==> Truncates(cx, ax);
        forall u | u in x' && u != t
          ensures || z'[u] == RunFiles(cx, rest, x').tables[u]
                  || (z'[u] == [] && (x'[u] == [] || u in Emptied(cx, rest, x')))
        {
          if ax.Load? {
            if cx.truncate {
              LoadWithTruncateFrame(cx.pk, x, t, ax.rows, u);
            } else {
              LoadWithoutTruncate(cx.pk, x, t, ax.rows);
            }
          }
          if az.Load? {
            if cx.truncate {
              LoadWithTruncateFrame(cx.pk, z, t, az.rows, u);
            } else {
              LoadWithoutTruncate(cx.pk, z, t, az.rows);
            }
          }
        }
        RerunAgrees(cx, rest, x', z');
      }
    }
  }

  /** The frame part of a replace-mode load, for any CSV. */
  lemma LoadWithTruncateFrame(pk: KeyFn, db: Tables, t: Table, rows: seq<CsvRow>, u: Table)
    requires t in db && u in db && u != t
    ensures LoadEffect(pk, db, t, rows, true)[u] == if rows != [] && u in Cascade(t) then [] else db[u]
  {
  }

  /** A repeat run with the same objects and the same mode leaves every table
      as the first run left it, and returns the same result. A table emptied
      by a cascade in the second run is reloaded later in that run to what
      the first run had put there. */
  lemma RepeatLoadIsIdempotent(pk: KeyFn, store: ObjectStore, truncate: bool, db: Tables)
    ensures var first := LoadAll(pk, store, truncate, db);
      LoadAll(pk, store, truncate, first.tables) == first
  {
    var keys := CsvKeys(store.pages);
    if keys != [] {
      var keyMap := KeyMap(keys);
      var cx := LoadContext(pk, truncate, store.objects, keyMap);
      var files := FilesToProcess(keyMap);
      var first := RunFiles(cx, files, db);
      RerunAgrees(cx, files, db, first.tables);
    }
  }
}
