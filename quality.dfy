/** The data-quality suite run against the loaded warehouse. Every check
    turns the number a SQL query returns into a verdict that bumps one of
    three counters; the summary derives a success rate and the process exit
    status from the counters. The SQL is not evaluated here: a `Warehouse`
    is the answer each query gives. */
module DataQuality {
  import opened Catalog

  /** What one check adds: one to `passed`, to `failed` or to `warnings`. */
  datatype Verdict = Pass | Fail | Warn

  datatype Tally = Tally(passed: nat, failed: nat, warnings: nat) {
    function Total(): nat {
      passed + failed + warnings
    }
  }

  /** Counting one verdict: exactly one counter goes up, by exactly one. */
  function Record(t: Tally, v: Verdict): (r: Tally)
    ensures r.Total() == t.Total() + 1
    ensures r.passed >= t.passed && r.failed >= t.failed && r.warnings >= t.warnings
    ensures r.passed > t.passed <==> v == Pass
    ensures r.failed > t.failed <==> v == Fail
    ensures r.warnings > t.warnings <==> v == Warn
  {
    match v
    case Pass => t.(passed := t.passed + 1)
    case Fail => t.(failed := t.failed + 1)
    case Warn => t.(warnings := t.warnings + 1)
  }

  /** The counters after the verdicts, in order, starting from `start`. A
      counter moves exactly when a verdict of its kind occurs. */
  function TallyFrom(start: Tally, vs: seq<Verdict>): (t: Tally)
    ensures t.Total() == start.Total() + |vs|
    ensures t.passed >= start.passed && t.failed >= start.failed && t.warnings >= start.warnings
    ensures t.passed > start.passed <==> Pass in vs
    ensures t.failed > start.failed <==> Fail in vs
    ensures t.warnings > start.warnings <==> Warn in vs
  {
    if vs == [] then start
    else
      var init := vs[..|vs| - 1];
      assert vs == init + [vs[|vs| - 1]];
      Record(TallyFrom(start, init), vs[|vs| - 1])
  }

  /** Counting two runs of verdicts one after the other. */
  lemma {:induction false} TallyFromAppend(start: Tally, a: seq<Verdict>, b: seq<Verdict>)
    ensures TallyFrom(start, a + b) == TallyFrom(TallyFrom(start, a), b)
    decreases |b|
  {
    if b == [] {
      assert a + b == a;
    } else {
      var init := b[..|b| - 1];
      assert (a + b)[..|a + b| - 1] == a + init;
      TallyFromAppend(start, a, init);
    }
  }

  /** test_row_counts: a table passes exactly when it has rows. */
  function RowCountVerdict(count: int): (v: Verdict)
    ensures v != Warn
    ensures v == Pass <==> count > 0
  {
    if count > 0 then Pass else Fail
  }

  /** The NULL, orphan, negative-price, duplicate and date checks: pass
      exactly when the offending rows number zero. */
  function ZeroCountVerdict(count: int): (v: Verdict)
    ensures v != Warn
    ensures v == Pass <==> count == 0
  {
    if count == 0 then Pass else Fail
  }

  /** The review-score check only ever warns. */
  function ReviewScoreVerdict(outOfRange: int): (v: Verdict)
    ensures v != Fail
    ensures v == Pass <==> outOfRange == 0
  {
    if outOfRange == 0 then Pass else Warn
  }

  /** The key columns the suite inspects. */
  datatype Column = CustomerId | OrderId | ProductId | SellerId

  /** The tables whose row counts are checked: all nine raw tables. */
  const RowCountTables: seq<Table> := [
    CustomersRaw, SellersRaw, ProductsRaw,
    OrdersRaw, OrderItemsRaw, OrderPaymentsRaw,
    OrderReviewsRaw, GeolocationRaw,
    ProductCategoryNameTranslationRaw
  ]

  /** The (table, column) pairs that must hold no NULL. */
  const NullChecks: seq<(Table, Column)> := [
    (CustomersRaw, CustomerId),
    (OrdersRaw, OrderId),
    (OrdersRaw, CustomerId),
    (OrderItemsRaw, OrderId),
    (OrderItemsRaw, ProductId),
    (ProductsRaw, ProductId),
    (SellersRaw, SellerId)
  ]

  /** The (table, primary key) pairs that must hold no duplicate. */
  const DuplicateChecks: seq<(Table, Column)> := [
    (CustomersRaw, CustomerId),
    (SellersRaw, SellerId),
    (ProductsRaw, ProductId),
    (OrdersRaw, OrderId)
  ]

  /** The answers of the warehouse to the suite's queries: row counts per
      table, NULL counts per column, the two orphan counts, the
      out-of-range review scores, the negative prices, the surplus of rows
      over distinct keys per table, and the orders delivered before they
      were bought. */
  datatype Warehouse = Warehouse(
    rowCount: Table -> int,
    nullCount: (Table, Column) -> int,
    ordersWithoutCustomer: int,
    itemsWithoutOrder: int,
    reviewScoresOutOfRange: int,
    negativePrices: int,
    duplicateKeys: (Table, Column) -> int,
    deliveredBeforePurchase: int)

  function RowCountVerdicts(w: Warehouse): (vs: seq<Verdict>)
    ensures |vs| == |RowCountTables|
    ensures forall i :: 0 <= i < |vs| ==> vs[i] == RowCountVerdict(w.rowCount(RowCountTables[i]))
  {
    seq(|RowCountTables|, i requires 0 <= i < |RowCountTables| => RowCountVerdict(w.rowCount(RowCountTables[i])))
  }

  function NullVerdicts(w: Warehouse): (vs: seq<Verdict>)
    ensures |vs| == |NullChecks|
    ensures forall i :: 0 <= i < |vs| ==> vs[i] == ZeroCountVerdict(w.nullCount(NullChecks[i].0, NullChecks[i].1))
  {
    seq(|NullChecks|, i requires 0 <= i < |NullChecks| => ZeroCountVerdict(w.nullCount(NullChecks[i].0, NullChecks[i].1)))
  }

  /** The two orphan checks never warn, and fail when orders lack a
      customer or items lack an order. */
  function ForeignKeyVerdicts(w: Warehouse): (vs: seq<Verdict>)
    ensures |vs| == 2 && Warn !in vs
    ensures Fail in vs <==> w.ordersWithoutCustomer != 0 || w.itemsWithoutOrder != 0
  {
    [ZeroCountVerdict(w.ordersWithoutCustomer), ZeroCountVerdict(w.itemsWithoutOrder)]
  }

  /** The range checks warn only for review scores and fail only for
      negative prices. */
  function RangeVerdicts(w: Warehouse): (vs: seq<Verdict>)
    ensures |vs| == 2
    ensures Warn in vs <==> w.reviewScoresOutOfRange != 0
    ensures Fail in vs <==> w.negativePrices != 0
  {
    [ReviewScoreVerdict(w.reviewScoresOutOfRange), ZeroCountVerdict(w.negativePrices)]
  }

  function DuplicateVerdicts(w: Warehouse): (vs: seq<Verdict>)
    ensures |vs| == |DuplicateChecks|
    ensures forall i :: 0 <= i < |vs| ==> vs[i] == ZeroCountVerdict(w.duplicateKeys(DuplicateChecks[i].0, DuplicateChecks[i].1))
  {
    seq(|DuplicateChecks|, i requires 0 <= i < |DuplicateChecks| => ZeroCountVerdict(w.duplicateKeys(DuplicateChecks[i].0, DuplicateChecks[i].1)))
  }

  /** The date check never warns, and fails when some order was delivered
      before it was bought. */
  function DateVerdicts(w: Warehouse): (vs: seq<Verdict>)
    ensures |vs| == 1 && Warn !in vs
    ensures Fail in vs <==> w.deliveredBeforePurchase != 0
  {
    [ZeroCountVerdict(w.deliveredBeforePurchase)]
  }

  /** The verdicts of run_all_tests, in the order the checks run. */
  function AllVerdicts(w: Warehouse): seq<Verdict> {
    RowCountVerdicts(w) + NullVerdicts(w) + ForeignKeyVerdicts(w)
      + RangeVerdicts(w) + DuplicateVerdicts(w) + DateVerdicts(w)
  }

  /** The warehouse meets every check that can fail: all nine tables have
      rows, and there are no NULL keys, orphans, negative prices,
      duplicate keys or deliveries before purchase. Review scores do not
      matter. */
  ghost predicate Clean(w: Warehouse) {
    && (forall i :: 0 <= i < |RowCountTables| ==> w.rowCount(RowCountTables[i]) > 0)
    && (forall i :: 0 <= i < |NullChecks| ==> w.nullCount(NullChecks[i].0, NullChecks[i].1) == 0)
    && w.ordersWithoutCustomer == 0
    && w.itemsWithoutOrder == 0
    && w.negativePrices == 0
    && (forall i :: 0 <= i < |DuplicateChecks| ==> w.duplicateKeys(DuplicateChecks[i].0, DuplicateChecks[i].1) == 0)
    && w.deliveredBeforePurchase == 0
  }

  /** `passed / (passed + failed) * 100`, or 0 when no check passed or
      failed; always a percentage. */
  function SuccessRate(t: Tally): (rate: real)
    ensures 0.0 <= rate <= 100.0
    ensures t.passed + t.failed == 0 ==> rate == 0.0
    ensures t.failed == 0 && t.passed > 0 ==> rate == 100.0
    ensures t.passed == 0 ==> rate == 0.0
  {
    if t.passed + t.failed > 0 then
      var ratio := t.passed as real / (t.passed + t.failed) as real;
      assert ratio * (t.passed + t.failed) as real == t.passed as real;
      ratio * 100.0
    else 0.0
  }

  /** `sys.exit(1)` when any check failed, `sys.exit(0)` otherwise. */
  function ExitStatus(t: Tally): (status: int)
    ensures status == 0 || status == 1
    ensures status == 1 <==> t.failed > 0
  {
    if t.failed > 0 then 1 else 0
  }

  /** A full run makes 9 + 7 + 2 + 2 + 4 + 1 = 25 checks, so from fresh
      counters the summary's total is 25. */
  lemma FreshRunTotal(w: Warehouse)
    ensures |AllVerdicts(w)| == 25
    ensures TallyFrom(Tally(0, 0, 0), AllVerdicts(w)).Total() == 25
  {
  }

  /** The row-count, NULL and duplicate checks never warn, and they fail
      exactly when some table is empty, some key column holds a NULL or
      some key is duplicated. */
  lemma RowCountSegment(w: Warehouse)
    ensures Warn !in RowCountVerdicts(w)
    ensures Fail !in RowCountVerdicts(w) <==>
      forall i :: 0 <= i < |RowCountTables| ==> w.rowCount(RowCountTables[i]) > 0
  {
    var vs := RowCountVerdicts(w);
    if Fail !in vs {
      forall i | 0 <= i < |RowCountTables| ensures w.rowCount(RowCountTables[i]) > 0 {
        assert vs[i] in vs;
      }
    }
  }

  lemma NullSegment(w: Warehouse)
    ensures Warn !in NullVerdicts(w)
    ensures Fail !in NullVerdicts(w) <==>
      forall i :: 0 <= i < |NullChecks| ==> w.nullCount(NullChecks[i].0, NullChecks[i].1) == 0
  {
    var vs := NullVerdicts(w);
    if Fail !in vs {
      forall i | 0 <= i < |NullChecks| ensures w.nullCount(NullChecks[i].0, NullChecks[i].1) == 0 {
        assert vs[i] in vs;
      }
    }
  }

  lemma DuplicateSegment(w: Warehouse)
    ensures Warn !in DuplicateVerdicts(w)
    ensures Fail !in DuplicateVerdicts(w) <==>
      forall i :: 0 <= i < |DuplicateChecks| ==> w.duplicateKeys(DuplicateChecks[i].0, DuplicateChecks[i].1) == 0
  {
    var vs := DuplicateVerdicts(w);
    if Fail !in vs {
      forall i | 0 <= i < |DuplicateChecks| ensures w.duplicateKeys(DuplicateChecks[i].0, DuplicateChecks[i].1) == 0 {
        assert vs[i] in vs;
      }
    }
  }

  /** Verdicts around a middle run that hold no warning add none. */
  lemma WarningsOnlyFromMiddle(z: Tally, front: seq<Verdict>, middle: seq<Verdict>, back: seq<Verdict>)
    requires Warn !in front && Warn !in back
    ensures TallyFrom(z, front + middle + back).warnings == TallyFrom(Tally(0, 0, z.warnings), middle).warnings
  {
    TallyFromAppend(z, front + middle, back);
    TallyFromAppend(z, front, middle);
    WarningsIgnoreOtherCounters(TallyFrom(z, front), Tally(0, 0, z.warnings), middle);
  }

  /** The warnings counted depend only on the starting warnings. */
  lemma {:induction false} WarningsIgnoreOtherCounters(s: Tally, s': Tally, vs: seq<Verdict>)
    requires s.warnings == s'.warnings
    ensures TallyFrom(s, vs).warnings == TallyFrom(s', vs).warnings
    decreases |vs|
  {
    if vs != [] {
      WarningsIgnoreOtherCounters(s, s', vs[..|vs| - 1]);
    }
  }

  /** The range checks warn once when review scores are out of range. */
  lemma RangeWarnings(w: Warehouse)
    ensures TallyFrom(Tally(0, 0, 0), RangeVerdicts(w)).warnings == if w.reviewScoresOutOfRange == 0 then 0 else 1
  {
    assert RangeVerdicts(w)[..1] == [ReviewScoreVerdict(w.reviewScoresOutOfRange)];
  }

  /** Only the review-score check can warn: a fresh run ends with one
      warning when scores are out of range and none otherwise. */
  lemma OnlyReviewScoresWarn(w: Warehouse)
    ensures var t := TallyFrom(Tally(0, 0, 0), AllVerdicts(w));
      t.warnings == if w.reviewScoresOutOfRange == 0 then 0 else 1
  {
    var front := RowCountVerdicts(w) + NullVerdicts(w) + ForeignKeyVerdicts(w);
    var back := DuplicateVerdicts(w) + DateVerdicts(w);
    assert Warn !in front by {
      RowCountSegment(w);
      NullSegment(w);
    }
    assert Warn !in back by {
      DuplicateSegment(w);
    }
    assert AllVerdicts(w) == front + RangeVerdicts(w) + back;
    WarningsOnlyFromMiddle(Tally(0, 0, 0), front, RangeVerdicts(w), back);
    RangeWarnings(w);
  }

  /** The failures do not depend on the review scores at all. */
  lemma ReviewScoresNeverFail(w: Warehouse, outOfRange: int)
    ensures TallyFrom(Tally(0, 0, 0), AllVerdicts(w)).failed == 0
        <==> TallyFrom(Tally(0, 0, 0), AllVerdicts(w.(reviewScoresOutOfRange := outOfRange))).failed == 0
  {
    var z := Tally(0, 0, 0);
    var w' := w.(reviewScoresOutOfRange := outOfRange);
    ExitZeroIffNoFailureAt(z, AllVerdicts(w));
    ExitZeroIffNoFailureAt(z, AllVerdicts(w'));
    NoFailureIffClean(w);
    NoFailureIffClean(w');
  }

  /** From counters without failures (fresh ones in particular), the exit
      status is 0 exactly when no verdict is a failure. */
  lemma ExitZeroIffNoFailureAt(start: Tally, vs: seq<Verdict>)
    requires start.failed == 0
    ensures ExitStatus(TallyFrom(start, vs)) == 0 <==> Fail !in vs
  {
  }

  /** No check of a run fails exactly when the warehouse is clean. */
  lemma NoFailureIffClean(w: Warehouse)
    ensures Fail !in AllVerdicts(w) <==> Clean(w)
  {
    assert Fail !in AllVerdicts(w) <==>
      && Fail !in RowCountVerdicts(w)
      && Fail !in NullVerdicts(w)
      && Fail !in ForeignKeyVerdicts(w)
      && Fail !in RangeVerdicts(w)
      && Fail !in DuplicateVerdicts(w)
      && Fail !in DateVerdicts(w);
    RowCountSegment(w);
    NullSegment(w);
    DuplicateSegment(w);
  }

  /** A run from counters without failures, fresh ones in particular, exits
      with status 0 exactly when the warehouse is clean. */
  lemma ExitZeroIffClean(start: Tally, w: Warehouse)
    requires start.failed == 0
    ensures ExitStatus(TallyFrom(start, AllVerdicts(w))) == 0 <==> Clean(w)
  {
    ExitZeroIffNoFailureAt(start, AllVerdicts(w));
    NoFailureIffClean(w);
  }

  /** Counting the whole suite is counting its six checks one after the
      other: the counters after each check, in order, end where counting
      all the verdicts at once ends. */
  lemma TallyOfSuite(w: Warehouse, s0: Tally, s1: Tally, s2: Tally, s3: Tally, s4: Tally, s5: Tally, s6: Tally)
    requires s1 == TallyFrom(s0, RowCountVerdicts(w))
    requires s2 == TallyFrom(s1, NullVerdicts(w))
    requires s3 == TallyFrom(s2, ForeignKeyVerdicts(w))
    requires s4 == TallyFrom(s3, RangeVerdicts(w))
    requires s5 == TallyFrom(s4, DuplicateVerdicts(w))
    requires s6 == TallyFrom(s5, DateVerdicts(w))
    ensures s6 == TallyFrom(s0, AllVerdicts(w))
  {
    var v1, v2, v3 := RowCountVerdicts(w), NullVerdicts(w), ForeignKeyVerdicts(w);
    var v4, v5, v6 := RangeVerdicts(w), DuplicateVerdicts(w), DateVerdicts(w);
    TallyFromAppend(s0, v1 + v2 + v3 + v4 + v5, v6);
    TallyFromAppend(s0, v1 + v2 + v3 + v4, v5);
    TallyFromAppend(s0, v1 + v2 + v3, v4);
    TallyFromAppend(s0, v1 + v2, v3);
    TallyFromAppend(s0, v1, v2);
  }

  /** The suite as the script runs it: a connection and three counters. */
  class DataQualityTester {
    var passed: nat
    var failed: nat
    var warnings: nat
    var connected: bool
    /** What the queries over the connection return. */
    const warehouse: Warehouse

    /** `__init__`: connect, and start every counter at zero. */
    constructor (warehouse: Warehouse)
      ensures this.warehouse == warehouse && connected
      ensures passed == 0 && failed == 0 && warnings == 0
    {
      this.warehouse := warehouse;
      connected := true;
      passed := 0;
      failed := 0;
      warnings := 0;
    }

    function Counts(): Tally
      reads this
    {
      Tally(passed, failed, warnings)
    }

    /** The `self.passed += 1` / `self.failed += 1` / `self.warnings += 1`
        at the end of one check. */
    method Count(v: Verdict)
      modifies this
      ensures Counts() == Record(old(Counts()), v)
      ensures connected == old(connected)
    {
      match v
      case Pass => passed := passed + 1;
      case Fail => failed := failed + 1;
      case Warn => warnings := warnings + 1;
    }

    method TestRowCounts()
      requires connected
      modifies this
      ensures Counts() == TallyFrom(old(Counts()), RowCountVerdicts(warehouse))
      ensures connected
    {
      var tables := RowCountTables;
      var vs := RowCountVerdicts(warehouse);
      for i := 0 to |tables|
        invariant Counts() == TallyFrom(old(Counts()), vs[..i])
        invariant connected
      {
        var count := warehouse.rowCount(tables[i]);
        assert vs[..i + 1][..i] == vs[..i];
        Count(RowCountVerdict(count));
      }
      assert vs[..|tables|] == vs;
    }

    method TestNullValues()
      requires connected
      modifies this
      ensures Counts() == TallyFrom(old(Counts()), NullVerdicts(warehouse))
      ensures connected
    {
      var tests := NullChecks;
      var vs := NullVerdicts(warehouse);
      for i := 0 to |tests|
        invariant Counts() == TallyFrom(old(Counts()), vs[..i])
        invariant connected
      {
        var (table, column) := tests[i];
        var nullCount := warehouse.nullCount(table, column);
        assert vs[..i + 1][..i] == vs[..i];
        Count(ZeroCountVerdict(nullCount));
      }
      assert vs[..|tests|] == vs;
    }

    method TestForeignKeys()
      requires connected
      modifies this
      ensures Counts() == TallyFrom(old(Counts()), ForeignKeyVerdicts(warehouse))
      ensures connected
    {
      Count(ZeroCountVerdict(warehouse.ordersWithoutCustomer));
      Count(ZeroCountVerdict(warehouse.itemsWithoutOrder));
      assert ForeignKeyVerdicts(warehouse)[..1] == [ZeroCountVerdict(warehouse.ordersWithoutCustomer)];
    }

    method TestDataRanges()
      requires connected
      modifies this
      ensures Counts() == TallyFrom(old(Counts()), RangeVerdicts(warehouse))
      ensures connected
    {
      Count(ReviewScoreVerdict(warehouse.reviewScoresOutOfRange));
      Count(ZeroCountVerdict(warehouse.negativePrices));
      assert RangeVerdicts(warehouse)[..1] == [ReviewScoreVerdict(warehouse.reviewScoresOutOfRange)];
    }

    method TestDuplicates()
      requires connected
      modifies this
      ensures Counts() == TallyFrom(old(Counts()), DuplicateVerdicts(warehouse))
      ensures connected
    {
      var tests := DuplicateChecks;
      var vs := DuplicateVerdicts(warehouse);
      for i := 0 to |tests|
        invariant Counts() == TallyFrom(old(Counts()), vs[..i])
        invariant connected
      {
        var (table, pk) := tests[i];
        var duplicates := warehouse.duplicateKeys(table, pk);
        assert vs[..i + 1][..i] == vs[..i];
        Count(ZeroCountVerdict(duplicates));
      }
      assert vs[..|tests|] == vs;
    }

    method TestDateConsistency()
      requires connected
      modifies this
      ensures Counts() == TallyFrom(old(Counts()), DateVerdicts(warehouse))
      ensures connected
    {
      Count(ZeroCountVerdict(warehouse.deliveredBeforePurchase));
    }

    /** run_all_tests: the six checks in order, the summary, closing the
        connection, and the exit status. */
    method RunAllTests() returns (exitStatus: int, successRate: real)
      requires connected
      modifies this
      ensures Counts() == TallyFrom(old(Counts()), AllVerdicts(warehouse))
      ensures successRate == SuccessRate(Counts())
      ensures exitStatus == ExitStatus(Counts())
      ensures !connected
    {
      ghost var s0 := Counts();
      TestRowCounts();
      ghost var s1 := Counts();
      TestNullValues();
      ghost var s2 := Counts();
      TestForeignKeys();
      ghost var s3 := Counts();
      TestDataRanges();
      ghost var s4 := Counts();
      TestDuplicates();
      ghost var s5 := Counts();
      TestDateConsistency();
      TallyOfSuite(warehouse, s0, s1, s2, s3, s4, s5, Counts());
      successRate := SuccessRate(Counts());
      connected := false;
      if failed > 0 {
        exitStatus := 1;
      } else {
        exitStatus := 0;
      }
    }
  }
}
