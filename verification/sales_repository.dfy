/** The append-only sales ledger (SalesRepository.kt, the in-memory
    implementation). The ledger is the sequence of recorded sales. */
module SalesRepository {
  import opened Entities

  /** `record(sale)`: appends the sale; nothing already recorded is removed
      or reordered. */
  function Record(ledger: seq<Sale>, sale: Sale): (r: seq<Sale>)
    ensures |r| == |ledger| + 1
    ensures r[..|ledger|] == ledger && r[|ledger|] == sale
  {
    ledger + [sale]
  }

  /** `all()`: a snapshot of the ledger; later records do not change it. */
  function All(ledger: seq<Sale>): (r: seq<Sale>)
    ensures r == ledger
  {
    ledger
  }

  predicate InRange(s: Sale, from: int, toInclusive: int) {
    from <= s.timestamp <= toInclusive
  }

  /** `byDateRange(from, toInclusive)`: the sales dated within the closed
      range, in ledger order. */
  function ByDateRange(ledger: seq<Sale>, from: int, toInclusive: int): (r: seq<Sale>)
    ensures |r| <= |ledger|
    ensures forall s :: s in r <==> s in ledger && from <= s.timestamp <= toInclusive
    ensures multiset(r) <= multiset(ledger)
    decreases |ledger|
  {
    if |ledger| == 0 then []
    else
      var last := ledger[|ledger| - 1];
      var init := ledger[..|ledger| - 1];
      assert ledger == init + [last];
      ByDateRange(init, from, toInclusive)
        + (if InRange(last, from, toInclusive) then [last] else [])
  }

  /** Filtering distributes over concatenation, so the result keeps ledger
      order. */
  lemma {:induction false} ByDateRangeAppend(a: seq<Sale>, b: seq<Sale>, from: int, toInclusive: int)
    ensures ByDateRange(a + b, from, toInclusive)
         == ByDateRange(a, from, toInclusive) + ByDateRange(b, from, toInclusive)
    decreases |b|
  {
    if |b| == 0 {
      assert a + b == a;
    } else {
      var init := b[..|b| - 1];
      assert a + b == (a + init) + [b[|b| - 1]];
      assert (a + b)[..|a + b| - 1] == a + init;
      ByDateRangeAppend(a, init, from, toInclusive);
    }
  }

  /** Recording a sale adds it to exactly the ranges that contain its date. */
  lemma RecordThenRange(ledger: seq<Sale>, sale: Sale, from: int, toInclusive: int)
    ensures ByDateRange(Record(ledger, sale), from, toInclusive)
         == ByDateRange(ledger, from, toInclusive)
            + (if from <= sale.timestamp <= toInclusive then [sale] else [])
  {
    assert Record(ledger, sale)[..|ledger|] == ledger;
  }

  /** An inverted range is empty. */
  lemma ByDateRangeInverted(ledger: seq<Sale>, from: int, toInclusive: int)
    requires from > toInclusive
    ensures ByDateRange(ledger, from, toInclusive) == []
  {
  }

  /** The range of a whole ledger is the ledger when every sale lies in it. */
  lemma {:induction false} ByDateRangeAll(ledger: seq<Sale>, from: int, toInclusive: int)
    requires forall s | s in ledger :: InRange(s, from, toInclusive)
    ensures ByDateRange(ledger, from, toInclusive) == ledger
    decreases |ledger|
  {
    if |ledger| > 0 {
      var init := ledger[..|ledger| - 1];
      var last := ledger[|ledger| - 1];
      assert ledger == init + [last];
      ByDateRangeAll(init, from, toInclusive);
    }
  }
}
