/** ABC classification of products by revenue share
    (service/AnalysisService.kt, `abc`): revenues per product over a window,
    highest first, each classified by the cumulative share of the grand
    total reached with it. */
module AbcAnalysis {
  import opened Common
  import opened Entities
  import opened Grouping
  import Sorting
  import opened Analysis

  datatype AbcClass = A | B | C

  /** A < B < C. */
  function Rank(c: AbcClass): nat {
    match c
    case A => 0
    case B => 1
    case C => 2
  }

  /** The class of a cumulative share: up to 80% A, up to 95% B, else C. */
  function ClassOf(ratio: real): (r: AbcClass)
    ensures r == A <==> ratio <= 0.80
    ensures r == B <==> 0.80 < ratio <= 0.95
    ensures r == C <==> 0.95 < ratio
  {
    if ratio <= 0.80 then A else if ratio <= 0.95 then B else C
  }

  /** A larger cumulative share never gives a better class. */
  lemma ClassOfMonotone(r1: real, r2: real)
    requires r1 <= r2
    ensures Rank(ClassOf(r1)) <= Rank(ClassOf(r2))
  {
  }

  /** Σ of the values. */
  function SumValues(s: seq<(string, int)>): int
    decreases |s|
  {
    if |s| == 0 then 0 else SumValues(s[..|s| - 1]) + s[|s| - 1].1
  }

  predicate NonNegativeValues(s: seq<(string, int)>) {
    forall i | 0 <= i < |s| :: s[i].1 >= 0
  }

  /** With non-negative values, longer prefixes sum to more. */
  lemma {:induction false} PrefixSumsGrow(s: seq<(string, int)>, i: nat, j: nat)
    requires NonNegativeValues(s) && i <= j <= |s|
    ensures SumValues(s[..i]) <= SumValues(s[..j])
    decreases j
  {
    if i < j {
      PrefixSumsGrow(s, i, j - 1);
      assert s[..j][..j - 1] == s[..j - 1];
    }
  }

  /** The grand total, floored at 1 so that shares never divide by zero. */
  function Grand(totals: seq<(string, int)>): (r: real)
    ensures r >= 1.0
    ensures r >= SumValues(totals) as real
    ensures SumValues(totals) >= 1 ==> r == SumValues(totals) as real
  {
    MaxReal(SumValues(totals) as real, 1.0)
  }

  /** The cumulative share of `grand` reached with entry `i`. */
  function Share(totals: seq<(string, int)>, i: nat, grand: real): real
    requires i < |totals| && grand >= 1.0
  {
    SumValues(totals[..i + 1]) as real / grand
  }

  /** The running loop of `abc`: each entry is classified by the share of
      `grand` accumulated up to and including it. */
  function Classify(totals: seq<(string, int)>, grand: real): (r: seq<(string, AbcClass)>)
    requires grand >= 1.0
    ensures |r| == |totals|
    ensures forall i | 0 <= i < |totals| ::
              r[i] == (totals[i].0, ClassOf(Share(totals, i, grand)))
    decreases |totals|
  {
    if |totals| == 0 then []
    else
      var init := totals[..|totals| - 1];
      var rest := Classify(init, grand);
      assert forall i | 0 <= i < |init| :: Share(init, i, grand) == Share(totals, i, grand) by {
        forall i | 0 <= i < |init| ensures Share(init, i, grand) == Share(totals, i, grand) {
          assert init[..i + 1] == totals[..i + 1];
        }
      }
      assert totals[..|totals|] == totals;
      rest + [(totals[|totals| - 1].0, ClassOf(SumValues(totals) as real / grand))]
  }

  /** With non-negative revenues, classes along the ranking never improve:
      all A's, then B's, then C's. */
  lemma ClassifyMonotone(totals: seq<(string, int)>, grand: real)
    requires grand >= 1.0 && NonNegativeValues(totals)
    ensures var r := Classify(totals, grand);
            forall i, j | 0 <= i < j < |r| :: Rank(r[i].1) <= Rank(r[j].1)
  {
    var r := Classify(totals, grand);
    forall i, j | 0 <= i < j < |r| ensures Rank(r[i].1) <= Rank(r[j].1) {
      PrefixSumsGrow(totals, i + 1, j + 1);
      DivMonotone(SumValues(totals[..i + 1]) as real, SumValues(totals[..j + 1]) as real, grand);
      ClassOfMonotone(Share(totals, i, grand), Share(totals, j, grand));
    }
  }

  lemma DivMonotone(a: real, b: real, g: real)
    requires a <= b && g > 0.0
    ensures a / g <= b / g
  {
    assert b / g - a / g == (b - a) / g;
  }

  /** Revenues 700, 200 and 100 classify as A, B and C. */
  lemma ClassifyExample()
    ensures var t := [("x", 700), ("y", 200), ("z", 100)];
            Classify(t, Grand(t)) == [("x", A), ("y", B), ("z", C)]
  {
    var t := [("x", 700), ("y", 200), ("z", 100)];
    assert t[..1] == [("x", 700)] && t[..2] == [("x", 700), ("y", 200)] && t[..3] == t;
    assert SumValues(t[..1]) == 700;
    assert SumValues(t[..2]) == 900;
    assert SumValues(t) == 1000;
  }

  /** Adds each product not yet classified, as C, in store order. */
  function AddMissing(res: seq<(string, AbcClass)>, products: seq<Product>): (r: seq<(string, AbcClass)>)
    ensures |res| <= |r| && r[..|res|] == res
    ensures forall i | |res| <= i < |r| :: r[i].1 == C
    ensures forall id :: HasKey(r, id) <==> HasKey(res, id) || exists p | p in products :: p.id == id
    decreases |products|
  {
    if |products| == 0 then res
    else
      var p := products[0];
      var next := if HasKey(res, p.id) then res else res + [(p.id, C)];
      assert next[..|res|] == res;
      assert forall q | q in products :: q == p || q in products[1..];
      assert HasKey(next, p.id) by {
        if !HasKey(res, p.id) {
          assert next[|res|].0 == p.id;
        }
      }
      var r := AddMissing(next, products[1..]);
      assert r[..|res|] == res by {
        assert r[..|next|][..|res|] == r[..|res|];
      }
      r
  }

  function ValueKey(e: (string, int)): real {
    e.1 as real
  }

  /** Per-product revenue over the window, highest first, ties in order of
      first sale. */
  function Totals(ledger: seq<Sale>, today: int, lastNDays: int): (r: seq<(string, int)>)
    ensures multiset(r) == multiset(RevenueByProduct(ledger, today, lastNDays))
    ensures forall i, j | 0 <= i < j < |r| :: r[i].1 >= r[j].1
    ensures forall id :: HasKey(r, id) <==> SoldWithin(ledger, id, WindowStart(today, lastNDays), today)
    ensures forall k :: Sorting.WithKey(r, ValueKey, k) == Sorting.WithKey(RevenueByProduct(ledger, today, lastNDays), ValueKey, k)
  {
    var rev := RevenueByProduct(ledger, today, lastNDays);
    var r := Sorting.SortDesc(rev, ValueKey);
    assert forall i, j | 0 <= i < j < |r| :: ValueKey(r[i]) >= ValueKey(r[j]);
    PermutationKeys(r, rev);
    r
  }

  /** A permutation has the same keys. */
  lemma PermutationKeys<V>(r: seq<(string, V)>, s: seq<(string, V)>)
    requires multiset(r) == multiset(s)
    ensures forall id :: HasKey(r, id) <==> HasKey(s, id)
  {
    forall id ensures HasKey(r, id) <==> HasKey(s, id) {
      if HasKey(r, id) {
        var i :| 0 <= i < |r| && r[i].0 == id;
        assert r[i] in multiset(s);
      }
      if HasKey(s, id) {
        var i :| 0 <= i < |s| && s[i].0 == id;
        assert s[i] in multiset(r);
      }
    }
  }

  /** The classes of the products sold in the window. */
  function SoldClasses(ledger: seq<Sale>, today: int, lastNDays: int): (r: seq<(string, AbcClass)>)
    ensures forall id :: HasKey(r, id) <==> SoldWithin(ledger, id, WindowStart(today, lastNDays), today)
    ensures var t := Totals(ledger, today, lastNDays);
            |r| == |t| && forall i | 0 <= i < |t| :: r[i] == (t[i].0, ClassOf(Share(t, i, Grand(t))))
  {
    var t := Totals(ledger, today, lastNDays);
    var r := Classify(t, Grand(t));
    forall id ensures HasKey(r, id) <==> HasKey(t, id) {
      if HasKey(t, id) {
        var i :| 0 <= i < |t| && t[i].0 == id;
        assert r[i].0 == id;
      }
    }
    r
  }

  /** `abc(lastNDays)`: the sold products classified by cumulative revenue
      share, followed by every stored product without sales in the window,
      classified C. */
  function Abc(products: seq<Product>, ledger: seq<Sale>, today: int, lastNDays: int)
    : (r: seq<(string, AbcClass)>)
    ensures forall id :: HasKey(r, id) <==>
              SoldWithin(ledger, id, WindowStart(today, lastNDays), today) ||
              exists p | p in products :: p.id == id
    ensures forall p | p in products :: HasKey(r, p.id)
  {
    AddMissing(SoldClasses(ledger, today, lastNDays), products)
  }

  /** The class recorded for `id`: that of its first entry. */
  function ClassFor(r: seq<(string, AbcClass)>, id: string): (c: Option<AbcClass>)
    ensures c.None? <==> !HasKey(r, id)
    ensures c.Some? ==> exists i | 0 <= i < |r| :: r[i] == (id, c.value) &&
                          forall j | 0 <= j < i :: r[j].0 != id
  {
    if |r| == 0 then None
    else if r[0].0 == id then Some(r[0].1)
    else
      var c := ClassFor(r[1..], id);
      assert forall i | 0 <= i < |r| - 1 :: r[1..][i] == r[i + 1];
      c
  }

  /** A stored product without sales in the window is classified C. */
  lemma UnsoldIsC(products: seq<Product>, ledger: seq<Sale>, today: int, lastNDays: int, p: Product)
    requires p in products
    requires !SoldWithin(ledger, p.id, WindowStart(today, lastNDays), today)
    ensures ClassFor(Abc(products, ledger, today, lastNDays), p.id) == Some(C)
  {
    var sold := SoldClasses(ledger, today, lastNDays);
    MissingIsC(sold, AddMissing(sold, products), p.id);
  }

  /** An id missing from a prefix, all of whose extension is classified C,
      is classified C. */
  lemma MissingIsC(sold: seq<(string, AbcClass)>, r: seq<(string, AbcClass)>, id: string)
    requires |sold| <= |r| && r[..|sold|] == sold
    requires forall i | |sold| <= i < |r| :: r[i].1 == C
    requires !HasKey(sold, id) && HasKey(r, id)
    ensures ClassFor(r, id) == Some(C)
  {
    var c := ClassFor(r, id);
    var i :| 0 <= i < |r| && r[i] == (id, c.value) && forall j | 0 <= j < i :: r[j].0 != id;
    assert forall k | 0 <= k < |sold| :: r[k] == sold[k] by {
      forall k | 0 <= k < |sold| ensures r[k] == sold[k] {
        assert r[..|sold|][k] == r[k];
      }
    }
    assert i >= |sold|;
  }

  lemma {:induction false} RevenueNonNegative(sales: seq<Sale>, id: string)
    requires forall s | s in sales :: s.qty >= 0 && s.priceAtSale >= 0
    ensures RevenueOf(sales, id) >= 0
    decreases |sales|
  {
    if |sales| > 0 {
      var init := sales[..|sales| - 1];
      assert forall s | s in init :: s in sales;
      RevenueNonNegative(init, id);
      var last := sales[|sales| - 1];
      assert last in sales;
      MulNonNegativeInt(last.qty, last.priceAtSale);
    }
  }

  /** With non-negative quantities and prices, every product's window
      revenue is non-negative. */
  lemma TotalsNonNegative(ledger: seq<Sale>, today: int, lastNDays: int)
    requires forall s | s in ledger :: s.qty >= 0 && s.priceAtSale >= 0
    ensures NonNegativeValues(Totals(ledger, today, lastNDays))
  {
    var t := Totals(ledger, today, lastNDays);
    var rev := RevenueByProduct(ledger, today, lastNDays);
    var w := Window(ledger, today, lastNDays);
    assert forall s | s in w :: s in ledger;
    forall i | 0 <= i < |t| ensures t[i].1 >= 0 {
      assert t[i] in multiset(rev);
      var k :| 0 <= k < |rev| && rev[k] == t[i];
      RevenueNonNegative(w, rev[k].0);
    }
  }

  /** With non-negative quantities and prices, the sold products' classes
      run A's, then B's, then C's along the revenue ranking, and they lead
      the result of `abc`. */
  lemma AbcMonotone(products: seq<Product>, ledger: seq<Sale>, today: int, lastNDays: int)
    requires forall s | s in ledger :: s.qty >= 0 && s.priceAtSale >= 0
    ensures var sold := SoldClasses(ledger, today, lastNDays);
            var r := Abc(products, ledger, today, lastNDays);
            |sold| <= |r| && r[..|sold|] == sold &&
            forall i, j | 0 <= i < j < |sold| :: Rank(sold[i].1) <= Rank(sold[j].1)
  {
    var t := Totals(ledger, today, lastNDays);
    var sold := SoldClasses(ledger, today, lastNDays);
    assert sold == Classify(t, Grand(t));
    TotalsNonNegative(ledger, today, lastNDays);
    ClassifyMonotone(t, Grand(t));
    assert forall i, j | 0 <= i < j < |sold| :: Rank(sold[i].1) <= Rank(sold[j].1);
  }
}
