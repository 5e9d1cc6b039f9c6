/**
  The dashboard's derived figures (`Dashboard` in src/App.jsx): four sums over the
  sales and expenses snapshots, and the list of products that need restocking.
 */
module Dashboard {
  import opened Records
  import opened Sequences
  import opened SaleRecording

  /** A product is low on stock at this many units or fewer. */
  const LowStockThreshold: int := 5

  function SaleRevenue(s: Sale): (revenue: int) { s.totalRevenue }
  function SaleProfit(s: Sale): (profit: int) { s.profit }
  function ExpenseAmount(e: Expense): (amount: int) { e.amount }

  datatype Stats = Stats(totalRevenue: int, totalProfit: int, totalExpenses: int, netProfit: int)

  /** The `stats` memo. */
  function ComputeStats(sales: seq<Sale>, expenses: seq<Expense>): (r: Stats)
    ensures r.netProfit == r.totalProfit - r.totalExpenses
    ensures sales == [] ==> r.totalRevenue == 0 && r.totalProfit == 0
    ensures expenses == [] ==> r.totalExpenses == 0
    ensures sales == [] && expenses == [] ==> r == Stats(0, 0, 0, 0)
  {
    var totalRevenue := SumBy(sales, SaleRevenue);
    var totalProfit := SumBy(sales, SaleProfit);
    var totalExpenses := SumBy(expenses, ExpenseAmount);
    Stats(totalRevenue, totalProfit, totalExpenses, totalProfit - totalExpenses)
  }

  /** For one sale and one expense each figure is that record's own field. */
  lemma StatsOfOne(sale: Sale, expense: Expense)
    ensures ComputeStats([sale], [expense])
         == Stats(sale.totalRevenue, sale.profit, expense.amount, sale.profit - expense.amount)
  {
  }

  /**
    One more sale adds its revenue and profit; one more expense adds its amount.
    With the empty case this fixes every figure as the sum of its field.
   */
  lemma StatsAfterOneMore(sales: seq<Sale>, expenses: seq<Expense>, sale: Sale, expense: Expense)
    ensures var before := ComputeStats(sales, expenses);
      && ComputeStats(sales + [sale], expenses)
         == Stats(before.totalRevenue + sale.totalRevenue, before.totalProfit + sale.profit,
                  before.totalExpenses, before.netProfit + sale.profit)
      && ComputeStats(sales, expenses + [expense])
         == Stats(before.totalRevenue, before.totalProfit,
                  before.totalExpenses + expense.amount, before.netProfit - expense.amount)
  {
    var s' := sales + [sale];
    var e' := expenses + [expense];
    assert s'[..|s'| - 1] == sales;
    assert e'[..|e'| - 1] == expenses;
  }

  /** Every figure of two snapshots put together is the sum of their figures. */
  lemma StatsAddUp(s1: seq<Sale>, s2: seq<Sale>, e1: seq<Expense>, e2: seq<Expense>)
    ensures var a, b := ComputeStats(s1, e1), ComputeStats(s2, e2);
      ComputeStats(s1 + s2, e1 + e2)
      == Stats(a.totalRevenue + b.totalRevenue, a.totalProfit + b.totalProfit,
               a.totalExpenses + b.totalExpenses, a.netProfit + b.netProfit)
  {
    SumByAppend(s1, s2, SaleRevenue);
    SumByAppend(s1, s2, SaleProfit);
    SumByAppend(e1, e2, ExpenseAmount);
  }

  /**
    The figures do not depend on the order of the snapshots, so the unsorted lists
    the dashboard receives and the newest-first lists the other views show agree.
   */
  lemma StatsIgnoreOrder(s1: seq<Sale>, s2: seq<Sale>, e1: seq<Expense>, e2: seq<Expense>)
    requires multiset(s1) == multiset(s2) && multiset(e1) == multiset(e2)
    ensures ComputeStats(s1, e1) == ComputeStats(s2, e2)
  {
    SumByPermutation(s1, s2, SaleRevenue);
    SumByPermutation(s1, s2, SaleProfit);
    SumByPermutation(e1, e2, ExpenseAmount);
  }

  /**
    Recording `quantitySold` units of `product` raises revenue by price times units
    and gross and net profit by margin times units; expenses are untouched.
   */
  lemma StatsAfterRecordedSale(sales: seq<Sale>, expenses: seq<Expense>, product: Product,
                               quantitySold: int, now: Timestamp)
    ensures var before := ComputeStats(sales, expenses);
      var margin := (product.salePrice - product.costPrice) * quantitySold;
      ComputeStats(sales + [NewSale(product, quantitySold, now)], expenses)
      == Stats(before.totalRevenue + product.salePrice * quantitySold,
               before.totalProfit + margin,
               before.totalExpenses,
               before.netProfit + margin)
  {
    StatsAddUp(sales, [NewSale(product, quantitySold, now)], expenses, []);
    assert expenses + [] == expenses;
  }

  // ---------------------------------------------------------------------------
  // Low stock

  predicate IsLowStock(p: Product) { p.quantity <= LowStockThreshold }

  function Quantity(p: Product): (units: int) { p.quantity }

  /** The `lowStockProducts` memo: the low-stock products, fewest units first. */
  function LowStockProducts(products: seq<Product>): (r: seq<Product>)
    ensures forall p :: p in r <==> p in products && p.quantity <= LowStockThreshold
    ensures forall i, j :: 0 <= i < j < |r| ==> r[i].quantity <= r[j].quantity
  {
    var low := Filter(products, IsLowStock);
    FilterCounts(products, IsLowStock);
    SortByPermutes(low, Quantity);
    SortByIsStableSort(low, Quantity);
    LowStockMembers(products, SortBy(low, Quantity));
    SortBy(low, Quantity)
  }

  lemma LowStockMembers(products: seq<Product>, r: seq<Product>)
    requires multiset(r) == multiset(Filter(products, IsLowStock))
    requires SortedBy(r, Quantity)
    ensures forall p :: p in r <==> p in products && p.quantity <= LowStockThreshold
    ensures forall i, j :: 0 <= i < j < |r| ==> r[i].quantity <= r[j].quantity
  {
    var low := Filter(products, IsLowStock);
    FilterCounts(products, IsLowStock);
    forall p ensures p in r <==> p in products && p.quantity <= LowStockThreshold {
      assert p in r <==> p in multiset(low);
      if p in products {
        assert multiset(low)[p] == if IsLowStock(p) then multiset(products)[p] else 0;
      }
    }
    forall i, j | 0 <= i < j < |r| ensures r[i].quantity <= r[j].quantity {
      assert Quantity(r[i]) <= Quantity(r[j]);
    }
  }

  lemma {:induction false} WithQuantityOfLowStock(products: seq<Product>, k: int)
    ensures WithKey(Filter(products, IsLowStock), Quantity, k)
         == if k <= LowStockThreshold then WithKey(products, Quantity, k) else []
  {
    if products != [] {
      var ps', last := products[..|products| - 1], products[|products| - 1];
      var tail := if IsLowStock(last) then [last] else [];
      assert Filter(products, IsLowStock) == Filter(ps', IsLowStock) + tail;
      assert WithKey(products, Quantity, k)
          == WithKey(ps', Quantity, k) + (if Quantity(last) == k then [last] else []);
      WithQuantityOfLowStock(ps', k);
      WithKeyAppend(Filter(ps', IsLowStock), tail, Quantity, k);
      assert WithKey(tail, Quantity, k) == if IsLowStock(last) && Quantity(last) == k then [last] else [];
    }
  }

  /**
    The low-stock list holds exactly the products with at most five units, each as
    often as in the snapshot, sorted by quantity; products with the same quantity
    keep their order in the snapshot.
   */
  lemma LowStockProductsSpec(products: seq<Product>)
    ensures var r := LowStockProducts(products);
      && SortedBy(r, Quantity)
      && multiset(r) == multiset(Filter(products, IsLowStock))
      && (forall p :: p in r <==> p in products && p.quantity <= LowStockThreshold)
      && forall k :: WithKey(r, Quantity, k)
                  == if k <= LowStockThreshold then WithKey(products, Quantity, k) else []
  {
    var low := Filter(products, IsLowStock);
    SortByPermutes(low, Quantity);
    SortByIsStableSort(low, Quantity);
    forall k ensures WithKey(LowStockProducts(products), Quantity, k)
                  == if k <= LowStockThreshold then WithKey(products, Quantity, k) else [] {
      WithQuantityOfLowStock(products, k);
    }
  }

  /** Any stable sort of the low-stock products by quantity gives `LowStockProducts`. */
  lemma LowStockProductsIsTheStableSort(ys: seq<Product>, products: seq<Product>)
    requires StablySortedFrom(ys, Filter(products, IsLowStock), Quantity)
    ensures ys == LowStockProducts(products)
  {
    StableSortIsSortBy(ys, Filter(products, IsLowStock), Quantity);
  }

  /** One sale with profit 45.00 against one expense of 10.00 nets 35.00 (cents). */
  lemma NetProfitScenario(sale: Sale, expense: Expense)
    requires sale.profit == 4500 && expense.amount == 1000
    ensures ComputeStats([sale], [expense]).netProfit == 3500
  {
  }
}
