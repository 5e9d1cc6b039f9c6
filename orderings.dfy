/**
  How the list views order their snapshots: sales and expenses newest first by the
  seconds of their timestamps (`(a, b) => b.date.seconds - a.date.seconds`, so the
  sort key is the negated seconds), and the sale form's product picker, which offers
  only products that have stock.
 */
module Orderings {
  import opened Records
  import opened Sequences
  import opened SaleRecording

  /** The sort key of the sales list: the later the sale, the smaller its rank. */
  function SaleRank(s: Sale): (rank: int) { -s.date.seconds }
  /** The sort key of the expenses list. */
  function ExpenseRank(e: Expense): (rank: int) { -e.date.seconds }

  function SaleSeconds(s: Sale): (sec: int) { s.date.seconds }
  function ExpenseSeconds(e: Expense): (sec: int) { e.date.seconds }

  /** The sales stamped in second `sec`, in their order in `sales`. */
  function SalesInSecond(sales: seq<Sale>, sec: int): (r: seq<Sale>) {
    WithKey(sales, SaleSeconds, sec)
  }

  /** The expenses stamped in second `sec`, in their order in `expenses`. */
  function ExpensesInSecond(expenses: seq<Expense>, sec: int): (r: seq<Expense>) {
    WithKey(expenses, ExpenseSeconds, sec)
  }

  /** Sales of equal rank are exactly the sales stamped in the same second. */
  lemma SaleRankPicksSecond(sales: seq<Sale>, sec: int)
    ensures WithKey(sales, SaleRank, -sec) == SalesInSecond(sales, sec)
  {
    WithKeySameSelection(sales, SaleRank, -sec, SaleSeconds, sec);
  }

  /** Expenses of equal rank are exactly the expenses stamped in the same second. */
  lemma ExpenseRankPicksSecond(expenses: seq<Expense>, sec: int)
    ensures WithKey(expenses, ExpenseRank, -sec) == ExpensesInSecond(expenses, sec)
  {
    WithKeySameSelection(expenses, ExpenseRank, -sec, ExpenseSeconds, sec);
  }

  /** The sales list as shown: a permutation of the snapshot, newest first. */
  function SalesNewestFirst(sales: seq<Sale>): (r: seq<Sale>)
    ensures multiset(r) == multiset(sales)
    ensures forall i, j :: 0 <= i < j < |r| ==> r[i].date.seconds >= r[j].date.seconds
  {
    SortByPermutes(sales, SaleRank);
    SortByIsStableSort(sales, SaleRank);
    SaleRankSortedIsNewestFirst(SortBy(sales, SaleRank));
    SortBy(sales, SaleRank)
  }

  /** The expenses list as shown: a permutation of the snapshot, newest first. */
  function ExpensesNewestFirst(expenses: seq<Expense>): (r: seq<Expense>)
    ensures multiset(r) == multiset(expenses)
    ensures forall i, j :: 0 <= i < j < |r| ==> r[i].date.seconds >= r[j].date.seconds
  {
    SortByPermutes(expenses, ExpenseRank);
    SortByIsStableSort(expenses, ExpenseRank);
    ExpenseRankSortedIsNewestFirst(SortBy(expenses, ExpenseRank));
    SortBy(expenses, ExpenseRank)
  }

  lemma SaleRankSortedIsNewestFirst(r: seq<Sale>)
    requires SortedBy(r, SaleRank)
    ensures forall i, j :: 0 <= i < j < |r| ==> r[i].date.seconds >= r[j].date.seconds
  {
    forall i, j | 0 <= i < j < |r| ensures r[i].date.seconds >= r[j].date.seconds {
      assert SaleRank(r[i]) <= SaleRank(r[j]);
    }
  }

  lemma ExpenseRankSortedIsNewestFirst(r: seq<Expense>)
    requires SortedBy(r, ExpenseRank)
    ensures forall i, j :: 0 <= i < j < |r| ==> r[i].date.seconds >= r[j].date.seconds
  {
    forall i, j | 0 <= i < j < |r| ensures r[i].date.seconds >= r[j].date.seconds {
      assert ExpenseRank(r[i]) <= ExpenseRank(r[j]);
    }
  }

  /**
    The sales list is a permutation of the snapshot, ordered by non-increasing
    seconds; sales stamped in the same second keep their order in the snapshot.
   */
  lemma SalesNewestFirstSpec(sales: seq<Sale>)
    ensures var r := SalesNewestFirst(sales);
      && multiset(r) == multiset(sales)
      && (forall i, j :: 0 <= i < j < |r| ==> r[i].date.seconds >= r[j].date.seconds)
      && forall sec :: SalesInSecond(r, sec) == SalesInSecond(sales, sec)
  {
    var r := SalesNewestFirst(sales);
    SortByIsStableSort(sales, SaleRank);
    forall sec ensures SalesInSecond(r, sec) == SalesInSecond(sales, sec) {
      SaleRankPicksSecond(r, sec);
      SaleRankPicksSecond(sales, sec);
    }
  }

  /** The same for the expenses list. */
  lemma ExpensesNewestFirstSpec(expenses: seq<Expense>)
    ensures var r := ExpensesNewestFirst(expenses);
      && multiset(r) == multiset(expenses)
      && (forall i, j :: 0 <= i < j < |r| ==> r[i].date.seconds >= r[j].date.seconds)
      && forall sec :: ExpensesInSecond(r, sec) == ExpensesInSecond(expenses, sec)
  {
    var r := ExpensesNewestFirst(expenses);
    SortByIsStableSort(expenses, ExpenseRank);
    forall sec ensures ExpensesInSecond(r, sec) == ExpensesInSecond(expenses, sec) {
      ExpenseRankPicksSecond(r, sec);
      ExpenseRankPicksSecond(expenses, sec);
    }
  }

  // ---------------------------------------------------------------------------
  // The product picker of the sale form

  predicate InStock(p: Product) { p.quantity > 0 }

  /** The products the sale form's picker lists. */
  function SalePickerOptions(products: seq<Product>): (r: seq<Product>)
    ensures forall i :: 0 <= i < |r| ==> r[i].quantity > 0
    ensures multiset(r) <= multiset(products)
  {
    FilterCounts(products, InStock);
    Filter(products, InStock)
  }

  /**
    The picker offers exactly the products with stock, each as often as in the
    snapshot, in snapshot order: splitting the snapshot splits the options the same
    way, and a snapshot whose products all have stock is offered unchanged.
   */
  lemma SalePickerOptionsSpec(products: seq<Product>, front: seq<Product>, back: seq<Product>)
    requires products == front + back
    ensures var r := SalePickerOptions(products);
      && (forall p :: p in r <==> p in products && p.quantity > 0)
      && (forall p :: p in products && p.quantity > 0 ==> multiset(r)[p] == multiset(products)[p])
      && r == SalePickerOptions(front) + SalePickerOptions(back)
      && ((forall i :: 0 <= i < |products| ==> products[i].quantity > 0) ==> r == products)
  {
    var r := SalePickerOptions(products);
    FilterCounts(products, InStock);
    forall p ensures p in r <==> p in products && p.quantity > 0 {
      assert p in r <==> p in multiset(r);
      if p in products {
        assert multiset(r)[p] == if InStock(p) then multiset(products)[p] else 0;
      }
    }
    FilterAppend(front, back, InStock);
    if forall i :: 0 <= i < |products| ==> products[i].quantity > 0 {
      FilterKeepsAll(products, InStock);
    }
  }

  /** Every product the picker offers passes the checks for a one-unit sale. */
  lemma PickerOptionsCanBeSold(products: seq<Product>, p: Product)
    requires DistinctIds(products)
    requires p in SalePickerOptions(products) && p.id != ""
    ensures Validate(true, products, p.id, 1).Success?
  {
    FilterCounts(products, InStock);
    assert multiset(SalePickerOptions(products))[p] > 0;
    assert p in products;
    var i :| 0 <= i < |products| && products[i] == p;
    assert FirstWithId(products, p.id, i);
  }
}
