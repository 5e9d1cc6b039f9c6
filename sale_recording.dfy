/**
  Recording a sale (`SalesManager.handleSubmit`). A request names a product and a
  number of units. Three checks run in a fixed order and the first that fails
  decides the error: a product must be selected (with a signed-in session), it must
  be in the current product snapshot, and its stock must cover the request. On
  success a sale is built from the product's current name and prices and two writes
  follow: the sale is appended, then the product's stock is set to what it was less
  the units sold.

  The store's answers to the two writes are inputs (`saleWritten`, `stockWritten`):
  a failing write raises an error that becomes the generic "try again" message, and
  when the first write succeeded but the second did not, the sale stays recorded
  while the stock is unchanged.
 */
module SaleRecording {
  import opened Wrappers
  import opened Records
  import opened Decimal

  // ---------------------------------------------------------------------------
  // Errors and the messages shown for them

  datatype SaleError =
    | NoProductSelected
    | ProductNotFound
    | InsufficientStock(available: int)
    | PersistenceFailure

  const StockPrefix: string := "Estoque insuficiente. Apenas "
  const StockSuffix: string := " unidades disponíveis."

  /**
    The text the form shows for each error. Only the insufficient-stock message
    carries a number, and it is exactly the available quantity.
   */
  function ErrorMessage(e: SaleError): (msg: string)
    ensures CountInMessage(msg) == if e.InsufficientStock? then Some(e.available) else None
  {
    match e
    case NoProductSelected => "Selecione um produto."
    case ProductNotFound => "Produto não encontrado."
    case InsufficientStock(n) =>
      StockMessageReadsBack(n);
      StockPrefix + IntToDecimal(n) + StockSuffix
    case PersistenceFailure => "Ocorreu um erro. Tente novamente."
  }

  /** Reads back the unit count from an insufficient-stock message. */
  function CountInMessage(msg: string): (count: Option<int>) {
    if |msg| >= |StockPrefix| + |StockSuffix|
       && msg[..|StockPrefix|] == StockPrefix
       && msg[|msg| - |StockSuffix|..] == StockSuffix
    then ParseInt(msg[|StockPrefix|..|msg| - |StockSuffix|])
    else None
  }

  /** The count written between the fixed prefix and suffix reads back exactly. */
  lemma StockMessageReadsBack(n: int)
    ensures CountInMessage(StockPrefix + IntToDecimal(n) + StockSuffix) == Some(n)
  {
    var digits := IntToDecimal(n);
    var msg := StockPrefix + digits + StockSuffix;
    assert msg[..|StockPrefix|] == StockPrefix;
    assert msg[|msg| - |StockSuffix|..] == StockSuffix;
    assert msg[|StockPrefix|..|msg| - |StockSuffix|] == digits;
    ParseIntOfIntToDecimal(n);
  }

  /** Different errors are shown as different messages. */
  lemma ErrorMessageIsInjective(e1: SaleError, e2: SaleError)
    requires ErrorMessage(e1) == ErrorMessage(e2)
    ensures e1 == e2
  {
  }

  // ---------------------------------------------------------------------------
  // The product snapshot

  /** `i` is where `products.find(p => p.id === id)` stops. */
  ghost predicate FirstWithId(products: seq<Product>, id: string, i: int) {
    && 0 <= i < |products|
    && products[i].id == id
    && forall j :: 0 <= j < i ==> products[j].id != id
  }

  /** `products.find(p => p.id === id)`, as the index of the product found. */
  function FindById(products: seq<Product>, id: string): (r: Option<nat>)
    ensures r.Some? ==> FirstWithId(products, id, r.value)
    ensures r.None? <==> forall j :: 0 <= j < |products| ==> products[j].id != id
  {
    if products == [] then None
    else if products[0].id == id then Some(0)
    else match FindById(products[1..], id)
      case None => None
      case Some(i) => Some(i + 1)
  }

  predicate StockNonNegative(products: seq<Product>) {
    forall i :: 0 <= i < |products| ==> products[i].quantity >= 0
  }

  /** Store-assigned document ids are unique within a collection. */
  predicate DistinctIds(products: seq<Product>) {
    forall i, j :: 0 <= i < j < |products| ==> products[i].id != products[j].id
  }

  // ---------------------------------------------------------------------------
  // The rule

  /**
    The three checks in their order. On success the result is the position of the
    product to sell from.
   */
  function Validate(sessionReady: bool, products: seq<Product>, productId: string, quantitySold: int)
    : (r: Result<nat, SaleError>)
    ensures r == Failure(NoProductSelected) <==> !sessionReady || productId == ""
    ensures r == Failure(ProductNotFound)
        <==> sessionReady && productId != ""
             && forall j :: 0 <= j < |products| ==> products[j].id != productId
    ensures r.Failure? && r.error.InsufficientStock?
        <==> sessionReady && productId != ""
             && exists i :: FirstWithId(products, productId, i) && products[i].quantity < quantitySold
    ensures r.Failure? && r.error.InsufficientStock? ==>
      exists i :: FirstWithId(products, productId, i) && r.error.available == products[i].quantity
    ensures r.Success? <==>
      sessionReady && productId != ""
      && exists i :: FirstWithId(products, productId, i) && quantitySold <= products[i].quantity
    ensures r.Success? ==>
      FirstWithId(products, productId, r.value) && quantitySold <= products[r.value].quantity
    ensures r != Failure(PersistenceFailure)
  {
    if !sessionReady || productId == "" then Failure(NoProductSelected)
    else match FindById(products, productId)
      case None => Failure(ProductNotFound)
      case Some(i) =>
        if products[i].quantity < quantitySold then Failure(InsufficientStock(products[i].quantity))
        else Success(i)
  }

  /** The sale record written for `quantitySold` units of `product` at time `now`. */
  function NewSale(product: Product, quantitySold: int, now: Timestamp): (s: Sale)
    ensures s.productId == product.id && s.productName == product.name
    ensures s.salePrice == product.salePrice && s.costPrice == product.costPrice
    ensures s.quantity == quantitySold && s.date == now
    ensures s.totalRevenue == product.salePrice * quantitySold
    ensures s.totalCost == product.costPrice * quantitySold
    ensures s.profit == s.totalRevenue - s.totalCost == (product.salePrice - product.costPrice) * quantitySold
  {
    var totalRevenue := product.salePrice * quantitySold;
    var totalCost := product.costPrice * quantitySold;
    Sale(product.id, product.name, quantitySold, product.salePrice, product.costPrice,
         totalRevenue, totalCost, totalRevenue - totalCost, now)
  }

  /** The snapshot after the stock write for the product at `i`. */
  function SellFrom(products: seq<Product>, i: nat, quantitySold: int): (r: seq<Product>)
    requires i < |products|
    ensures |r| == |products|
    ensures r[i] == products[i].(quantity := products[i].quantity - quantitySold)
    ensures forall j :: 0 <= j < |r| && j != i ==> r[j] == products[j]
  {
    products[i := products[i].(quantity := products[i].quantity - quantitySold)]
  }

  /**
    Selling no more than the stock leaves the sold product with a non-negative stock,
    keeps every stock non-negative if it was, and keeps the ids as they were.
   */
  lemma SellFromKeepsSnapshotValid(products: seq<Product>, i: nat, quantitySold: int)
    requires DistinctIds(products)
    requires i < |products| && 0 <= quantitySold <= products[i].quantity
    ensures DistinctIds(SellFrom(products, i, quantitySold))
    ensures SellFrom(products, i, quantitySold)[i].quantity >= 0
    ensures StockNonNegative(products) ==> StockNonNegative(SellFrom(products, i, quantitySold))
  {
  }

  // ---------------------------------------------------------------------------
  // Units are conserved: stock plus units sold stays fixed per product

  /** The current stock of the product with `id`, 0 when there is none. */
  function StockOf(products: seq<Product>, id: string): (n: int)
    ensures (forall j :: 0 <= j < |products| ==> products[j].id != id) ==> n == 0
    ensures forall i :: FirstWithId(products, id, i) ==> n == products[i].quantity
  {
    match FindById(products, id)
    case None => 0
    case Some(i) => products[i].quantity
  }

  /** The units of the product with `id` that the recorded sales account for. */
  function UnitsSold(sales: seq<Sale>, id: string): (n: int)
    ensures (forall j :: 0 <= j < |sales| ==> sales[j].productId != id) ==> n == 0
    ensures (forall j :: 0 <= j < |sales| ==> sales[j].quantity >= 0) ==> n >= 0
  {
    if sales == [] then 0
    else
      UnitsSold(sales[..|sales| - 1], id)
      + (if sales[|sales| - 1].productId == id then sales[|sales| - 1].quantity else 0)
  }

  lemma FindByIdAfterSell(products: seq<Product>, i: nat, quantitySold: int, id: string)
    requires i < |products|
    ensures FindById(SellFrom(products, i, quantitySold), id) == FindById(products, id)
  {
    var r := SellFrom(products, i, quantitySold);
    match FindById(products, id)
    case None =>
      assert forall j :: 0 <= j < |r| ==> r[j].id == products[j].id;
    case Some(k) =>
      assert FirstWithId(r, id, k);
      var k' := FindById(r, id).value;
      assert FirstWithId(products, id, k');
  }

  /**
    A fully written sale moves `quantitySold` units from the product's stock to the
    sales record: for every product id, stock plus units sold is what it was.
   */
  lemma RecordedSaleConservesUnits(products: seq<Product>, sales: seq<Sale>, i: nat,
                                   quantitySold: int, now: Timestamp, id: string)
    requires DistinctIds(products) && i < |products|
    ensures StockOf(SellFrom(products, i, quantitySold), id)
          + UnitsSold(sales + [NewSale(products[i], quantitySold, now)], id)
         == StockOf(products, id) + UnitsSold(sales, id)
  {
    var sold := sales + [NewSale(products[i], quantitySold, now)];
    assert sold[..|sold| - 1] == sales;
    FindByIdAfterSell(products, i, quantitySold, id);
    if id == products[i].id {
      assert FindById(products, id) == Some(i);
    }
  }

  /**
    When the sale is written but the stock write fails, the units are counted twice:
    stock plus units sold grows by `quantitySold` for the product sold.
   */
  lemma HalfWrittenSaleCountsUnitsTwice(products: seq<Product>, sales: seq<Sale>, i: nat,
                                        quantitySold: int, now: Timestamp)
    requires i < |products|
    ensures StockOf(products, products[i].id)
          + UnitsSold(sales + [NewSale(products[i], quantitySold, now)], products[i].id)
         == StockOf(products, products[i].id) + UnitsSold(sales, products[i].id) + quantitySold
  {
    var sold := sales + [NewSale(products[i], quantitySold, now)];
    assert sold[..|sold| - 1] == sales;
  }

  // ---------------------------------------------------------------------------
  // The ledger: the product snapshot and the sales collection, updated in place

  class Ledger {
    var products: seq<Product>
    var sales: seq<Sale>

    /**
      Document ids are unique. Stock is not required to be non-negative: the
      product form accepts a negative quantity, and the sale rule then refuses
      every request for that product.
     */
    ghost predicate Valid()
      reads this
    {
      DistinctIds(products)
    }

    constructor (products: seq<Product>, sales: seq<Sale>)
      requires DistinctIds(products)
      ensures Valid()
      ensures this.products == products && this.sales == sales
    {
      this.products := products;
      this.sales := sales;
    }

    /**
      `handleSubmit`: the checks of `Validate`, then the two writes. The result is
      the sale written, or the error whose message the form shows.
     */
    method RecordSale(sessionReady: bool, productId: string, quantitySold: int, now: Timestamp,
                      saleWritten: bool, stockWritten: bool)
      returns (r: Result<Sale, SaleError>)
      requires Valid()
      requires quantitySold >= 1
      modifies this
      ensures Valid()
      ensures StockNonNegative(old(products)) ==> StockNonNegative(products)
      ensures var v := Validate(sessionReady, old(products), productId, quantitySold);
        if v.Failure? then
          && r == Failure(v.error)
          && products == old(products)
          && sales == old(sales)
        else
          var sale := NewSale(old(products)[v.value], quantitySold, now);
          && sales == (if saleWritten then old(sales) + [sale] else old(sales))
          && products == (if saleWritten && stockWritten
                          then SellFrom(old(products), v.value, quantitySold)
                          else old(products))
          && r == (if saleWritten && stockWritten then Success(sale) else Failure(PersistenceFailure))
    {
      var checked := Validate(sessionReady, products, productId, quantitySold);
      if checked.Failure? {
        return Failure(checked.error);
      }
      var i := checked.value;
      var product := products[i];
      var sale := NewSale(product, quantitySold, now);
      if !saleWritten {
        return Failure(PersistenceFailure);
      }
      sales := sales + [sale];
      if !stockWritten {
        return Failure(PersistenceFailure);
      }
      SellFromKeepsSnapshotValid(products, i, quantitySold);
      products := SellFrom(products, i, quantitySold);
      r := Success(sale);
    }
  }

  /**
    Two requests against one product with cost 20.00 and price 35.00 (amounts in
    cents): selling 3 of 10 units records revenue 105.00, cost 60.00 and profit 45.00
    and leaves 7; asking for 5 of the 2 units of a second copy is refused with a
    message naming 2, and nothing changes; a copy entered with stock -4 refuses even
    one unit, with a message naming -4.
   */
  method WheyScenario(now: Timestamp) {
    var whey := Product("p1", "Whey", 2000, 3500, 10);
    var ledger := new Ledger([whey], []);
    var r := ledger.RecordSale(true, "p1", 3, now, true, true);
    assert Validate(true, [whey], "p1", 3) == Success(0);
    assert r.Success? && r.value.totalRevenue == 10500 && r.value.totalCost == 6000;
    assert r.value.profit == 4500 && ledger.products[0].quantity == 7 && |ledger.sales| == 1;

    var scarce := new Ledger([whey.(quantity := 2)], []);
    r := scarce.RecordSale(true, "p1", 5, now, true, true);
    assert Validate(true, [whey.(quantity := 2)], "p1", 5) == Failure(InsufficientStock(2));
    assert r == Failure(InsufficientStock(2));
    assert CountInMessage(ErrorMessage(r.error)) == Some(2);
    assert scarce.products[0].quantity == 2 && scarce.sales == [];

    var negative := new Ledger([whey.(quantity := -4)], []);
    r := negative.RecordSale(true, "p1", 1, now, true, true);
    assert Validate(true, [whey.(quantity := -4)], "p1", 1) == Failure(InsufficientStock(-4));
    assert CountInMessage(ErrorMessage(r.error)) == Some(-4);
    assert negative.products[0].quantity == -4 && negative.sales == [];
  }
}
