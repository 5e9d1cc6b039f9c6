/**
  The three kinds of document the tracker keeps per owner: products, sales and
  expenses. Money is held in integer cents, so that sums and differences are exact;
  quantities are whole units.
 */
module Records {

  /** A server-assigned timestamp; the list orderings compare `seconds` only. */
  datatype Timestamp = Timestamp(seconds: int, nanoseconds: int)

  /** A catalogue entry. `id` is the store-assigned document id. */
  datatype Product = Product(
    id: string,
    name: string,
    costPrice: int,
    salePrice: int,
    quantity: int)

  /**
    A recorded sale. The product's name and prices are copied at sale time and are
    never updated afterwards, even when the product changes.
   */
  datatype Sale = Sale(
    productId: string,
    productName: string,
    quantity: int,
    salePrice: int,
    costPrice: int,
    totalRevenue: int,
    totalCost: int,
    profit: int,
    date: Timestamp)

  datatype Expense = Expense(description: string, amount: int, date: Timestamp)
}
