/**
 The item records of the service: the request payload of `POST /items/`,
 the stored record, and the rule that derives a record's total price.
 Prices and tax rates are exact reals, not IEEE floats.
 */
module Items {
  import opened Wrappers

  /** The payload a client sends to create an item (class `Item`). */
  datatype NewItem = NewItem(
    name: string,
    description: Option<string>,
    price: real,
    tax: Option<real>)

  /** The record the store keeps and returns (class `ItemResponse`). */
  datatype ItemRecord = ItemRecord(
    id: int,
    name: string,
    description: Option<string>,
    price: real,
    totalPrice: real,
    createdAt: string)

  /** Python truthiness of an `Optional[float]`: `None` and `0.0` are falsy. */
  predicate Surcharged(tax: Option<real>)
  {
    tax.Some? && tax.value != 0.0
  }

  /** The rate that applies on top of the price: the tax rate when it is truthy, else none. */
  function EffectiveRate(tax: Option<real>): real
  {
    if Surcharged(tax) then tax.value else 0.0
  }

  /** Reference definition of the derived total: the price scaled by one plus the effective rate. */
  function TotalPrice(price: real, tax: Option<real>): real
  {
    price * (1.0 + EffectiveRate(tax))
  }

  /** The total as `create_item` computes it: start from the price, add `price * tax` when tax is truthy. */
  method ComputeTotal(price: real, tax: Option<real>) returns (total: real)
    ensures total == TotalPrice(price, tax)
  {
    total := price;
    if Surcharged(tax) {
      total := total + price * tax.value;
    }
  }

  /** No surcharge exactly when the tax is absent or zero; otherwise price plus price times tax. */
  lemma TotalPriceRule(price: real, tax: Option<real>)
    ensures !Surcharged(tax) <==> (tax == None || tax == Some(0.0))
    ensures !Surcharged(tax) ==> TotalPrice(price, tax) == price
    ensures Surcharged(tax) ==> TotalPrice(price, tax) == price + price * tax.value
  {
  }

  /** Totals for sample inputs, in exact reals. */
  lemma TotalPriceSamples()
    ensures TotalPrice(10.0, Some(0.1)) == 11.0
    ensures TotalPrice(10.0, None) == 10.0
    ensures TotalPrice(10.0, Some(0.0)) == 10.0
    ensures TotalPrice(9.99, Some(0.08)) == 10.7892
  {
  }
}
