/** The product records the storefront reads from its catalogue file. Only
    the fields that some decision of the model looks at are kept. */
module Catalog {

  datatype Product = Product(
    productId: int,
    slug: string,
    name: string,
    company: string,
    diseaseCategory: string,
    productType: string,
    trending: bool,
    mrp: real,
    discount: real,      // percent off the list price
    availableStock: int)

  /** Unit price after the percentage discount, as the product page and the
      cart compute it. */
  function DiscountedPrice(p: Product): real {
    p.mrp - p.mrp * p.discount / 100.0
  }

  /** The discounted price is the list price scaled by `1 - discount/100`; a
      discount between 0 and 100 percent keeps it between 0 and the list
      price, and no discount leaves the list price. */
  lemma DiscountedPriceBounds(p: Product)
    ensures DiscountedPrice(p) == p.mrp * (1.0 - p.discount / 100.0)
    ensures 0.0 <= p.mrp && 0.0 <= p.discount <= 100.0 ==>
      0.0 <= DiscountedPrice(p) <= p.mrp
    ensures p.discount == 0.0 ==> DiscountedPrice(p) == p.mrp
  {
    if 0.0 <= p.mrp && 0.0 <= p.discount <= 100.0 {
      assert 0.0 <= p.mrp * p.discount / 100.0 <= p.mrp;
    }
  }
}
