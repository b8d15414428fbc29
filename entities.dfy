/**
 * Rows of the shop's store that the core reads and writes. Only the fields
 * some modelled operation uses are kept. `decimal` amounts are `real`,
 * `int` counters are unbounded `int`, and points in time are `Instant`s.
 */
module Entities {
  import opened Wrappers

  /** A point in time, in seconds; `DateTime.Now` is always passed in. */
  type Instant = int

  /** Models/Product.cs. */
  datatype Product = Product(
    id: int,
    name: string,
    price: real,
    lowStockThreshold: int,
    isLowStockAlertSent: bool,
    maxQuantityPerOrder: Option<int>,  // null or 0: no per-order cap
    stock: int,
    strictStockControl: bool,
    isActive: bool)

  /** A line of a committed order: product reference (cleared when the product
      is deleted), and name and unit price as they were at order time. */
  datatype OrderItem = OrderItem(
    productId: Option<int>,
    productName: string,
    price: real,
    quantity: int)

  /** Models/StockLog.cs: one audited change of a product's stock. */
  datatype StockLog = StockLog(
    productId: Option<int>,
    changeAmount: int,
    resultStock: int,
    reason: string,
    date: Instant)

  /** Models/NewsletterSubscriber.cs: a guest on the newsletter list. */
  datatype NewsletterSubscriber = NewsletterSubscriber(
    email: string,
    subscribedAt: Instant,
    isActive: bool)

  /** Models/ApplicationUser.cs: the part of a registered user the newsletter reads. */
  datatype AppUser = AppUser(
    email: Option<string>,
    isNewsletterSubscribed: bool)

  /** Models/SiteSettings.cs: one key/value row of the settings table. */
  datatype SiteSetting = SiteSetting(key: string, value: string)

  /** The primary-key constraint of the products table. */
  ghost predicate UniqueProductIds(products: seq<Product>) {
    forall i, j :: 0 <= i < j < |products| ==> products[i].id != products[j].id
  }

  /** `Products.FindAsync(id)`: the row whose key is `id`, if any; a null key finds nothing. */
  function FindProduct(products: seq<Product>, id: Option<int>): (r: Option<nat>)
    ensures r.Some? ==> r.value < |products| && id == Some(products[r.value].id)
    ensures r.None? ==> forall k :: 0 <= k < |products| ==> id != Some(products[k].id)
    ensures r.Some? ==> forall k :: 0 <= k < r.value ==> id != Some(products[k].id)
  {
    if |products| == 0 then None
    else if id == Some(products[0].id) then Some(0)
    else match FindProduct(products[1..], id)
      case None => None
      case Some(k) => Some(k + 1)
  }

  /** Under the key constraint, the row found is the one carrying that key. */
  lemma FindProductByKey(products: seq<Product>, k: nat)
    requires UniqueProductIds(products) && k < |products|
    ensures FindProduct(products, Some(products[k].id)) == Some(k)
  {
  }
}
