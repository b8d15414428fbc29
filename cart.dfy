/**
 * Services/CartService.cs: the per-session shopping cart. Its lines are a list
 * of (product snapshot, quantity); `AddToCart` rejects a request that breaks
 * the per-order cap or strict stock control, `UpdateQuantity` clamps instead,
 * and every successful change raises `OnChange`, counted here by `changeEvents`.
 */
module Cart {
  import opened Wrappers
  import opened Entities

  datatype CartItem = CartItem(product: Product, quantity: int)

  /** The two `InvalidOperationException`s of `AddToCartAsync`, with the numbers
      their messages report. */
  datatype CartError =
    | QuantityLimitExceeded(limit: int, inCart: int)
    | InsufficientStock(available: int)

  /** `Items.FirstOrDefault(i => i.Product.Id == productId)`, as an index. */
  function FindLine(items: seq<CartItem>, productId: int): (r: Option<nat>)
    ensures r.Some? ==> r.value < |items| && items[r.value].product.id == productId
    ensures r.Some? ==> forall j :: 0 <= j < r.value ==> items[j].product.id != productId
    ensures r.None? ==> forall j :: 0 <= j < |items| ==> items[j].product.id != productId
  {
    if |items| == 0 then None
    else if items[0].product.id == productId then Some(0)
    else match FindLine(items[1..], productId)
      case None => None
      case Some(k) => Some(k + 1)
  }

  /** `item?.Quantity ?? 0`: the quantity on the first line of that product. */
  function InCart(items: seq<CartItem>, productId: int): int {
    match FindLine(items, productId)
    case Some(k) => items[k].quantity
    case None => 0
  }

  ghost predicate OneLinePerProduct(items: seq<CartItem>) {
    forall i, j :: 0 <= i < j < |items| ==> items[i].product.id != items[j].product.id
  }

  /** Add honours `MaxQuantityPerOrder` only when it has a value above zero. */
  predicate HasPerOrderCap(p: Product) {
    p.maxQuantityPerOrder.Some? && p.maxQuantityPerOrder.value > 0
  }

  /** The checks of `AddToCartAsync`, in source order: first the per-order cap,
      then strict stock; `None` when the request passes both. */
  function AddCheck(items: seq<CartItem>, product: Product, quantity: int): (r: Option<CartError>)
    ensures var total := InCart(items, product.id) + quantity;
      r.None? <==>
        (HasPerOrderCap(product) ==> total <= product.maxQuantityPerOrder.value) &&
        (product.strictStockControl ==> total <= product.stock)
    ensures var total := InCart(items, product.id) + quantity;
      HasPerOrderCap(product) && total > product.maxQuantityPerOrder.value ==>
        r == Some(QuantityLimitExceeded(product.maxQuantityPerOrder.value, InCart(items, product.id)))
    ensures var total := InCart(items, product.id) + quantity;
      !(HasPerOrderCap(product) && total > product.maxQuantityPerOrder.value) &&
      product.strictStockControl && total > product.stock ==>
        r == Some(InsufficientStock(product.stock))
  {
    var current := InCart(items, product.id);
    var total := current + quantity;
    if HasPerOrderCap(product) && total > product.maxQuantityPerOrder.value then
      Some(QuantityLimitExceeded(product.maxQuantityPerOrder.value, current))
    else if product.strictStockControl && total > product.stock then
      Some(InsufficientStock(product.stock))
    else
      None
  }

  /** The lines after an accepted add: the existing line grows, or a new line
      is appended at the end. */
  function AddLines(items: seq<CartItem>, product: Product, quantity: int): seq<CartItem> {
    match FindLine(items, product.id)
    case Some(k) => items[k := items[k].(quantity := items[k].quantity + quantity)]
    case None => items + [CartItem(product, quantity)]
  }

  /** The clamping of `UpdateQuantityAsync`, in source order: to the stock under
      strict control, then to `MaxQuantityPerOrder` whenever it has a value. */
  function ClampQuantity(p: Product, newQuantity: int): int {
    var q := if newQuantity > p.stock && p.strictStockControl then p.stock else newQuantity;
    if p.maxQuantityPerOrder.Some? && q > p.maxQuantityPerOrder.value then p.maxQuantityPerOrder.value else q
  }

  /** `Items.Remove(item)` on the first line of that product. */
  function RemoveLine(items: seq<CartItem>, productId: int): seq<CartItem> {
    match FindLine(items, productId)
    case Some(k) => items[..k] + items[k + 1..]
    case None => items
  }

  /** The lines after `UpdateQuantityAsync`. */
  function UpdateLines(items: seq<CartItem>, productId: int, newQuantity: int): seq<CartItem> {
    match FindLine(items, productId)
    case None => items
    case Some(k) =>
      var q := ClampQuantity(items[k].product, newQuantity);
      if q <= 0 then RemoveLine(items, productId) else items[k := items[k].(quantity := q)]
  }

  function LinePrice(line: CartItem): real {
    line.product.price * line.quantity as real
  }

  /** `TotalPrice`: Σ product price × quantity over the lines. */
  function LinesTotal(items: seq<CartItem>): real {
    if |items| == 0 then 0.0 else LinePrice(items[0]) + LinesTotal(items[1..])
  }

  class CartService {
    var items: seq<CartItem>
    /** How many times `OnChange` has been raised. */
    var changeEvents: nat

    constructor ()
      ensures items == [] && changeEvents == 0
    {
      items := [];
      changeEvents := 0;
    }

    method LoadItems(newItems: Option<seq<CartItem>>)
      modifies this
      ensures newItems.Some? ==> items == newItems.value && changeEvents == old(changeEvents) + 1
      ensures newItems.None? ==> items == old(items) && changeEvents == old(changeEvents)
    {
      if newItems.Some? {
        items := newItems.value;
        changeEvents := changeEvents + 1;
      }
    }

    method AddToCart(product: Product, quantity: int) returns (error: Option<CartError>)
      modifies this
      ensures error == AddCheck(old(items), product, quantity)
      ensures error.Some? || quantity <= 0 ==>
        items == old(items) && changeEvents == old(changeEvents)
      ensures error.None? && quantity > 0 ==>
        items == AddLines(old(items), product, quantity) && changeEvents == old(changeEvents) + 1
    {
      error := AddCheck(items, product, quantity);
      if error.Some? || quantity <= 0 {
        return;
      }
      items := AddLines(items, product, quantity);
      changeEvents := changeEvents + 1;
    }

    method UpdateQuantity(productId: int, newQuantity: int)
      modifies this
      ensures items == UpdateLines(old(items), productId, newQuantity)
      ensures changeEvents == old(changeEvents) + if FindLine(old(items), productId).Some? then 1 else 0
    {
      var k := FindLine(items, productId);
      if k.Some? {
        var q := ClampQuantity(items[k.value].product, newQuantity);
        if q <= 0 {
          RemoveItem(productId);
        } else {
          items := items[k.value := items[k.value].(quantity := q)];
          changeEvents := changeEvents + 1;
        }
      }
    }

    method RemoveItem(productId: int)
      modifies this
      ensures items == RemoveLine(old(items), productId)
      ensures changeEvents == old(changeEvents) + if FindLine(old(items), productId).Some? then 1 else 0
    {
      var k := FindLine(items, productId);
      if k.Some? {
        items := items[..k.value] + items[k.value + 1..];
        changeEvents := changeEvents + 1;
      }
    }

    method Clear()
      modifies this
      ensures items == [] && changeEvents == old(changeEvents) + 1
    {
      items := [];
      changeEvents := changeEvents + 1;
    }

    /** Computed on demand from the current lines; nothing is cached. */
    function TotalPrice(): (total: real)
      reads this
      ensures items == [] ==> total == 0.0
    {
      LinesTotal(items)
    }
  }

  // ---------------------------------------------------------------------------
  // Properties of the cart operations
  // ---------------------------------------------------------------------------

  /** `FindLine` looks only at the product ids of the lines. */
  lemma FindLineById(a: seq<CartItem>, b: seq<CartItem>, productId: int)
    requires |a| == |b|
    requires forall j :: 0 <= j < |a| ==> a[j].product.id == b[j].product.id
    ensures FindLine(a, productId) == FindLine(b, productId)
  {
  }

  /** Add rejects exactly when the new in-cart quantity would pass the smaller of
      the applicable ceilings: the per-order cap (when above zero) and, under
      strict control, the stock. */
  function AddCeiling(p: Product): Option<int> {
    if HasPerOrderCap(p) && p.strictStockControl then
      Some(if p.maxQuantityPerOrder.value < p.stock then p.maxQuantityPerOrder.value else p.stock)
    else if HasPerOrderCap(p) then Some(p.maxQuantityPerOrder.value)
    else if p.strictStockControl then Some(p.stock)
    else None
  }

  lemma AddRejectsAboveCeiling(items: seq<CartItem>, product: Product, quantity: int)
    ensures AddCheck(items, product, quantity).Some? <==>
      AddCeiling(product).Some? && InCart(items, product.id) + quantity > AddCeiling(product).value
  {
  }

  /** A successful add of a positive quantity raises that product's in-cart
      quantity by exactly that much and leaves every other product's alone. */
  lemma {:induction false} AddLinesInCart(items: seq<CartItem>, product: Product, quantity: int, id: int)
    ensures InCart(AddLines(items, product, quantity), id) ==
      InCart(items, id) + if id == product.id then quantity else 0
  {
    var r := AddLines(items, product, quantity);
    match FindLine(items, product.id)
    case Some(k) =>
      FindLineById(items, r, id);
    case None =>
      assert forall j :: 0 <= j < |items| ==> r[j] == items[j];
      assert r[|items|].product.id == product.id;
      if id == product.id {
        assert FindLine(r, id) == Some(|items|);
      } else {
        assert FindLine(r, id) == FindLine(items, id);
      }
  }

  /** A successful add never creates a second line for a product; the existing
      line is updated in place or one line is appended at the end. */
  lemma AddLinesShape(items: seq<CartItem>, product: Product, quantity: int)
    ensures OneLinePerProduct(items) ==> OneLinePerProduct(AddLines(items, product, quantity))
    ensures FindLine(items, product.id).Some? ==> |AddLines(items, product, quantity)| == |items|
    ensures FindLine(items, product.id).None? ==>
      AddLines(items, product, quantity) == items + [CartItem(product, quantity)]
    ensures forall j :: 0 <= j < |items| && items[j].product.id != product.id ==>
      AddLines(items, product, quantity)[j] == items[j]
  {
  }

  lemma {:induction false} LinesTotalAppend(a: seq<CartItem>, b: seq<CartItem>)
    ensures LinesTotal(a + b) == LinesTotal(a) + LinesTotal(b)
  {
    if |a| == 0 {
      assert a + b == b;
    } else {
      assert (a + b)[1..] == a[1..] + b;
      LinesTotalAppend(a[1..], b);
    }
  }

  lemma {:induction false} LinesTotalUpdate(items: seq<CartItem>, k: nat, line: CartItem)
    requires k < |items|
    ensures LinesTotal(items[k := line]) == LinesTotal(items) - LinePrice(items[k]) + LinePrice(line)
  {
    if k > 0 {
      assert items[k := line][1..] == items[1..][k - 1 := line];
      LinesTotalUpdate(items[1..], k - 1, line);
    }
  }

  /** A successful add raises the total by the line's unit price × quantity; for
      an existing line the unit price is the one captured when it was created. */
  lemma AddLinesTotal(items: seq<CartItem>, product: Product, quantity: int)
    ensures LinesTotal(AddLines(items, product, quantity)) ==
      LinesTotal(items) +
        (match FindLine(items, product.id)
         case Some(k) => items[k].product.price
         case None => product.price) * quantity as real
  {
    match FindLine(items, product.id)
    case Some(k) =>
      AddToLineTotal(items, k, quantity);
    case None =>
      LinesTotalAppend(items, [CartItem(product, quantity)]);
      assert LinesTotal([CartItem(product, quantity)]) == LinePrice(CartItem(product, quantity));
  }

  lemma AddToLineTotal(items: seq<CartItem>, k: nat, quantity: int)
    requires k < |items|
    ensures LinesTotal(items[k := items[k].(quantity := items[k].quantity + quantity)]) ==
      LinesTotal(items) + items[k].product.price * quantity as real
  {
    var line := items[k].(quantity := items[k].quantity + quantity);
    LinesTotalUpdate(items, k, line);
    LinePriceAdd(items[k], quantity);
  }

  lemma LinePriceAdd(line: CartItem, quantity: int)
    ensures LinePrice(line.(quantity := line.quantity + quantity)) ==
      LinePrice(line) + line.product.price * quantity as real
  {
    var p := line.product.price;
    assert (line.quantity + quantity) as real == line.quantity as real + quantity as real;
    assert p * (line.quantity as real + quantity as real) == p * line.quantity as real + p * quantity as real;
  }

  /** Update clamps to the smaller of the requested quantity, the stock (under
      strict control) and the per-order cap whenever it has a value, including a
      cap of zero, which Add ignores. */
  lemma ClampIsMinimum(p: Product, newQuantity: int)
    ensures ClampQuantity(p, newQuantity) <= newQuantity
    ensures p.strictStockControl ==> ClampQuantity(p, newQuantity) <= p.stock
    ensures p.maxQuantityPerOrder.Some? ==> ClampQuantity(p, newQuantity) <= p.maxQuantityPerOrder.value
    ensures ClampQuantity(p, newQuantity) == newQuantity ||
      (p.strictStockControl && ClampQuantity(p, newQuantity) == p.stock) ||
      (p.maxQuantityPerOrder.Some? && ClampQuantity(p, newQuantity) == p.maxQuantityPerOrder.value)
  {
  }

  lemma FindLineAt(items: seq<CartItem>, productId: int, m: nat)
    requires m < |items| && items[m].product.id == productId
    requires forall j :: 0 <= j < m ==> items[j].product.id != productId
    ensures FindLine(items, productId) == Some(m)
  {
  }

  /** Taking out line `k` moves every other product's first line down by
      one when it came after `k`. */
  lemma FindLineAfterRemoval(items: seq<CartItem>, k: nat, id: int)
    requires k < |items| && items[k].product.id != id
    ensures var r := items[..k] + items[k + 1..];
      match FindLine(items, id)
      case None => FindLine(r, id).None?
      case Some(m) => FindLine(r, id) == Some(if m < k then m else m - 1) && r[FindLine(r, id).value] == items[m]
  {
    var r := items[..k] + items[k + 1..];
    RemovedAt(items, k);
    match FindLine(items, id)
    case Some(m) =>
      if m < k {
        FindLineAt(r, id, m);
      } else {
        FindLineAt(r, id, m - 1);
      }
    case None =>
  }

  /** Remove keeps every other product's first line, hence its quantity. */
  lemma RemoveLineKeepsOthers(items: seq<CartItem>, productId: int, id: int)
    requires id != productId
    ensures InCart(RemoveLine(items, productId), id) == InCart(items, id)
  {
    match FindLine(items, productId)
    case None =>
    case Some(k) =>
      FindLineAfterRemoval(items, k, id);
  }

  /** On a cart with one line per product, Remove takes the product out entirely. */
  lemma RemoveLineRemovesProduct(items: seq<CartItem>, productId: int)
    requires OneLinePerProduct(items)
    ensures OneLinePerProduct(RemoveLine(items, productId))
    ensures FindLine(RemoveLine(items, productId), productId).None?
    ensures |RemoveLine(items, productId)| ==
      |items| - if FindLine(items, productId).Some? then 1 else 0
  {
    match FindLine(items, productId)
    case None =>
    case Some(k) =>
      var r := items[..k] + items[k + 1..];
      RemovedAt(items, k);
      forall i, j | 0 <= i < j < |r|
        ensures r[i].product.id != r[j].product.id
      {
        var i', j' := if i < k then i else i + 1, if j < k then j else j + 1;
        assert r[i] == items[i'] && r[j] == items[j'] && i' < j';
      }
      forall j | 0 <= j < |r|
        ensures r[j].product.id != productId
      {
        var j' := if j < k then j else j + 1;
        assert r[j] == items[j'] && j' != k;
      }
  }

  /** Taking out line `k` shifts the later lines down by one. */
  lemma RemovedAt(items: seq<CartItem>, k: nat)
    requires k < |items|
    ensures var r := items[..k] + items[k + 1..];
      |r| == |items| - 1 && forall j :: 0 <= j < |r| ==> r[j] == items[if j < k then j else j + 1]
  {
    var r := items[..k] + items[k + 1..];
    assert forall j :: 0 <= j < k ==> r[j] == items[j];
    assert forall j :: k <= j < |r| ==> r[j] == items[j + 1];
  }

  /** Update sets the first line of that product to the clamped quantity, or
      removes it when the clamped quantity is not positive; other products and
      an absent product are left alone, and no product gets a second line. */
  lemma UpdateLinesEffect(items: seq<CartItem>, productId: int, newQuantity: int, id: int)
    requires OneLinePerProduct(items)
    ensures OneLinePerProduct(UpdateLines(items, productId, newQuantity))
    ensures FindLine(items, productId).None? ==> UpdateLines(items, productId, newQuantity) == items
    ensures id != productId ==> InCart(UpdateLines(items, productId, newQuantity), id) == InCart(items, id)
    ensures FindLine(items, productId).Some? ==>
      var q := ClampQuantity(items[FindLine(items, productId).value].product, newQuantity);
      InCart(UpdateLines(items, productId, newQuantity), productId) == if q <= 0 then 0 else q
  {
    match FindLine(items, productId)
    case None =>
    case Some(k) =>
      var q := ClampQuantity(items[k].product, newQuantity);
      if q <= 0 {
        RemoveLineRemovesProduct(items, productId);
        if id != productId { RemoveLineKeepsOthers(items, productId, id); }
      } else {
        FindLineById(items, items[k := items[k].(quantity := q)], id);
        FindLineById(items, items[k := items[k].(quantity := q)], productId);
      }
  }

  /** With a cap of zero (and no strict control), Add ignores the cap while
      Update removes the line whatever quantity is asked for. */
  lemma ZeroCapAsymmetry(items: seq<CartItem>, product: Product, quantity: int)
    requires product.maxQuantityPerOrder == Some(0) && !product.strictStockControl
    requires OneLinePerProduct(items)
    requires FindLine(items, product.id).Some?
    requires items[FindLine(items, product.id).value].product == product
    ensures AddCheck(items, product, quantity).None?
    ensures InCart(UpdateLines(items, product.id, quantity), product.id) == 0
    ensures |UpdateLines(items, product.id, quantity)| == |items| - 1
  {
    UpdateLinesEffect(items, product.id, quantity, product.id);
    RemoveLineRemovesProduct(items, product.id);
  }
}
