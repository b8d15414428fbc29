/**
 * Models/Order.cs: the order and payment statuses, the defaults a new order
 * starts from, `IsPaid` and `RecalculateTotal`.
 */
module Orders {
  import opened Entities

  /** Feldolgozatlan (unprocessed), FeldolgozásAlatt (processing), Feldolgozva
      (processed), SzállításAlatt (shipping), Teljesítve (fulfilled),
      Lemondva (cancelled). */
  datatype OrderStatus =
    | Feldolgozatlan
    | FeldolgozasAlatt
    | Feldolgozva
    | SzallitasAlatt
    | Teljesitve
    | Lemondva

  /** Fizetendő (due), Fizetve (paid), Sztornózva (reversed). */
  datatype PaymentStatus = Fizetendo | Fizetve | Sztornozva

  datatype Order = Order(
    id: int,
    secretToken: string,
    orderDate: Instant,
    customerName: string,
    email: string,
    paymentMethod: string,
    shippingFee: real,
    discountAmount: real,
    status: OrderStatus,
    paymentStatus: PaymentStatus,
    totalAmount: real,
    items: seq<OrderItem>)

  predicate IsPaid(o: Order) {
    o.paymentStatus == Fizetve
  }

  /** A freshly constructed order; the tracking token and the creation time are
      the values the constructor would draw from `Guid.NewGuid` and `DateTime.Now`. */
  function NewOrder(id: int, secretToken: string, orderDate: Instant): (o: Order)
    ensures o.status == Feldolgozatlan && o.paymentStatus == Fizetendo
    ensures !IsPaid(o)
    ensures o.items == [] && o.totalAmount == 0.0
    ensures o.id == id && o.secretToken == secretToken && o.orderDate == orderDate
  {
    Order(id, secretToken, orderDate, "", "", "", 0.0, 0.0, Feldolgozatlan, Fizetendo, 0.0, [])
  }

  /** Σ price × quantity over the items. */
  function ItemsTotal(items: seq<OrderItem>): real {
    if |items| == 0 then 0.0
    else items[0].price * items[0].quantity as real + ItemsTotal(items[1..])
  }

  /** The order with `TotalAmount` recomputed from its items; discount and
      shipping fee take no part, and no other field changes. */
  function RecalculateTotal(o: Order): (r: Order)
    ensures r.totalAmount == ItemsTotal(o.items)
    ensures r.(totalAmount := o.totalAmount) == o
    ensures o.items == [] ==> r.totalAmount == 0.0
  {
    o.(totalAmount := ItemsTotal(o.items))
  }

  /** The total of a concatenation is the sum of the totals, so adding a line
      adds exactly that line's price × quantity. */
  lemma {:induction false} ItemsTotalAppend(a: seq<OrderItem>, b: seq<OrderItem>)
    ensures ItemsTotal(a + b) == ItemsTotal(a) + ItemsTotal(b)
  {
    if |a| == 0 {
      assert a + b == b;
    } else {
      assert (a + b)[1..] == a[1..] + b;
      ItemsTotalAppend(a[1..], b);
    }
  }

  /** With non-negative prices and quantities the total is never negative. */
  lemma {:induction false} ItemsTotalNonNegative(items: seq<OrderItem>)
    requires forall i :: 0 <= i < |items| ==> items[i].price >= 0.0 && items[i].quantity >= 0
    ensures ItemsTotal(items) >= 0.0
  {
    if |items| != 0 {
      ItemsTotalNonNegative(items[1..]);
    }
  }

  /** Recalculating twice gives the same order as recalculating once. */
  lemma RecalculateTotalIdempotent(o: Order)
    ensures RecalculateTotal(RecalculateTotal(o)) == RecalculateTotal(o)
  {
  }
}
