/**
 * Services/OrderCleanupService.cs: one sweep of the expired-order reaper.
 * It selects the card orders still due after the timeout, credits every item's
 * quantity back to its product with one stock-log row per credit, and marks
 * each selected order cancelled and reversed; all in one save.
 */
module OrderCleanup {
  import opened Wrappers
  import opened Text
  import opened Entities
  import opened Orders
  import opened Data

  /** An unpaid card order expires this many minutes after it was placed. */
  const TimeoutMinutes: int := 60

  const CardPayment: string := "Bankkártya"

  function Cutoff(now: Instant): Instant {
    now - TimeoutMinutes * 60
  }

  /** The query of the sweep; the order status itself is not consulted. */
  predicate IsExpired(o: Order, now: Instant) {
    o.paymentMethod == CardPayment && o.paymentStatus == Fizetendo && o.orderDate < Cutoff(now)
  }

  /** The reason written on each reversal's stock-log row. */
  function ReversalReason(orderId: int): string {
    "Automata törlés (lejárt kártyás fizetés #" + IntToString(orderId) + ")"
  }

  function Cancel(o: Order): Order {
    o.(status := Lemondva, paymentStatus := Sztornozva)
  }

  /** The orders table after a sweep: exactly the expired orders are cancelled
      and reversed, so none is left for a later sweep with the same clock. */
  function SweepOrders(orders: seq<Order>, now: Instant): seq<Order> {
    seq(|orders|, i requires 0 <= i < |orders| =>
      if IsExpired(orders[i], now) then Cancel(orders[i]) else orders[i])
  }

  /** Exactly the expired orders change, only in their two statuses, which
      become cancelled and reversed; none is left expired. */
  lemma SweepOrdersCancels(orders: seq<Order>, now: Instant)
    ensures var r := SweepOrders(orders, now);
      |r| == |orders| &&
      (forall i :: 0 <= i < |r| ==> !IsExpired(r[i], now)) &&
      (forall i :: 0 <= i < |r| && IsExpired(orders[i], now) ==>
        r[i].status == Lemondva && r[i].paymentStatus == Sztornozva && !IsPaid(r[i]) &&
        r[i].(status := orders[i].status, paymentStatus := orders[i].paymentStatus) == orders[i]) &&
      (forall i :: 0 <= i < |r| && !IsExpired(orders[i], now) ==> r[i] == orders[i])
  {
  }

  /** The products table and the stock log, the two things a credit writes. */
  datatype Ledger = Ledger(products: seq<Product>, logs: seq<StockLog>)

  /** One item of an expired order: when its product is found, add the quantity
      to the stock and log the change with the stock just written. */
  function CreditItem(l: Ledger, item: OrderItem, reason: string, now: Instant): Ledger {
    match FindProduct(l.products, item.productId)
    case None => l
    case Some(k) =>
      var p := l.products[k].(stock := l.products[k].stock + item.quantity);
      Ledger(l.products[k := p],
             l.logs + [StockLog(Some(p.id), item.quantity, p.stock, reason, now)])
  }

  /** The inner loop: the items of one order, first to last. */
  function CreditItems(l: Ledger, items: seq<OrderItem>, reason: string, now: Instant): Ledger
    decreases |items|
  {
    if |items| == 0 then l
    else CreditItem(CreditItems(l, items[..|items| - 1], reason, now), items[|items| - 1], reason, now)
  }

  /** The outer loop: every expired order, in table order. */
  function SweepLedger(l: Ledger, orders: seq<Order>, now: Instant): Ledger
    decreases |orders|
  {
    if |orders| == 0 then l
    else
      var before := SweepLedger(l, orders[..|orders| - 1], now);
      var o := orders[|orders| - 1];
      if IsExpired(o, now) then CreditItems(before, o.items, ReversalReason(o.id), now) else before
  }

  lemma SweepLedgerStep(l: Ledger, orders: seq<Order>, i: nat, now: Instant)
    requires i < |orders|
    ensures SweepLedger(l, orders[..i + 1], now) ==
      if IsExpired(orders[i], now) then CreditItems(SweepLedger(l, orders[..i], now), orders[i].items, ReversalReason(orders[i].id), now)
      else SweepLedger(l, orders[..i], now)
  {
    assert orders[..i + 1][..i] == orders[..i];
  }

  predicate AnyExpired(orders: seq<Order>, now: Instant) {
    exists i :: 0 <= i < |orders| && IsExpired(orders[i], now)
  }

  lemma AnyExpiredStep(orders: seq<Order>, i: nat, now: Instant)
    requires i < |orders|
    ensures AnyExpired(orders[..i + 1], now) <==> AnyExpired(orders[..i], now) || IsExpired(orders[i], now)
  {
    if AnyExpired(orders[..i + 1], now) {
      var j :| 0 <= j <= i && IsExpired(orders[..i + 1][j], now);
      assert j < i ==> orders[..i][j] == orders[j];
    }
    if AnyExpired(orders[..i], now) {
      var j :| 0 <= j < i && IsExpired(orders[..i][j], now);
      assert orders[..i + 1][j] == orders[j];
    }
    if IsExpired(orders[i], now) {
      assert orders[..i + 1][i] == orders[i];
    }
  }

  class OrderCleanupService {
    const db: AppDb

    constructor (db: AppDb)
      ensures this.db == db
    {
      this.db := db;
    }

    method CleanupOrders(now: Instant)
      modifies db
      ensures db.orders == SweepOrders(old(db.orders), now)
      ensures Ledger(db.products, db.stockLogs) ==
        SweepLedger(Ledger(old(db.products), old(db.stockLogs)), old(db.orders), now)
      ensures !AnyExpired(old(db.orders), now) ==>
        db.orders == old(db.orders) && db.products == old(db.products) && db.stockLogs == old(db.stockLogs)
      ensures db.subscribers == old(db.subscribers) && db.users == old(db.users)
      ensures db.siteSettings == old(db.siteSettings)
    {
      var orders := db.orders;
      ghost var start := Ledger(db.products, db.stockLogs);
      var products, logs := db.products, db.stockLogs;
      var updated := orders;
      var found := false;
      var i := 0;
      while i < |orders|
        invariant 0 <= i <= |orders| && |updated| == |orders|
        invariant Ledger(products, logs) == SweepLedger(start, orders[..i], now)
        invariant forall k :: 0 <= k < i ==>
          updated[k] == if IsExpired(orders[k], now) then Cancel(orders[k]) else orders[k]
        invariant forall k :: i <= k < |orders| ==> updated[k] == orders[k]
        invariant found <==> AnyExpired(orders[..i], now)
        invariant unchanged(db)
      {
        SweepLedgerStep(start, orders, i, now);
        AnyExpiredStep(orders, i, now);
        var o := orders[i];
        if IsExpired(o, now) {
          found := true;
          products, logs := CreditOrder(products, logs, o, now);
          updated := updated[i := Cancel(o)];
        }
        i := i + 1;
      }
      assert orders[..i] == orders;
      if found {
        assert updated == SweepOrders(orders, now);
        db.products, db.stockLogs, db.orders := products, logs, updated;
      } else {
        NoExpiredLeavesLedger(start, orders, now);
      }
    }
  }

  /** The inner `foreach` over one expired order's items. */
  method CreditOrder(products: seq<Product>, logs: seq<StockLog>, o: Order, now: Instant)
    returns (products': seq<Product>, logs': seq<StockLog>)
    ensures Ledger(products', logs') == CreditItems(Ledger(products, logs), o.items, ReversalReason(o.id), now)
  {
    products', logs' := products, logs;
    var reason := ReversalReason(o.id);
    var j := 0;
    while j < |o.items|
      invariant 0 <= j <= |o.items|
      invariant Ledger(products', logs') == CreditItems(Ledger(products, logs), o.items[..j], reason, now)
    {
      assert o.items[..j + 1][..j] == o.items[..j];
      var item := o.items[j];
      var k := FindProduct(products', item.productId);
      if k.Some? {
        var p := products'[k.value].(stock := products'[k.value].stock + item.quantity);
        products' := products'[k.value := p];
        logs' := logs' + [StockLog(Some(p.id), item.quantity, p.stock, reason, now)];
      }
      j := j + 1;
    }
    assert o.items[..j] == o.items;
  }

  // ---------------------------------------------------------------------------
  // Properties of a sweep
  // ---------------------------------------------------------------------------

  /** With nothing expired a sweep writes nothing. */
  lemma {:induction false} NoExpiredLeavesLedger(l: Ledger, orders: seq<Order>, now: Instant)
    requires !AnyExpired(orders, now)
    ensures SweepLedger(l, orders, now) == l
    ensures SweepOrders(orders, now) == orders
    decreases |orders|
  {
    if |orders| != 0 {
      var front := orders[..|orders| - 1];
      assert !AnyExpired(front, now) by {
        forall i | 0 <= i < |front| ensures !IsExpired(front[i], now) {
          assert front[i] == orders[i];
        }
      }
      NoExpiredLeavesLedger(l, orders[..|orders| - 1], now);
      assert !IsExpired(orders[|orders| - 1], now);
    }
  }

  /** Idempotence: a second sweep with the same clock selects nothing, so it
      changes neither the orders nor the products nor the stock log. */
  lemma SweepIdempotent(l: Ledger, orders: seq<Order>, now: Instant)
    ensures var again := SweepOrders(orders, now);
      SweepOrders(again, now) == again &&
      SweepLedger(SweepLedger(l, orders, now), again, now) == SweepLedger(l, orders, now)
  {
    var again := SweepOrders(orders, now);
    NoExpiredLeavesLedger(SweepLedger(l, orders, now), again, now);
  }

  /** Σ quantity over the items that reference product `id`. */
  function ItemsQuantity(items: seq<OrderItem>, id: int): int
    decreases |items|
  {
    if |items| == 0 then 0
    else
      var last := items[|items| - 1];
      ItemsQuantity(items[..|items| - 1], id) + if last.productId == Some(id) then last.quantity else 0
  }

  /** Σ quantity over the items of the expired orders that reference product `id`. */
  function ExpiredQuantity(orders: seq<Order>, id: int, now: Instant): int
    decreases |orders|
  {
    if |orders| == 0 then 0
    else
      var last := orders[|orders| - 1];
      ExpiredQuantity(orders[..|orders| - 1], id, now) +
        if IsExpired(last, now) then ItemsQuantity(last.items, id) else 0
  }

  /** `after` is `before` with each product's stock raised by `credit(id)`. */
  ghost predicate StocksRaised(before: seq<Product>, after: seq<Product>, credit: int -> int) {
    |after| == |before| &&
    forall k :: 0 <= k < |before| ==>
      after[k] == before[k].(stock := before[k].stock + credit(before[k].id))
  }

  lemma CreditItemRaises(l: Ledger, item: OrderItem, reason: string, now: Instant)
    requires UniqueProductIds(l.products)
    ensures StocksRaised(l.products, CreditItem(l, item, reason, now).products,
      id => if item.productId == Some(id) then item.quantity else 0)
  {
  }

  lemma {:induction false} CreditItemsRaise(l: Ledger, items: seq<OrderItem>, reason: string, now: Instant)
    requires UniqueProductIds(l.products)
    ensures StocksRaised(l.products, CreditItems(l, items, reason, now).products,
      id => ItemsQuantity(items, id))
    decreases |items|
  {
    if |items| != 0 {
      var front := items[..|items| - 1];
      var mid := CreditItems(l, front, reason, now);
      CreditItemsRaise(l, front, reason, now);
      assert UniqueProductIds(mid.products) by {
        assert forall k :: 0 <= k < |mid.products| ==> mid.products[k].id == l.products[k].id;
      }
      CreditItemRaises(mid, items[|items| - 1], reason, now);
    }
  }

  /** Every product's stock rises by exactly the quantity its expired items
      carried, and by nothing else; products no expired order references keep
      their stock. */
  lemma {:induction false} SweepCreditsStock(l: Ledger, orders: seq<Order>, now: Instant)
    requires UniqueProductIds(l.products)
    ensures StocksRaised(l.products, SweepLedger(l, orders, now).products,
      id => ExpiredQuantity(orders, id, now))
    decreases |orders|
  {
    if |orders| != 0 {
      var front := orders[..|orders| - 1];
      var o := orders[|orders| - 1];
      var mid := SweepLedger(l, front, now);
      SweepCreditsStock(l, front, now);
      if IsExpired(o, now) {
        assert UniqueProductIds(mid.products) by {
          assert forall k :: 0 <= k < |mid.products| ==> mid.products[k].id == l.products[k].id;
        }
        CreditItemsRaise(mid, o.items, ReversalReason(o.id), now);
      }
    }
  }

  /** The `ResultStock` of the last stock-log row about product `id`. */
  function LastResult(logs: seq<StockLog>, id: int): Option<int>
    decreases |logs|
  {
    if |logs| == 0 then None
    else if logs[|logs| - 1].productId == Some(id) then Some(logs[|logs| - 1].resultStock)
    else LastResult(logs[..|logs| - 1], id)
  }

  /** Since `l0`, the log only grew and every product is either untouched, with
      no new row about it, or its latest row records exactly its stock. */
  ghost predicate AuditedSince(l0: Ledger, l: Ledger) {
    && |l.products| == |l0.products|
    && UniqueProductIds(l.products)
    && |l0.logs| <= |l.logs| && l.logs[..|l0.logs|] == l0.logs
    && forall k :: 0 <= k < |l.products| ==>
      && l.products[k].id == l0.products[k].id
      && ((l.products[k] == l0.products[k] &&
           LastResult(l.logs, l.products[k].id) == LastResult(l0.logs, l.products[k].id)) ||
          LastResult(l.logs, l.products[k].id) == Some(l.products[k].stock))
  }

  lemma CreditItemAudited(l0: Ledger, l: Ledger, item: OrderItem, reason: string, now: Instant)
    requires AuditedSince(l0, l)
    ensures AuditedSince(l0, CreditItem(l, item, reason, now))
  {
    var r := CreditItem(l, item, reason, now);
    match FindProduct(l.products, item.productId)
    case None =>
    case Some(c) =>
      assert r.logs[..|l.logs|] == l.logs;
      assert r.logs[..|l0.logs|] == l0.logs by {
        assert r.logs[..|l0.logs|] == r.logs[..|l.logs|][..|l0.logs|];
      }
      forall k | 0 <= k < |r.products|
        ensures LastResult(r.logs, r.products[k].id) ==
          if k == c then Some(r.products[k].stock) else LastResult(l.logs, l.products[k].id)
      {
        assert r.logs[..|r.logs| - 1] == l.logs;
      }
  }

  lemma {:induction false} CreditItemsAudited(l0: Ledger, l: Ledger, items: seq<OrderItem>, reason: string, now: Instant)
    requires AuditedSince(l0, l)
    ensures AuditedSince(l0, CreditItems(l, items, reason, now))
    decreases |items|
  {
    if |items| != 0 {
      CreditItemsAudited(l0, l, items[..|items| - 1], reason, now);
      CreditItemAudited(l0, CreditItems(l, items[..|items| - 1], reason, now), items[|items| - 1], reason, now);
    }
  }

  lemma {:induction false} SweepAuditedFrom(l0: Ledger, l: Ledger, orders: seq<Order>, now: Instant)
    requires AuditedSince(l0, l)
    ensures AuditedSince(l0, SweepLedger(l, orders, now))
    decreases |orders|
  {
    if |orders| != 0 {
      var front := orders[..|orders| - 1];
      var o := orders[|orders| - 1];
      SweepAuditedFrom(l0, l, front, now);
      if IsExpired(o, now) {
        CreditItemsAudited(l0, SweepLedger(l, front, now), o.items, ReversalReason(o.id), now);
      }
    }
  }

  /** The audit trail is exact: a sweep only appends to the stock log, and for
      every product it changed, the last row about it records the stock that
      was saved. */
  lemma SweepAuditTrailExact(l: Ledger, orders: seq<Order>, now: Instant)
    requires UniqueProductIds(l.products)
    ensures AuditedSince(l, SweepLedger(l, orders, now))
  {
    assert l.logs[..|l.logs|] == l.logs;
    SweepAuditedFrom(l, l, orders, now);
  }

  // ---------------------------------------------------------------------------
  // The rows a sweep appends to the stock log
  // ---------------------------------------------------------------------------

  /** One credit of a sweep: an item whose product exists, of the expired
      order with the given id. */
  datatype Credit = Credit(item: OrderItem, orderId: int)

  /** `FindAsync(item.ProductId)` finds a product. Crediting changes no key,
      so the answer is the same before and during a sweep. */
  predicate Found(products: seq<Product>, item: OrderItem) {
    FindProduct(products, item.productId).Some?
  }

  /** The credits of one order's items, first to last: the items whose
      product exists. */
  function ItemCredits(products: seq<Product>, items: seq<OrderItem>, orderId: int): seq<Credit>
    decreases |items|
  {
    if |items| == 0 then []
    else
      var last := items[|items| - 1];
      ItemCredits(products, items[..|items| - 1], orderId) +
        if Found(products, last) then [Credit(last, orderId)] else []
  }

  /** The credits of a sweep: the items of the expired orders whose product
      exists, in table order and item order. */
  function SweepCredits(products: seq<Product>, orders: seq<Order>, now: Instant): seq<Credit>
    decreases |orders|
  {
    if |orders| == 0 then []
    else
      var last := orders[|orders| - 1];
      SweepCredits(products, orders[..|orders| - 1], now) +
        if IsExpired(last, now) then ItemCredits(products, last.items, last.id) else []
  }

  /** A row records a credit: its product, the item's quantity as the change,
      the order's reversal reason, and the time of the sweep. */
  predicate RowRecords(row: StockLog, c: Credit, now: Instant) {
    && row.productId == c.item.productId
    && row.changeAmount == c.item.quantity
    && row.reason == ReversalReason(c.orderId)
    && row.date == now
  }

  /** One row per credit, in the same order. */
  predicate RowsRecord(rows: seq<StockLog>, credits: seq<Credit>, now: Instant) {
    |rows| == |credits| && forall k :: 0 <= k < |rows| ==> RowRecords(rows[k], credits[k], now)
  }

  predicate SameKeys(a: seq<Product>, b: seq<Product>) {
    |a| == |b| && forall k :: 0 <= k < |a| ==> a[k].id == b[k].id
  }

  /** `after` keeps the product keys of `before`, keeps its log, and appends
      one row per credit. */
  predicate Appends(before: Ledger, after: Ledger, credits: seq<Credit>, now: Instant) {
    && SameKeys(before.products, after.products)
    && |before.logs| <= |after.logs| && after.logs[..|before.logs|] == before.logs
    && RowsRecord(after.logs[|before.logs|..], credits, now)
  }

  lemma {:induction false} FindProductSameKeys(a: seq<Product>, b: seq<Product>, id: Option<int>)
    requires SameKeys(a, b)
    ensures FindProduct(a, id) == FindProduct(b, id)
    decreases |a|
  {
    if |a| > 0 {
      FindProductSameKeys(a[1..], b[1..], id);
    }
  }

  lemma {:induction false} ItemCreditsSameKeys(a: seq<Product>, b: seq<Product>, items: seq<OrderItem>, orderId: int)
    requires SameKeys(a, b)
    ensures ItemCredits(a, items, orderId) == ItemCredits(b, items, orderId)
    decreases |items|
  {
    if |items| > 0 {
      ItemCreditsSameKeys(a, b, items[..|items| - 1], orderId);
      FindProductSameKeys(a, b, items[|items| - 1].productId);
    }
  }

  lemma AppendsNothing(l: Ledger, now: Instant)
    ensures Appends(l, l, [], now)
  {
    assert l.logs[..|l.logs|] == l.logs;
  }

  lemma AppendsChain(l1: Ledger, l2: Ledger, l3: Ledger, c1: seq<Credit>, c2: seq<Credit>, now: Instant)
    requires Appends(l1, l2, c1, now) && Appends(l2, l3, c2, now)
    ensures Appends(l1, l3, c1 + c2, now)
  {
    var n1, n2 := |l1.logs|, |l2.logs|;
    assert l3.logs[..n1] == l3.logs[..n2][..n1];
    var rows := l3.logs[n1..];
    assert rows == l2.logs[n1..] + l3.logs[n2..] by {
      assert l3.logs == l2.logs + l3.logs[n2..];
    }
    forall k | 0 <= k < |rows|
      ensures RowRecords(rows[k], (c1 + c2)[k], now)
    {
      if k < |c1| {
        assert rows[k] == l2.logs[n1..][k];
      } else {
        assert rows[k] == l3.logs[n2..][k - |c1|];
      }
    }
  }

  lemma CreditItemAppends(l: Ledger, item: OrderItem, orderId: int, now: Instant)
    ensures Appends(l, CreditItem(l, item, ReversalReason(orderId), now),
      if Found(l.products, item) then [Credit(item, orderId)] else [], now)
  {
    var r := CreditItem(l, item, ReversalReason(orderId), now);
    if Found(l.products, item) {
      assert r.logs[..|l.logs|] == l.logs;
      assert r.logs[|l.logs|..] == [r.logs[|l.logs|]];
    } else {
      AppendsNothing(l, now);
    }
  }

  lemma {:induction false} CreditItemsAppend(l: Ledger, items: seq<OrderItem>, orderId: int, now: Instant)
    ensures Appends(l, CreditItems(l, items, ReversalReason(orderId), now), ItemCredits(l.products, items, orderId), now)
    decreases |items|
  {
    if |items| == 0 {
      AppendsNothing(l, now);
    } else {
      var front, last := items[..|items| - 1], items[|items| - 1];
      var mid := CreditItems(l, front, ReversalReason(orderId), now);
      CreditItemsAppend(l, front, orderId, now);
      CreditItemAppends(mid, last, orderId, now);
      FindProductSameKeys(l.products, mid.products, last.productId);
      AppendsChain(l, mid, CreditItems(l, items, ReversalReason(orderId), now),
        ItemCredits(l.products, front, orderId), if Found(l.products, last) then [Credit(last, orderId)] else [], now);
    }
  }

  lemma {:induction false} SweepAppends(l: Ledger, orders: seq<Order>, now: Instant)
    ensures Appends(l, SweepLedger(l, orders, now), SweepCredits(l.products, orders, now), now)
    decreases |orders|
  {
    if |orders| == 0 {
      AppendsNothing(l, now);
    } else {
      var front, o := orders[..|orders| - 1], orders[|orders| - 1];
      var mid := SweepLedger(l, front, now);
      SweepAppends(l, front, now);
      if IsExpired(o, now) {
        CreditItemsAppend(mid, o.items, o.id, now);
        ItemCreditsSameKeys(l.products, mid.products, o.items, o.id);
        AppendsChain(l, mid, SweepLedger(l, orders, now),
          SweepCredits(l.products, front, now), ItemCredits(l.products, o.items, o.id), now);
      } else {
        assert SweepCredits(l.products, orders, now) == SweepCredits(l.products, front, now) + [];
      }
    }
  }

  /** The stock log after a sweep: the old rows are kept, and one row is
      appended per item of an expired order whose product exists, in table
      and item order. Each row names the item's product, carries the item's
      quantity as its change and the order's reversal reason, and is dated
      with the sweep's time. An item whose product is missing gets no row. */
  lemma SweepStockLog(l: Ledger, orders: seq<Order>, now: Instant)
    ensures var r := SweepLedger(l, orders, now);
      var credits := SweepCredits(l.products, orders, now);
      |r.logs| == |l.logs| + |credits| && r.logs[..|l.logs|] == l.logs &&
      forall k :: 0 <= k < |credits| ==>
        var row, c := r.logs[|l.logs| + k], credits[k];
        row.productId == c.item.productId && row.changeAmount == c.item.quantity &&
        row.reason == ReversalReason(c.orderId) && row.date == now
  {
    SweepAppends(l, orders, now);
    var r := SweepLedger(l, orders, now);
    forall k | 0 <= k < |SweepCredits(l.products, orders, now)|
      ensures RowRecords(r.logs[|l.logs| + k], SweepCredits(l.products, orders, now)[k], now)
    {
      assert r.logs[|l.logs| + k] == r.logs[|l.logs|..][k];
    }
  }

  /** Σ change over the rows about product `id`. */
  function LoggedQuantity(rows: seq<StockLog>, id: int): int
    decreases |rows|
  {
    if |rows| == 0 then 0
    else
      var last := rows[|rows| - 1];
      LoggedQuantity(rows[..|rows| - 1], id) + if last.productId == Some(id) then last.changeAmount else 0
  }

  /** Σ quantity over the credits about product `id`. */
  function CreditedQuantity(credits: seq<Credit>, id: int): int
    decreases |credits|
  {
    if |credits| == 0 then 0
    else
      var last := credits[|credits| - 1];
      CreditedQuantity(credits[..|credits| - 1], id) + if last.item.productId == Some(id) then last.item.quantity else 0
  }

  lemma {:induction false} CreditedQuantityAppend(a: seq<Credit>, b: seq<Credit>, id: int)
    ensures CreditedQuantity(a + b, id) == CreditedQuantity(a, id) + CreditedQuantity(b, id)
    decreases |b|
  {
    if |b| == 0 {
      assert a + b == a;
    } else {
      assert (a + b)[..|a + b| - 1] == a + b[..|b| - 1];
      CreditedQuantityAppend(a, b[..|b| - 1], id);
    }
  }

  lemma {:induction false} RowsQuantity(rows: seq<StockLog>, credits: seq<Credit>, now: Instant, id: int)
    requires RowsRecord(rows, credits, now)
    ensures LoggedQuantity(rows, id) == CreditedQuantity(credits, id)
    decreases |rows|
  {
    if |rows| > 0 {
      var n := |rows| - 1;
      assert RowsRecord(rows[..n], credits[..n], now) by {
        forall k | 0 <= k < n ensures RowRecords(rows[..n][k], credits[..n][k], now) {
          assert rows[..n][k] == rows[k] && credits[..n][k] == credits[k];
        }
      }
      RowsQuantity(rows[..n], credits[..n], now, id);
      assert RowRecords(rows[n], credits[n], now);
    }
  }

  lemma {:induction false} ItemCreditsQuantity(products: seq<Product>, items: seq<OrderItem>, orderId: int, id: int)
    requires FindProduct(products, Some(id)).Some?
    ensures CreditedQuantity(ItemCredits(products, items, orderId), id) == ItemsQuantity(items, id)
    decreases |items|
  {
    if |items| > 0 {
      var front, last := items[..|items| - 1], items[|items| - 1];
      ItemCreditsQuantity(products, front, orderId, id);
      var tail := if Found(products, last) then [Credit(last, orderId)] else [];
      CreditedQuantityAppend(ItemCredits(products, front, orderId), tail, id);
      assert tail == [] ==> CreditedQuantity(tail, id) == 0;
      assert tail != [] ==> tail[..0] == [];
    }
  }

  lemma {:induction false} SweepCreditsQuantity(products: seq<Product>, orders: seq<Order>, now: Instant, id: int)
    requires FindProduct(products, Some(id)).Some?
    ensures CreditedQuantity(SweepCredits(products, orders, now), id) == ExpiredQuantity(orders, id, now)
    decreases |orders|
  {
    if |orders| > 0 {
      var front, o := orders[..|orders| - 1], orders[|orders| - 1];
      SweepCreditsQuantity(products, front, now, id);
      var tail := if IsExpired(o, now) then ItemCredits(products, o.items, o.id) else [];
      CreditedQuantityAppend(SweepCredits(products, front, now), tail, id);
      if IsExpired(o, now) {
        ItemCreditsQuantity(products, o.items, o.id, id);
      }
    }
  }

  /** The log agrees with the stock: for every existing product, the changes
      of the rows a sweep appends about it add up to the quantity of the
      expired items referencing it, which is what its stock rose by. */
  lemma SweepLogSums(l: Ledger, orders: seq<Order>, now: Instant, id: int)
    requires FindProduct(l.products, Some(id)).Some?
    ensures var r := SweepLedger(l, orders, now);
      |l.logs| <= |r.logs| && LoggedQuantity(r.logs[|l.logs|..], id) == ExpiredQuantity(orders, id, now)
  {
    SweepAppends(l, orders, now);
    var r := SweepLedger(l, orders, now);
    RowsQuantity(r.logs[|l.logs|..], SweepCredits(l.products, orders, now), now, id);
    SweepCreditsQuantity(l.products, orders, now, id);
  }

  lemma {:induction false} LoggedQuantityAppend(a: seq<StockLog>, b: seq<StockLog>, id: int)
    ensures LoggedQuantity(a + b, id) == LoggedQuantity(a, id) + LoggedQuantity(b, id)
    decreases |b|
  {
    if |b| == 0 {
      assert a + b == a;
    } else {
      assert (a + b)[..|a + b| - 1] == a + b[..|b| - 1];
      LoggedQuantityAppend(a, b[..|b| - 1], id);
    }
  }

  /** `i` is the row `FirstOrDefault` finds for its own key. */
  predicate First(products: seq<Product>, i: int) {
    0 <= i < |products| && FindProduct(products, Some(products[i].id)) == Some(i)
  }

  /** Log row `k` names a product of `products` and records as the resulting
      stock that product's stock in `products` plus every change logged for it
      from `start` up to and including row `k`. */
  predicate RunningStock(products: seq<Product>, logs: seq<StockLog>, start: nat, k: nat)
    requires start <= k < |logs|
  {
    match FindProduct(products, logs[k].productId)
    case None => false
    case Some(i) => logs[k].resultStock == products[i].stock + LoggedQuantity(logs[start..k + 1], products[i].id)
  }

  /** From `before` to `after` the keys and the old log are kept, every
      product's stock rose by what the new rows log for it, and each new row
      records the running stock of its product. */
  predicate StockTracks(before: Ledger, after: Ledger) {
    && SameKeys(before.products, after.products)
    && |before.logs| <= |after.logs| && after.logs[..|before.logs|] == before.logs
    && (forall i :: 0 <= i < |before.products| && First(before.products, i) ==>
          after.products[i].stock == before.products[i].stock + LoggedQuantity(after.logs[|before.logs|..], before.products[i].id))
    && forall k :: |before.logs| <= k < |after.logs| ==> RunningStock(before.products, after.logs, |before.logs|, k)
  }

  lemma StockTracksNothing(l: Ledger)
    ensures StockTracks(l, l)
  {
    assert l.logs[|l.logs|..] == [];
  }

  lemma FirstSameKeys(a: seq<Product>, b: seq<Product>, i: int)
    requires SameKeys(a, b) && First(a, i)
    ensures First(b, i)
  {
    FindProductSameKeys(a, b, Some(a[i].id));
  }

  lemma ChainStock(l1: Ledger, l2: Ledger, l3: Ledger, i: int)
    requires StockTracks(l1, l2) && StockTracks(l2, l3) && 0 <= i < |l1.products| && First(l1.products, i)
    ensures l3.products[i].stock == l1.products[i].stock + LoggedQuantity(l3.logs[|l1.logs|..], l1.products[i].id)
  {
    var n1, n2 := |l1.logs|, |l2.logs|;
    FirstSameKeys(l1.products, l2.products, i);
    assert l3.logs[n1..] == l2.logs[n1..] + l3.logs[n2..] by {
      assert l3.logs == l2.logs + l3.logs[n2..];
    }
    LoggedQuantityAppend(l2.logs[n1..], l3.logs[n2..], l1.products[i].id);
  }

  /** A row's running stock survives appending further rows. */
  lemma RunningStockExtends(products: seq<Product>, logs: seq<StockLog>, more: seq<StockLog>, start: nat, k: nat)
    requires start <= k < |logs| && RunningStock(products, logs, start, k)
    ensures RunningStock(products, logs + more, start, k)
  {
    assert (logs + more)[start..k + 1] == logs[start..k + 1];
  }

  /** A row's running stock measured from a later ledger, moved back to an
      earlier one whose stock lagged by the rows logged in between. */
  lemma RunningStockShift(p1: seq<Product>, p2: seq<Product>, logs: seq<StockLog>, n1: nat, n2: nat, k: nat)
    requires SameKeys(p1, p2) && n1 <= n2 <= k < |logs| && RunningStock(p2, logs, n2, k)
    requires forall i :: 0 <= i < |p1| && First(p1, i) ==>
      p2[i].stock == p1[i].stock + LoggedQuantity(logs[n1..n2], p1[i].id)
    ensures RunningStock(p1, logs, n1, k)
  {
    FindProductSameKeys(p1, p2, logs[k].productId);
    var i := FindProduct(p1, logs[k].productId).value;
    assert First(p1, i);
    assert logs[n1..k + 1] == logs[n1..n2] + logs[n2..k + 1];
    LoggedQuantityAppend(logs[n1..n2], logs[n2..k + 1], p1[i].id);
  }

  lemma StockTracksChain(l1: Ledger, l2: Ledger, l3: Ledger)
    requires StockTracks(l1, l2) && StockTracks(l2, l3)
    ensures StockTracks(l1, l3)
  {
    assert l3.logs[..|l1.logs|] == l3.logs[..|l2.logs|][..|l1.logs|];
    assert l3.logs == l2.logs + l3.logs[|l2.logs|..];
    assert l3.logs[|l1.logs|..|l2.logs|] == l2.logs[|l1.logs|..];
    forall i | 0 <= i < |l1.products| && First(l1.products, i)
      ensures l3.products[i].stock == l1.products[i].stock + LoggedQuantity(l3.logs[|l1.logs|..], l1.products[i].id)
    {
      ChainStock(l1, l2, l3, i);
    }
    forall k | |l1.logs| <= k < |l3.logs|
      ensures RunningStock(l1.products, l3.logs, |l1.logs|, k)
    {
      if k < |l2.logs| {
        assert RunningStock(l1.products, l2.logs, |l1.logs|, k);
        RunningStockExtends(l1.products, l2.logs, l3.logs[|l2.logs|..], |l1.logs|, k);
      } else {
        assert RunningStock(l2.products, l3.logs, |l2.logs|, k);
        RunningStockShift(l1.products, l2.products, l3.logs, |l1.logs|, |l2.logs|, k);
      }
    }
  }

  lemma CreditItemTracks(l: Ledger, item: OrderItem, reason: string, now: Instant)
    ensures StockTracks(l, CreditItem(l, item, reason, now))
  {
    var r := CreditItem(l, item, reason, now);
    match FindProduct(l.products, item.productId)
    case None =>
      StockTracksNothing(l);
    case Some(c) =>
      var n := |l.logs|;
      var row := r.logs[n];
      assert r.logs[..n] == l.logs;
      assert r.logs[n..] == [row] && r.logs[n..n + 1] == [row];
      assert [row][..0] == [];
      forall i | First(l.products, i)
        ensures r.products[i].stock == l.products[i].stock + LoggedQuantity(r.logs[n..], l.products[i].id)
      {
        if i != c {
          assert l.products[i].id != l.products[c].id;
        }
      }
      assert RunningStock(l.products, r.logs, n, n);
  }

  lemma {:induction false} CreditItemsTrack(l: Ledger, items: seq<OrderItem>, reason: string, now: Instant)
    ensures StockTracks(l, CreditItems(l, items, reason, now))
    decreases |items|
  {
    if |items| == 0 {
      StockTracksNothing(l);
    } else {
      var mid := CreditItems(l, items[..|items| - 1], reason, now);
      CreditItemsTrack(l, items[..|items| - 1], reason, now);
      CreditItemTracks(mid, items[|items| - 1], reason, now);
      StockTracksChain(l, mid, CreditItems(l, items, reason, now));
    }
  }

  lemma {:induction false} SweepTracks(l: Ledger, orders: seq<Order>, now: Instant)
    ensures StockTracks(l, SweepLedger(l, orders, now))
    decreases |orders|
  {
    if |orders| == 0 {
      StockTracksNothing(l);
    } else {
      var before := SweepLedger(l, orders[..|orders| - 1], now);
      var o := orders[|orders| - 1];
      SweepTracks(l, orders[..|orders| - 1], now);
      if IsExpired(o, now) {
        CreditItemsTrack(before, o.items, ReversalReason(o.id), now);
        StockTracksChain(l, before, SweepLedger(l, orders, now));
      }
    }
  }

  /** Each row a sweep appends records, as the resulting stock, the stock of
      its product before the sweep plus every change logged for that product
      by this sweep up to and including the row: the stock just written. */
  lemma SweepResultStock(l: Ledger, orders: seq<Order>, now: Instant, k: nat)
    requires |l.logs| <= k < |SweepLedger(l, orders, now).logs|
    ensures var logs := SweepLedger(l, orders, now).logs;
      var f := FindProduct(l.products, logs[k].productId);
      f.Some? &&
      logs[k].resultStock == l.products[f.value].stock + LoggedQuantity(logs[|l.logs|..k + 1], l.products[f.value].id)
  {
    SweepTracks(l, orders, now);
    assert RunningStock(l.products, SweepLedger(l, orders, now).logs, |l.logs|, k);
  }

  /** Each reversal row names its order: different orders get different reasons. */
  lemma ReversalReasonInjective(a: int, b: int)
    requires ReversalReason(a) == ReversalReason(b)
    ensures a == b
  {
    var prefix := "Automata törlés (lejárt kártyás fizetés #";
    var ra, rb := ReversalReason(a), ReversalReason(b);
    assert |IntToString(a)| == |IntToString(b)|;
    assert IntToString(a) == ra[|prefix|..|ra| - 1];
    assert IntToString(b) == rb[|prefix|..|rb| - 1];
    IntToStringInjective(a, b);
  }
}
