/**
 * Services/InventoryMonitorService.cs: one sweep of the low-stock monitor.
 * Pass 1 alerts the administrator about the active products at or below
 * their threshold that have not been alerted yet and, if the alert went out,
 * latches their flag; pass 2 releases the flag of every product restocked
 * above its threshold.
 */
module InventoryMonitor {
  import opened Wrappers
  import opened Entities
  import opened Data
  import opened Emails

  /** Selected by pass 1. */
  predicate IsCritical(p: Product) {
    p.isActive && p.stock <= p.lowStockThreshold && !p.isLowStockAlertSent
  }

  /** Selected by pass 2, active or not. */
  predicate IsRestocked(p: Product) {
    p.stock > p.lowStockThreshold && p.isLowStockAlertSent
  }

  /** The products of pass 1's query, in table order. */
  function CriticalProducts(products: seq<Product>): (r: seq<Product>)
    ensures |r| <= |products|
    ensures forall p :: p in r <==> p in products && IsCritical(p)
  {
    if |products| == 0 then []
    else if IsCritical(products[0]) then [products[0]] + CriticalProducts(products[1..])
    else CriticalProducts(products[1..])
  }

  /** The selection works product by product: it distributes over
      concatenation. With `CriticalProductsSingle` this pins table order and
      multiplicity, which the alert rows inherit. */
  lemma {:induction false} CriticalProductsAppend(a: seq<Product>, b: seq<Product>)
    ensures CriticalProducts(a + b) == CriticalProducts(a) + CriticalProducts(b)
  {
    if |a| > 0 {
      assert (a + b)[1..] == a[1..] + b;
      CriticalProductsAppend(a[1..], b);
    } else {
      assert a + b == b;
    }
  }

  /** A single product is selected exactly when it is critical. */
  lemma CriticalProductsSingle(p: Product)
    ensures CriticalProducts([p]) == if IsCritical(p) then [p] else []
  {
    assert [p][1..] == [];
  }

  /** Pass 1 after a successful alert: every critical product is flagged. */
  function MarkAlerted(products: seq<Product>): seq<Product> {
    seq(|products|, i requires 0 <= i < |products| =>
      if IsCritical(products[i]) then products[i].(isLowStockAlertSent := true) else products[i])
  }

  /** Pass 2: every restocked product's flag is cleared. */
  function ClearRestocked(products: seq<Product>): seq<Product> {
    seq(|products|, i requires 0 <= i < |products| =>
      if IsRestocked(products[i]) then products[i].(isLowStockAlertSent := false) else products[i])
  }

  /** The products table after one sweep whose alert returned `sent`. */
  function Sweep(products: seq<Product>, sent: bool): seq<Product> {
    ClearRestocked(if sent then MarkAlerted(products) else products)
  }

  /** The latch as a rule on one product: after a sweep the flag is set exactly
      when the product is at or below its threshold and was either already
      flagged, or active and covered by a successful alert. */
  predicate FlagAfter(p: Product, sent: bool) {
    p.stock <= p.lowStockThreshold && (p.isLowStockAlertSent || (sent && p.isActive))
  }

  class InventoryMonitorService {
    const db: AppDb

    constructor (db: AppDb)
      ensures this.db == db
    {
      this.db := db;
    }

    /** One sweep. `adminEmail` is the configured administrator address and
        `delivered` what the transport reports for the alert, if one is sent.
        `called` tells whether the alert was attempted, `sent` what it
        returned, `message` what was handed to the transport. */
    method CheckInventory(adminEmail: Option<string>, delivered: bool)
      returns (called: bool, sent: bool, message: Option<AlertMessage>)
      modifies db
      ensures called <==> CriticalProducts(old(db.products)) != []
      ensures sent <==> called && HasAdminAddress(adminEmail) && delivered
      ensures message.Some? <==> called && HasAdminAddress(adminEmail)
      ensures message.Some? ==>
        message.value.to == adminEmail.value && message.value.subject == LowStockSubject
      ensures message.Some? ==>
        (called && |message.value.rows| == |CriticalProducts(old(db.products))| &&
         forall i :: 0 <= i < |message.value.rows| ==>
           message.value.rows[i] == AlertRowOf(CriticalProducts(old(db.products))[i]))
      ensures db.products == Sweep(old(db.products), sent)
      ensures db.orders == old(db.orders) && db.stockLogs == old(db.stockLogs)
      ensures db.subscribers == old(db.subscribers) && db.users == old(db.users)
      ensures db.siteSettings == old(db.siteSettings)
    {
      var products := db.products;
      var critical := CriticalProducts(products);
      called, sent, message := false, false, None;
      if |critical| > 0 {
        called := true;
        sent, message := SendLowStockAlert(adminEmail, critical, delivered);
        if sent {
          var marked := products;
          var i := 0;
          while i < |products|
            invariant 0 <= i <= |products| && |marked| == |products|
            invariant forall k :: 0 <= k < i ==> marked[k] == MarkAlerted(products)[k]
            invariant forall k :: i <= k < |products| ==> marked[k] == products[k]
            invariant unchanged(db)
          {
            if IsCritical(products[i]) {
              marked := marked[i := products[i].(isLowStockAlertSent := true)];
            }
            i := i + 1;
          }
          assert marked == MarkAlerted(products);
          db.products := marked;
        }
      }

      var current := db.products;
      var cleared := current;
      var changed := false;
      var j := 0;
      label PassTwo:
      while j < |current|
        invariant 0 <= j <= |current| && |cleared| == |current|
        invariant forall k :: 0 <= k < j ==> cleared[k] == ClearRestocked(current)[k]
        invariant forall k :: j <= k < |current| ==> cleared[k] == current[k]
        invariant !changed ==> cleared == current
        invariant unchanged@PassTwo(db)
      {
        if IsRestocked(current[j]) {
          cleared := cleared[j := current[j].(isLowStockAlertSent := false)];
          changed := true;
        }
        j := j + 1;
      }
      assert cleared == ClearRestocked(current);
      if changed {
        db.products := cleared;
      }
    }
  }

  // ---------------------------------------------------------------------------
  // Properties of a sweep
  // ---------------------------------------------------------------------------

  /** The two passes together follow the latch rule, and touch nothing but the
      flag: stock, threshold and every other field stay as they were. */
  lemma SweepFollowsLatchRule(products: seq<Product>, sent: bool)
    ensures |Sweep(products, sent)| == |products|
    ensures forall i :: 0 <= i < |products| ==>
      Sweep(products, sent)[i] == products[i].(isLowStockAlertSent := FlagAfter(products[i], sent))
  {
    var mid := if sent then MarkAlerted(products) else products;
    assert forall i :: 0 <= i < |products| ==>
      mid[i] == products[i].(isLowStockAlertSent := mid[i].isLowStockAlertSent);
  }

  /** After a sweep no product above its threshold is flagged, and a flagged
      product at or below its threshold keeps its flag. */
  lemma SweepReleasesOnlyRestocked(products: seq<Product>, sent: bool)
    ensures forall i :: 0 <= i < |products| ==>
      var p, q := products[i], Sweep(products, sent)[i];
      (q.stock > q.lowStockThreshold ==> !q.isLowStockAlertSent) &&
      (p.isLowStockAlertSent && p.stock <= p.lowStockThreshold ==> q.isLowStockAlertSent)
  {
    SweepFollowsLatchRule(products, sent);
  }

  /** After a sweep whose alert went out, an immediate second sweep finds
      nothing to alert about and so makes no call. */
  lemma SecondSweepSilent(products: seq<Product>)
    ensures CriticalProducts(Sweep(products, true)) == []
  {
    SweepFollowsLatchRule(products, true);
    NoneCriticalSelectsNothing(Sweep(products, true));
  }

  lemma {:induction false} NoneCriticalSelectsNothing(products: seq<Product>)
    requires forall i :: 0 <= i < |products| ==> !IsCritical(products[i])
    ensures CriticalProducts(products) == []
  {
    if |products| > 0 {
      NoneCriticalSelectsNothing(products[1..]);
    }
  }

  /** After a sweep whose alert failed (or was not attempted), the next sweep
      selects exactly the same products again: the alert is retried. */
  lemma {:induction false} FailedSweepRetries(products: seq<Product>)
    ensures CriticalProducts(Sweep(products, false)) == CriticalProducts(products)
  {
    if |products| > 0 {
      var after := Sweep(products, false);
      assert after[1..] == Sweep(products[1..], false);
      FailedSweepRetries(products[1..]);
      assert products == [products[0]] + products[1..];
    }
  }
}
