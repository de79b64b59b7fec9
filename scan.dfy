/** checkOwner: a bounded scan of one market's bid side that logs every large order. */
module Scan {
  import opened Ledger
  import opened Accounts

  /** Only the first ScanLimit orders of the bid side are examined. */
  const ScanLimit: nat := 50

  /** An order is large when its size is strictly above this (a fixed constant in the monitor). */
  const LargeSize: real := 1.2

  /** One console line of the scan: owner, size and price of a large order. */
  datatype Alert = Alert(owner: PublicKey, size: real, price: real)

  function AlertOf(o: Order): Alert
  {
    Alert(o.owner, o.size, o.price)
  }

  predicate IsLarge(o: Order)
  {
    o.size > LargeSize
  }

  /** The alerts for the large orders of `orders`, in book order. */
  function LargeOrders(orders: seq<Order>): (alerts: seq<Alert>)
    ensures |alerts| <= |orders|
  {
    if orders == [] then []
    else
      var last := orders[|orders| - 1];
      LargeOrders(orders[..|orders| - 1]) + (if IsLarge(last) then [AlertOf(last)] else [])
  }

  /** What the scan of a bid side reports: the large orders among its first ScanLimit. */
  function Reported(orders: seq<Order>): (alerts: seq<Alert>)
    ensures |alerts| <= ScanLimit
  {
    LargeOrders(orders[..if |orders| < ScanLimit then |orders| else ScanLimit])
  }

  /** The bid-side loop: `bidCount` counts the orders the iteration yields; the loop breaks on
      the one that takes it past ScanLimit, before looking at its size, and logs every examined
      order whose size is above LargeSize. The message it returns is never filled in. The asks
      are not scanned. */
  method CheckOwner(ctx: MarketContext) returns (marketMessage: string, alerts: seq<Alert>)
    ensures marketMessage == ""
    ensures alerts == Reported(ctx.bids.orders)
  {
    marketMessage := "";
    var bids := ctx.bids.orders;
    alerts := [];
    var bidCount := 0;
    var i := 0;
    while i < |bids|
      invariant 0 <= i <= |bids| && i <= ScanLimit
      invariant bidCount == i
      invariant alerts == LargeOrders(bids[..i])
    {
      var bid := bids[i];
      bidCount := bidCount + 1;
      if bidCount > ScanLimit {
        break;
      }
      if bid.size > LargeSize {
        alerts := alerts + [AlertOf(bid)];
      }
      assert bids[..i + 1][..i] == bids[..i];
      i := i + 1;
    }
    assert i == if |bids| < ScanLimit then |bids| else ScanLimit;
  }

  /** An order yields an alert exactly when it is large. */
  lemma {:induction false} LargeOrdersAt(orders: seq<Order>, a: Alert)
    ensures a in LargeOrders(orders) <==> exists i :: 0 <= i < |orders| && IsLarge(orders[i]) && AlertOf(orders[i]) == a
  {
    if orders != [] {
      var init := orders[..|orders| - 1];
      LargeOrdersAt(init, a);
      if a in LargeOrders(init) {
        var i :| 0 <= i < |init| && IsLarge(init[i]) && AlertOf(init[i]) == a;
        assert orders[i] == init[i];
      }
      if exists i :: 0 <= i < |orders| && IsLarge(orders[i]) && AlertOf(orders[i]) == a {
        var i :| 0 <= i < |orders| && IsLarge(orders[i]) && AlertOf(orders[i]) == a;
        if i < |init| {
          assert init[i] == orders[i];
        }
      }
    }
  }

  /** An alert is reported exactly for an order among the first ScanLimit whose size is
      strictly above LargeSize. */
  lemma ReportedIff(orders: seq<Order>, a: Alert)
    ensures a in Reported(orders) <==>
            exists i :: 0 <= i < |orders| && i < ScanLimit && orders[i].size > LargeSize && AlertOf(orders[i]) == a
  {
    var n := if |orders| < ScanLimit then |orders| else ScanLimit;
    var prefix := orders[..n];
    LargeOrdersAt(prefix, a);
    if exists i :: 0 <= i < |prefix| && IsLarge(prefix[i]) && AlertOf(prefix[i]) == a {
      var i :| 0 <= i < |prefix| && IsLarge(prefix[i]) && AlertOf(prefix[i]) == a;
      assert orders[i] == prefix[i];
    }
    if exists i :: 0 <= i < |orders| && i < ScanLimit && orders[i].size > LargeSize && AlertOf(orders[i]) == a {
      var i :| 0 <= i < |orders| && i < ScanLimit && orders[i].size > LargeSize && AlertOf(orders[i]) == a;
      assert prefix[i] == orders[i];
    }
  }

  /** An order of size exactly LargeSize is not reported, whatever its place in the book. */
  lemma AtThresholdNotReported(orders: seq<Order>, i: nat)
    requires i < |orders| && orders[i].size == LargeSize
    ensures AlertOf(orders[i]) !in Reported(orders)
  {
    ReportedIff(orders, AlertOf(orders[i]));
  }

  /** Orders past the first ScanLimit never influence the scan: whatever follows them in the
      book, the report is the same. */
  lemma {:induction false} ReportedIgnoresTail(orders: seq<Order>, tail: seq<Order>)
    requires |orders| >= ScanLimit
    ensures Reported(orders + tail) == Reported(orders)
  {
    assert (orders + tail)[..ScanLimit] == orders[..ScanLimit];
  }

  /** An empty book, or one without a large order, reports nothing. */
  lemma {:induction false} NoLargeOrderNoAlert(orders: seq<Order>)
    requires forall i :: 0 <= i < |orders| ==> orders[i].size <= LargeSize
    ensures Reported(orders) == []
  {
    if Reported(orders) != [] {
      var a := Reported(orders)[0];
      ReportedIff(orders, a);
      assert false;
    }
  }
}
