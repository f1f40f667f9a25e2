/** The order file and the operations that read and rewrite it: loading,
    saving, lazy cleanup of expired orders, appending a new order, and the
    order form's submission path that prices an order before saving it.

    Every reading of the wall clock is a parameter of its own, so the model
    keeps the separate readings of moo_chapatis.py apart. */
module Store {
  import opened Orders

  /** The order file on disk: not created yet, or holding a list of orders. */
  datatype OrdersFile = Missing | Written(orders: seq<Order>)

  class OrderStore {
    /** The durable state: the one order file, rewritten in full by every save. */
    var file: OrdersFile
    /** Orders broadcast to connected admin boards, oldest first. */
    ghost var broadcasts: seq<Order>

    /** A fresh deployment: no order file yet and nothing broadcast. */
    constructor ()
      ensures file == Missing && broadcasts == []
    {
      file := Missing;
      broadcasts := [];
    }

    /** What loading the file yields: the stored list, or the empty list when
        the file does not exist. */
    function Contents(): seq<Order>
      reads this
    {
      match file
      case Missing => []
      case Written(orders) => orders
    }

    /** Reads the order file; a missing file reads as no orders, not an error. */
    method LoadOrders() returns (orders: seq<Order>)
      ensures orders == Contents()
      ensures file.Missing? ==> orders == []
    {
      if file.Missing? {
        return [];
      }
      orders := file.orders;
    }

    /** Overwrites the whole file with `orders`: no merge with what was there. */
    method SaveOrders(orders: seq<Order>)
      modifies this`file
      ensures file == Written(orders)
      ensures Contents() == orders
    {
      file := Written(orders);
    }

    /** Drops every order that has expired at `now` and writes the rest back,
        creating the file when it did not exist. */
    method CleanupOrders(now: int)
      modifies this`file
      ensures file == Written(Prune(old(Contents()), now))
      ensures forall o :: o in Contents() ==> o in old(Contents()) && Unexpired(o, now)
      ensures forall o :: o in old(Contents()) && Unexpired(o, now) ==> o in Contents()
      ensures IsSubsequence(Contents(), old(Contents()))
    {
      var orders := LoadOrders();
      PruneIsSubsequence(orders, now);
      orders := Prune(orders, now);
      SaveOrders(orders);
    }

    /** Cleans up at `pruneNow`, then appends a new order stamped with the
        readings `createdNow` and `expiryNow`, saves the list, broadcasts the
        order and returns it. */
    method SaveNewOrder(product: string, quantity: int, totalPrice: int, location: string,
                        pruneNow: int, createdNow: int, expiryNow: int)
      returns (order: Order)
      modifies this
      ensures order == NewOrder(product, quantity, totalPrice, location, createdNow, expiryNow)
      ensures file == Written(Prune(old(Contents()), pruneNow) + [order])
      ensures |Contents()| == |Prune(old(Contents()), pruneNow)| + 1
      ensures Contents()[|Contents()| - 1] == order
      ensures broadcasts == old(broadcasts) + [order]
      ensures pruneNow < expiryNow + Retention ==>
                (forall o :: o in Contents() ==> o.expiresAt > pruneNow) &&
                Prune(Contents(), pruneNow) == Contents()
    {
      CleanupOrders(pruneNow);
      var orders := LoadOrders();
      order := NewOrder(product, quantity, totalPrice, location, createdNow, expiryNow);
      orders := orders + [order];
      SaveOrders(orders);
      broadcasts := broadcasts + [order];
      if pruneNow < expiryNow + Retention {
        AppendAfterPruneStaysLive(old(Contents()), order, pruneNow);
      }
    }
  }

  /** The order form's POST path: clean up on arrival at `requestNow`, price
      the order as quantity times the unit price (the quantity is not
      checked), and save it. */
  method SubmitOrder(store: OrderStore, product: string, quantity: int, location: string,
                     requestNow: int, pruneNow: int, createdNow: int, expiryNow: int)
    returns (order: Order)
    modifies store
    ensures order.totalPrice == TotalPrice(quantity)
    ensures order.quantity == quantity && order.product == product && order.location == location
    ensures order.createdAt == createdNow && order.expiresAt == expiryNow + Retention
    ensures store.file ==
              Written(Prune(Prune(old(store.Contents()), requestNow), pruneNow) + [order])
    ensures requestNow <= pruneNow ==>
              store.Contents() == Prune(old(store.Contents()), pruneNow) + [order]
    ensures store.broadcasts == old(store.broadcasts) + [order]
  {
    store.CleanupOrders(requestNow);
    var totalPrice := TotalPrice(quantity);
    order := store.SaveNewOrder(product, quantity, totalPrice, location,
                                pruneNow, createdNow, expiryNow);
    if requestNow <= pruneNow {
      PruneLaterAbsorbs(old(store.Contents()), requestNow, pruneNow);
    }
  }

  /** Saving what was just loaded leaves the stored orders as they were (a
      missing file becomes an empty one). */
  method ResaveIsNoop(store: OrderStore)
    modifies store`file
    ensures store.Contents() == old(store.Contents())
    ensures store.broadcasts == old(store.broadcasts)
    ensures store.file.Written?
  {
    var orders := store.LoadOrders();
    store.SaveOrders(orders);
  }
}
