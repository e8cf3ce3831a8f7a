/**
 * The order services. Unlike the other services they run directly on the request's database
 * session, without a unit of work, and never commit; the session is closed, and so rolled
 * back, when the request ends. Each order's total is recomputed lazily: adding an item marks
 * the order modified in the cache, and the next read re-sums the items.
 *
 * Here `uow.current` is the request session's view of the database; the order services read
 * and write it and leave `uow.committed`, the database itself, alone.
 */
module Orders {
  import opened Wrappers
  import opened Schema
  import opened Repository
  import opened Transaction
  import opened FlagCache

  // ---------------------------------------------------------------- pure rules

  /**
   * The total an order item is stored with: a missing or zero `total_price` is replaced by
   * quantity × price, and any other value is kept.
   */
  function ItemTotal(d: OrderItemCreate): (t: real)
    ensures d.totalPrice.None? || d.totalPrice == Some(0.0) ==> t == d.quantity as real * d.price
    ensures d.totalPrice.Some? && d.totalPrice.value != 0.0 ==> t == d.totalPrice.value
    ensures t == 0.0 ==> d.quantity as real * d.price == 0.0
  {
    if d.totalPrice.None? || d.totalPrice.value == 0.0 then d.quantity as real * d.price
    else d.totalPrice.value
  }

  /** The row an order item creation request stores. */
  function NewOrderItem(d: OrderItemCreate): (o: OrderItem)
    ensures o.totalPrice == ItemTotal(d)
    ensures o.quantity == d.quantity && o.address == d.address && o.price == d.price
    ensures o.orderId == d.orderId && o.productId == d.productId
  {
    OrderItem(d.quantity, d.address, d.price, ItemTotal(d), d.orderId, d.productId)
  }

  /** The column get_order_items selects by. */
  function OrderOf(o: OrderItem): Id {
    o.orderId
  }

  /** The sum of the items' totals. */
  function Total(items: seq<Entry<OrderItem>>): real {
    if |items| == 0 then 0.0 else Total(items[..|items| - 1]) + items[|items| - 1].rec.totalPrice
  }

  /** The total of a concatenation is the sum of the totals. */
  lemma {:induction false} TotalAppend(a: seq<Entry<OrderItem>>, b: seq<Entry<OrderItem>>)
    ensures Total(a + b) == Total(a) + Total(b)
    decreases |b|
  {
    if |b| == 0 {
      assert a + b == a;
    } else {
      assert (a + b)[..|a + b| - 1] == a + b[..|b| - 1];
      assert (a + b)[|a + b| - 1] == b[|b| - 1];
      TotalAppend(a, b[..|b| - 1]);
      assert Total(a + b) == Total(a + b[..|b| - 1]) + b[|b| - 1].rec.totalPrice;
    }
  }

  /** The items of an order, in id order. */
  function ItemsOf(db: Db, orderId: Id): (rs: seq<Entry<OrderItem>>)
    requires db.orderItem.Keyed()
    ensures forall e :: e in rs <==>
              e.id in db.orderItem.rows && e.rec == db.orderItem.rows[e.id] && e.rec.orderId == orderId
  {
    FindAllByParam(db.orderItem, OrderOf, orderId)
  }

  /** Adding an item raises the total of its own order by the item's total and no other. */
  lemma TotalAfterAdd(ts: TableState<OrderItem>, item: OrderItem, linked: bool, orderId: Id)
    requires ts.Valid(OrderItemClash)
    ensures var s := AddOne(ts, OrderItemClash, item, linked);
            s.result.Success? ==>
              Total(FindAllByParam(s.table, OrderOf, orderId))
              == Total(FindAllByParam(ts, OrderOf, orderId))
                 + (if item.orderId == orderId then item.totalPrice else 0.0)
  {
    var s := AddOne(ts, OrderItemClash, item, linked);
    if s.result.Success? {
      ListingAfterAdd(ts, OrderItemClash, item, Eq(OrderOf, orderId));
      var extra := if Eq(OrderOf, orderId)(item) then [Entry(ts.nextId, item)] else [];
      TotalAppend(FindAllByParam(ts, OrderOf, orderId), extra);
      assert Total(extra) == if item.orderId == orderId then item.totalPrice else 0.0 by {
        if item.orderId == orderId {
          assert extra[..0] == [];
        }
      }
    }
  }

  /** The order as get_order returns it after re-summing: the items' total, status "Ready". */
  function Refreshed(db: Db, orderId: Id): (o: Order)
    requires db.orderItem.Keyed() && orderId in db.order.rows
    ensures o.totalPrice == Total(ItemsOf(db, orderId)) && o.status == "Ready"
    ensures o.(totalPrice := db.order.rows[orderId].totalPrice, status := db.order.rows[orderId].status)
            == db.order.rows[orderId]
  {
    db.order.rows[orderId].(totalPrice := Total(ItemsOf(db, orderId)), status := "Ready")
  }

  // ---------------------------------------------------------------- services

  /**
   * Stores an order item, with its total filled in, in the request session, and marks its
   * order modified. An item whose order or product does not exist is refused by the store,
   * and then the flag is not touched. The id the insert draws stays used in the database.
   */
  method AddOrderItem(uow: UnitOfWork, cache: FlagStore, data: OrderItemCreate) returns (r: Result<Id, Error>)
    requires uow.Valid()
    modifies uow, cache
    ensures uow.Valid() && uow.committed == old(uow.committed).SequencesFrom(uow.current)
    ensures uow.open == old(uow.open) && uow.session == old(uow.session)
    ensures var db := old(uow.current);
            var item := NewOrderItem(data);
            if !db.OrderItemLinked(item) then
              && r == Failure(DuplicateEntry) && uow.current == db.(orderItem := db.orderItem.Skipped())
              && cache.entries == old(cache.entries)
            else
              && r == Success(db.orderItem.nextId) && db.orderItem.nextId !in db.orderItem.rows
              && uow.current == db.(orderItem := db.orderItem.Inserted(item))
              && cache.entries == old(cache.entries)[OrderFlagKey(data.orderId) := "True"]
  {
    var item := NewOrderItem(data);
    var cur := uow.current;
    OrderItemInsertedValid(cur, item);
    var s := AddOne(cur.orderItem, OrderItemClash, item, cur.OrderItemLinked(item));
    uow.current := cur.(orderItem := s.table);
    uow.KeepSequences();
    if s.result.Failure? {
      return s.result;
    }
    cache.Set(OrderFlagKey(data.orderId), "True");
    r := s.result;
  }

  /**
   * get_order_items as written: it calls `find_by_param`, a method the repository does not
   * have, so the call fails with an attribute error before any query runs.
   */
  method GetOrderItemsAsWritten(uow: UnitOfWork, orderId: Id) returns (r: Result<seq<Entry<OrderItem>>, Error>)
    ensures r == Failure(MissingRepositoryMethod)
  {
    r := Failure(MissingRepositoryMethod);
  }

  /** get_order_items with the repository's `find_all_by_param`: exactly the order's items. */
  method GetOrderItems(uow: UnitOfWork, orderId: Id) returns (rs: seq<Entry<OrderItem>>)
    requires uow.Valid()
    ensures var rows := uow.current.orderItem.rows;
            forall e :: e in rs <==> e.id in rows && e.rec == rows[e.id] && e.rec.orderId == orderId
    ensures Ascending(rs)
    ensures rs == ItemsOf(uow.current, orderId)
  {
    rs := FindAllByParam(uow.current.orderItem, OrderOf, orderId);
  }

  /**
   * Stores an order in the request session and records its flag as "False". The id the
   * insert draws stays used in the database.
   */
  method AddOrder(uow: UnitOfWork, cache: FlagStore, data: Order) returns (r: Result<Id, Error>)
    requires uow.Valid()
    modifies uow, cache
    ensures uow.Valid() && uow.committed == old(uow.committed).SequencesFrom(uow.current)
    ensures uow.open == old(uow.open) && uow.session == old(uow.session)
    ensures var db := old(uow.current);
            if Clashes(db.order.rows, OrderClash, data) then
              && r == Failure(DuplicateEntry) && uow.current == db.(order := db.order.Skipped())
              && cache.entries == old(cache.entries)
            else
              && r == Success(db.order.nextId) && db.order.nextId !in db.order.rows
              && uow.current == db.(order := db.order.Inserted(data))
              && cache.entries == old(cache.entries)[OrderFlagKey(db.order.nextId) := "False"]
  {
    var cur := uow.current;
    OrderInsertedValid(cur, data);
    var s := AddOne(cur.order, OrderClash, data, true);
    uow.current := cur.(order := s.table);
    uow.KeepSequences();
    if s.result.Failure? {
      return s.result;
    }
    cache.Set(OrderFlagKey(s.result.value), "False");
    r := s.result;
  }

  /**
   * get_order: an absent order is reported. A modified order has its total re-summed over its
   * items and its status set to "Ready", its flag is reset, and the refreshed row is returned;
   * any other order is returned as stored, and nothing is written.
   */
  method GetOrder(uow: UnitOfWork, cache: FlagStore, id: Id) returns (r: Result<Order, Error>)
    requires uow.Valid()
    modifies uow, cache
    ensures uow.Valid() && uow.committed == old(uow.committed)
    ensures uow.open == old(uow.open) && uow.session == old(uow.session)
    ensures var db := old(uow.current);
            if id !in db.order.rows then
              && r == Failure(OrderNotFound) && uow.current == db
              && cache.entries == old(cache.entries)
            else if Modified(old(cache.entries), id) then
              && r == Success(Refreshed(db, id))
              && uow.current == db.(order := db.order.Put(id, Refreshed(db, id)))
              && cache.entries == old(cache.entries)[OrderFlagKey(id) := "False"]
            else
              && r == Success(db.order.rows[id]) && uow.current == db
              && cache.entries == old(cache.entries)
  {
    var cur := uow.current;
    var order := FindOne(cur.order, id);
    if order.None? {
      return Failure(OrderNotFound);
    }
    var flag := cache.Get(OrderFlagKey(id));
    if flag != Some("True") {
      return Success(order.value);
    }
    var items := GetOrderItems(uow, id);
    var totals := OrderTotals(Total(items), "Ready");
    var o := Refreshed(cur, id);
    SameKeysNoClash(cur.order, OrderClash, id, o);
    OrderPutValid(cur, id, o);
    var s := UpdateOne(cur.order, OrderClash, id, totals, ApplyOrderTotals, (x: Order) => true);
    uow.current := cur.(order := s.table);
    cache.Set(OrderFlagKey(id), "False");
    var refreshed := FindOne(uow.current.order, id);
    r := Success(refreshed.value);
  }

  /**
   * get_order as written: a modified order sends it to get_order_items, which fails, so the
   * request fails before the total is written or the flag reset.
   */
  method GetOrderAsWritten(uow: UnitOfWork, cache: FlagStore, id: Id) returns (r: Result<Order, Error>)
    requires uow.Valid()
    ensures var db := uow.current;
            if id !in db.order.rows then r == Failure(OrderNotFound)
            else if Modified(cache.entries, id) then r == Failure(MissingRepositoryMethod)
            else r == Success(db.order.rows[id])
  {
    var order := FindOne(uow.current.order, id);
    if order.None? {
      return Failure(OrderNotFound);
    }
    var flag := cache.Get(OrderFlagKey(id));
    if flag != Some("True") {
      return Success(order.value);
    }
    var items := GetOrderItemsAsWritten(uow, id);
    if items.Failure? {
      return Failure(items.error);
    }
    assert false;
  }

  /**
   * update_order: replaces every column of the order in the request session and returns the
   * new data; a user who already has another order is refused by the store.
   */
  method UpdateOrder(uow: UnitOfWork, id: Id, data: Order) returns (r: Result<Order, Error>)
    requires uow.Valid()
    modifies uow
    ensures uow.Valid() && uow.committed == old(uow.committed)
    ensures uow.open == old(uow.open) && uow.session == old(uow.session)
    ensures var db := old(uow.current);
            if id !in db.order.rows then
              r == Failure(IdNotFound) && uow.current == db
            else if ClashesOther(db.order.rows, OrderClash, id, data) then
              r == Failure(IntegrityViolation) && uow.current == db
            else
              r == Success(data) && uow.current == db.(order := db.order.Put(id, data))
  {
    var cur := uow.current;
    OrderPutValid(cur, id, data);
    var s := UpdateOne(cur.order, OrderClash, id, data, Replace, (x: Order) => true);
    uow.current := cur.(order := s.table);
    r := s.result;
  }

  // ---------------------------------------------------------------- how the services combine

  /**
   * Within one session, reading an order twice in a row gives the same answer: the first read
   * settles the total.
   */
  method GetOrderTwice(uow: UnitOfWork, cache: FlagStore, id: Id) returns (first: Result<Order, Error>, second: Result<Order, Error>)
    requires uow.Valid()
    modifies uow, cache
    ensures first == second
    ensures uow.committed == old(uow.committed)
  {
    first := GetOrder(uow, cache, id);
    second := GetOrder(uow, cache, id);
  }

  /**
   * Within one session, an item added to an existing order shows up in the next read of that
   * order: the total grows by the item's total and the status becomes "Ready".
   */
  method AddItemThenGetOrder(uow: UnitOfWork, cache: FlagStore, data: OrderItemCreate)
      returns (r: Result<Id, Error>, g: Result<Order, Error>)
    requires uow.Valid()
    modifies uow, cache
    ensures var db := old(uow.current);
            r.Success? ==>
              && data.orderId in db.order.rows
              && g.Success? && g.value.status == "Ready"
              && g.value.totalPrice == Total(ItemsOf(db, data.orderId)) + ItemTotal(data)
  {
    ghost var db := uow.current;
    r := AddOrderItem(uow, cache, data);
    if r.Failure? {
      g := Failure(OrderNotFound);
      return;
    }
    TotalAfterAdd(db.orderItem, NewOrderItem(data), true, data.orderId);
    assert Modified(cache.entries, data.orderId);
    g := GetOrder(uow, cache, data.orderId);
  }

  /** The same sequence as written: after any item is added, reading its order fails. */
  method AddItemThenGetOrderAsWritten(uow: UnitOfWork, cache: FlagStore, data: OrderItemCreate)
      returns (r: Result<Id, Error>, g: Result<Order, Error>)
    requires uow.Valid()
    modifies uow, cache
    ensures r.Success? ==> g == Failure(MissingRepositoryMethod)
  {
    r := AddOrderItem(uow, cache, data);
    if r.Failure? {
      g := Failure(OrderNotFound);
      return;
    }
    assert Modified(cache.entries, data.orderId);
    g := GetOrderAsWritten(uow, cache, data.orderId);
  }

  // ---------------------------------------------------------------- whole requests

  /**
   * POST /orders/ as written: the route refuses an order for another user, then add_order runs
   * on the request's session, which is closed without a commit when the response is sent.
   * No order is stored, but the id the insert drew stays used, and the flag set for it stays
   * in the cache.
   */
  method CreateOrderRequest(uow: UnitOfWork, cache: FlagStore, sub: Id, data: Order) returns (r: Result<Id, Error>)
    requires uow.Valid()
    modifies uow, cache
    ensures uow.Idle()
    ensures var db := old(uow.committed);
            if data.userId != sub then
              r == Failure(AccessDenied) && uow.committed == db && cache.entries == old(cache.entries)
            else if Clashes(db.order.rows, OrderClash, data) then
              && r == Failure(DuplicateEntry) && uow.committed == db.(order := db.order.Skipped())
              && cache.entries == old(cache.entries)
            else
              && r == Success(db.order.nextId) && uow.committed == db.(order := db.order.Skipped())
              && cache.entries == old(cache.entries)[OrderFlagKey(db.order.nextId) := "False"]
  {
    uow.Enter();
    if data.userId != sub {
      uow.Exit();
      return Failure(AccessDenied);
    }
    r := AddOrder(uow, cache, data);
    uow.Exit();
  }

  /** POST /orders/ with a commit before the session closes: the order is stored. */
  method CreateOrderRequestCommitted(uow: UnitOfWork, cache: FlagStore, sub: Id, data: Order) returns (r: Result<Id, Error>)
    requires uow.Valid()
    modifies uow, cache
    ensures uow.Idle()
    ensures var db := old(uow.committed);
            if data.userId != sub then r == Failure(AccessDenied) && uow.committed == db
            else if Clashes(db.order.rows, OrderClash, data) then
              r == Failure(DuplicateEntry) && uow.committed == db.(order := db.order.Skipped())
            else
              && r == Success(db.order.nextId)
              && uow.committed == db.(order := db.order.Inserted(data))
              && cache.entries == old(cache.entries)[OrderFlagKey(db.order.nextId) := "False"]
  {
    uow.Enter();
    if data.userId != sub {
      uow.Exit();
      return Failure(AccessDenied);
    }
    r := AddOrder(uow, cache, data);
    if r.Success? {
      uow.Commit();
    }
    uow.Exit();
  }

  /** GET /orders/{id}: get_order on a fresh request session. */
  method GetOrderRequest(uow: UnitOfWork, cache: FlagStore, id: Id) returns (r: Result<Order, Error>)
    requires uow.Valid()
    modifies uow, cache
    ensures uow.Idle() && uow.committed == old(uow.committed)
    ensures var db := old(uow.committed);
            if id !in db.order.rows then
              r == Failure(OrderNotFound) && cache.entries == old(cache.entries)
            else if Modified(old(cache.entries), id) then
              && r == Success(Refreshed(db, id))
              && cache.entries == old(cache.entries)[OrderFlagKey(id) := "False"]
            else
              r == Success(db.order.rows[id]) && cache.entries == old(cache.entries)
  {
    uow.Enter();
    r := GetOrder(uow, cache, id);
    uow.Exit();
  }

  /**
   * Two reads of a modified order in two requests: the first returns the re-summed order and
   * resets the flag, but its write is rolled back, so the second returns the order as stored.
   */
  method GetOrderRequestTwice(uow: UnitOfWork, cache: FlagStore, id: Id)
      returns (first: Result<Order, Error>, second: Result<Order, Error>)
    requires uow.Valid()
    modifies uow, cache
    ensures uow.Idle() && uow.committed == old(uow.committed)
    ensures var db := old(uow.committed);
            id in db.order.rows && Modified(old(cache.entries), id) ==>
              && first == Success(Refreshed(db, id))
              && second == Success(db.order.rows[id])
              && (db.order.rows[id].status != "Ready" ==> first != second)
  {
    first := GetOrderRequest(uow, cache, id);
    second := GetOrderRequest(uow, cache, id);
  }

  /**
   * The same order sent twice: no order is stored by the first request, so the second is
   * accepted too, under the next id, because the first one's id stays used.
   */
  method CreateTwiceAsWritten(uow: UnitOfWork, cache: FlagStore, sub: Id, data: Order)
      returns (r1: Result<Id, Error>, r2: Result<Id, Error>)
    requires uow.Valid()
    modifies uow, cache
    ensures uow.Idle() && uow.committed.order.rows == old(uow.committed).order.rows
    ensures r1.Success? ==> r2 == Success(r1.value + 1)
  {
    r1 := CreateOrderRequest(uow, cache, sub, data);
    r2 := CreateOrderRequest(uow, cache, sub, data);
  }

  /** As written, an order just created is not found by the next request. */
  method CreateThenGetAsWritten(uow: UnitOfWork, cache: FlagStore, sub: Id, data: Order)
      returns (r: Result<Id, Error>, g: Result<Order, Error>)
    requires uow.Valid()
    modifies uow, cache
    ensures r.Success? ==> g == Failure(OrderNotFound)
  {
    r := CreateOrderRequest(uow, cache, sub, data);
    if r.Failure? {
      g := Failure(OrderNotFound);
      return;
    }
    g := GetOrderRequest(uow, cache, r.value);
  }

  /** With the commit, the next request finds the order just created, as it was sent. */
  method CreateThenGet(uow: UnitOfWork, cache: FlagStore, sub: Id, data: Order)
      returns (r: Result<Id, Error>, g: Result<Order, Error>)
    requires uow.Valid()
    modifies uow, cache
    ensures r.Success? ==> g == Success(data)
  {
    r := CreateOrderRequestCommitted(uow, cache, sub, data);
    if r.Failure? {
      g := Failure(OrderNotFound);
      return;
    }
    assert !Modified(cache.entries, r.value);
    g := GetOrderRequest(uow, cache, r.value);
  }
}
