/**
 * The database as the services see it, and the unit of work: it opens a session over the
 * committed contents of the seven tables, hands out one repository per table on that session,
 * and commits or rolls back.
 */
module Transaction {
  import opened Wrappers
  import opened Schema
  import opened Repository

  /** The contents of every table the services touch. */
  datatype Db = Db(category: TableState<Category>, product: TableState<Product>,
                   profile: TableState<Profile>, cart: TableState<Cart>,
                   cartItem: TableState<CartItem>, order: TableState<Order>,
                   orderItem: TableState<OrderItem>)
  {
    /** Every table keeps its keys and unique constraints. */
    ghost predicate TablesValid() {
      && category.Valid(CategoryClash)
      && product.Valid(ProductClash)
      && profile.Valid(ProfileClash)
      && cart.Valid(CartClash)
      && cartItem.Valid(CartItemClash)
      && order.Valid(OrderClash)
      && orderItem.Valid(OrderItemClash)
    }

    /** A product's category exists. */
    predicate ProductLinked(p: Product) {
      p.categoryId in category.rows
    }

    /** A cart item's cart and product exist. */
    predicate CartItemLinked(c: CartItem) {
      c.cartId in cart.rows && c.productId in product.rows
    }

    /** An order item's order and product exist. */
    predicate OrderItemLinked(o: OrderItem) {
      o.orderId in order.rows && o.productId in product.rows
    }

    /** Every foreign key resolves. */
    ghost predicate Linked() {
      && (forall k :: k in product.rows ==> ProductLinked(product.rows[k]))
      && (forall k :: k in cartItem.rows ==> CartItemLinked(cartItem.rows[k]))
      && (forall k :: k in orderItem.rows ==> OrderItemLinked(orderItem.rows[k]))
    }

    /** The constraints the store checks on every statement. */
    ghost predicate Valid() {
      TablesValid() && Linked()
    }

    /**
     * The store's ON DELETE CASCADE: products of a deleted category go, and with them, or with
     * a deleted cart or order, the cart items and order items that point at them.
     */
    function Cascaded(): Db {
      var product' := product.Kept((p: Product) => p.categoryId in category.rows);
      var cartItem' := cartItem.Kept((c: CartItem) => c.cartId in cart.rows && c.productId in product'.rows);
      var orderItem' := orderItem.Kept((o: OrderItem) => o.orderId in order.rows && o.productId in product'.rows);
      this.(product := product', cartItem := cartItem', orderItem := orderItem')
    }

    /**
     * The database with every id sequence moved up to where `other` has it. Sequences are not
     * transactional: an id a session has drawn stays used whether or not the session commits.
     */
    function SequencesFrom(other: Db): Db {
      Db(category.Advanced(other.category.nextId), product.Advanced(other.product.nextId),
         profile.Advanced(other.profile.nextId), cart.Advanced(other.cart.nextId),
         cartItem.Advanced(other.cartItem.nextId), order.Advanced(other.order.nextId),
         orderItem.Advanced(other.orderItem.nextId))
    }
  }

  /** Moving sequences forward keeps every row and every constraint, and never moves one back. */
  lemma SequencesFromValid(db: Db, other: Db)
    ensures db.Valid() ==> db.SequencesFrom(other).Valid()
    ensures var d := db.SequencesFrom(other);
            && d.category.rows == db.category.rows && d.product.rows == db.product.rows
            && d.profile.rows == db.profile.rows && d.cart.rows == db.cart.rows
            && d.cartItem.rows == db.cartItem.rows && d.order.rows == db.order.rows
            && d.orderItem.rows == db.orderItem.rows
            && d.order.nextId >= db.order.nextId && d.order.nextId >= other.order.nextId
  {
  }

  /**
   * Cascading restores referential integrity, keeps every row whose parents survive, and
   * deletes no category, cart, order or profile.
   */
  lemma CascadedValid(db: Db)
    requires db.TablesValid()
    ensures db.Cascaded().Valid()
    ensures db.Linked() ==> db.Cascaded() == db
    ensures db.Cascaded().category == db.category && db.Cascaded().cart == db.cart
    ensures db.Cascaded().order == db.order && db.Cascaded().profile == db.profile
    ensures forall k :: k in db.product.rows && db.ProductLinked(db.product.rows[k]) ==>
              k in db.Cascaded().product.rows
  {
    var c := db.Cascaded();
    KeptValid(db.product, ProductClash, (p: Product) => p.categoryId in db.category.rows);
    KeptValid(db.cartItem, CartItemClash, (i: CartItem) => i.cartId in db.cart.rows && i.productId in c.product.rows);
    KeptValid(db.orderItem, OrderItemClash, (o: OrderItem) => o.orderId in db.order.rows && o.productId in c.product.rows);
    if db.Linked() {
      KeptAll(db.product, (p: Product) => p.categoryId in db.category.rows);
      KeptAll(db.cartItem, (i: CartItem) => i.cartId in db.cart.rows && i.productId in db.product.rows);
      KeptAll(db.orderItem, (o: OrderItem) => o.orderId in db.order.rows && o.productId in db.product.rows);
    }
  }

  // ---------------------------------------------------------------- writes that keep the constraints

  lemma CategoryInsertedValid(db: Db, c: Category)
    ensures db.Valid() && !Clashes(db.category.rows, CategoryClash, c) ==>
              db.(category := db.category.Inserted(c)).Valid()
    ensures db.Valid() ==> db.(category := db.category.Skipped()).Valid()
  {
    InsertedValid(db.category, CategoryClash, c);
  }

  lemma CategoryPutValid(db: Db, id: Id, c: Category)
    ensures db.Valid() && id in db.category.rows && !ClashesOther(db.category.rows, CategoryClash, id, c) ==>
              db.(category := db.category.Put(id, c)).Valid()
  {
    PutValid(db.category, CategoryClash, id, c);
  }

  lemma ProductInsertedValid(db: Db, p: Product)
    ensures db.Valid() && db.ProductLinked(p) && !Clashes(db.product.rows, ProductClash, p) ==>
              db.(product := db.product.Inserted(p)).Valid()
    ensures db.Valid() ==> db.(product := db.product.Skipped()).Valid()
  {
    InsertedValid(db.product, ProductClash, p);
  }

  lemma ProductPutValid(db: Db, id: Id, p: Product)
    ensures db.Valid() && id in db.product.rows && db.ProductLinked(p)
            && !ClashesOther(db.product.rows, ProductClash, id, p) ==>
              db.(product := db.product.Put(id, p)).Valid()
  {
    PutValid(db.product, ProductClash, id, p);
  }

  lemma ProfileInsertedValid(db: Db, p: Profile)
    ensures db.Valid() && !Clashes(db.profile.rows, ProfileClash, p) ==>
              db.(profile := db.profile.Inserted(p)).Valid()
    ensures db.Valid() ==> db.(profile := db.profile.Skipped()).Valid()
  {
    InsertedValid(db.profile, ProfileClash, p);
  }

  lemma ProfilePutValid(db: Db, id: Id, p: Profile)
    ensures db.Valid() && id in db.profile.rows && !ClashesOther(db.profile.rows, ProfileClash, id, p) ==>
              db.(profile := db.profile.Put(id, p)).Valid()
  {
    PutValid(db.profile, ProfileClash, id, p);
  }

  lemma ProfileRemovedValid(db: Db, id: Id)
    ensures db.Valid() ==> db.(profile := db.profile.Removed(id)).Valid()
  {
    RemovedValid(db.profile, ProfileClash, id);
  }

  lemma CartInsertedValid(db: Db, c: Cart)
    ensures db.Valid() && !Clashes(db.cart.rows, CartClash, c) ==>
              db.(cart := db.cart.Inserted(c)).Valid()
    ensures db.Valid() ==> db.(cart := db.cart.Skipped()).Valid()
  {
    InsertedValid(db.cart, CartClash, c);
  }

  lemma CartItemInsertedValid(db: Db, c: CartItem)
    ensures db.Valid() && db.CartItemLinked(c) && !Clashes(db.cartItem.rows, CartItemClash, c) ==>
              db.(cartItem := db.cartItem.Inserted(c)).Valid()
    ensures db.Valid() ==> db.(cartItem := db.cartItem.Skipped()).Valid()
  {
    InsertedValid(db.cartItem, CartItemClash, c);
  }

  lemma CartItemPutValid(db: Db, id: Id, c: CartItem)
    ensures db.Valid() && id in db.cartItem.rows && db.CartItemLinked(c)
            && !ClashesOther(db.cartItem.rows, CartItemClash, id, c) ==>
              db.(cartItem := db.cartItem.Put(id, c)).Valid()
  {
    PutValid(db.cartItem, CartItemClash, id, c);
  }

  lemma CartItemRemovedValid(db: Db, id: Id)
    ensures db.Valid() ==> db.(cartItem := db.cartItem.Removed(id)).Valid()
  {
    RemovedValid(db.cartItem, CartItemClash, id);
  }

  lemma OrderInsertedValid(db: Db, o: Order)
    ensures db.Valid() && !Clashes(db.order.rows, OrderClash, o) ==>
              db.(order := db.order.Inserted(o)).Valid()
    ensures db.Valid() ==> db.(order := db.order.Skipped()).Valid()
  {
    InsertedValid(db.order, OrderClash, o);
  }

  lemma OrderPutValid(db: Db, id: Id, o: Order)
    ensures db.Valid() && id in db.order.rows && !ClashesOther(db.order.rows, OrderClash, id, o) ==>
              db.(order := db.order.Put(id, o)).Valid()
  {
    PutValid(db.order, OrderClash, id, o);
  }

  lemma OrderItemInsertedValid(db: Db, o: OrderItem)
    ensures db.Valid() && db.OrderItemLinked(o) ==>
              db.(orderItem := db.orderItem.Inserted(o)).Valid()
    ensures db.Valid() ==> db.(orderItem := db.orderItem.Skipped()).Valid()
  {
    InsertedValid(db.orderItem, OrderItemClash, o);
  }

  /**
   * The unit of work. `committed` is what the database holds; `current` is what the most
   * recently opened session sees: the committed contents it started from plus its own pending
   * writes. `session` counts the sessions opened so far; all seven repositories of the unit of
   * work read and write `current`, so they are bound to the same session. A closed session can
   * be used again: its next statement starts a new transaction on the committed contents.
   */
  class UnitOfWork {
    var committed: Db
    var current: Db
    var session: nat
    var open: bool

    /** The store checks its constraints statement by statement, so both states satisfy them. */
    ghost predicate Valid()
      reads this
    {
      committed.Valid() && current.Valid()
    }

    /** No writes are pending and the session is closed. */
    ghost predicate Idle()
      reads this
    {
      Valid() && current == committed && !open
    }

    constructor (data: Db)
      requires data.Valid()
      ensures Idle() && committed == data && session == 0
    {
      committed := data;
      current := data;
      session := 0;
      open := false;
    }

    /** __aenter__: a fresh session, which sees exactly the committed contents. */
    method Enter()
      requires Valid()
      modifies this
      ensures Valid() && open && session == old(session) + 1
      ensures committed == old(committed) && current == committed
    {
      session := session + 1;
      current := committed;
      open := true;
    }

    /** commit: the session's pending writes become durable. */
    method Commit()
      requires Valid()
      modifies this
      ensures Valid() && committed == old(current) && current == old(current)
      ensures open == old(open) && session == old(session)
    {
      committed := current;
    }

    /**
     * rollback: the session's pending writes are discarded. Ids the session drew were made
     * durable by KeepSequences when they were drawn, so they stay used.
     */
    method Rollback()
      requires Valid()
      modifies this
      ensures Valid() && current == old(committed) && committed == old(committed)
      ensures open == old(open) && session == old(session)
    {
      current := committed;
    }

    /**
     * What the store does when the session draws an id: the sequence moves on in the
     * database at once, outside the session's transaction, so the move survives a rollback.
     */
    method KeepSequences()
      requires Valid()
      modifies this
      ensures Valid() && committed == old(committed).SequencesFrom(current)
      ensures current == old(current) && open == old(open) && session == old(session)
    {
      SequencesFromValid(committed, current);
      committed := committed.SequencesFrom(current);
    }

    /** __aexit__: roll back, then close the session. */
    method Exit()
      requires Valid()
      modifies this
      ensures Idle() && committed == old(committed) && session == old(session)
    {
      Rollback();
      open := false;
    }
  }

  /** Writes committed inside a scope survive its exit; writes not committed do not. */
  method CommitThenExit(uow: UnitOfWork, db: Db)
    requires uow.Valid() && db.Valid()
    modifies uow
    ensures uow.Idle() && uow.committed == db
  {
    uow.Enter();
    uow.current := db;
    uow.Commit();
    uow.Exit();
  }

  /** A scope that writes without committing leaves the database as it was. */
  method ExitDiscards(uow: UnitOfWork, db: Db)
    requires uow.Valid() && db.Valid()
    modifies uow
    ensures uow.Idle() && uow.committed == old(uow.committed)
  {
    uow.Enter();
    uow.current := db;
    uow.Exit();
  }
}
