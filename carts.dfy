/**
 * The cart services. A user has at most one cart; only the cart's owner may put items in it;
 * a product sits in at most one cart item over the whole table; putting an item in a cart
 * reserves its quantity and taking it out releases it.
 */
module Carts {
  import opened Wrappers
  import opened Schema
  import opened Repository
  import opened Transaction
  import Products

  /** The column get_cart_by_param filters on. */
  function CartOwner(c: Cart): Id {
    c.userId
  }

  /** Whether some listed cart item holds the product: the loop of add_cart_item. */
  method ProductListed(items: seq<Entry<CartItem>>, productId: Id) returns (found: bool)
    ensures found <==> exists e :: e in items && e.rec.productId == productId
  {
    var i := 0;
    while i < |items|
      invariant 0 <= i <= |items|
      invariant forall j :: 0 <= j < i ==> items[j].rec.productId != productId
    {
      if items[i].rec.productId == productId {
        return true;
      }
      i := i + 1;
    }
    return false;
  }

  // ---------------------------------------------------------------- carts

  /** The cart with the given id; an absent id is reported as such. */
  method GetCart(uow: UnitOfWork, cartId: Id) returns (r: Result<Cart, Error>)
    requires uow.Valid()
    modifies uow
    ensures uow.Idle() && uow.committed == old(uow.committed)
    ensures var rows := uow.committed.cart.rows;
            r == if cartId in rows then Success(rows[cartId]) else Failure(CartNotFound)
  {
    uow.Enter();
    var c := FindOne(uow.current.cart, cartId);
    uow.Exit();
    if c.Some? {
      r := Success(c.value);
    } else {
      r := Failure(CartNotFound);
    }
  }

  /**
   * The single cart whose column `col` equals `v`; none is reported as not found, and several
   * make the single-row fetch fail.
   */
  method GetCartByParam<V(==)>(uow: UnitOfWork, col: Cart -> V, v: V) returns (r: Result<Entry<Cart>, Error>)
    requires uow.Valid()
    modifies uow
    ensures uow.Idle() && uow.committed == old(uow.committed)
    ensures var rows := uow.committed.cart.rows;
            && (r == Failure(CartNotFound) <==> forall k :: k in rows ==> col(rows[k]) != v)
            && (r.Success? ==>
                  && r.value.id in rows && r.value.rec == rows[r.value.id] && col(r.value.rec) == v
                  && forall k :: k in rows && col(rows[k]) == v ==> k == r.value.id)
            && (r.Failure? ==> r.error in {CartNotFound, MultipleRowsFound})
            && (r == Failure(MultipleRowsFound) ==>
                  exists i, j :: i in rows && j in rows && i != j && col(rows[i]) == v && col(rows[j]) == v)
  {
    uow.Enter();
    var f := FindOneByParam(uow.current.cart, col, v);
    uow.Exit();
    if f.Failure? {
      r := Failure(f.error);
    } else if f.value.Some? {
      r := Success(f.value.value);
    } else {
      r := Failure(CartNotFound);
    }
  }

  /** The user's cart: since user ids are unique among carts, the lookup never finds several. */
  method GetCartOfUser(uow: UnitOfWork, userId: Id) returns (r: Result<Entry<Cart>, Error>)
    requires uow.Valid()
    modifies uow
    ensures uow.Idle() && uow.committed == old(uow.committed)
    ensures var rows := uow.committed.cart.rows;
            && (r.Failure? <==> forall k :: k in rows ==> rows[k].userId != userId)
            && (r.Failure? ==> r.error == CartNotFound)
            && (r.Success? ==> r.value.id in rows && r.value.rec == rows[r.value.id] && r.value.rec.userId == userId)
  {
    r := GetCartByParam(uow, CartOwner, userId);
    if r.Failure? && r.error == MultipleRowsFound {
      assert false;
    }
  }

  /** Creates the user's cart and returns its id; a second cart for the same user is refused. */
  method AddCart(uow: UnitOfWork, data: Cart) returns (r: Result<Id, Error>)
    requires uow.Valid()
    modifies uow
    ensures uow.Idle()
    ensures var db := old(uow.committed);
            if exists k :: k in db.cart.rows && db.cart.rows[k].userId == data.userId then
              r == Failure(CartAlreadyExists) && uow.committed == db
            else
              r == Success(db.cart.nextId) && uow.committed == db.(cart := db.cart.Inserted(data))
  {
    uow.Enter();
    var f := FindOneByParam(uow.current.cart, CartOwner, data.userId);
    if f.Success? && f.value.None? {
      CartInsertedValid(uow.current, data);
      var s := AddOne(uow.current.cart, CartClash, data, true);
      uow.current := uow.current.(cart := s.table);
      uow.Commit();
      uow.Exit();
      return s.result;
    }
    uow.Exit();
    r := Failure(CartAlreadyExists);
  }

  /** Deletes the user's cart, and with it its items; a user without a cart is reported. */
  method DeleteCart(uow: UnitOfWork, userId: Id) returns (r: Result<Id, Error>)
    requires uow.Valid()
    modifies uow
    ensures uow.Idle()
    ensures var db := old(uow.committed);
            if forall k :: k in db.cart.rows ==> db.cart.rows[k].userId != userId then
              r == Failure(CartNotFound) && uow.committed == db
            else
              && r.Success? && r.value in db.cart.rows && db.cart.rows[r.value].userId == userId
              && uow.committed == db.(cart := db.cart.Removed(r.value)).Cascaded()
  {
    var c := GetCartOfUser(uow, userId);
    if c.Failure? {
      return Failure(c.error);
    }
    uow.Enter();
    var s := DeleteOne(uow.current.cart, c.value.id);
    RemovedValid(uow.current.cart, CartClash, c.value.id);
    var after := uow.current.(cart := s.table);
    CascadedValid(after);
    uow.current := after.Cascaded();
    uow.Commit();
    uow.Exit();
    r := s.result;
  }

  // ---------------------------------------------------------------- cart items

  /** The cart exists and belongs to the caller `sub`. */
  method CheckExistingUserCart(uow: UnitOfWork, sub: Id, cartId: Id) returns (o: Outcome<Error>)
    requires uow.Valid()
    modifies uow
    ensures uow.Idle() && uow.committed == old(uow.committed)
    ensures var rows := uow.committed.cart.rows;
            o == if cartId !in rows then Fail(CartNotFound)
                 else if rows[cartId].userId != sub then Fail(AccessDenied)
                 else Pass
  {
    var c := GetCart(uow, cartId);
    if c.Failure? {
      return Fail(c.error);
    }
    if c.value.userId != sub {
      return Fail(AccessDenied);
    }
    o := Pass;
  }

  /**
   * Puts an item in the caller's cart and returns its id. The product must not be in any cart
   * item yet; its quantity is then reserved, and committed, before the item is inserted and
   * committed in turn.
   */
  method AddCartItem(uow: UnitOfWork, data: CartItem, sub: Id) returns (r: Result<Id, Error>)
    requires uow.Valid()
    modifies uow
    ensures uow.Idle()
    ensures var db := old(uow.committed);
            if data.cartId !in db.cart.rows then
              r == Failure(CartNotFound) && uow.committed == db
            else if db.cart.rows[data.cartId].userId != sub then
              r == Failure(AccessDenied) && uow.committed == db
            else if exists k :: k in db.cartItem.rows && db.cartItem.rows[k].productId == data.productId then
              r == Failure(ProductAlreadyInCart) && uow.committed == db
            else if data.productId !in db.product.rows then
              r == Failure(ProductNotFound) && uow.committed == db
            else
              var p := Products.Reserve(db.product.rows[data.productId], data.quantity);
              if p.Failure? then
                r == Failure(NotEnoughQuantity) && uow.committed == db
              else
                && r == Success(db.cartItem.nextId)
                && uow.committed == db.(product := db.product.Put(data.productId, p.value),
                                        cartItem := db.cartItem.Inserted(data))
  {
    var check := CheckExistingUserCart(uow, sub, data.cartId);
    if check.Fail? {
      return Failure(check.error);
    }
    uow.Enter();
    var items := FindAll(uow.current.cartItem);
    var found := ProductListed(items, data.productId);
    if found {
      uow.Exit();
      return Failure(ProductAlreadyInCart);
    }
    assert !Clashes(uow.current.cartItem.rows, CartItemClash, data) by {
      forall k | k in uow.current.cartItem.rows
        ensures uow.current.cartItem.rows[k].productId != data.productId
      {
        assert Entry(k, uow.current.cartItem.rows[k]) in items;
      }
    }
    var o := Products.ReserveProductQuantity(uow, data.productId, data.quantity);
    if o.Fail? {
      uow.Exit();
      return Failure(o.error);
    }
    CartItemInsertedValid(uow.current, data);
    var s := AddOne(uow.current.cartItem, CartItemClash, data, uow.current.CartItemLinked(data));
    uow.current := uow.current.(cartItem := s.table);
    if s.result.Success? {
      uow.Commit();
    }
    uow.Exit();
    r := s.result;
  }

  /** The column the caller's items are selected by. */
  function ItemCart(c: CartItem): Id {
    c.cartId
  }

  /**
   * get_cart_items as written: the caller must have a cart, and then every cart item in the
   * table is returned, whichever cart it is in.
   */
  method GetCartItemsAsWritten(uow: UnitOfWork, sub: Id) returns (r: Result<seq<Entry<CartItem>>, Error>)
    requires uow.Valid()
    modifies uow
    ensures uow.Idle() && uow.committed == old(uow.committed)
    ensures var db := uow.committed;
            if forall k :: k in db.cart.rows ==> db.cart.rows[k].userId != sub then
              r == Failure(CartNotFound)
            else
              && r.Success? && Ascending(r.value)
              && forall e :: e in r.value <==> e.id in db.cartItem.rows && e.rec == db.cartItem.rows[e.id]
  {
    var c := GetCartOfUser(uow, sub);
    if c.Failure? {
      return Failure(c.error);
    }
    uow.Enter();
    var items := FindAll(uow.current.cartItem);
    uow.Exit();
    r := Success(items);
  }

  /**
   * get_cart_items restricted to the caller's cart, as the route documents it: exactly the
   * items whose cart belongs to the caller.
   */
  method GetCartItems(uow: UnitOfWork, sub: Id) returns (r: Result<seq<Entry<CartItem>>, Error>)
    requires uow.Valid()
    modifies uow
    ensures uow.Idle() && uow.committed == old(uow.committed)
    ensures var db := uow.committed;
            if forall k :: k in db.cart.rows ==> db.cart.rows[k].userId != sub then
              r == Failure(CartNotFound)
            else
              && r.Success? && Ascending(r.value)
              && forall e :: e in r.value <==>
                   && e.id in db.cartItem.rows && e.rec == db.cartItem.rows[e.id]
                   && db.cart.rows[e.rec.cartId].userId == sub
  {
    ghost var db := uow.committed;
    var c := GetCartOfUser(uow, sub);
    if c.Failure? {
      return Failure(c.error);
    }
    uow.Enter();
    var items := FindAllByParam(uow.current.cartItem, ItemCart, c.value.id);
    uow.Exit();
    forall k | k in db.cart.rows && db.cart.rows[k].userId == sub
      ensures k == c.value.id
    {
      assert CartClash(db.cart.rows[k], db.cart.rows[c.value.id]);
    }
    r := Success(items);
  }

  /** The cart item with the given id, provided its cart belongs to the caller. */
  method GetCartItem(uow: UnitOfWork, sub: Id, itemId: Id) returns (r: Result<CartItem, Error>)
    requires uow.Valid()
    modifies uow
    ensures uow.Idle() && uow.committed == old(uow.committed)
    ensures var db := uow.committed;
            if itemId !in db.cartItem.rows then r == Failure(CartItemNotFound)
            else
              var item := db.cartItem.rows[itemId];
              if item.cartId !in db.cart.rows then r == Failure(CartNotFound)
              else if db.cart.rows[item.cartId].userId != sub then r == Failure(AccessDenied)
              else r == Success(item)
  {
    uow.Enter();
    var item := FindOne(uow.current.cartItem, itemId);
    if item.None? {
      uow.Exit();
      return Failure(CartItemNotFound);
    }
    var check := CheckExistingUserCart(uow, sub, item.value.cartId);
    uow.Exit();
    if check.Fail? {
      return Failure(check.error);
    }
    r := Success(item.value);
  }

  /**
   * Takes an item out of the caller's cart: the product's reserved quantity is lowered by the
   * item's quantity and committed, then the item is deleted and committed. This is what
   * delete_cart_item sets out to do; DeleteCartItemAsWritten is what its schema lets it do.
   */
  method DeleteCartItem(uow: UnitOfWork, sub: Id, itemId: Id) returns (r: Result<Id, Error>)
    requires uow.Valid()
    modifies uow
    ensures uow.Idle()
    ensures var db := old(uow.committed);
            if itemId !in db.cartItem.rows then
              r == Failure(CartItemNotFound) && uow.committed == db
            else
              var item := db.cartItem.rows[itemId];
              if db.cart.rows[item.cartId].userId != sub then
                r == Failure(AccessDenied) && uow.committed == db
              else
                var p := db.product.rows[item.productId];
                && r == Success(itemId)
                && uow.committed == db.(product := db.product.Put(item.productId, Products.Release(p, item.quantity)),
                                        cartItem := db.cartItem.Removed(itemId))
  {
    ghost var db := uow.committed;
    var item := GetCartItem(uow, sub, itemId);
    if item.Failure? {
      return Failure(item.error);
    }
    assert itemId in db.cartItem.rows && item.value == db.cartItem.rows[itemId];
    assert item.value.productId in db.product.rows;
    var o := Products.ReleaseProductQuantity(uow, item.value.productId, item.value.quantity);
    // the store keeps the item's product, so the release cannot fail
    assert o.Pass?;
    uow.Enter();
    var s := DeleteOne(uow.current.cartItem, itemId);
    CartItemRemovedValid(uow.current, itemId);
    uow.current := uow.current.(cartItem := s.table);
    if s.result.Success? {
      uow.Commit();
    }
    uow.Exit();
    r := s.result;
  }

  /**
   * delete_cart_item as written: the reserved quantity is passed to the partial product
   * schema, which does not declare it and drops it, so the partial update has nothing to set
   * and fails. The request fails before the item is deleted, and nothing is written.
   */
  method DeleteCartItemAsWritten(uow: UnitOfWork, sub: Id, itemId: Id) returns (r: Result<Id, Error>)
    requires uow.Valid()
    modifies uow
    ensures uow.Idle() && uow.committed == old(uow.committed)
    ensures var db := old(uow.committed);
            if itemId !in db.cartItem.rows then r == Failure(CartItemNotFound)
            else if db.cart.rows[db.cartItem.rows[itemId].cartId].userId != sub then
              r == Failure(AccessDenied)
            else
              r == Failure(NothingToUpdate)
  {
    ghost var db := uow.committed;
    var item := GetCartItem(uow, sub, itemId);
    if item.Failure? {
      return Failure(item.error);
    }
    assert item.value.productId in db.product.rows;
    var product := Products.GetProduct(uow, item.value.productId);
    // the reserved quantity is all the schema is given, and it keeps none of it
    var u := Products.UpdateProductPartial(uow, item.value.productId, ProductPatch(None, None, None, None, None));
    assert u.Failure?;
    r := Failure(u.error);
  }

  /**
   * Replaces a cart item's columns and returns the new data. The cart named in the new data
   * must belong to the caller and its product must exist; reserved quantities are not touched.
   */
  method UpdateCartItem(uow: UnitOfWork, sub: Id, itemId: Id, data: CartItem) returns (r: Result<CartItem, Error>)
    requires uow.Valid()
    modifies uow
    ensures uow.Idle()
    ensures var db := old(uow.committed);
            if data.cartId !in db.cart.rows then
              r == Failure(CartNotFound) && uow.committed == db
            else if db.cart.rows[data.cartId].userId != sub then
              r == Failure(AccessDenied) && uow.committed == db
            else if data.productId !in db.product.rows then
              r == Failure(ProductNotFound) && uow.committed == db
            else if itemId !in db.cartItem.rows then
              r == Failure(IdNotFound) && uow.committed == db
            else if ClashesOther(db.cartItem.rows, CartItemClash, itemId, data) then
              r == Failure(IntegrityViolation) && uow.committed == db
            else
              r == Success(data) && uow.committed == db.(cartItem := db.cartItem.Put(itemId, data))
  {
    var check := CheckExistingUserCart(uow, sub, data.cartId);
    if check.Fail? {
      return Failure(check.error);
    }
    var product := Products.GetProduct(uow, data.productId);
    if product.Failure? {
      return Failure(product.error);
    }
    uow.Enter();
    var cur := uow.current;
    CartItemPutValid(cur, itemId, data);
    var s := UpdateOne(cur.cartItem, CartItemClash, itemId, data, Replace, (c: CartItem) => cur.CartItemLinked(c));
    uow.current := cur.(cartItem := s.table);
    if s.result.Success? {
      uow.Commit();
    }
    uow.Exit();
    r := s.result;
  }

  /**
   * As written, update_cart_item checks only the cart named in the new data: a caller can
   * rewrite, and so move into their own cart, an item that sits in another user's cart.
   */
  method TakeOverItemAsWritten(uow: UnitOfWork, sub: Id, itemId: Id, data: CartItem) returns (r: Result<CartItem, Error>)
    requires uow.Valid()
    requires var db := uow.committed;
             && itemId in db.cartItem.rows && db.cartItem.rows[itemId].cartId in db.cart.rows
             && db.cart.rows[db.cartItem.rows[itemId].cartId].userId != sub
             && data.cartId in db.cart.rows && db.cart.rows[data.cartId].userId == sub
             && data.productId in db.product.rows
             && !ClashesOther(db.cartItem.rows, CartItemClash, itemId, data)
    modifies uow
    ensures r == Success(data)
    ensures itemId in uow.committed.cartItem.rows && uow.committed.cartItem.rows[itemId] == data
  {
    r := UpdateCartItem(uow, sub, itemId, data);
  }

  /**
   * update_cart_item with the owner check of get_cart_item on the item as it is stored: only
   * an item already in the caller's cart can be rewritten, and only into a cart of theirs.
   */
  method UpdateOwnCartItem(uow: UnitOfWork, sub: Id, itemId: Id, data: CartItem) returns (r: Result<CartItem, Error>)
    requires uow.Valid()
    modifies uow
    ensures uow.Idle()
    ensures var db := old(uow.committed);
            if itemId !in db.cartItem.rows then
              r == Failure(CartItemNotFound) && uow.committed == db
            else if db.cart.rows[db.cartItem.rows[itemId].cartId].userId != sub then
              r == Failure(AccessDenied) && uow.committed == db
            else if data.cartId !in db.cart.rows then
              r == Failure(CartNotFound) && uow.committed == db
            else if db.cart.rows[data.cartId].userId != sub then
              r == Failure(AccessDenied) && uow.committed == db
            else if data.productId !in db.product.rows then
              r == Failure(ProductNotFound) && uow.committed == db
            else if ClashesOther(db.cartItem.rows, CartItemClash, itemId, data) then
              r == Failure(IntegrityViolation) && uow.committed == db
            else
              r == Success(data) && uow.committed == db.(cartItem := db.cartItem.Put(itemId, data))
    ensures r.Success? ==> old(uow.committed).cart.rows[old(uow.committed).cartItem.rows[itemId].cartId].userId == sub
  {
    var owned := GetCartItem(uow, sub, itemId);
    if owned.Failure? {
      return Failure(owned.error);
    }
    r := UpdateCartItem(uow, sub, itemId, data);
  }

  /**
   * The partial form of the same update. Every field is written, so a missing quantity or
   * price stores NULL in a NOT NULL column and the store refuses it; a missing cart or product
   * is not found.
   */
  method UpdatePartialCartItem(uow: UnitOfWork, sub: Id, itemId: Id, patch: CartItemPatch)
    returns (r: Result<CartItemPatch, Error>)
    requires uow.Valid()
    modifies uow
    ensures uow.Idle()
    ensures var db := old(uow.committed);
            if patch.cartId.None? || patch.cartId.value !in db.cart.rows then
              r == Failure(CartNotFound) && uow.committed == db
            else if db.cart.rows[patch.cartId.value].userId != sub then
              r == Failure(AccessDenied) && uow.committed == db
            else if patch.productId.None? || patch.productId.value !in db.product.rows then
              r == Failure(ProductNotFound) && uow.committed == db
            else if itemId !in db.cartItem.rows then
              r == Failure(IdNotFound) && uow.committed == db
            else if patch.quantity.None? || patch.price.None? then
              r == Failure(IntegrityViolation) && uow.committed == db
            else
              var item := CartItem(patch.quantity.value, patch.price.value, patch.cartId.value, patch.productId.value);
              if ClashesOther(db.cartItem.rows, CartItemClash, itemId, item) then
                r == Failure(IntegrityViolation) && uow.committed == db
              else
                r == Success(patch) && uow.committed == db.(cartItem := db.cartItem.Put(itemId, item))
  {
    if patch.cartId.None? {
      uow.Enter();
      uow.Exit();
      return Failure(CartNotFound);
    }
    var check := CheckExistingUserCart(uow, sub, patch.cartId.value);
    if check.Fail? {
      return Failure(check.error);
    }
    if patch.productId.None? {
      uow.Enter();
      uow.Exit();
      return Failure(ProductNotFound);
    }
    var product := Products.GetProduct(uow, patch.productId.value);
    if product.Failure? {
      return Failure(product.error);
    }
    uow.Enter();
    var cur := uow.current;
    if itemId in cur.cartItem.rows && ApplyCartItemPatch(cur.cartItem.rows[itemId], patch).Some? {
      CartItemPutValid(cur, itemId, ApplyCartItemPatch(cur.cartItem.rows[itemId], patch).value);
    }
    var s := UpdateOne(cur.cartItem, CartItemClash, itemId, patch, ApplyCartItemPatch, (c: CartItem) => cur.CartItemLinked(c));
    uow.current := cur.(cartItem := s.table);
    if s.result.Success? {
      uow.Commit();
    }
    uow.Exit();
    r := s.result;
  }
}
