/**
 * The product service: products are stored at their discounted price, listed, fetched,
 * changed, deleted, and reserved for cart items.
 */
module Products {
  import opened Wrappers
  import opened Schema
  import opened Repository
  import opened Transaction
  import Categories

  // ---------------------------------------------------------------- pure rules

  /** The row a creation request stores: the listed price with the discount taken off, nothing reserved. */
  function NewProduct(d: ProductCreate): (p: Product)
    ensures p.price == d.price - d.price * d.discount
    ensures p.discount == d.discount && p.reservedQuantity == 0
    ensures p.name == d.name && p.description == d.description && p.quantity == d.quantity
    ensures p.nameImage == d.nameImage && p.categoryId == d.categoryId
    ensures 0.0 < d.discount <= 1.0 && 0.0 <= d.price ==> p.price <= d.price
  {
    Product(d.name, d.description, d.price * (1.0 - d.discount), d.quantity, d.nameImage,
            d.categoryId, 0, d.discount)
  }

  /** The product is discounted, the filter of get_products_only_discount. */
  function Discount(p: Product): real {
    p.discount
  }

  /**
   * A reservation of `n` units: it succeeds exactly when `n` units are still available, and
   * then only the reserved quantity grows, by `n`.
   */
  function Reserve(p: Product, n: int): (r: Result<Product, Error>)
    ensures r.Success? <==> n <= p.quantity - p.reservedQuantity
    ensures r.Failure? ==> r.error == NotEnoughQuantity
    ensures r.Success? ==>
              && r.value.reservedQuantity == p.reservedQuantity + n
              && r.value == p.(reservedQuantity := r.value.reservedQuantity)
              && r.value.reservedQuantity <= r.value.quantity
  {
    if n <= p.quantity - p.reservedQuantity then Success(p.(reservedQuantity := p.reservedQuantity + n))
    else Failure(NotEnoughQuantity)
  }

  /** Two reservations that both succeed reserve their sum, and each fits what the other left. */
  lemma ReserveTwice(p: Product, m: int, n: int)
    requires Reserve(p, m).Success?
    ensures Reserve(Reserve(p, m).value, n).Success? <==> m + n <= p.quantity - p.reservedQuantity
    ensures Reserve(Reserve(p, m).value, n).Success? ==>
              Reserve(Reserve(p, m).value, n).value.reservedQuantity == p.reservedQuantity + m + n
  {
  }

  /** Giving back `n` reserved units: only the reserved quantity changes, and it shrinks by `n`. */
  function Release(p: Product, n: int): (q: Product)
    ensures q.reservedQuantity == p.reservedQuantity - n
    ensures q == p.(reservedQuantity := q.reservedQuantity)
  {
    p.(reservedQuantity := p.reservedQuantity - n)
  }

  /** Releasing what a reservation took restores the product exactly, and it stays within stock. */
  lemma ReleaseUndoesReserve(p: Product, n: int)
    requires Reserve(p, n).Success?
    ensures Release(Reserve(p, n).value, n) == p
    ensures Reserve(Release(Reserve(p, n).value, n), n) == Reserve(p, n)
  {
  }

  // ---------------------------------------------------------------- services

  /**
   * Stores a product under an existing category, at its discounted price, and returns its id.
   * An absent category is reported before anything is written. The request carries the
   * discount the service reads; AddProductAsWritten takes the schema as declared.
   */
  method AddProduct(uow: UnitOfWork, data: ProductCreate) returns (r: Result<Id, Error>)
    requires uow.Valid()
    modifies uow
    ensures uow.Idle()
    ensures var db := old(uow.committed);
            if data.categoryId !in db.category.rows then
              r == Failure(CategoryNotFound) && uow.committed == db
            else if Clashes(db.product.rows, ProductClash, NewProduct(data)) then
              r == Failure(DuplicateEntry) && uow.committed == db.(product := db.product.Skipped())
            else
              && r == Success(db.product.nextId)
              && uow.committed == db.(product := db.product.Inserted(NewProduct(data)))
  {
    var c := Categories.GetCategory(uow, data.categoryId);
    if c.Failure? {
      return Failure(c.error);
    }
    var p := NewProduct(data);
    uow.Enter();
    ProductInsertedValid(uow.current, p);
    var s := AddOne(uow.current.product, ProductClash, p, uow.current.ProductLinked(p));
    uow.current := uow.current.(product := s.table);
    uow.KeepSequences();
    if s.result.Success? {
      uow.Commit();
    }
    uow.Exit();
    r := s.result;
  }

  /**
   * add_product as written: the creation schema declares no discount, so once the category
   * is found the lookup of the "discount" key raises a KeyError, which nothing translates.
   * No creation request with an existing category stores a product.
   */
  method AddProductAsWritten(uow: UnitOfWork, data: ProductUpdate) returns (r: Result<Id, Error>)
    requires uow.Valid()
    modifies uow
    ensures uow.Idle() && uow.committed == old(uow.committed)
    ensures r.Failure?
    ensures r.error == if data.categoryId in old(uow.committed).category.rows then MissingField
                       else CategoryNotFound
  {
    var c := Categories.GetCategory(uow, data.categoryId);
    if c.Failure? {
      return Failure(c.error);
    }
    r := Failure(MissingField);
  }

  /** Every product, each once, in id order. */
  method GetProducts(uow: UnitOfWork) returns (rs: seq<Entry<Product>>)
    requires uow.Valid()
    modifies uow
    ensures uow.Idle() && uow.committed == old(uow.committed)
    ensures var rows := uow.committed.product.rows;
            forall e :: e in rs <==> e.id in rows && e.rec == rows[e.id]
    ensures Ascending(rs)
  {
    uow.Enter();
    rs := FindAll(uow.current.product);
    uow.Exit();
  }

  /** Exactly the products whose discount is positive. */
  method GetProductsOnlyDiscount(uow: UnitOfWork) returns (rs: seq<Entry<Product>>)
    requires uow.Valid()
    modifies uow
    ensures uow.Idle() && uow.committed == old(uow.committed)
    ensures var rows := uow.committed.product.rows;
            forall e :: e in rs <==> e.id in rows && e.rec == rows[e.id] && e.rec.discount > 0.0
    ensures Ascending(rs)
  {
    uow.Enter();
    rs := FindAllGreaterThan(uow.current.product, Discount, 0.0);
    uow.Exit();
  }

  /** The product with the given id; an absent id is reported as such. */
  method GetProduct(uow: UnitOfWork, id: Id) returns (r: Result<Product, Error>)
    requires uow.Valid()
    modifies uow
    ensures uow.Idle() && uow.committed == old(uow.committed)
    ensures var rows := uow.committed.product.rows;
            r == if id in rows then Success(rows[id]) else Failure(ProductNotFound)
  {
    uow.Enter();
    var p := FindOne(uow.current.product, id);
    uow.Exit();
    if p.Some? {
      r := Success(p.value);
    } else {
      r := Failure(ProductNotFound);
    }
  }

  /**
   * The single product whose column `col` equals `v`; none is reported as not found, and
   * several make the single-row fetch fail.
   */
  method GetProductByParam<V(==)>(uow: UnitOfWork, col: Product -> V, v: V) returns (r: Result<Entry<Product>, Error>)
    requires uow.Valid()
    modifies uow
    ensures uow.Idle() && uow.committed == old(uow.committed)
    ensures var rows := uow.committed.product.rows;
            && (r == Failure(ProductNotFound) <==> forall k :: k in rows ==> col(rows[k]) != v)
            && (r.Success? ==> r.value.id in rows && r.value.rec == rows[r.value.id] && col(r.value.rec) == v)
            && (r.Failure? ==> r.error in {ProductNotFound, MultipleRowsFound})
  {
    uow.Enter();
    var f := FindOneByParam(uow.current.product, col, v);
    uow.Exit();
    if f.Failure? {
      r := Failure(f.error);
    } else if f.value.Some? {
      r := Success(f.value.value);
    } else {
      r := Failure(ProductNotFound);
    }
  }

  /** Deletes a product, and with it the cart items and order items that refer to it. */
  method DeleteProduct(uow: UnitOfWork, id: Id) returns (r: Result<Id, Error>)
    requires uow.Valid()
    modifies uow
    ensures uow.Idle()
    ensures var db := old(uow.committed);
            if id in db.product.rows then
              r == Success(id) && uow.committed == db.(product := db.product.Removed(id)).Cascaded()
            else
              r == Failure(IdNotFound) && uow.committed == db
  {
    uow.Enter();
    var s := DeleteOne(uow.current.product, id);
    RemovedValid(uow.current.product, ProductClash, id);
    var after := uow.current.(product := s.table);
    CascadedValid(after);
    uow.current := after.Cascaded();
    if s.result.Success? {
      uow.Commit();
    }
    uow.Exit();
    r := s.result;
  }

  /**
   * Replaces the name, description, price, quantity, image name and category, and returns
   * the new data; the reserved quantity and the discount are kept. The store refuses a name or
   * image name another product holds, and a category that does not exist.
   */
  method UpdateProduct(uow: UnitOfWork, id: Id, data: ProductUpdate) returns (r: Result<ProductUpdate, Error>)
    requires uow.Valid()
    modifies uow
    ensures uow.Idle()
    ensures var db := old(uow.committed);
            if id !in db.product.rows then
              r == Failure(IdNotFound) && uow.committed == db
            else
              var p := ApplyProductUpdate(db.product.rows[id], data).value;
              if ClashesOther(db.product.rows, ProductClash, id, p) || !db.ProductLinked(p) then
                r == Failure(IntegrityViolation) && uow.committed == db
              else
                r == Success(data) && uow.committed == db.(product := db.product.Put(id, p))
  {
    uow.Enter();
    var cur := uow.current;
    if id in cur.product.rows {
      ProductPutValid(cur, id, ApplyProductUpdate(cur.product.rows[id], data).value);
    }
    var s := UpdateOne(cur.product, ProductClash, id, data, ApplyProductUpdate, (p: Product) => cur.ProductLinked(p));
    uow.current := cur.(product := s.table);
    if s.result.Success? {
      uow.Commit();
    }
    uow.Exit();
    r := s.result;
  }

  /**
   * The partial update: only the supplied fields are written (the rest of the row is kept),
   * and the supplied data is returned. A name or image name another product holds is refused.
   * A patch with every field `None` leaves update_one an UPDATE with no column to set, which
   * the store cannot run; the error is not one update_one translates.
   */
  method UpdateProductPartial(uow: UnitOfWork, id: Id, patch: ProductPatch) returns (r: Result<ProductPatch, Error>)
    requires uow.Valid()
    modifies uow
    ensures uow.Idle()
    ensures var db := old(uow.committed);
            if id !in db.product.rows then
              r == Failure(IdNotFound) && uow.committed == db
            else
              var p := ApplyProductPatch(db.product.rows[id], patch).value;
              if patch.IsEmpty() then
                r == Failure(NothingToUpdate) && uow.committed == db
              else if ClashesOther(db.product.rows, ProductClash, id, p) then
                r == Failure(IntegrityViolation) && uow.committed == db
              else
                r == Success(patch) && uow.committed == db.(product := db.product.Put(id, p))
  {
    uow.Enter();
    var cur := uow.current;
    if id in cur.product.rows && patch.IsEmpty() {
      uow.Exit();
      return Failure(NothingToUpdate);
    }
    if id in cur.product.rows {
      ProductPutValid(cur, id, ApplyProductPatch(cur.product.rows[id], patch).value);
    }
    var s := UpdateOne(cur.product, ProductClash, id, patch, ApplyProductPatch, (p: Product) => cur.ProductLinked(p));
    uow.current := cur.(product := s.table);
    if s.result.Success? {
      uow.Commit();
    }
    uow.Exit();
    r := s.result;
  }

  /**
   * Reserves `n` units of a product in a unit of work of its own, which commits. It fails,
   * writing nothing, when the product is absent or fewer than `n` units are unreserved.
   */
  method ReserveProductQuantity(uow: UnitOfWork, id: Id, n: int) returns (o: Outcome<Error>)
    requires uow.Valid()
    modifies uow
    ensures uow.Idle()
    ensures var db := old(uow.committed);
            if id !in db.product.rows then
              o == Fail(ProductNotFound) && uow.committed == db
            else
              var r := Reserve(db.product.rows[id], n);
              if r.Failure? then
                o == Fail(NotEnoughQuantity) && uow.committed == db
              else
                o == Pass && uow.committed == db.(product := db.product.Put(id, r.value))
  {
    var g := GetProduct(uow, id);
    if g.Failure? {
      return Fail(g.error);
    }
    uow.Enter();
    var r := Reserve(g.value, n);
    if r.Failure? {
      uow.Exit();
      return Fail(r.error);
    }
    var cur := uow.current;
    SameKeysNoClash(cur.product, ProductClash, id, r.value);
    ProductPutValid(cur, id, r.value);
    var s := UpdateOne(cur.product, ProductClash, id, r.value, Replace, (p: Product) => cur.ProductLinked(p));
    uow.current := cur.(product := s.table);
    if s.result.Success? {
      uow.Commit();
    }
    uow.Exit();
    o := Pass;
  }

  /**
   * Gives back `n` reserved units of a product in a unit of work of its own, which commits;
   * an absent product is reported and nothing is written.
   */
  method ReleaseProductQuantity(uow: UnitOfWork, id: Id, n: int) returns (o: Outcome<Error>)
    requires uow.Valid()
    modifies uow
    ensures uow.Idle()
    ensures var db := old(uow.committed);
            if id !in db.product.rows then
              o == Fail(ProductNotFound) && uow.committed == db
            else
              o == Pass && uow.committed == db.(product := db.product.Put(id, Release(db.product.rows[id], n)))
  {
    var g := GetProduct(uow, id);
    if g.Failure? {
      return Fail(g.error);
    }
    uow.Enter();
    var cur := uow.current;
    var p := Release(g.value, n);
    // only the reserved quantity changes, so no unique column can clash
    SameKeysNoClash(cur.product, ProductClash, id, p);
    ProductPutValid(cur, id, p);
    var s := UpdateOne(cur.product, ProductClash, id, p, Replace, (q: Product) => cur.ProductLinked(q));
    uow.current := cur.(product := s.table);
    if s.result.Success? {
      uow.Commit();
    }
    uow.Exit();
    o := Pass;
  }

  /** A reservation followed by the release of the same units leaves the database as it was. */
  method ReserveThenRelease(uow: UnitOfWork, id: Id, n: int) returns (o: Outcome<Error>)
    requires uow.Valid()
    modifies uow
    ensures uow.Idle()
    ensures o.Pass? ==> uow.committed == old(uow.committed)
  {
    ghost var db := uow.committed;
    o := ReserveProductQuantity(uow, id, n);
    if o.Fail? {
      return;
    }
    ghost var p := db.product.rows[id];
    ReleaseUndoesReserve(p, n);
    o := ReleaseProductQuantity(uow, id, n);
    assert uow.committed.product.rows == db.product.rows;
  }
}
