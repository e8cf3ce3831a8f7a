/**
 * Record shapes of the online store: one datatype per table row, the request schemas the
 * services accept, the unique constraints of each table, and the error outcomes the
 * services raise.
 */
module Schema {
  import opened Wrappers

  /** Primary and foreign keys. Serial keys handed out by the store start at 1. */
  type Id = int

  // ---------------------------------------------------------------- rows

  datatype Category = Category(name: string, description: string)

  /**
   * A product row. `reservedQuantity` and `discount` are read and written by the product
   * and cart services although the ORM class declares neither column; the model gives the
   * row both fields, as the services use them.
   */
  datatype Product = Product(name: string, description: string, price: real, quantity: int,
                             nameImage: string, categoryId: Id, reservedQuantity: int,
                             discount: real)

  datatype Profile = Profile(userId: Id, firstName: Option<string>, lastName: Option<string>,
                             bio: Option<string>)

  datatype Cart = Cart(userId: Id)

  datatype CartItem = CartItem(quantity: int, price: real, cartId: Id, productId: Id)

  datatype Order = Order(totalPrice: real, costDelivery: string, status: string,
                         paymentMethod: string, userId: Id)

  datatype OrderItem = OrderItem(quantity: int, address: string, price: real, totalPrice: real,
                                 orderId: Id, productId: Id)

  // ---------------------------------------------------------------- unique constraints

  /** Two rows that the table's unique columns forbid side by side. */
  predicate CategoryClash(a: Category, b: Category) { a.name == b.name }

  predicate ProductClash(a: Product, b: Product) { a.name == b.name || a.nameImage == b.nameImage }

  predicate ProfileClash(a: Profile, b: Profile) { a.userId == b.userId }

  predicate CartClash(a: Cart, b: Cart) { a.userId == b.userId }

  /** `product_id` is unique over the whole cart_item table, not per cart. */
  predicate CartItemClash(a: CartItem, b: CartItem) { a.productId == b.productId }

  predicate OrderClash(a: Order, b: Order) { a.userId == b.userId }

  predicate OrderItemClash(a: OrderItem, b: OrderItem) { false }

  // ---------------------------------------------------------------- request schemas

  /** The product creation schema as the service reads it (it reads a `discount` key). */
  datatype ProductCreate = ProductCreate(name: string, description: string, price: real,
                                         quantity: int, nameImage: string, categoryId: Id,
                                         discount: real)

  /** The full product update schema: the declared columns of the creation schema. */
  datatype ProductUpdate = ProductUpdate(name: string, description: string, price: real,
                                         quantity: int, nameImage: string, categoryId: Id)

  /** The row after a full product update: the reserved quantity and the discount are kept. */
  function ApplyProductUpdate(p: Product, u: ProductUpdate): Option<Product> {
    Some(p.(name := u.name, description := u.description, price := u.price,
            quantity := u.quantity, nameImage := u.nameImage, categoryId := u.categoryId))
  }

  /**
   * The partial product update after `exclude_none`: only the fields that are `Some` are
   * written. `price` is an integer in this schema. The schema declares no reserved quantity,
   * so a value passed for it is dropped when the schema is built.
   */
  datatype ProductPatch = ProductPatch(name: Option<string>, description: Option<string>,
                                       price: Option<int>, quantity: Option<int>,
                                       nameImage: Option<string>)
  {
    /** Nothing is left to write once the `None` fields are dropped. */
    predicate IsEmpty() {
      name.None? && description.None? && price.None? && quantity.None? && nameImage.None?
    }
  }

  function Pick<T>(o: Option<T>, current: T): T {
    match o
    case Some(v) => v
    case None => current
  }

  /** The row after a partial product update: every supplied field replaced, the rest kept. */
  function ApplyProductPatch(p: Product, u: ProductPatch): Option<Product> {
    Some(p.(name := Pick(u.name, p.name),
            description := Pick(u.description, p.description),
            price := if u.price.Some? then u.price.value as real else p.price,
            quantity := Pick(u.quantity, p.quantity),
            nameImage := Pick(u.nameImage, p.nameImage)))
  }

  /** The profile update schema: all three fields are written, `None` as NULL. */
  datatype ProfileUpdate = ProfileUpdate(firstName: Option<string>, lastName: Option<string>,
                                         bio: Option<string>)

  function ApplyProfileUpdate(p: Profile, u: ProfileUpdate): Option<Profile> {
    Some(p.(firstName := u.firstName, lastName := u.lastName, bio := u.bio))
  }

  /**
   * The partial cart item schema. The service dumps it without dropping `None`, so every
   * field is written, and a `None` lands in a NOT NULL column.
   */
  datatype CartItemPatch = CartItemPatch(quantity: Option<int>, price: Option<real>,
                                         cartId: Option<Id>, productId: Option<Id>)

  /** `None` when the update would store NULL in a NOT NULL column. */
  function ApplyCartItemPatch(c: CartItem, u: CartItemPatch): Option<CartItem> {
    if u.quantity.Some? && u.price.Some? && u.cartId.Some? && u.productId.Some? then
      Some(CartItem(u.quantity.value, u.price.value, u.cartId.value, u.productId.value))
    else
      None
  }

  /** The order item creation schema: `totalPrice` may be omitted. */
  datatype OrderItemCreate = OrderItemCreate(quantity: int, address: string, price: real,
                                             totalPrice: Option<real>, orderId: Id,
                                             productId: Id)

  /** The two columns the order service refreshes when it recomputes a total. */
  datatype OrderTotals = OrderTotals(totalPrice: real, status: string)

  function ApplyOrderTotals(o: Order, t: OrderTotals): Option<Order> {
    Some(o.(totalPrice := t.totalPrice, status := t.status))
  }

  /** A full-row update: the new data replaces the row. */
  function Replace<R>(old_row: R, new_row: R): Option<R> { Some(new_row) }

  // ---------------------------------------------------------------- errors

  datatype Error =
    | DuplicateEntry            // an insert the store refused (IntegrityError)
    | IdNotFound                // update or delete of an absent id
    | MultipleRowsFound         // a single-row lookup that matched several rows
    | IntegrityViolation        // an update the store refused; not translated by the repository
    | CategoryNotFound
    | ProductNotFound
    | NotEnoughQuantity
    | CartNotFound
    | CartAlreadyExists
    | AccessDenied
    | ProductAlreadyInCart
    | CartItemNotFound
    | OrderNotFound
    | ProfileNotFound
    | UserIdNotPositive
    | MissingRepositoryMethod   // a call to a repository method that does not exist
    | NothingToUpdate           // an UPDATE with no column to set, which the store cannot run
    | MissingField              // a read of a key the request schema does not declare

  /** The HTTP status each error reaches the client with. */
  function Status(e: Error): (code: int)
    ensures code == 403 <==> e == AccessDenied
    ensures code == 500 <==>
              e in {MultipleRowsFound, IntegrityViolation, MissingRepositoryMethod, NothingToUpdate, MissingField}
    ensures code == 400 || code == 403 || code == 500
  {
    match e
    case AccessDenied => 403
    case MultipleRowsFound => 500
    case IntegrityViolation => 500
    case MissingRepositoryMethod => 500
    case NothingToUpdate => 500
    case MissingField => 500
    case _ => 400
  }

  /** The detail text of each error the code raises itself. */
  function Detail(e: Error): string {
    match e
    case DuplicateEntry => "duplicate entry"
    case IdNotFound => "id is not found"
    case CategoryNotFound => "id categories is not found"
    case ProductNotFound => "product is not found"
    case NotEnoughQuantity => "not enough available quantity for reservation"
    case CartNotFound => "cart is not found"
    case CartAlreadyExists => "cart already exists"
    case AccessDenied => "access denied."
    case ProductAlreadyInCart => "this product already exists in cart_items"
    case CartItemNotFound => "element cart not found"
    case OrderNotFound => "order not found"
    case ProfileNotFound => "the profile not found"
    case UserIdNotPositive => "the user_id should be more 0"
    case _ => "Internal Server Error"
  }
}
