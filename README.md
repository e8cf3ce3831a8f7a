# OnlineShop domain layer in Dafny

This project models the domain layer of OnlineShop, a FastAPI online store. It covers:

- **Repository.** The generic repository that every table uses: `add_one`, `find_one`, `find_all`, the by-parameter and greater-than finders, `delete_one` and `update_one`.
- **Unit of work.** It opens a database session, binds the seven repositories to that session, and commits or rolls back.
- **Services.** The category, product, cart, profile and order services built on those two.
- **Order cache.** The key-value cache in which the order service keeps a "modified" flag per order.
- **Validators.** The field validators of the user registration schema.
- **Rate limiter.** The middleware that limits each client address to 100 requests per 60 seconds.

The database is a value `Db` holding seven tables. Each table is a map from serial id to row, plus the next value of its id sequence. The unique constraints and foreign keys the store enforces are predicates over these values. The cascading deletes are a function over them.

`Transaction.UnitOfWork` is a class with two fields: `committed`, the database itself, and `current`, what the open session sees. `__aenter__` opens a fresh view of `committed`. `commit` copies `current` into `committed`. `__aexit__` rolls back and closes the session. The store's id sequences are not transactional (PostgreSQL `serial` columns, app/config.py:32): an id an insert draws stays used even when the insert is refused or its session rolls back. The services therefore call `KeepSequences` right after each insert. It moves the sequences of `committed` up to where `current` has them, so a rollback drops the pending rows but not the used-up ids.

Each service is a method over a unit of work. Its contract gives the error outcome the service raises in each case, or the new committed database.

The order services are different. They run on the request's own session and never commit, so their contracts speak about `current`. The request-level methods show what survives the end of the request.

The flag cache (`FlagCache.FlagStore`) and the rate limiter (`RateLimit.RateLimiter`) are classes whose fields the methods update in place. The rate limiter is modelled as the middleware class defines it. The application in app/main.py:16-26 registers only the CORS middleware, so as shipped no request goes through the limiter.

Errors are values of `Schema.Error`. `Schema.Status` gives the HTTP status each error reaches the client with.

## Model

| member | source | states |
|---|---|---|
| Repository.AddOne | app/api_v1/repositories/base_repository.py:49-59 | insert under the next serial id, which is returned; a unique-constraint clash or an unresolved foreign key is a duplicate-entry error with the rows unchanged; every attempt, refused or not, uses up one id of the sequence; otherwise exactly one new key, other rows untouched, constraints kept |
| Repository.FindOne | app/api_v1/repositories/base_repository.py:71-79 | a row is returned exactly when the id is stored, and it is that id's row |
| Repository.FindAll | app/api_v1/repositories/base_repository.py:81-89 | the result holds every stored row and nothing else, each once, in ascending id order (the order the model lists in; the query itself promises none) |
| Repository.FindAllByParam | app/api_v1/repositories/base_repository.py:91-99 | exactly the rows whose column equals the value, in ascending id order (the order the model lists in; the query itself promises none) |
| Repository.FindAllGreaterThan | app/api_v1/repositories/base_repository.py:101-110 | exactly the rows whose column exceeds the value, in ascending id order (the order the model lists in; the query itself promises none) |
| Repository.FindOneByParam | app/api_v1/repositories/base_repository.py:61-69 | nothing iff no row matches; a failure iff two distinct rows match, reported as several rows found; otherwise the one matching row |
| Repository.DeleteOne | app/api_v1/repositories/base_repository.py:112-124 | an absent id is "id is not found" with the table unchanged; otherwise the id is returned and only that key disappears |
| Repository.UpdateOne | app/api_v1/repositories/base_repository.py:126-138 | an absent id is "id is not found"; a write that stores NULL in a NOT NULL column, clashes with another row or breaks a foreign key is an integrity error with the table unchanged; otherwise the new data is returned and only that row changes |
| Repository.AddThenFind | app/api_v1/repositories/base_repository.py:49-79 | after an insert, the new id finds the inserted row and every other lookup is as before |
| Repository.DeleteThenFind | app/api_v1/repositories/base_repository.py:112-124 | after a delete the id is not found and other lookups are unchanged |
| Repository.DeleteTwice | app/api_v1/repositories/base_repository.py:112-124 | a second delete of the same id reports it as not found |
| Repository.UpdateThenFind | app/api_v1/repositories/base_repository.py:126-138 | a successful update is seen by the next lookup of that id and of no other |
| Repository.ListingAfterAdd | app/api_v1/repositories/base_repository.py:49-99 | an insert appends the new row at the end of every filtered listing it passes (in the model's id order), and leaves the others unchanged |
| Repository.ListingMember | app/api_v1/repositories/base_repository.py:81-99 | a listing contains a row iff that row is stored, lies in the id range and passes the filter |
| Repository.ListingAscending | app/api_v1/repositories/base_repository.py:81-99 | listings are in strictly ascending id order, so no row is repeated |
| Transaction.CascadedValid | app/api_v1/cart/models.py:26-29 | the ON DELETE CASCADE closure restores every foreign key, deletes no parent row, keeps every child whose parent survives, and changes nothing in a consistent database |
| Transaction.UnitOfWork.constructor | app/api_v1/utils/unitofwork.py:41-42 | a new unit of work is idle over the given database |
| Transaction.UnitOfWork.Enter | app/api_v1/utils/unitofwork.py:44-53 | a new session is opened, and all repositories see exactly the committed contents |
| Transaction.UnitOfWork.Commit | app/api_v1/utils/unitofwork.py:59-60 | the session's pending writes become the database |
| Transaction.UnitOfWork.Rollback | app/api_v1/utils/unitofwork.py:62-63 | the session's pending writes are discarded; the database, with the sequence positions already made durable, is unchanged |
| Transaction.UnitOfWork.Exit | app/api_v1/utils/unitofwork.py:55-57 | leaving the scope rolls back and closes: idle, with the database as it was committed, ids already drawn still used |
| Transaction.UnitOfWork.KeepSequences | app/api_v1/repositories/base_repository.py:49-59 | the ids the session drew become used in the database at once; the session's rows and state are untouched |
| Transaction.SequencesFromValid | app/api_v1/repositories/base_repository.py:49-59 | moving sequences forward keeps every row and constraint, and never moves a sequence back |
| Transaction.CommitThenExit | app/api_v1/utils/unitofwork.py:55-60 | writes committed inside a scope survive the scope's exit |
| Transaction.ExitDiscards | app/api_v1/utils/unitofwork.py:55-57 | writes not committed inside a scope are lost at its exit |
| Schema.Status | app/api_v1/exceptions/exception.py:15-49 | access denied is 403; untranslated store errors, an UPDATE with nothing to set, missing methods and missing schema keys are 500; every other raised error is 400 |
| Categories.AddCategory | app/api_v1/categories/services.py:14-20 | a duplicate name is refused with no row written, though its id is used up; otherwise the next id is returned and the category is committed under it |
| Categories.GetCategories | app/api_v1/categories/services.py:23-28 | every category exactly once, in id order, with nothing written |
| Categories.GetCategory | app/api_v1/categories/services.py:31-39 | the stored category, or "id categories is not found" for an absent id |
| Categories.DeleteCategory | app/api_v1/categories/services.py:42-47 | an absent id is not found; otherwise the category is deleted and the cascade removes its products and their cart and order items |
| Categories.UpdateCategory | app/api_v1/categories/services.py:50-59 | an absent id is not found; a name another category holds is refused by the store; otherwise the row is replaced and the data returned |
| Categories.AddThenGet | app/api_v1/categories/services.py:14-39 | a category just added is what get_category returns for the new id |
| Products.NewProduct | app/api_v1/products/services.py:17-23 | the stored price is the list price less the discount, never above the list price for a discount in (0, 1]; every other field is copied |
| Products.Reserve | app/api_v1/products/services.py:101-108 | a reservation succeeds iff that many units are unreserved; only the reserved quantity grows, by the amount, and stays within the stock |
| Products.ReserveTwice | app/api_v1/products/services.py:101-108 | two reservations both succeed iff their sum fits the unreserved stock, and then they reserve that sum |
| Products.AddProduct | app/api_v1/products/services.py:17-27 | with a schema that carries the discount: an absent category is reported first; a duplicate name or image name is refused, its id used up; otherwise the discounted product is committed under the next id |
| Products.AddProductAsWritten | app/api_v1/products/services.py:17-27 | with the declared creation schema: an absent category is reported; any other request fails on the missing discount key, with nothing written |
| Products.GetProducts | app/api_v1/products/services.py:30-33 | every product exactly once, in id order, with nothing written |
| Products.GetProductsOnlyDiscount | app/api_v1/products/services.py:36-40 | exactly the products with a positive discount, in id order |
| Products.GetProduct | app/api_v1/products/services.py:43-51 | the stored product, or "product is not found" |
| Products.GetProductByParam | app/api_v1/products/services.py:54-64 | "not found" iff no product matches; a success is a matching product; the only other failure is several rows found |
| Products.DeleteProduct | app/api_v1/products/services.py:67-72 | an absent id is not found; otherwise the product and the cart and order items that point at it are deleted |
| Products.UpdateProduct | app/api_v1/products/services.py:75-83 | the six schema columns are replaced and the reservation and discount kept; a clash or a missing category is refused; an absent id is not found |
| Products.UpdateProductPartial | app/api_v1/products/services.py:86-94 | only the supplied fields are written; a patch with no field set fails with nothing written; a clash is refused; an absent id is not found |
| Products.ReserveProductQuantity | app/api_v1/products/services.py:97-108 | an absent product or too few unreserved units fails with nothing written; otherwise only the product's reserved quantity grows, committed |
| Products.Release | app/api_v1/cart/services.py:82 | a release lowers only the reserved quantity, by the amount |
| Products.ReleaseUndoesReserve | app/api_v1/cart/services.py:82 | releasing what a reservation took restores the product exactly |
| Products.ReleaseProductQuantity | app/api_v1/cart/services.py:81-86 | an absent product is not found with nothing written; otherwise only its reserved quantity shrinks, committed |
| Products.ReserveThenRelease | app/api_v1/cart/services.py:81-86 | reserving and then releasing the same units leaves the database as it was |
| Carts.ProductListed | app/api_v1/cart/services.py:36-39 | true iff some listed cart item holds the product |
| Carts.GetCart | app/api_v1/cart/services.py:162-170 | the stored cart, or "cart is not found" |
| Carts.GetCartByParam | app/api_v1/cart/services.py:173-181 | "cart is not found" iff no cart matches; a success is the unique matching cart; the only other failure is several matching carts |
| Carts.GetCartOfUser | app/api_v1/cart/services.py:173-181 | by user id the lookup fails iff the user has no cart, and never finds several |
| Carts.AddCart | app/api_v1/cart/services.py:136-148 | a second cart for a user is "cart already exists"; otherwise the cart is committed under the next id |
| Carts.DeleteCart | app/api_v1/cart/services.py:151-159 | a user without a cart is reported; otherwise the user's cart and, by cascade, its items are deleted |
| Carts.CheckExistingUserCart | app/api_v1/cart/services.py:18-25 | passes iff the cart exists and belongs to the caller, with not-found or access-denied otherwise |
| Carts.AddCartItem | app/api_v1/cart/services.py:28-48 | cart missing, cart not the caller's, product already in a cart, product missing, stock too small, in that order; otherwise the quantity is reserved and the item committed |
| Carts.GetCartItemsAsWritten | app/api_v1/cart/services.py:51-59 | a caller without a cart is refused; otherwise every cart item of every cart is returned |
| Carts.GetCartItems | app/api_v1/cart/services.py:51-59 | a caller without a cart is refused; otherwise exactly the items of the caller's cart, in id order |
| Carts.GetCartItem | app/api_v1/cart/services.py:62-73 | an absent item is "element cart not found"; an item in another user's cart is access denied; otherwise the item |
| Carts.DeleteCartItem | app/api_v1/cart/services.py:76-90 | with the reserved quantity actually written: only the owner can delete; the product's reservation shrinks by the item's quantity and the item is removed, nothing else changes |
| Carts.DeleteCartItemAsWritten | app/api_v1/cart/services.py:76-90 | as written: an absent item is not found and another user's item is access denied; the owner's request fails on the empty partial update, and nothing is written or deleted |
| Carts.UpdateCartItem | app/api_v1/cart/services.py:112-127 | the target cart must exist and be the caller's and the product must exist; then the row is replaced, or refused by the store |
| Carts.TakeOverItemAsWritten | app/api_v1/cart/services.py:112-127 | an item in another user's cart is rewritten into the caller's cart with success |
| Carts.UpdateOwnCartItem | app/api_v1/cart/services.py:112-127 | the item must already sit in the caller's cart; a success implies the caller owned the item |
| Carts.UpdatePartialCartItem | app/api_v1/cart/services.py:93-109 | a missing cart or product is not found; a missing quantity or price stores NULL and is refused; otherwise every field is written |
| Profiles.AddProfileUser | app/api_v1/profiles/services.py:14-24 | a user id that is not positive is refused before anything runs; a second profile for a user is a duplicate, its id used up; otherwise the profile is committed under the next id |
| Profiles.GetProfilesUsers | app/api_v1/profiles/services.py:27-32 | every profile exactly once, in id order |
| Profiles.GetProfileUser | app/api_v1/profiles/services.py:35-44 | fails iff the user has no profile, with "the profile not found"; otherwise that user's profile |
| Profiles.DeleteProfileUser | app/api_v1/profiles/services.py:47-53 | a user without a profile is reported; otherwise exactly that user's profile is deleted |
| Profiles.UpdateProfile | app/api_v1/profiles/services.py:56-65 | an absent id is not found; otherwise the three fields are written, None as NULL, and the owner kept |
| FlagCache.OrderFlagKey | app/api_v1/orders/services.py:22 | the key is "modified_order_" followed by the id |
| FlagCache.OrderFlagKeyInjective | app/api_v1/orders/services.py:22 | two orders share a flag key iff they are the same order |
| FlagCache.IntTextInjective | app/api_v1/orders/services.py:22 | the decimal rendering of integers is injective |
| FlagCache.FlagStore.constructor | app/db/database.py:36-38 | the cache starts empty |
| FlagCache.FlagStore.Set | app/api_v1/orders/services.py:22 | set stores the value under the key and changes no other key |
| FlagCache.FlagStore.Get | app/api_v1/orders/services.py:84 | get returns the stored value, or nothing for an unset key |
| FlagCache.SetLeavesOtherFlags | app/api_v1/orders/services.py:73 | setting one order's flag leaves every other order's flag as it was |
| Orders.ItemTotal | app/api_v1/orders/services.py:18-19 | a missing or zero total becomes quantity × price; any other total is kept |
| Orders.NewOrderItem | app/api_v1/orders/services.py:18-21 | the stored item carries the filled-in total and the request's other fields |
| Orders.TotalAppend | app/api_v1/orders/services.py:90 | the sum of totals over a concatenation is the sum of the two sums |
| Orders.ItemsOf | app/api_v1/orders/services.py:29-30 | exactly the items of the order |
| Orders.TotalAfterAdd | app/api_v1/orders/services.py:14-23 | inserting an item raises its own order's total by the item's total and leaves every other order's total unchanged |
| Orders.Refreshed | app/api_v1/orders/services.py:90-94 | the refreshed order's total is the sum of its items, its status "Ready", and every other column is kept |
| Orders.AddOrderItem | app/api_v1/orders/services.py:14-23 | an item whose order or product is missing is refused and the flag untouched; otherwise the item is stored in the session and its order's flag set to "True"; either way the drawn id stays used in the database |
| Orders.GetOrderItemsAsWritten | app/api_v1/orders/services.py:26-32 | the call to a repository method that does not exist always fails |
| Orders.GetOrderItems | app/api_v1/orders/services.py:26-32 | exactly the order's items in id order, with nothing written |
| Orders.AddOrder | app/api_v1/orders/services.py:70-74 | a second order for a user is refused; otherwise the order is stored in the session and its flag set to "False"; either way the drawn id stays used in the database |
| Orders.GetOrder | app/api_v1/orders/services.py:77-95 | an absent order is "order not found"; a modified order is re-summed, set "Ready", written back, its flag reset, and returned; otherwise the stored order is returned with nothing written |
| Orders.GetOrderAsWritten | app/api_v1/orders/services.py:77-95 | a modified order makes the read fail; an unmodified one is returned as stored |
| Orders.UpdateOrder | app/api_v1/orders/services.py:98-100 | an absent id is not found; a user who holds another order is refused; otherwise the order is replaced in the session |
| Orders.GetOrderTwice | app/api_v1/orders/services.py:77-95 | within one session, two reads in a row return the same answer |
| Orders.AddItemThenGetOrder | app/api_v1/orders/services.py:14-95 | within one session, after an item is added, the next read shows the old items' total plus the new item's, with status "Ready" |
| Orders.AddItemThenGetOrderAsWritten | app/api_v1/orders/services.py:14-95 | as written, reading an order after adding any item to it fails |
| Orders.CreateOrderRequest | app/api_v1/orders/routers.py:26-40 | an order for another user is access denied with nothing changed; otherwise no order is stored once the request ends, but the order id is used up; an accepted order leaves its "False" flag in the cache |
| Orders.CreateOrderRequestCommitted | app/api_v1/orders/routers.py:26-40 | with a commit, the order is stored in the database under the next id; a duplicate uses up an id |
| Orders.GetOrderRequest | app/api_v1/orders/routers.py:43-52 | an order absent from the database is not found; a modified one is returned re-summed and "Ready" and its flag reset; an unmodified one is returned as stored; the database is unchanged |
| Orders.GetOrderRequestTwice | app/api_v1/orders/routers.py:43-52 | across two requests a modified order is returned re-summed and then as stored, since the first request's write is rolled back while its flag reset stays |
| Orders.CreateThenGetAsWritten | app/db/database.py:31-33 | as written, an order just created is not found by the next request |
| Orders.CreateThenGet | app/api_v1/orders/routers.py:26-52 | with the commit, the next request returns the order just created, as it was sent |
| Orders.CreateTwiceAsWritten | app/api_v1/orders/routers.py:26-40 | as written, the same order sent twice is accepted twice, the second time under the next id, and no order is stored |
| UserSchemas.AnyChar | app/api_v1/users/schemas.py:42 | true iff some character of the string is in the class |
| UserSchemas.ValidatePassword | app/api_v1/users/schemas.py:33-65 | accepted, unchanged, iff 8 to 50 characters with an uppercase letter, a lowercase letter, a digit and a special character; each error is raised exactly when its check is the first to fail |
| UserSchemas.SamplePasswordAccepted | tests/user_managment/test_user_managment.py:15 | the test's password "string1fadH!" is accepted |
| UserSchemas.NoSpecialRejected | app/api_v1/users/schemas.py:34-63 | a password of letters and digits only is always refused |
| UserSchemas.Anchored | app/api_v1/users/schemas.py:21 | a pattern ending in `$` matches the whole string or the string without one final newline |
| UserSchemas.ValidateEmail | app/api_v1/users/schemas.py:20-26 | an accepted address is returned unchanged; a refused one gets the e-mail format error |
| UserSchemas.EmailSound | app/api_v1/users/schemas.py:21-23 | every accepted address is local@domain.top, each part non-empty and within its character class, optionally followed by one newline |
| UserSchemas.EmailComplete | app/api_v1/users/schemas.py:21-23 | every such address is accepted, with or without one final newline |
| UserSchemas.EmailPartsJoin | app/api_v1/users/schemas.py:21 | the parts an address splits into join back to the address |
| UserSchemas.EmailPartsOf | app/api_v1/users/schemas.py:21 | splitting an address built from valid parts gives back those parts |
| UserSchemas.ValidateUsername | app/api_v1/users/schemas.py:75-82 | an accepted name is returned unchanged; a refused one gets the user name error |
| UserSchemas.UsernameComplete | app/api_v1/users/schemas.py:76-78 | every capital letter followed by small letters of the same alphabet is accepted, with or without one final newline |
| UserSchemas.UsernameAccepted | app/api_v1/users/schemas.py:76-78 | an accepted name is an uppercase letter and then lowercase letters, all Latin or all Cyrillic |
| UserSchemas.SampleUsernameAccepted | tests/user_managment/test_user_managment.py:14 | the test's user name "User" is accepted |
| UserSchemas.MixedNameRejected | app/api_v1/users/schemas.py:76-78 | a name mixing the two alphabets is refused |
| UserSchemas.ValidateSuperuser | app/api_v1/users/schemas.py:85-91 | refused iff explicitly true; false and an omitted value pass unchanged |
| UserSchemas.ValidateVerified | app/api_v1/users/schemas.py:94-100 | refused iff explicitly true; false and an omitted value pass unchanged |
| RateLimit.Evicted | app/api_v1/middlewares/middleware.py:25-27 | eviction drops a prefix of the window, and the oldest entry left is at most 60 seconds old |
| RateLimit.RecordedBounded | app/api_v1/middlewares/middleware.py:29-32 | a window never grows past 100 entries |
| RateLimit.EvictedRecent | app/api_v1/middlewares/middleware.py:25-27 | with a clock that does not go back, a sorted window stays sorted after eviction and holds only the last 60 seconds |
| RateLimit.RecordedRecent | app/api_v1/middlewares/middleware.py:25-32 | after a request is recorded the window is sorted and holds only the last 60 seconds |
| RateLimit.FullWindowRejects | app/api_v1/middlewares/middleware.py:29-30 | 100 requests within 60 seconds make the next one rejected, and the window stays as it is |
| RateLimit.RateLimiter.constructor | app/api_v1/middlewares/middleware.py:16 | the table of windows starts empty |
| RateLimit.RateLimiter.Dispatch | app/api_v1/middlewares/middleware.py:18-35 | the request passes iff the evicted window has room; only the caller's window changes, to the evicted window plus this request when it passes; windows stay within the limit and, with a monotone clock, recent and sorted |

## Left out

- Repository: tables are modelled on values, the session's view of each table, not as objects updated in place, because proofs over per-table objects with frames were too costly. Aliasing between repository objects therefore does not arise. The seven repositories of a unit of work share one view, as they share one session.
- Store failures other than constraint violations and the empty UPDATE (a lost connection, an SQLAlchemyError reported as status 500) are not modelled; the database is otherwise always available.
- The users table and the foreign keys to it from profiles, carts and orders are not modelled, so a user id is any integer. User creation, authentication, tokens, password hashing, e-mail sending and the admin panel are left out: none of them is part of the domain layer modelled here.
- Routers are modelled only where the order routes decide behaviour: the user comparison of POST /orders/ and the request's session. The other routes' permission rules and response shapes are left out.
- Column defaults the store fills in (order dates and insertion times) are not columns of the model.
- Prices and totals are `real`. Floating-point rounding of the discount product and of the sum of totals is not modelled.
- Order items have no uniqueness constraint in the model, as in the store.
- Python's `str.isupper`, `str.islower` and `str.isdigit` are modelled for Latin and Cyrillic letters and ASCII digits only; other scripts are left out.
- The regular expressions are modelled as predicates over the characters they accept. The `$` anchor's match before one final newline is modelled.
- Time in the rate limiter is whole seconds, taken as a parameter. `datetime.now()` and sub-second differences are not modelled.
- The rate limiter's table is a class attribute shared by every instance. The model has one instance, and concurrent requests are not modelled.
- Logging, the `jsonable_encoder` view of rows, and the detail dictionaries with their timestamps are left out. `Schema.Detail` gives only the detail texts.
- Product rows carry `reserved_quantity` and `discount`, which the services read and write although the ORM class in app/api_v1/products/models.py declares neither. The model keeps both as the services use them.
- Listings (`find_all`, `find_all_by_param`, `find_all_greater_than` and the services over them) are returned in ascending id order in the model. The queries at app/api_v1/repositories/base_repository.py:83, 93 and 104 have no ORDER BY, so the store promises no order. The `Ascending` clauses and the "at the end" of `ListingAfterAdd` describe the model's listing, not a promise of the source.
- Products.UpdateProductPartial: the failure of an UPDATE with no column to set is one error, `NothingToUpdate`. The model does not say whether SQLAlchemy refuses to build the statement or PostgreSQL refuses to run it; either way the error is not one `update_one` translates.
- The order modules import `CustomException`; app/api_v1/exceptions/__init__.py is not part of this model. Its errors are taken to carry the same 400 and 403 statuses as `HttpAPIException`.
- Products.GetProductByParam: the column is a function parameter; looking up a column name that does not exist is not modelled.
- Carts.GetCartByParam: the column is a function parameter; looking up a column name that does not exist is not modelled.
- The nested sessions of `Carts.AddCartItem` are modelled as successive scopes over the same unit of work. The reservation is committed by its own scope before the item is inserted.

## Findings

| source | as written | input that shows it | evidently intended | confidence | as-written member | corrected member |
|---|---|---|---|---|---|---|
| app/api_v1/orders/services.py:29 | get_order_items calls `find_by_param`, which the repository does not define | add any item to an order, then GET /orders/{id}: the read fails with status 500 | use `find_all_by_param` and re-sum the order's items | not executed | Orders.AddItemThenGetOrderAsWritten | Orders.AddItemThenGetOrder |
| app/db/database.py:31-33 | the order routes write through a request session that closes without a commit, so the writes are rolled back | POST /orders/ for the caller, then GET /orders/{returned id}: "order not found" | commit the order before the request ends | not executed | Orders.CreateThenGetAsWritten | Orders.CreateThenGet |
| app/api_v1/cart/services.py:57 | get_cart_items returns every cart item of every cart | two users with one item each: either user's GET /cart_items/ returns both items | return only the items of the caller's cart | not executed | Carts.GetCartItemsAsWritten | Carts.GetCartItems |
| app/api_v1/products/services.py:21-22 | add_product reads a `discount` key that `ProductCreate` (app/api_v1/products/schemas.py:4-10) does not declare | POST /products/ with an existing category: the lookup raises a KeyError, status 500, and no product is stored | give the creation schema a discount, as the discount listing expects | not executed | Products.AddProductAsWritten | Products.AddProduct |
| app/api_v1/cart/services.py:82-86 | delete_cart_item passes the released quantity to `ProductUpdatePartial`, which does not declare it and drops it, so the partial update has nothing to set | the owner sends DELETE /cart_items/{id}: the UPDATE with no column fails, status 500, and the item stays | write the product's reserved quantity less the item's quantity, then delete the item | not executed | Carts.DeleteCartItemAsWritten | Carts.DeleteCartItem |
| app/api_v1/cart/services.py:117-119 | update_cart_item compares the caller only with the owner of the cart named in the new data | user B sends PUT /cart_items/{id of A's item} naming B's own cart: the item moves into B's cart | require the stored item's cart to belong to the caller, as get_cart_item does | not executed | Carts.TakeOverItemAsWritten | Carts.UpdateOwnCartItem |
