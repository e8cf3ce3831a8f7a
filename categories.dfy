/** The category service: create, list, fetch, delete and replace product categories. */
module Categories {
  import opened Wrappers
  import opened Schema
  import opened Repository
  import opened Transaction

  /** Stores a new category and returns its id; a duplicate name is refused. */
  method AddCategory(uow: UnitOfWork, data: Category) returns (r: Result<Id, Error>)
    requires uow.Valid()
    modifies uow
    ensures uow.Idle()
    ensures var db := old(uow.committed);
            if Clashes(db.category.rows, CategoryClash, data) then
              r == Failure(DuplicateEntry) && uow.committed == db.(category := db.category.Skipped())
            else
              && r == Success(db.category.nextId) && db.category.nextId !in db.category.rows
              && uow.committed == db.(category := db.category.Inserted(data))
  {
    uow.Enter();
    CategoryInsertedValid(uow.current, data);
    var s := AddOne(uow.current.category, CategoryClash, data, true);
    uow.current := uow.current.(category := s.table);
    uow.KeepSequences();
    if s.result.Success? {
      uow.Commit();
    }
    uow.Exit();
    r := s.result;
  }

  /** Every category, each once, in id order. */
  method GetCategories(uow: UnitOfWork) returns (rs: seq<Entry<Category>>)
    requires uow.Valid()
    modifies uow
    ensures uow.Idle() && uow.committed == old(uow.committed)
    ensures var rows := uow.committed.category.rows;
            forall e :: e in rs <==> e.id in rows && e.rec == rows[e.id]
    ensures Ascending(rs)
  {
    uow.Enter();
    rs := FindAll(uow.current.category);
    uow.Exit();
  }

  /** The category with the given id; an absent id is reported as such. */
  method GetCategory(uow: UnitOfWork, id: Id) returns (r: Result<Entry<Category>, Error>)
    requires uow.Valid()
    modifies uow
    ensures uow.Idle() && uow.committed == old(uow.committed)
    ensures var rows := uow.committed.category.rows;
            r == if id in rows then Success(Entry(id, rows[id])) else Failure(CategoryNotFound)
  {
    uow.Enter();
    var c := FindOne(uow.current.category, id);
    uow.Exit();
    if c.Some? {
      r := Success(Entry(id, c.value));
    } else {
      r := Failure(CategoryNotFound);
    }
  }

  /**
   * Deletes a category and returns its id. The store deletes the category's products with
   * it, and the cart items and order items of those products.
   */
  method DeleteCategory(uow: UnitOfWork, id: Id) returns (r: Result<Id, Error>)
    requires uow.Valid()
    modifies uow
    ensures uow.Idle()
    ensures var db := old(uow.committed);
            if id in db.category.rows then
              r == Success(id) && uow.committed == db.(category := db.category.Removed(id)).Cascaded()
            else
              r == Failure(IdNotFound) && uow.committed == db
  {
    uow.Enter();
    var s := DeleteOne(uow.current.category, id);
    RemovedValid(uow.current.category, CategoryClash, id);
    var after := uow.current.(category := s.table);
    CascadedValid(after);
    uow.current := after.Cascaded();
    if s.result.Success? {
      uow.Commit();
    }
    uow.Exit();
    r := s.result;
  }

  /**
   * Replaces the category's columns and returns the new data. A name another category holds
   * is refused by the store with an error the repository does not translate.
   */
  method UpdateCategory(uow: UnitOfWork, id: Id, data: Category) returns (r: Result<Category, Error>)
    requires uow.Valid()
    modifies uow
    ensures uow.Idle()
    ensures var db := old(uow.committed);
            if id !in db.category.rows then
              r == Failure(IdNotFound) && uow.committed == db
            else if ClashesOther(db.category.rows, CategoryClash, id, data) then
              r == Failure(IntegrityViolation) && uow.committed == db
            else
              r == Success(data) && uow.committed == db.(category := db.category.Put(id, data))
  {
    uow.Enter();
    CategoryPutValid(uow.current, id, data);
    var s := UpdateOne(uow.current.category, CategoryClash, id, data, Replace, (c: Category) => true);
    uow.current := uow.current.(category := s.table);
    if s.result.Success? {
      uow.Commit();
    }
    uow.Exit();
    r := s.result;
  }

  /** A category just added is what get_category then returns for the new id. */
  method AddThenGet(uow: UnitOfWork, data: Category) returns (r: Result<Id, Error>, g: Result<Entry<Category>, Error>)
    requires uow.Valid()
    modifies uow
    ensures uow.Idle()
    ensures r.Success? ==> g == Success(Entry(r.value, data))
  {
    r := AddCategory(uow, data);
    if r.Success? {
      g := GetCategory(uow, r.value);
    } else {
      g := Failure(CategoryNotFound);
    }
  }
}
