/**
 * The generic repository: one table of rows keyed by a serial `id`, as one database session
 * sees it. Each operation is a function from the table's contents to its outcome and the
 * contents the session sees afterwards; the unit of work stores those contents. No operation
 * here commits: durability is the unit of work's business.
 */
module Repository {
  import opened Wrappers
  import opened Schema

  /** A row as the finders return it: its id together with its columns. */
  datatype Entry<R> = Entry(id: Id, rec: R)

  /** No two distinct rows violate the table's unique constraint. */
  ghost predicate Unique<R>(rows: map<Id, R>, clash: (R, R) -> bool) {
    forall i, j :: i in rows && j in rows && i != j ==> !clash(rows[i], rows[j])
  }

  /** Whether `r` violates the unique constraint against some stored row. */
  predicate Clashes<R>(rows: map<Id, R>, clash: (R, R) -> bool, r: R) {
    exists k :: k in rows && (clash(rows[k], r) || clash(r, rows[k]))
  }

  /** Whether `r`, written at `id`, violates the unique constraint against another row. */
  predicate ClashesOther<R>(rows: map<Id, R>, clash: (R, R) -> bool, id: Id, r: R) {
    exists k :: k in rows && k != id && (clash(rows[k], r) || clash(r, rows[k]))
  }

  /** The contents of a table: its rows and the next value of its id sequence. */
  datatype TableState<R> = TableState(rows: map<Id, R>, nextId: Id) {

    /** Every stored id was handed out by the sequence, which starts at 1. */
    ghost predicate Keyed() {
      1 <= nextId && forall k :: k in rows ==> 1 <= k < nextId
    }

    ghost predicate Valid(clash: (R, R) -> bool) {
      Keyed() && Unique(rows, clash)
    }

    /** The table after inserting `r` under the next serial id. */
    function Inserted(r: R): TableState<R> {
      TableState(rows[nextId := r], nextId + 1)
    }

    /** The table after overwriting row `id` with `r`. */
    function Put(id: Id, r: R): TableState<R> {
      TableState(rows[id := r], nextId)
    }

    /** The table after deleting row `id`. */
    function Removed(id: Id): TableState<R> {
      TableState(rows - {id}, nextId)
    }

    /**
     * The table after an insert the store refused: the sequence has handed out its next id
     * all the same, and never hands it out again.
     */
    function Skipped(): TableState<R> {
      TableState(rows, nextId + 1)
    }

    /** The table with its sequence moved up to `n` when it is behind; a sequence never goes back. */
    function Advanced(n: Id): TableState<R> {
      if n > nextId then TableState(rows, n) else this
    }

    /** The table with only the rows that satisfy `p`. */
    function Kept(p: R -> bool): TableState<R> {
      TableState(map k | k in rows && p(rows[k]) :: rows[k], nextId)
    }
  }

  /** What a write returns, together with the table contents the session then sees. */
  datatype Step<T, R> = Step(result: Result<T, Error>, table: TableState<R>)

  // ---------------------------------------------------------------- validity of writes

  lemma InsertedValid<R>(ts: TableState<R>, clash: (R, R) -> bool, r: R)
    ensures ts.Valid(clash) && !Clashes(ts.rows, clash, r) ==>
              ts.Inserted(r).Valid(clash) && ts.nextId !in ts.rows
  {
    if ts.Valid(clash) && !Clashes(ts.rows, clash, r) {
      var t := ts.Inserted(r);
      forall i, j | i in t.rows && j in t.rows && i != j
        ensures !clash(t.rows[i], t.rows[j])
      {
        if i == ts.nextId {
          assert j in ts.rows;
        } else if j == ts.nextId {
          assert i in ts.rows;
        }
      }
    }
  }

  lemma PutValid<R>(ts: TableState<R>, clash: (R, R) -> bool, id: Id, r: R)
    ensures ts.Valid(clash) && id in ts.rows && !ClashesOther(ts.rows, clash, id, r) ==>
              ts.Put(id, r).Valid(clash)
  {
    if ts.Valid(clash) && id in ts.rows && !ClashesOther(ts.rows, clash, id, r) {
      var t := ts.Put(id, r);
      forall i, j | i in t.rows && j in t.rows && i != j
        ensures !clash(t.rows[i], t.rows[j])
      {
        if i == id {
          assert j in ts.rows && j != id;
        } else if j == id {
          assert i in ts.rows && i != id;
        }
      }
    }
  }

  /**
   * A row rewritten with values that clash exactly as its old values did cannot break the
   * unique constraint.
   */
  lemma SameKeysNoClash<R>(ts: TableState<R>, clash: (R, R) -> bool, id: Id, r: R)
    requires ts.Valid(clash) && id in ts.rows
    requires forall k :: k in ts.rows && k != id ==>
               clash(ts.rows[k], r) == clash(ts.rows[k], ts.rows[id]) &&
               clash(r, ts.rows[k]) == clash(ts.rows[id], ts.rows[k])
    ensures !ClashesOther(ts.rows, clash, id, r)
  {
  }

  lemma RemovedValid<R>(ts: TableState<R>, clash: (R, R) -> bool, id: Id)
    ensures ts.Valid(clash) ==> ts.Removed(id).Valid(clash)
  {
  }

  lemma KeptValid<R>(ts: TableState<R>, clash: (R, R) -> bool, p: R -> bool)
    ensures ts.Valid(clash) ==> ts.Kept(p).Valid(clash)
  {
  }

  /** Keeping the rows that satisfy a filter every row satisfies changes nothing. */
  lemma KeptAll<R>(ts: TableState<R>, p: R -> bool)
    requires forall k :: k in ts.rows ==> p(ts.rows[k])
    ensures ts.Kept(p) == ts
  {
    var m := ts.Kept(p).rows;
    assert m == map k | k in ts.rows && p(ts.rows[k]) :: ts.rows[k];
    forall k | k in ts.rows
      ensures k in m && m[k] == ts.rows[k]
    {
      assert p(ts.rows[k]);
    }
    assert m.Keys == ts.rows.Keys;
  }

  // ---------------------------------------------------------------- result lists

  /** The rows with ids in [1, hi) that satisfy `p`, in ascending id order. */
  function Listing<R>(rows: map<Id, R>, p: R -> bool, hi: Id): seq<Entry<R>>
    decreases hi
  {
    if hi <= 1 then []
    else Listing(rows, p, hi - 1)
         + (if hi - 1 in rows && p(rows[hi - 1]) then [Entry(hi - 1, rows[hi - 1])] else [])
  }

  /** The filter `col == v` of a query by column. */
  function Eq<R, V(==)>(col: R -> V, v: V): R -> bool {
    (x: R) => col(x) == v
  }

  /** The filter `col > v` of a comparison query. */
  function Above<R>(col: R -> real, v: real): R -> bool {
    (x: R) => col(x) > v
  }

  /** The filter of an unfiltered select. */
  function Any<R>(): R -> bool {
    (x: R) => true
  }

  ghost predicate Ascending<R>(rs: seq<Entry<R>>) {
    forall i, j :: 0 <= i < j < |rs| ==> rs[i].id < rs[j].id
  }

  /** A listing holds exactly the stored rows in range that pass the filter. */
  lemma {:induction false} ListingMember<R>(rows: map<Id, R>, p: R -> bool, hi: Id, e: Entry<R>)
    ensures e in Listing(rows, p, hi) <==>
            1 <= e.id < hi && e.id in rows && e.rec == rows[e.id] && p(e.rec)
    decreases hi
  {
    if hi > 1 {
      ListingMember(rows, p, hi - 1, e);
    }
  }

  lemma ListingMembers<R>(rows: map<Id, R>, p: R -> bool, hi: Id)
    ensures forall e :: e in Listing(rows, p, hi) <==>
                        1 <= e.id < hi && e.id in rows && e.rec == rows[e.id] && p(e.rec)
  {
    forall e
      ensures e in Listing(rows, p, hi) <==>
              1 <= e.id < hi && e.id in rows && e.rec == rows[e.id] && p(e.rec)
    {
      ListingMember(rows, p, hi, e);
    }
  }

  /** A listing is in strictly ascending id order, so it repeats no row. */
  lemma {:induction false} ListingAscending<R>(rows: map<Id, R>, p: R -> bool, hi: Id)
    ensures Ascending(Listing(rows, p, hi))
    decreases hi
  {
    if hi > 1 {
      var pre := Listing(rows, p, hi - 1);
      ListingAscending(rows, p, hi - 1);
      forall i | 0 <= i < |pre|
        ensures pre[i].id < hi - 1
      {
        ListingMember(rows, p, hi - 1, pre[i]);
      }
    }
  }

  /** Two row maps that agree below `hi` have the same listing below `hi`. */
  lemma {:induction false} ListingAgree<R>(rows1: map<Id, R>, rows2: map<Id, R>, p: R -> bool, hi: Id)
    requires forall k :: 1 <= k < hi ==> (k in rows1 <==> k in rows2)
    requires forall k :: 1 <= k < hi && k in rows1 ==> rows1[k] == rows2[k]
    ensures Listing(rows1, p, hi) == Listing(rows2, p, hi)
    decreases hi
  {
    if hi > 1 {
      ListingAgree(rows1, rows2, p, hi - 1);
    }
  }

  // ---------------------------------------------------------------- the repository operations

  /**
   * add_one: inserts a row under the next serial id and returns that id. An insert the store
   * refuses, because it breaks the unique constraint or because a foreign key does not
   * resolve (`linked` false), raises an IntegrityError, reported as a duplicate entry. The id
   * is drawn from the sequence before the constraints are checked, so a refused insert uses
   * one up too.
   */
  function AddOne<R>(ts: TableState<R>, clash: (R, R) -> bool, data: R, linked: bool): (s: Step<Id, R>)
    ensures s.result.Failure? <==> !linked || Clashes(ts.rows, clash, data)
    ensures s.result.Failure? ==> s.result.error == DuplicateEntry && s.table == ts.Skipped()
    ensures s.table.rows.Keys >= ts.rows.Keys && s.table.nextId == ts.nextId + 1
    ensures s.result.Success? ==>
              var id := s.result.value;
              && id == ts.nextId
              && s.table == ts.Inserted(data)
              && s.table.rows.Keys == ts.rows.Keys + {id}
              && s.table.rows[id] == data
              && (forall k :: k in ts.rows && k != id ==> s.table.rows[k] == ts.rows[k])
    ensures ts.Valid(clash) ==>
              s.table.Valid(clash) && (s.result.Success? ==> s.result.value !in ts.rows)
  {
    InsertedValid(ts, clash, data);
    if !linked || Clashes(ts.rows, clash, data) then Step(Failure(DuplicateEntry), ts.Skipped())
    else Step(Success(ts.nextId), ts.Inserted(data))
  }

  /** find_one: the row with the given id, or nothing. */
  function FindOne<R>(ts: TableState<R>, id: Id): (r: Option<R>)
    ensures r.Some? <==> id in ts.rows
    ensures r.Some? ==> r.value == ts.rows[id]
  {
    if id in ts.rows then Some(ts.rows[id]) else None
  }

  /** find_all: every row, each once, in id order. */
  function FindAll<R(!new)>(ts: TableState<R>): (rs: seq<Entry<R>>)
    requires ts.Keyed()
    ensures forall e :: e in rs <==> e.id in ts.rows && e.rec == ts.rows[e.id]
    ensures Ascending(rs)
  {
    ListingMembers(ts.rows, Any(), ts.nextId);
    ListingAscending(ts.rows, Any(), ts.nextId);
    Listing(ts.rows, Any(), ts.nextId)
  }

  /** find_all_by_param: exactly the rows whose column `col` equals `v`, in id order. */
  function FindAllByParam<R(!new), V(==)>(ts: TableState<R>, col: R -> V, v: V): (rs: seq<Entry<R>>)
    requires ts.Keyed()
    ensures forall e :: e in rs <==> e.id in ts.rows && e.rec == ts.rows[e.id] && col(e.rec) == v
    ensures Ascending(rs)
  {
    ListingMembers(ts.rows, Eq(col, v), ts.nextId);
    ListingAscending(ts.rows, Eq(col, v), ts.nextId);
    Listing(ts.rows, Eq(col, v), ts.nextId)
  }

  /** find_all_greater_than: exactly the rows whose column `col` exceeds `v`, in id order. */
  function FindAllGreaterThan<R(!new)>(ts: TableState<R>, col: R -> real, v: real): (rs: seq<Entry<R>>)
    requires ts.Keyed()
    ensures forall e :: e in rs <==> e.id in ts.rows && e.rec == ts.rows[e.id] && col(e.rec) > v
    ensures Ascending(rs)
  {
    ListingMembers(ts.rows, Above(col, v), ts.nextId);
    ListingAscending(ts.rows, Above(col, v), ts.nextId);
    Listing(ts.rows, Above(col, v), ts.nextId)
  }

  /**
   * find_one_by_param: the single row whose column `col` equals `v`, or nothing. Several
   * matches make the single-row fetch raise, an error no handler translates.
   */
  function FindOneByParam<R(!new), V(==)>(ts: TableState<R>, col: R -> V, v: V): (r: Result<Option<Entry<R>>, Error>)
    requires ts.Keyed()
    ensures r == Success(None) <==> forall k :: k in ts.rows ==> col(ts.rows[k]) != v
    ensures r.Failure? <==>
              exists i, j :: i in ts.rows && j in ts.rows && i != j && col(ts.rows[i]) == v && col(ts.rows[j]) == v
    ensures r.Failure? ==> r.error == MultipleRowsFound
    ensures r.Success? && r.value.Some? ==>
              var e := r.value.value;
              && e.id in ts.rows && e.rec == ts.rows[e.id] && col(e.rec) == v
              && forall k :: k in ts.rows && col(ts.rows[k]) == v ==> k == e.id
  {
    var rs := Listing(ts.rows, Eq(col, v), ts.nextId);
    ListingMembers(ts.rows, Eq(col, v), ts.nextId);
    ListingAscending(ts.rows, Eq(col, v), ts.nextId);
    assert forall k :: k in ts.rows && col(ts.rows[k]) == v ==> Entry(k, ts.rows[k]) in rs;
    if |rs| == 0 then Success(None)
    else if |rs| == 1 then
      assert rs[0] in rs && col(ts.rows[rs[0].id]) == v;
      Success(Some(rs[0]))
    else
      assert rs[0] in rs && rs[1] in rs && rs[0].id < rs[1].id;
      assert col(ts.rows[rs[0].id]) == v && col(ts.rows[rs[1].id]) == v;
      Failure(MultipleRowsFound)
  }

  /** delete_one: deletes row `id` and returns the id; an absent id is an error and changes nothing. */
  function DeleteOne<R>(ts: TableState<R>, id: Id): (s: Step<Id, R>)
    ensures s.result.Failure? <==> id !in ts.rows
    ensures s.result.Failure? ==> s.result.error == IdNotFound && s.table == ts
    ensures s.result.Success? ==>
              && s.result.value == id
              && s.table == ts.Removed(id)
              && s.table.rows.Keys == ts.rows.Keys - {id}
              && (forall k :: k in s.table.rows ==> s.table.rows[k] == ts.rows[k])
    ensures ts.Keyed() ==> s.table.Keyed()
  {
    if id !in ts.rows then Step(Failure(IdNotFound), ts)
    else Step(Success(id), ts.Removed(id))
  }

  /**
   * update_one: writes `newData` into row `id` and returns `newData` itself. `apply` says
   * which columns it sets, giving `None` when it would store NULL in a NOT NULL column. A
   * write the store refuses (a NULL in a NOT NULL column, a unique constraint, a foreign key
   * that `linked` says does not resolve) raises an IntegrityError the repository does not
   * translate.
   */
  function UpdateOne<R, P>(ts: TableState<R>, clash: (R, R) -> bool, id: Id, newData: P,
                           apply: (R, P) -> Option<R>, linked: R -> bool): (s: Step<P, R>)
    ensures id !in ts.rows ==> s == Step(Failure(IdNotFound), ts)
    ensures id in ts.rows ==>
              var nr := apply(ts.rows[id], newData);
              if nr.None? || ClashesOther(ts.rows, clash, id, nr.value) || !linked(nr.value) then
                s == Step(Failure(IntegrityViolation), ts)
              else
                && s.result == Success(newData)
                && s.table.rows.Keys == ts.rows.Keys
                && s.table.rows[id] == nr.value
                && s.table == ts.Put(id, nr.value)
                && (forall k :: k in ts.rows && k != id ==> s.table.rows[k] == ts.rows[k])
    ensures ts.Valid(clash) ==> s.table.Valid(clash)
  {
    if id !in ts.rows then Step(Failure(IdNotFound), ts)
    else
      var nr := apply(ts.rows[id], newData);
      if nr.None? || ClashesOther(ts.rows, clash, id, nr.value) || !linked(nr.value) then
        Step(Failure(IntegrityViolation), ts)
      else
        PutValid(ts, clash, id, nr.value);
        Step(Success(newData), ts.Put(id, nr.value))
  }

  // ---------------------------------------------------------------- how the operations combine

  /** A row just inserted is found under the returned id, and every other lookup is unchanged. */
  lemma AddThenFind<R>(ts: TableState<R>, clash: (R, R) -> bool, data: R, linked: bool, id: Id)
    requires ts.Keyed()
    ensures var s := AddOne(ts, clash, data, linked);
            FindOne(s.table, id) ==
              if s.result.Success? && id == s.result.value then Some(data) else FindOne(ts, id)
  {
  }

  /** After a successful delete the id is no longer found; other lookups are unchanged. */
  lemma DeleteThenFind<R>(ts: TableState<R>, id: Id, other: Id)
    ensures var s := DeleteOne(ts, id);
            FindOne(s.table, other) == if other == id then None else FindOne(ts, other)
  {
  }

  /** Deleting an id twice: the second delete reports the id as not found. */
  lemma DeleteTwice<R>(ts: TableState<R>, id: Id)
    ensures DeleteOne(DeleteOne(ts, id).table, id).result == Failure(IdNotFound)
  {
  }

  /** An update that succeeds is seen by the next lookup of that id and of no other. */
  lemma UpdateThenFind<R, P>(ts: TableState<R>, clash: (R, R) -> bool, id: Id, newData: P,
                             apply: (R, P) -> Option<R>, linked: R -> bool, other: Id)
    ensures var s := UpdateOne(ts, clash, id, newData, apply, linked);
            FindOne(s.table, other) ==
              if s.result.Success? && other == id then apply(ts.rows[id], newData)
              else FindOne(ts, other)
  {
  }

  /** An insert appends the new row to every listing whose filter it passes. */
  lemma ListingAfterAdd<R>(ts: TableState<R>, clash: (R, R) -> bool, data: R, p: R -> bool)
    requires ts.Keyed()
    ensures var s := AddOne(ts, clash, data, true);
            s.result.Success? ==>
              Listing(s.table.rows, p, s.table.nextId)
              == Listing(ts.rows, p, ts.nextId) + (if p(data) then [Entry(ts.nextId, data)] else [])
  {
    var s := AddOne(ts, clash, data, true);
    if s.result.Success? {
      ListingAgree(s.table.rows, ts.rows, p, ts.nextId);
    }
  }
}
