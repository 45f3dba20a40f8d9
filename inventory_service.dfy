/**
 * The inventory service of the backend (backend/app/inventory/service.py) over the two ORM tables
 * of backend/app/inventory/models.py: items keyed by lot number and an append-only list of
 * stock movements. Each operation is specified by a function from the tables before to the
 * tables after (or to the error it raises); the `InventoryService` class applies it to a
 * `Database` and broadcasts the event to every registered listener queue.
 */
module InventoryService {
  import opened Common
  import opened Seqs

  type Date = int
  type DateTime = int

  /** `CATEGORY_ENUM`, the values of the column type `inventory_category_enum`. */
  const CategoryEnum: set<string> := {"malt", "hop", "yeast", "additive", "package", "consumable"}

  /** `EVENT_ENUM`. */
  datatype EventType = Alta | Ajuste | Consumo | Devolucion | Import

  /** A row of `inventory_items`. */
  datatype Item = Item(
    lotNumber: string,
    name: string,
    category: string,
    quantity: real,
    unit: string,
    supplier: Option<string>,
    cost: Option<real>,
    expiryDate: Option<Date>,
    location: Option<string>,
    createdAt: Option<DateTime>)

  /** A row of `inventory_transactions` (its id, user and timestamp are not modelled). */
  datatype Transaction = Transaction(lotNumber: string, eventType: EventType, delta: real, batchId: Option<string>)

  /** The two tables. */
  datatype Tables = Tables(items: map<string, Item>, transactions: seq<Transaction>)

  /** `ItemCreate`. */
  datatype ItemCreate = ItemCreate(
    lotNumber: string,
    name: string,
    category: string,
    quantity: real,
    unit: string,
    supplier: Option<string>,
    cost: Option<real>,
    expiryDate: Option<Date>,
    location: Option<string>)

  /**
   * `ItemUpdate.dict(exclude_unset=True)`: `None` for a field the client did not send and
   * `Some(None)` for an explicit null, which every field of the schema admits.
   */
  datatype ItemUpdate = ItemUpdate(
    name: Option<Option<string>>,
    category: Option<Option<string>>,
    quantity: Option<Option<real>>,
    unit: Option<Option<string>>,
    supplier: Option<Option<string>>,
    cost: Option<Option<real>>,
    expiryDate: Option<Option<Date>>,
    location: Option<Option<string>>)

  /** The update that sends no field. */
  const NoChange: ItemUpdate := ItemUpdate(None, None, None, None, None, None, None, None)

  /**
   * What an operation raises: the service's own `ValueError`s; the database's rejection of a
   * statement with an empty `SET` clause (`EmptySet`), of a category outside the enum type
   * (`DataError`), and of a duplicate key, a null in a `NOT NULL` column or a negative quantity
   * (`ck_inventory_items_qty_nonnegative`) (`IntegrityError`); and `scalar_one` finding no row.
   */
  datatype ServiceError = ValueError(message: string) | EmptySet | DataError | IntegrityError | NoResultFound

  const ItemNotFound: string := "Item not found"
  const NegativeBalance: string := "Saldo negativo no permitido"

  /** A broadcast event: `{"event": ..., "lot_number": ..., "delta": ...}`. */
  datatype Message = Message(event: string, lotNumber: string, delta: Option<real>)

  // ---- The operations on the tables ----

  /** `InventoryItem(**data.dict())` as stored at time `now`. */
  function NewItem(data: ItemCreate, now: DateTime): Item {
    Item(data.lotNumber, data.name, data.category, data.quantity, data.unit,
         data.supplier, data.cost, data.expiryDate, data.location, Some(now))
  }

  /**
   * `create_item`: the item and its `ALTA` movement, committed together. The category is cast
   * to the enum type before any row is written; the key and the check constraint are tested
   * on the row.
   */
  function AfterCreate(t: Tables, data: ItemCreate, now: DateTime): Result<Tables, ServiceError> {
    if data.category !in CategoryEnum then Err(DataError)
    else if data.lotNumber in t.items || data.quantity < 0.0 then Err(IntegrityError)
    else
      Ok(Tables(t.items[data.lotNumber := NewItem(data, now)],
                t.transactions + [Transaction(data.lotNumber, Alta, data.quantity, None)]))
  }

  /** An optional new value: the old one when the field was not sent. */
  function Supplied<T>(o: Option<T>, old_: T): T {
    if o.Some? then o.value else old_
  }

  /** A new value for a `NOT NULL` column: the old one when the field was not sent (or was null). */
  function SuppliedValue<T>(o: Option<Option<T>>, old_: T): T {
    if o.Some? && o.value.Some? then o.value.value else old_
  }

  /** An explicit null sent for one of the `NOT NULL` columns. */
  predicate NullsRequired(data: ItemUpdate) {
    data.name == Some(None) || data.category == Some(None) || data.quantity == Some(None) || data.unit == Some(None)
  }

  /** The `UPDATE ... SET` of the supplied fields. */
  function Patched(it: Item, data: ItemUpdate): Item {
    it.(name := SuppliedValue(data.name, it.name),
        category := SuppliedValue(data.category, it.category),
        quantity := SuppliedValue(data.quantity, it.quantity),
        unit := SuppliedValue(data.unit, it.unit),
        supplier := Supplied(data.supplier, it.supplier),
        cost := Supplied(data.cost, it.cost),
        expiryDate := Supplied(data.expiryDate, it.expiryDate),
        location := Supplied(data.location, it.location))
  }

  /**
   * `update_item`: an update with no field is a statement with an empty `SET` clause; a category
   * outside the enum fails its cast whether or not a row matches; no matching row raises from
   * `scalar_one`; on the matching row a null in a `NOT NULL` column or a negative quantity
   * breaks a constraint.
   */
  function AfterUpdate(t: Tables, lot: string, data: ItemUpdate): Result<Tables, ServiceError> {
    if data == NoChange then Err(EmptySet)
    else if data.category.Some? && data.category.value.Some? && data.category.value.value !in CategoryEnum then Err(DataError)
    else if lot !in t.items then Err(NoResultFound)
    else if NullsRequired(data) || (data.quantity.Some? && data.quantity.value.Some? && data.quantity.value.value < 0.0) then
      Err(IntegrityError)
    else Ok(t.(items := t.items[lot := Patched(t.items[lot], data)]))
  }

  /** `delete_item`: the row goes, and with it (`ondelete="CASCADE"`) its movements; a missing lot is no error. */
  function AfterDelete(t: Tables, lot: string): Tables {
    Tables(t.items - {lot}, Filter(t.transactions, NotOf(lot)))
  }

  /** `tx.lot_number != lot`. */
  function NotOf(lot: string): Transaction -> bool {
    (tx: Transaction) => tx.lotNumber != lot
  }

  /** `consume`: the two `ValueError` guards, then the decrement and its `CONSUMO` movement. */
  function AfterConsume(t: Tables, lot: string, qty: real, batchId: Option<string>): Result<Tables, ServiceError> {
    if lot !in t.items then Err(ValueError(ItemNotFound))
    else if t.items[lot].quantity - qty < 0.0 then Err(ValueError(NegativeBalance))
    else
      var it := t.items[lot];
      Ok(Tables(t.items[lot := it.(quantity := it.quantity - qty)],
                t.transactions + [Transaction(lot, Consumo, -qty, batchId)]))
  }

  // ---- What each operation does ----

  /**
   * `create_item` raises `DataError` exactly on a category outside the enum, and otherwise fails
   * exactly on a taken lot number or a negative quantity.
   */
  lemma CreateOutcome(t: Tables, data: ItemCreate, now: DateTime)
    ensures AfterCreate(t, data, now) == Err(DataError) <==> data.category !in CategoryEnum
    ensures AfterCreate(t, data, now) == Err(IntegrityError) <==>
      data.category in CategoryEnum && (data.lotNumber in t.items || data.quantity < 0.0)
    ensures AfterCreate(t, data, now).Ok? <==>
      data.category in CategoryEnum && data.lotNumber !in t.items && data.quantity >= 0.0
  {
  }

  /** A created item is stored as sent, stamped `now`, beside an `ALTA` movement of its initial quantity. */
  lemma CreateEffect(t: Tables, data: ItemCreate, now: DateTime)
    requires AfterCreate(t, data, now).Ok?
    ensures var u := AfterCreate(t, data, now).value;
      && data.lotNumber in u.items
      && u.items[data.lotNumber].lotNumber == data.lotNumber
      && u.items[data.lotNumber].name == data.name
      && u.items[data.lotNumber].category == data.category
      && u.items[data.lotNumber].quantity == data.quantity
      && u.items[data.lotNumber].unit == data.unit
      && u.items[data.lotNumber].supplier == data.supplier
      && u.items[data.lotNumber].cost == data.cost
      && u.items[data.lotNumber].expiryDate == data.expiryDate
      && u.items[data.lotNumber].location == data.location
      && u.items[data.lotNumber].createdAt == Some(now)
      && (forall l :: l != data.lotNumber ==> (l in u.items <==> l in t.items) && (l in t.items ==> u.items[l] == t.items[l]))
      && |u.transactions| == |t.transactions| + 1
      && u.transactions[..|t.transactions|] == t.transactions
      && u.transactions[|t.transactions|] == Transaction(data.lotNumber, Alta, data.quantity, None)
  {
  }

  /**
   * Which error `update_item` raises: an empty update is refused before anything else, then a
   * category outside the enum, then a missing lot; the update commits exactly when it sends a
   * field, sends no category outside the enum, finds its lot, sends no null for a `NOT NULL`
   * column and no negative quantity.
   */
  lemma UpdateOutcome(t: Tables, lot: string, data: ItemUpdate)
    ensures AfterUpdate(t, lot, data) == Err(EmptySet) <==> data == NoChange
    ensures AfterUpdate(t, lot, data) == Err(DataError) <==>
      data != NoChange && exists c :: data.category == Some(Some(c)) && c !in CategoryEnum
    ensures AfterUpdate(t, lot, data) == Err(NoResultFound) <==>
      data != NoChange && (forall c :: data.category == Some(Some(c)) ==> c in CategoryEnum) && lot !in t.items
    ensures AfterUpdate(t, lot, data).Ok? <==>
      && data != NoChange
      && (forall c :: data.category == Some(Some(c)) ==> c in CategoryEnum)
      && lot in t.items
      && data.name != Some(None) && data.category != Some(None) && data.quantity != Some(None) && data.unit != Some(None)
      && (forall q :: data.quantity == Some(Some(q)) ==> q >= 0.0)
  {
  }

  /** An update changes only the supplied fields of the matching lot, and no movement is recorded. */
  lemma UpdateEffect(t: Tables, lot: string, data: ItemUpdate)
    requires AfterUpdate(t, lot, data).Ok?
    ensures var u := AfterUpdate(t, lot, data).value;
      var (before, after) := (t.items[lot], u.items[lot]);
      && u.transactions == t.transactions
      && u.items.Keys == t.items.Keys
      && (forall l :: l in t.items && l != lot ==> u.items[l] == t.items[l])
      && after.lotNumber == before.lotNumber && after.createdAt == before.createdAt
      && (data.name.None? ==> after.name == before.name) && (data.name.Some? ==> data.name == Some(Some(after.name)))
      && (data.category.None? ==> after.category == before.category)
      && (data.category.Some? ==> data.category == Some(Some(after.category)))
      && (data.quantity.None? ==> after.quantity == before.quantity)
      && (data.quantity.Some? ==> data.quantity == Some(Some(after.quantity)))
      && (data.unit.None? ==> after.unit == before.unit) && (data.unit.Some? ==> data.unit == Some(Some(after.unit)))
      && (data.supplier.None? ==> after.supplier == before.supplier)
      && (data.supplier.Some? ==> data.supplier == Some(after.supplier))
      && (data.cost.None? ==> after.cost == before.cost) && (data.cost.Some? ==> data.cost == Some(after.cost))
      && (data.expiryDate.None? ==> after.expiryDate == before.expiryDate)
      && (data.expiryDate.Some? ==> data.expiryDate == Some(after.expiryDate))
      && (data.location.None? ==> after.location == before.location)
      && (data.location.Some? ==> data.location == Some(after.location))
  {
  }

  /** After a delete the lot and every movement of it are gone; every other row stays, in order. */
  lemma DeleteEffect(t: Tables, lot: string)
    ensures var u := AfterDelete(t, lot);
      && lot !in u.items
      && (forall l :: l != lot ==> (l in u.items <==> l in t.items) && (l in t.items ==> u.items[l] == t.items[l]))
      && (forall tx :: tx in u.transactions <==> tx in t.transactions && tx.lotNumber != lot)
      && IsSubsequence(u.transactions, t.transactions)
  {
    var keep := NotOf(lot);
    forall tx ensures tx in Filter(t.transactions, keep) <==> tx in t.transactions && keep(tx) {
      FilterMembership(t.transactions, keep, tx);
    }
    FilterIsSubsequence(t.transactions, keep);
  }

  /** `consume` on a missing lot raises "Item not found" and changes nothing. */
  lemma ConsumeMissing(t: Tables, lot: string, qty: real, batchId: Option<string>)
    requires lot !in t.items
    ensures AfterConsume(t, lot, qty, batchId) == Err(ValueError(ItemNotFound))
  {
  }

  /** `consume` of more than is available raises "Saldo negativo no permitido". */
  lemma ConsumeOverdraw(t: Tables, lot: string, qty: real, batchId: Option<string>)
    requires lot in t.items && qty > t.items[lot].quantity
    ensures AfterConsume(t, lot, qty, batchId) == Err(ValueError(NegativeBalance))
  {
  }

  /**
   * A successful `consume` lowers the lot by exactly `qty`, never below zero, touches no other
   * field or lot, and appends one `CONSUMO` movement of `-qty` with the batch id.
   */
  lemma ConsumeEffect(t: Tables, lot: string, qty: real, batchId: Option<string>)
    ensures AfterConsume(t, lot, qty, batchId).Ok? <==> lot in t.items && qty <= t.items[lot].quantity
    ensures AfterConsume(t, lot, qty, batchId).Ok? ==>
      var u := AfterConsume(t, lot, qty, batchId).value;
      && u.items.Keys == t.items.Keys
      && u.items[lot].quantity == t.items[lot].quantity - qty >= 0.0
      && u.items[lot] == t.items[lot].(quantity := u.items[lot].quantity)
      && (forall l :: l in t.items && l != lot ==> u.items[l] == t.items[l])
      && u.transactions == t.transactions + [Transaction(lot, Consumo, -qty, batchId)]
  {
  }

  // ---- The stock balance ----

  /** The sum of the movements of `lot`. */
  function SumDeltas(txs: seq<Transaction>, lot: string): real {
    if txs == [] then 0.0
    else (if txs[0].lotNumber == lot then txs[0].delta else 0.0) + SumDeltas(txs[1..], lot)
  }

  /**
   * The tables are consistent: rows are keyed by their lot number, every category is one of
   * the enum's and every quantity is non-negative, every movement belongs to a stored lot, and
   * each lot's quantity is the sum of its movements.
   */
  predicate Consistent(t: Tables) {
    && (forall l :: l in t.items ==>
          t.items[l].lotNumber == l && t.items[l].category in CategoryEnum && t.items[l].quantity >= 0.0)
    && (forall i :: 0 <= i < |t.transactions| ==> t.transactions[i].lotNumber in t.items)
    && (forall l :: l in t.items ==> t.items[l].quantity == SumDeltas(t.transactions, l))
  }

  lemma {:induction false} SumAppend(txs: seq<Transaction>, tx: Transaction, lot: string)
    ensures SumDeltas(txs + [tx], lot) == SumDeltas(txs, lot) + (if tx.lotNumber == lot then tx.delta else 0.0)
  {
    if txs != [] {
      assert (txs + [tx])[1..] == txs[1..] + [tx];
      SumAppend(txs[1..], tx, lot);
    }
  }

  lemma {:induction false} SumWithoutLot(txs: seq<Transaction>, lot: string)
    requires forall i :: 0 <= i < |txs| ==> txs[i].lotNumber != lot
    ensures SumDeltas(txs, lot) == 0.0
  {
    if txs != [] {
      SumWithoutLot(txs[1..], lot);
    }
  }

  lemma {:induction false} SumAfterFilter(txs: seq<Transaction>, gone: string, lot: string)
    requires lot != gone
    ensures SumDeltas(Filter(txs, NotOf(gone)), lot) == SumDeltas(txs, lot)
  {
    if txs != [] {
      SumAfterFilter(txs[1..], gone, lot);
      var rest := Filter(txs[1..], NotOf(gone));
      if NotOf(gone)(txs[0]) {
        assert Filter(txs, NotOf(gone)) == [txs[0]] + rest;
        assert ([txs[0]] + rest)[1..] == rest;
      } else {
        assert Filter(txs, NotOf(gone)) == rest;
      }
    }
  }

  /** The empty database is consistent. */
  lemma EmptyConsistent()
    ensures Consistent(Tables(map[], []))
  {
  }

  lemma CreateKeepsConsistent(t: Tables, data: ItemCreate, now: DateTime)
    requires Consistent(t) && AfterCreate(t, data, now).Ok?
    ensures Consistent(AfterCreate(t, data, now).value)
  {
    var u := AfterCreate(t, data, now).value;
    var tx := Transaction(data.lotNumber, Alta, data.quantity, None);
    SumWithoutLot(t.transactions, data.lotNumber);
    forall l | l in u.items ensures u.items[l].quantity == SumDeltas(u.transactions, l) {
      SumAppend(t.transactions, tx, l);
    }
  }

  lemma ConsumeKeepsConsistent(t: Tables, lot: string, qty: real, batchId: Option<string>)
    requires Consistent(t) && AfterConsume(t, lot, qty, batchId).Ok?
    ensures Consistent(AfterConsume(t, lot, qty, batchId).value)
  {
    var u := AfterConsume(t, lot, qty, batchId).value;
    var tx := Transaction(lot, Consumo, -qty, batchId);
    forall l | l in u.items ensures u.items[l].quantity == SumDeltas(u.transactions, l) {
      SumAppend(t.transactions, tx, l);
    }
  }

  lemma DeleteKeepsConsistent(t: Tables, lot: string)
    requires Consistent(t)
    ensures Consistent(AfterDelete(t, lot))
  {
    var u := AfterDelete(t, lot);
    DeleteEffect(t, lot);
    forall i | 0 <= i < |u.transactions| ensures u.transactions[i].lotNumber in u.items {
      assert u.transactions[i] in t.transactions;
    }
    forall l | l in u.items ensures u.items[l].quantity == SumDeltas(u.transactions, l) {
      SumAfterFilter(t.transactions, lot, l);
    }
  }

  /** An update that does not send a quantity keeps the balance; one that does is not recorded as a movement. */
  lemma UpdateKeepsConsistent(t: Tables, lot: string, data: ItemUpdate)
    requires Consistent(t) && AfterUpdate(t, lot, data).Ok? && data.quantity.None?
    ensures Consistent(AfterUpdate(t, lot, data).value)
  {
  }

  // ---- The service object ----

  /** An `asyncio.Queue` of broadcast messages; `contents` is what has been put and not yet taken. */
  class Queue {
    var contents: seq<Message>

    constructor()
      ensures contents == []
    {
      contents := [];
    }

    /** `put`. */
    method Put(m: Message)
      modifies this
      ensures contents == old(contents) + [m]
    {
      contents := contents + [m];
    }
  }

  /** The database behind the session, as the committed tables. */
  class Database {
    var tables: Tables

    constructor(t: Tables)
      ensures tables == t
    {
      tables := t;
    }
  }

  class InventoryService {
    /** `_listeners`. */
    var listeners: seq<Queue>

    /** Each queue is registered once. */
    ghost predicate Valid()
      reads this
    {
      forall i, j :: 0 <= i < j < |listeners| ==> listeners[i] != listeners[j]
    }

    constructor()
      ensures Valid() && listeners == []
    {
      listeners := [];
    }

    /** `register_ws`: a fresh, empty queue is added after the registered ones. */
    method RegisterWs() returns (q: Queue)
      requires Valid()
      modifies this
      ensures Valid()
      ensures fresh(q) && q.contents == [] && listeners == old(listeners) + [q]
    {
      q := new Queue();
      listeners := listeners + [q];
    }

    /** `_broadcast`: the message is put, in turn, on every registered queue. */
    method Broadcast(msg: Message)
      requires Valid()
      modifies listeners
      ensures forall i :: 0 <= i < |listeners| ==> listeners[i].contents == old(listeners[i].contents) + [msg]
    {
      for k := 0 to |listeners|
        invariant forall i :: 0 <= i < k ==> listeners[i].contents == old(listeners[i].contents) + [msg]
        invariant forall i :: k <= i < |listeners| ==> listeners[i].contents == old(listeners[i].contents)
      {
        listeners[k].Put(msg);
      }
    }

    /** `create_item`: commit, then broadcast `ALTA`; on a rejected commit nothing changes and nothing is sent. */
    method CreateItem(db: Database, data: ItemCreate, now: DateTime) returns (r: Result<Item, ServiceError>)
      requires Valid()
      modifies db, listeners
      ensures var res := AfterCreate(old(db.tables), data, now);
        && (res.Err? ==> (r == Err(res.error) && db.tables == old(db.tables)
              && forall i :: 0 <= i < |listeners| ==> listeners[i].contents == old(listeners[i].contents)))
        && (res.Ok? ==> (r == Ok(NewItem(data, now)) && db.tables == res.value
              && forall i :: 0 <= i < |listeners| ==>
                   listeners[i].contents == old(listeners[i].contents) + [Message("ALTA", data.lotNumber, None)]))
    {
      var res := AfterCreate(db.tables, data, now);
      if res.Err? {
        return Err(res.error);
      }
      db.tables := res.value;
      Broadcast(Message("ALTA", data.lotNumber, None));
      return Ok(NewItem(data, now));
    }

    /** `update_item`: commit, then broadcast `UPDATE`, returning the updated row. */
    method UpdateItem(db: Database, lot: string, data: ItemUpdate) returns (r: Result<Item, ServiceError>)
      requires Valid()
      modifies db, listeners
      ensures var res := AfterUpdate(old(db.tables), lot, data);
        && (res.Err? ==> (r == Err(res.error) && db.tables == old(db.tables)
              && forall i :: 0 <= i < |listeners| ==> listeners[i].contents == old(listeners[i].contents)))
        && (res.Ok? ==> (db.tables == res.value && r == Ok(res.value.items[lot])
              && forall i :: 0 <= i < |listeners| ==>
                   listeners[i].contents == old(listeners[i].contents) + [Message("UPDATE", lot, None)]))
    {
      var res := AfterUpdate(db.tables, lot, data);
      if res.Err? {
        return Err(res.error);
      }
      db.tables := res.value;
      Broadcast(Message("UPDATE", lot, None));
      return Ok(res.value.items[lot]);
    }

    /** `delete_item`: delete, commit, broadcast `DELETE`, whether or not the lot existed. */
    method DeleteItem(db: Database, lot: string)
      requires Valid()
      modifies db, listeners
      ensures db.tables == AfterDelete(old(db.tables), lot)
      ensures forall i :: 0 <= i < |listeners| ==>
        listeners[i].contents == old(listeners[i].contents) + [Message("DELETE", lot, None)]
    {
      db.tables := AfterDelete(db.tables, lot);
      Broadcast(Message("DELETE", lot, None));
    }

    /** `consume`: on success commit and broadcast `CONSUMO` with the delta `-qty`. */
    method Consume(db: Database, lot: string, qty: real, batchId: Option<string>) returns (r: Result<(), ServiceError>)
      requires Valid()
      modifies db, listeners
      ensures var res := AfterConsume(old(db.tables), lot, qty, batchId);
        && (res.Err? ==> (r == Err(res.error) && db.tables == old(db.tables)
              && forall i :: 0 <= i < |listeners| ==> listeners[i].contents == old(listeners[i].contents)))
        && (res.Ok? ==> (r == Ok(()) && db.tables == res.value
              && forall i :: 0 <= i < |listeners| ==>
                   listeners[i].contents == old(listeners[i].contents) + [Message("CONSUMO", lot, Some(-qty))]))
    {
      var res := AfterConsume(db.tables, lot, qty, batchId);
      if res.Err? {
        return Err(res.error);
      }
      db.tables := res.value;
      Broadcast(Message("CONSUMO", lot, Some(-qty)));
      return Ok(());
    }
  }
}
