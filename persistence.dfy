/** The abstract store behind the Spring Data repository: the `subscriptions`
    table as a map from id to row plus the IDENTITY counter, and what `save`
    does with a new or a loaded entity (hooks, bean validation, the unique index
    on `name`, id assignment). */
module Persistence {
  import opened Results
  import opened Validation
  import opened Entity

  /** The table: rows by id, and the id the next insert receives. */
  datatype Table = Table(rows: map<int, Record>, nextId: int)

  /** A fresh database: no rows, IDENTITY starting at 1. */
  function EmptyTable(): (t: Table)
    ensures Inv(t) && |t.rows| == 0
  {
    Table(map[], 1)
  }

  /** The unique index on `name`, over active and inactive rows alike. */
  ghost predicate UniqueNames(rows: map<int, Record>) {
    forall i, j :: i in rows && j in rows && rows[i].name == rows[j].name ==> i == j
  }

  /** What every write through the application maintains: each row is stored
      under its own id, below the IDENTITY counter, and no two rows share a name
      (the unique index). Each row is `RecordValid`: the NOT NULL columns are set,
      and the non-blank strings and the positive price come from bean validation
      before each insert or update. */
  ghost predicate Inv(t: Table) {
    && 1 <= t.nextId
    && (forall id :: id in t.rows ==> 1 <= id < t.nextId && t.rows[id].id == id && RecordValid(t.rows[id]))
    && UniqueNames(t.rows)
  }

  /** `count()`: zero exactly for an empty table. */
  function Count(t: Table): (n: int)
    ensures n >= 0
    ensures n == 0 <==> t.rows == map[]
  {
    |t.rows|
  }

  /** `findById(id)`, with no filter on the active flag. */
  function FindById(t: Table, id: int): (r: Option<Record>)
    ensures r.Some? <==> id in t.rows
    ensures r.Some? ==> r.value == t.rows[id]
  {
    if id in t.rows then Some(t.rows[id]) else None
  }

  /** The unique index would reject `name` for a row other than `except`. */
  predicate NameInUse(t: Table, name: string, except: Option<int>) {
    exists id :: id in t.rows && Some(id) != except && t.rows[id].name == name
  }

  /** Every row of `t` is still in `u`, unchanged. */
  predicate KeepsRows(t: Table, u: Table) {
    forall id :: id in t.rows ==> id in u.rows && u.rows[id] == t.rows[id]
  }

  /** `u` has the same ids as `t`, and every row but the one under `id` is unchanged. */
  predicate KeepsOtherRows(t: Table, u: Table, id: int) {
    && u.rows.Keys == t.rows.Keys
    && forall k :: k in t.rows && k != id ==> u.rows[k] == t.rows[k]
  }

  /** The state a store operation leaves behind and what it returns. A failed
      operation rolls back, so its table is the one it started from. */
  datatype Transition<T> = Transition(table: Table, result: Result<T>)

  /** `save` of a new entity (no id): `@PrePersist` stamps both timestamps, bean
      validation runs, the insert must pass the unique index, and the row gets
      the next IDENTITY value. */
  function Persist(t: Table, st: EntityState, now: int): (s: Transition<Record>)
    requires st.id.None?
    ensures s.result.Err? ==> s.table == t
    ensures s.result.Err? <==> !PassesValidation(st) || NameInUse(t, st.name.value, None)
    ensures s.result.Ok? ==>
      && s.result.value == ToRecord(OnCreated(st, now).(id := Some(t.nextId)))
      && s.table == Table(t.rows[t.nextId := s.result.value], t.nextId + 1)
  {
    var stamped := OnCreated(st, now);
    if !PassesValidation(stamped) then Transition(t, Err(ConstraintViolation))
    else if NameInUse(t, stamped.name.value, None) then Transition(t, Err(UniqueViolation))
    else
      var r := ToRecord(stamped.(id := Some(t.nextId)));
      Transition(Table(t.rows[t.nextId := r], t.nextId + 1), Ok(r))
  }

  /** `save` of a loaded entity, flushed at commit. Hibernate's dirty check
      issues no UPDATE (and runs no `@PreUpdate`) when nothing changed;
      otherwise `updatedAt` is refreshed, bean validation runs and the new name
      must pass the unique index. */
  function Merge(t: Table, st: EntityState, now: int): (s: Transition<Record>)
    requires st.id.Some? && st.id.value in t.rows && st.createdAt.Some?
    ensures s.result.Err? ==> s.table == t
    ensures st == Hydrate(t.rows[st.id.value]) ==> s == Transition(t, Ok(t.rows[st.id.value]))
    ensures st != Hydrate(t.rows[st.id.value]) ==>
      (s.result.Err? <==> !PassesValidation(st) || NameInUse(t, st.name.value, st.id))
    ensures st != Hydrate(t.rows[st.id.value]) && s.result.Ok? ==>
      && s.result.value == ToRecord(OnUpdated(st, now))
      && s.table == t.(rows := t.rows[st.id.value := s.result.value])
  {
    var id := st.id.value;
    if st == Hydrate(t.rows[id]) then Transition(t, Ok(t.rows[id]))
    else
      var touched := OnUpdated(st, now);
      if !PassesValidation(touched) then Transition(t, Err(ConstraintViolation))
      else if NameInUse(t, touched.name.value, Some(id)) then Transition(t, Err(UniqueViolation))
      else
        var r := ToRecord(touched);
        Transition(t.(rows := t.rows[id := r]), Ok(r))
  }

  /** An insert keeps the store invariant: the new row takes the fresh id and its
      name was checked against every existing row. */
  lemma PersistKeepsInv(t: Table, st: EntityState, now: int)
    requires Inv(t) && st.id.None?
    ensures Inv(Persist(t, st, now).table)
  {
    var s := Persist(t, st, now);
    if s.result.Ok? {
      var r := s.result.value;
      assert !NameInUse(t, r.name, None);
      forall i, j | i in s.table.rows && j in s.table.rows && s.table.rows[i].name == s.table.rows[j].name
        ensures i == j
      {
      }
    }
  }

  /** Flushing a loaded entity keeps the store invariant: the row stays under
      its id and its new name was checked against every other row. */
  lemma MergeKeepsInv(t: Table, st: EntityState, now: int)
    requires Inv(t) && st.id.Some? && st.id.value in t.rows && st.createdAt.Some?
    ensures Inv(Merge(t, st, now).table)
  {
    var id := st.id.value;
    if st != Hydrate(t.rows[id]) && PassesValidation(st) && !NameInUse(t, st.name.value, Some(id)) {
      var r := ToRecord(OnUpdated(st, now));
      var rows := t.rows[id := r];
      assert Merge(t, st, now).table.rows == rows;
      assert r.id == id && RecordValid(r);
      forall i, j | i in rows && j in rows && rows[i].name == rows[j].name
        ensures i == j
      {
      }
    }
  }

  /** The database shared by the service and the start-up loader. */
  class Store {
    var table: Table

    constructor ()
      ensures table == EmptyTable()
    {
      table := EmptyTable();
    }

    ghost predicate Valid()
      reads this
    {
      Inv(table)
    }

    /** `findById` returning a managed entity: a new object filled from the row. */
    method Load(id: int) returns (e: Subscription?)
      ensures e == null <==> id !in table.rows
      ensures e != null ==> fresh(e) && e.State() == Hydrate(table.rows[id])
    {
      if id !in table.rows {
        return null;
      }
      var r := table.rows[id];
      e := new Subscription();
      e.SetId(Some(r.id));
      e.SetName(Some(r.name));
      e.SetDescription(r.description);
      e.SetPrice(Some(r.price));
      e.SetCurrency(Some(r.currency));
      e.SetCategory(Some(r.category));
      e.SetBillingPeriod(r.billingPeriod);
      e.SetWebsiteUrl(r.websiteUrl);
      e.SetLogoUrl(r.logoUrl);
      e.SetIsActive(r.isActive);
      e.SetCreatedAt(Some(r.createdAt));
      e.SetUpdatedAt(Some(r.updatedAt));
    }

    /** `save(entity)`: insert when the entity has no id, otherwise flush the
        changes of the loaded entity. On success the entity mirrors the row. */
    method Save(e: Subscription, now: int) returns (res: Result<Record>)
      requires Valid()
      requires e.id.Some? ==> e.id.value in table.rows && e.createdAt.Some?
      modifies this, e
      ensures Valid()
      ensures old(e.id).None? ==>
        table == Persist(old(table), old(e.State()), now).table &&
        res == Persist(old(table), old(e.State()), now).result
      ensures old(e.id).Some? ==>
        table == Merge(old(table), old(e.State()), now).table &&
        res == Merge(old(table), old(e.State()), now).result
      ensures res.Ok? ==> e.State() == Hydrate(res.value)
    {
      if e.id.None? {
        e.OnCreate(now);
        if !PassesValidation(e.State()) {
          return Err(ConstraintViolation);
        }
        if NameInUse(table, e.name.value, None) {
          return Err(UniqueViolation);
        }
        e.id := Some(table.nextId);
        var r := ToRecord(e.State());
        PersistKeepsInv(table, old(e.State()), now);
        table := Table(table.rows[table.nextId := r], table.nextId + 1);
        res := Ok(r);
      } else {
        var id := e.id.value;
        if e.State() == Hydrate(table.rows[id]) {
          return Ok(table.rows[id]);
        }
        e.OnUpdate(now);
        if !PassesValidation(e.State()) {
          return Err(ConstraintViolation);
        }
        if NameInUse(table, e.name.value, Some(id)) {
          return Err(UniqueViolation);
        }
        var r := ToRecord(e.State());
        MergeKeepsInv(table, old(e.State()), now);
        table := table.(rows := table.rows[id := r]);
        res := Ok(r);
      }
    }
  }
}
