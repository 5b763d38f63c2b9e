/** `SubscriptionService`: the catalog's read paths (pure pipelines over the
    repository), its writes (load an entity, change it through setters, save
    it), the statistics assembly, and `mapToResponse`. */
module Service {
  import opened Results
  import opened Validation
  import opened Request
  import opened Entity
  import opened Persistence
  import opened Repository

  /** `SubscriptionResponse`: what callers see of a row. */
  datatype Response = Response(
    id: int,
    name: string,
    description: Option<string>,
    price: int,
    currency: string,
    category: string,
    billingPeriod: Option<string>,
    websiteUrl: Option<string>,
    logoUrl: Option<string>,
    isActive: bool)

  /** The row a response was made from, given back the two timestamps the
      response leaves out. */
  function RowOf(resp: Response, createdAt: int, updatedAt: int): Record {
    Record(resp.id, resp.name, resp.description, resp.price, resp.currency, resp.category,
           resp.billingPeriod, resp.websiteUrl, resp.logoUrl, resp.isActive, createdAt, updatedAt)
  }

  /** `mapToResponse`: every field but the two timestamps, copied as it is, so
      the row comes back from the response and its timestamps. */
  function MapToResponse(r: Record): (resp: Response)
    ensures RowOf(resp, r.createdAt, r.updatedAt) == r
  {
    Response(r.id, r.name, r.description, r.price, r.currency, r.category,
             r.billingPeriod, r.websiteUrl, r.logoUrl, r.isActive)
  }

  /** Two rows give the same response exactly when they differ at most in
      their timestamps: the mapping drops those and nothing else. */
  lemma ResponseDropsOnlyTimestamps(a: Record, b: Record)
    ensures MapToResponse(a) == MapToResponse(b) <==>
            a.(createdAt := 0, updatedAt := 0) == b.(createdAt := 0, updatedAt := 0)
  {
  }

  /** `.stream().map(this::mapToResponse)`: responses in the order of the rows. */
  function Responses(s: seq<Record>): (r: seq<Response>)
    ensures |r| == |s| && forall i :: 0 <= i < |s| ==> r[i] == MapToResponse(s[i])
    ensures forall x :: x in r <==> exists rec :: rec in s && x == MapToResponse(rec)
  {
    var r := seq(|s|, i requires 0 <= i < |s| => MapToResponse(s[i]));
    assert forall x :: x in r ==> exists rec :: rec in s && x == MapToResponse(rec) by {
      forall x | x in r ensures exists rec :: rec in s && x == MapToResponse(rec) {
        var i :| 0 <= i < |r| && r[i] == x;
        assert s[i] in s;
      }
    }
    assert forall rec :: rec in s ==> MapToResponse(rec) in r by {
      forall rec | rec in s ensures MapToResponse(rec) in r {
        var i :| 0 <= i < |s| && s[i] == rec;
        assert r[i] == MapToResponse(rec);
      }
    }
    r
  }

  // ---------------------------------------------------------------- reads

  /** `getAllSubscriptions`: exactly the active rows, each mapped, each once. */
  function GetAllSubscriptions(t: Table): (r: seq<Response>)
    requires Inv(t)
    ensures forall x :: x in r <==> exists rec :: rec in t.rows.Values && rec.isActive && x == MapToResponse(rec)
    ensures forall i, j :: 0 <= i < j < |r| ==> r[i].id < r[j].id
  {
    Responses(FindByIsActive(t, true))
  }

  /** `getSubscriptionById`: the mapped row when it exists and is active;
      "Subscription not found" when it is absent or inactive. */
  function GetSubscriptionById(t: Table, id: int): (r: Result<Response>)
    ensures r.Ok? <==> id in t.rows && t.rows[id].isActive
    ensures r.Ok? ==> r.value == MapToResponse(t.rows[id]) && r.value.isActive
    ensures r.Err? ==> r.error == NotFound
  {
    match FindById(t, id)
    case Some(rec) => if rec.isActive then Ok(MapToResponse(rec)) else Err(NotFound)
    case None => Err(NotFound)
  }

  /** `getSubscriptionsByCategory`: exactly the active rows of the category. */
  function GetSubscriptionsByCategory(t: Table, category: string): (r: seq<Response>)
    requires Inv(t)
    ensures forall x :: x in r <==>
      exists rec :: rec in t.rows.Values && rec.isActive && rec.category == category && x == MapToResponse(rec)
    ensures forall i, j :: 0 <= i < j < |r| ==> r[i].id < r[j].id
  {
    Responses(FindByCategoryAndIsActive(t, category, true))
  }

  /** `getAllCategories`: the categories of active rows, each once. */
  function GetAllCategories(t: Table): (r: seq<string>)
    requires Inv(t)
    ensures forall c :: c in r <==> exists rec :: rec in t.rows.Values && rec.isActive && rec.category == c
    ensures NoDuplicates(r)
  {
    FindAllActiveCategories(t)
  }

  /** `searchSubscriptions(name)`: the active rows whose name contains `name`. */
  function SearchSubscriptions(t: Table, name: string): (r: seq<Response>)
    requires Inv(t)
    ensures forall x :: x in r <==>
      exists rec :: rec in t.rows.Values && rec.isActive && Contains(rec.name, name) && x == MapToResponse(rec)
  {
    Responses(FindByNameContainingIgnoreCaseAndIsActive(t, name))
  }

  /** `getSubscriptionByIdForAdmin`: the mapped row whatever its flag; fails
      only when the id is absent. */
  function GetSubscriptionByIdForAdmin(t: Table, id: int): (r: Result<Response>)
    ensures r.Ok? <==> id in t.rows
    ensures r.Ok? ==> r.value == MapToResponse(t.rows[id])
    ensures r.Err? ==> r.error == NotFound
  {
    match FindById(t, id)
    case Some(rec) => Ok(MapToResponse(rec))
    case None => Err(NotFound)
  }

  // ---------------------------------------------------------------- writes, as functions of the table

  /** A store transition whose saved row is returned mapped. */
  function Respond(s: Transition<Record>): Transition<Response> {
    Transition(s.table, if s.result.Ok? then Ok(MapToResponse(s.result.value)) else Err(s.result.error))
  }

  /** The entity `createSubscription` builds: the six-argument constructor
      followed by the two URL setters. */
  function NewEntity(req: SubscriptionRequest, now: int): EntityState {
    Constructed(req.name, req.description, req.price, req.currency, req.category, req.billingPeriod, now)
      .(websiteUrl := req.websiteUrl, logoUrl := req.logoUrl)
  }

  /** `createSubscription`: a failure leaves the table as it was; a success
      returns a new active row under the next id; existing rows never change. */
  function CreateStep(t: Table, req: SubscriptionRequest, now: int): (s: Transition<Response>)
    requires Inv(t)
    ensures s.result.Err? ==> s.table == t
    ensures s.result.Ok? ==> t.nextId !in t.rows && s.result.value.id == t.nextId && s.result.value.isActive
    ensures KeepsRows(t, s.table)
  {
    if ExistsByName(t, req.name) then Transition(t, Err(AlreadyExists))
    else Respond(Persist(t, NewEntity(req, now), now))
  }

  /** The eight setters `updateSubscription` applies. */
  function Overwrite(st: EntityState, req: SubscriptionRequest): EntityState {
    st.(name := req.name, description := req.description, price := req.price,
        currency := req.currency, category := req.category,
        billingPeriod := req.billingPeriod, websiteUrl := req.websiteUrl, logoUrl := req.logoUrl)
  }

  /** The rename check of `updateSubscription`: the name changes and some row,
      active or not, already carries the new one. */
  predicate RenameConflict(t: Table, id: int, req: SubscriptionRequest)
    requires Inv(t) && id in t.rows
  {
    Some(t.rows[id].name) != req.name && ExistsByName(t, req.name)
  }

  /** `updateSubscription`: no filter on the active flag. A failure leaves the
      table as it was; a success returns the stored row under its own id with
      its flag kept; no other row changes and no row appears or disappears. */
  function UpdateStep(t: Table, id: int, req: SubscriptionRequest, now: int): (s: Transition<Response>)
    requires Inv(t)
    ensures s.result.Err? ==> s.table == t
    ensures s.result.Ok? ==> id in t.rows && s.result.value.id == id && s.result.value.isActive == t.rows[id].isActive
    ensures KeepsOtherRows(t, s.table, id)
  {
    if id !in t.rows then Transition(t, Err(NotFound))
    else if RenameConflict(t, id, req) then Transition(t, Err(AlreadyExists))
    else Respond(Merge(t, Overwrite(Hydrate(t.rows[id]), req), now))
  }

  /** Past the two checks, `updateSubscription` is the save of the overwritten entity. */
  lemma UpdateStepMerges(t: Table, id: int, req: SubscriptionRequest, now: int)
    requires Inv(t) && id in t.rows && !RenameConflict(t, id, req)
    ensures UpdateStep(t, id, req, now) == Respond(Merge(t, Overwrite(Hydrate(t.rows[id]), req), now))
  {
  }

  /** `deleteSubscription`: a soft delete. No row disappears, no other row
      changes, and after a success the row is inactive. */
  function DeleteStep(t: Table, id: int, now: int): (s: Transition<()>)
    requires Inv(t)
    ensures KeepsOtherRows(t, s.table, id)
    ensures s.result.Ok? ==> id in t.rows && !s.table.rows[id].isActive
  {
    if id !in t.rows then Transition(t, Err(NotFound))
    else
      var s := Merge(t, Hydrate(t.rows[id]).(isActive := false), now);
      Transition(s.table, if s.result.Ok? then Ok(()) else Err(s.result.error))
  }

  /** `activateSubscription`: no row appears or disappears, no other row
      changes, and a success stores and returns the row as active. */
  function ActivateStep(t: Table, id: int, now: int): (s: Transition<Response>)
    requires Inv(t)
    ensures KeepsOtherRows(t, s.table, id)
    ensures s.result.Ok? ==> id in t.rows && s.table.rows[id].isActive && s.result.value.isActive
  {
    if id !in t.rows then Transition(t, Err(NotFound))
    else Respond(Merge(t, Hydrate(t.rows[id]).(isActive := true), now))
  }

  // ---------------------------------------------------------------- what the writes do

  /** The row a successful create stores: the request's eight fields, active,
      both timestamps at the clock reading, under the next id. */
  function CreatedRecord(req: SubscriptionRequest, id: int, now: int): Record
    requires IsValid(req)
  {
    Record(id, req.name.value, req.description, req.price.value, req.currency.value,
           req.category.value, req.billingPeriod, req.websiteUrl, req.logoUrl, true, now, now)
  }

  /** The row a successful update stores: the request's eight fields over the
      old row; id, flag and `createdAt` kept; `updatedAt` refreshed only when
      something changed. */
  function Overwritten(cur: Record, req: SubscriptionRequest, now: int): Record
    requires IsValid(req)
  {
    var changed := cur.(name := req.name.value, description := req.description, price := req.price.value,
                        currency := req.currency.value, category := req.category.value,
                        billingPeriod := req.billingPeriod, websiteUrl := req.websiteUrl, logoUrl := req.logoUrl);
    if changed == cur then cur else changed.(updatedAt := now)
  }

  /** The row after its flag is set to `active`; `updatedAt` moves only when the
      flag actually changes. */
  function Flagged(cur: Record, active: bool, now: int): Record {
    if cur.isActive == active then cur else cur.(isActive := active, updatedAt := now)
  }

  /** The unique index never rejects a row's own name for that row. */
  lemma OwnNameFree(t: Table, id: int)
    requires Inv(t) && id in t.rows
    ensures !NameInUse(t, t.rows[id].name, Some(id))
  {
  }

  /** The entity built from a request passes the entity's bean validation
      exactly when the request passes `@Valid`. */
  lemma NewEntityValidIffRequestValid(req: SubscriptionRequest, now: int)
    ensures PassesValidation(NewEntity(req, now)) <==> IsValid(req)
    ensures PassesValidation(OnCreated(NewEntity(req, now), now)) <==> IsValid(req)
  {
  }

  /** `createSubscription` fails with "already exists" and changes nothing when
      any row, active or inactive, has the name; a request that fails
      validation is rolled back; otherwise exactly one new active row carrying
      the request's fields is added under the next id and returned mapped. */
  lemma CreateSpec(t: Table, req: SubscriptionRequest, now: int)
    requires Inv(t)
    ensures ExistsByName(t, req.name) ==> CreateStep(t, req, now) == Transition(t, Err(AlreadyExists))
    ensures !ExistsByName(t, req.name) && !IsValid(req) ==>
      CreateStep(t, req, now) == Transition(t, Err(ConstraintViolation))
    ensures !ExistsByName(t, req.name) && IsValid(req) ==>
      var rec := CreatedRecord(req, t.nextId, now);
      && CreateStep(t, req, now) == Transition(Table(t.rows[t.nextId := rec], t.nextId + 1), Ok(MapToResponse(rec)))
      && t.nextId !in t.rows
      && |CreateStep(t, req, now).table.rows| == |t.rows| + 1
  {
    NewEntityValidIffRequestValid(req, now);
    ExistsByNameMatchesIndex(t, req.name);
  }

  /** A created subscription is visible at once: looking up the returned id
      gives back the request's fields, active. */
  lemma CreateThenGet(t: Table, req: SubscriptionRequest, now: int)
    requires Inv(t) && IsValid(req) && !ExistsByName(t, req.name)
    ensures CreateStep(t, req, now).result.Ok?
    ensures var r := CreateStep(t, req, now).result.value;
      && GetSubscriptionById(CreateStep(t, req, now).table, r.id) == Ok(r)
      && r.name == req.name.value && r.price == req.price.value && r.currency == req.currency.value
      && r.category == req.category.value && r.description == req.description
      && r.billingPeriod == req.billingPeriod && r.websiteUrl == req.websiteUrl
      && r.logoUrl == req.logoUrl && r.isActive
  {
    CreateSpec(t, req, now);
  }

  /** Creating the same name twice: the second call fails with "already
      exists" and the table keeps the single row the first call added. */
  lemma CreateTwiceConflicts(t: Table, req: SubscriptionRequest, n1: int, n2: int)
    requires Inv(t) && CreateStep(t, req, n1).result.Ok?
    ensures Inv(CreateStep(t, req, n1).table)
    ensures var t1 := CreateStep(t, req, n1).table;
      CreateStep(t1, req, n2) == Transition(t1, Err(AlreadyExists))
  {
    CreateSpec(t, req, n1);
    PersistKeepsInv(t, NewEntity(req, n1), n1);
    var t1 := CreateStep(t, req, n1).table;
    assert t1.rows[t.nextId] in t1.rows.Values;
  }

  /** `updateSubscription` fails with "not found" only when the id is absent
      (inactive rows can be updated), with "already exists" only when the name
      changes to one in use, and otherwise overwrites exactly the eight request
      fields, keeping id, flag and `createdAt`; no other row changes. */
  lemma UpdateSpec(t: Table, id: int, req: SubscriptionRequest, now: int)
    requires Inv(t)
    ensures id !in t.rows ==> UpdateStep(t, id, req, now) == Transition(t, Err(NotFound))
    ensures id in t.rows && RenameConflict(t, id, req) ==>
      UpdateStep(t, id, req, now) == Transition(t, Err(AlreadyExists))
    ensures id in t.rows && !RenameConflict(t, id, req) && !IsValid(req) ==>
      UpdateStep(t, id, req, now) == Transition(t, Err(ConstraintViolation))
    ensures id in t.rows && !RenameConflict(t, id, req) && IsValid(req) ==>
      var rec := Overwritten(t.rows[id], req, now);
      && UpdateStep(t, id, req, now) == Transition(t.(rows := t.rows[id := rec]), Ok(MapToResponse(rec)))
      && rec.id == id && rec.isActive == t.rows[id].isActive && rec.createdAt == t.rows[id].createdAt
  {
    if id in t.rows && !RenameConflict(t, id, req) {
      var cur := t.rows[id];
      var st := Overwrite(Hydrate(cur), req);
      if st == Hydrate(cur) {
        assert IsValid(req);
        assert Overwritten(cur, req, now) == cur;
      } else if IsValid(req) {
        if req.name == Some(cur.name) {
          OwnNameFree(t, id);
        } else {
          ExistsByNameMatchesIndex(t, req.name);
        }
        assert !NameInUse(t, st.name.value, Some(id));
      }
    }
  }

  /** `deleteSubscription` fails only when the id is absent; otherwise it only
      clears the active flag (the row is kept), and succeeds on a row that is
      already inactive without touching it. */
  lemma DeleteSpec(t: Table, id: int, now: int)
    requires Inv(t)
    ensures id !in t.rows ==> DeleteStep(t, id, now) == Transition(t, Err(NotFound))
    ensures id in t.rows ==>
      DeleteStep(t, id, now) == Transition(t.(rows := t.rows[id := Flagged(t.rows[id], false, now)]), Ok(()))
  {
    if id in t.rows {
      OwnNameFree(t, id);
    }
  }

  /** `activateSubscription` fails only when the id is absent; otherwise it sets
      the flag and returns the row with `isActive = true`. */
  lemma ActivateSpec(t: Table, id: int, now: int)
    requires Inv(t)
    ensures id !in t.rows ==> ActivateStep(t, id, now) == Transition(t, Err(NotFound))
    ensures id in t.rows ==>
      var rec := Flagged(t.rows[id], true, now);
      && ActivateStep(t, id, now) == Transition(t.(rows := t.rows[id := rec]), Ok(MapToResponse(rec)))
      && MapToResponse(rec).isActive
  {
    if id in t.rows {
      OwnNameFree(t, id);
    }
  }

  /** Deleting twice is deleting once: the second call succeeds and changes nothing. */
  lemma DeleteIdempotent(t: Table, id: int, n1: int, n2: int)
    requires Inv(t)
    ensures Inv(DeleteStep(t, id, n1).table)
    ensures var s := DeleteStep(t, id, n1);
      DeleteStep(s.table, id, n2) == s
  {
    DeleteSpec(t, id, n1);
    var s := DeleteStep(t, id, n1);
    if id in t.rows {
      MergeKeepsInv(t, Hydrate(t.rows[id]).(isActive := false), n1);
      DeleteSpec(s.table, id, n2);
    }
  }

  /** Deleting an active row and activating it again restores the row; only
      `updatedAt` differs. */
  lemma DeleteThenActivateRestores(t: Table, id: int, n1: int, n2: int)
    requires Inv(t) && id in t.rows && t.rows[id].isActive
    ensures Inv(DeleteStep(t, id, n1).table)
    ensures var s := ActivateStep(DeleteStep(t, id, n1).table, id, n2);
      && s.result.Ok?
      && s.table == t.(rows := t.rows[id := t.rows[id].(updatedAt := n2)])
  {
    DeleteSpec(t, id, n1);
    MergeKeepsInv(t, Hydrate(t.rows[id]).(isActive := false), n1);
    var t1 := DeleteStep(t, id, n1).table;
    ActivateSpec(t1, id, n2);
    assert t1.rows[id := t.rows[id].(updatedAt := n2)] == t.rows[id := t.rows[id].(updatedAt := n2)];
  }

  /** After a delete the user lookup reports "not found", while the admin
      lookup still returns the row, inactive. */
  lemma DeletedHiddenFromUsers(t: Table, id: int, now: int)
    requires Inv(t) && id in t.rows
    ensures var t1 := DeleteStep(t, id, now).table;
      && GetSubscriptionById(t1, id) == Err(NotFound)
      && GetSubscriptionByIdForAdmin(t1, id) == Ok(MapToResponse(t.rows[id]).(isActive := false))
  {
    DeleteSpec(t, id, now);
  }

  // ---------------------------------------------------------------- every operation

  /** The catalog's write operations. */
  datatype Operation =
    | Create(request: SubscriptionRequest)
    | Update(id: int, request: SubscriptionRequest)
    | Delete(id: int)
    | Activate(id: int)

  function Apply(t: Table, op: Operation, now: int): Table
    requires Inv(t)
  {
    match op
    case Create(req) => CreateStep(t, req, now).table
    case Update(id, req) => UpdateStep(t, id, req, now).table
    case Delete(id) => DeleteStep(t, id, now).table
    case Activate(id) => ActivateStep(t, id, now).table
  }

  /** Every write keeps the store invariant; in particular names stay unique
      across all rows, active or not. */
  lemma NamesStayUnique(t: Table, op: Operation, now: int)
    requires Inv(t)
    ensures Inv(Apply(t, op, now))
    ensures UniqueNames(Apply(t, op, now).rows)
  {
    match op
    case Create(req) =>
      if !ExistsByName(t, req.name) {
        PersistKeepsInv(t, NewEntity(req, now), now);
      }
    case Update(id, req) =>
      if id in t.rows && !RenameConflict(t, id, req) {
        MergeKeepsInv(t, Overwrite(Hydrate(t.rows[id]), req), now);
      }
    case Delete(id) =>
      if id in t.rows {
        MergeKeepsInv(t, Hydrate(t.rows[id]).(isActive := false), now);
      }
    case Activate(id) =>
      if id in t.rows {
        MergeKeepsInv(t, Hydrate(t.rows[id]).(isActive := true), now);
      }
  }

  /** Under a clock that has not gone back past any row's `updatedAt`, no write
      removes a row, changes a `createdAt`, or moves an `updatedAt` back. */
  lemma TimestampsNeverGoBack(t: Table, op: Operation, now: int)
    requires Inv(t)
    requires forall id :: id in t.rows ==> t.rows[id].updatedAt <= now
    ensures forall id :: id in t.rows ==>
      && id in Apply(t, op, now).rows
      && Apply(t, op, now).rows[id].createdAt == t.rows[id].createdAt
      && Apply(t, op, now).rows[id].updatedAt >= t.rows[id].updatedAt
  {
    match op
    case Create(req) => CreateSpec(t, req, now);
    case Update(id, req) => UpdateSpec(t, id, req, now);
    case Delete(id) => DeleteSpec(t, id, now);
    case Activate(id) => ActivateSpec(t, id, now);
  }

  // ---------------------------------------------------------------- statistics

  /** The map `getSubscriptionStatistics` returns. */
  datatype Statistics = Statistics(
    activeSubscriptions: int,
    inactiveSubscriptions: int,
    totalSubscriptions: int,
    activeCategories: int,
    subscriptionsByCategory: map<string, int>)

  /** A nullable `Long` count, with null read as 0. */
  function OrZero(n: Option<int>): int {
    if n.Some? then n.value else 0
  }

  // ---------------------------------------------------------------- the service object

  class SubscriptionService {
    const store: Store

    constructor (store: Store)
      ensures this.store == store
    {
      this.store := store;
    }

    ghost predicate Valid()
      reads this, store
    {
      store.Valid()
    }

    /** `createSubscription(request)`. */
    method CreateSubscription(request: SubscriptionRequest, now: int) returns (res: Result<Response>)
      requires Valid()
      modifies store
      ensures Valid()
      ensures store.table == CreateStep(old(store.table), request, now).table
      ensures res == CreateStep(old(store.table), request, now).result
    {
      if ExistsByName(store.table, request.name) {
        return Err(AlreadyExists);
      }
      var subscription := new Subscription.WithDetails(
        request.name, request.description, request.price,
        request.currency, request.category, request.billingPeriod, now);
      subscription.SetWebsiteUrl(request.websiteUrl);
      subscription.SetLogoUrl(request.logoUrl);
      var saved :- store.Save(subscription, now);
      return Ok(MapToResponse(saved));
    }

    /** `updateSubscription(id, request)`. */
    method UpdateSubscription(id: int, request: SubscriptionRequest, now: int) returns (res: Result<Response>)
      requires Valid()
      modifies store
      ensures Valid()
      ensures store.table == UpdateStep(old(store.table), id, request, now).table
      ensures res == UpdateStep(old(store.table), id, request, now).result
    {
      var subscription := store.Load(id);
      if subscription == null {
        return Err(NotFound);
      }
      ghost var loaded := subscription.State();
      ghost var t0 := store.table;
      if subscription.name != request.name && ExistsByName(store.table, request.name) {
        assert RenameConflict(store.table, id, request);
        return Err(AlreadyExists);
      }
      assert !RenameConflict(store.table, id, request);
      UpdateStepMerges(t0, id, request, now);
      subscription.SetName(request.name);
      subscription.SetDescription(request.description);
      subscription.SetPrice(request.price);
      subscription.SetCurrency(request.currency);
      subscription.SetCategory(request.category);
      subscription.SetBillingPeriod(request.billingPeriod);
      subscription.SetWebsiteUrl(request.websiteUrl);
      subscription.SetLogoUrl(request.logoUrl);
      ghost var merged := Merge(t0, Overwrite(loaded, request), now);
      var saved := store.Save(subscription, now);
      assert store.table == merged.table && saved == merged.result;
      if saved.Err? {
        return Err(saved.error);
      }
      return Ok(MapToResponse(saved.value));
    }

    /** `deleteSubscription(id)`. */
    method DeleteSubscription(id: int, now: int) returns (res: Result<()>)
      requires Valid()
      modifies store
      ensures Valid()
      ensures store.table == DeleteStep(old(store.table), id, now).table
      ensures res == DeleteStep(old(store.table), id, now).result
    {
      var subscription := store.Load(id);
      if subscription == null {
        return Err(NotFound);
      }
      subscription.SetIsActive(false);
      var _ :- store.Save(subscription, now);
      return Ok(());
    }

    /** `activateSubscription(id)`. */
    method ActivateSubscription(id: int, now: int) returns (res: Result<Response>)
      requires Valid()
      modifies store
      ensures Valid()
      ensures store.table == ActivateStep(old(store.table), id, now).table
      ensures res == ActivateStep(old(store.table), id, now).result
    {
      var subscription := store.Load(id);
      if subscription == null {
        return Err(NotFound);
      }
      subscription.SetIsActive(true);
      var activated :- store.Save(subscription, now);
      return Ok(MapToResponse(activated));
    }

    /** `getSubscriptionStatistics`, given the four repository results it
        reads: null counts become 0, the total is active plus inactive, and the
        per-category map holds every category row, a later row with the same
        category overwriting an earlier one. */
    method GetSubscriptionStatistics(activeCount: Option<int>, inactiveCount: Option<int>,
                                     activeCategories: Option<int>, categoryStats: seq<(string, int)>)
      returns (stats: Statistics)
      ensures stats.activeSubscriptions == OrZero(activeCount)
      ensures stats.inactiveSubscriptions == OrZero(inactiveCount)
      ensures stats.totalSubscriptions == stats.activeSubscriptions + stats.inactiveSubscriptions
      ensures stats.activeCategories == OrZero(activeCategories)
      ensures forall k :: k in stats.subscriptionsByCategory <==>
        exists i :: 0 <= i < |categoryStats| && categoryStats[i].0 == k
      ensures forall i :: (0 <= i < |categoryStats| &&
        (forall j :: i < j < |categoryStats| ==> categoryStats[j].0 != categoryStats[i].0)) ==>
        stats.subscriptionsByCategory[categoryStats[i].0] == categoryStats[i].1
    {
      var active := OrZero(activeCount);
      var inactive := OrZero(inactiveCount);
      var categoryCount: map<string, int> := map[];
      var n := 0;
      while n < |categoryStats|
        invariant 0 <= n <= |categoryStats|
        invariant forall k :: k in categoryCount <==> exists i :: 0 <= i < n && categoryStats[i].0 == k
        invariant forall i :: (0 <= i < n && (forall j :: i < j < n ==> categoryStats[j].0 != categoryStats[i].0)) ==>
          categoryCount[categoryStats[i].0] == categoryStats[i].1
      {
        categoryCount := categoryCount[categoryStats[n].0 := categoryStats[n].1];
        n := n + 1;
      }
      stats := Statistics(active, inactive, active + inactive, OrZero(activeCategories), categoryCount);
    }
  }
}
