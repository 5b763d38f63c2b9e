/** `DataLoader`: the start-up runner that fills an empty catalog with ten
    well-known subscriptions, skipping any whose name is already taken. */
module Loader {
  import opened Results
  import opened Validation
  import opened Entity
  import opened Persistence
  import opened Repository

  /** The seven arguments of one `createSubscription` call; the price is in cents. */
  datatype Seed = Seed(
    name: string,
    description: string,
    price: int,
    category: string,
    billingPeriod: string,
    websiteUrl: string,
    logoUrl: string)

  /** The ten seeds, in the order they are inserted. */
  function Seeds(): (s: seq<Seed>)
    ensures |s| == 10
  {
    [ Seed("Netflix", "Video streaming service", 999, "Streaming", "MONTHLY",
           "https://netflix.com", "https://logo.clearbit.com/netflix.com"),
      Seed("Spotify", "Music streaming service", 999, "Music", "MONTHLY",
           "https://spotify.com", "https://logo.clearbit.com/spotify.com"),
      Seed("YouTube Premium", "Ad-free YouTube and music", 1199, "Streaming", "MONTHLY",
           "https://youtube.com", "https://logo.clearbit.com/youtube.com"),
      Seed("Amazon Prime", "Shopping and streaming benefits", 899, "Shopping", "MONTHLY",
           "https://amazon.com", "https://logo.clearbit.com/amazon.com"),
      Seed("PlayStation Plus", "Gaming subscription", 999, "Gaming", "MONTHLY",
           "https://playstation.com", "https://logo.clearbit.com/playstation.com"),
      Seed("Xbox Game Pass", "Gaming subscription", 1499, "Gaming", "MONTHLY",
           "https://xbox.com", "https://logo.clearbit.com/xbox.com"),
      Seed("Microsoft 365", "Office suite", 699, "Software", "MONTHLY",
           "https://microsoft.com", "https://logo.clearbit.com/microsoft.com"),
      Seed("Adobe Creative Cloud", "Design software suite", 2099, "Software", "MONTHLY",
           "https://adobe.com", "https://logo.clearbit.com/adobe.com"),
      Seed("Dropbox", "Cloud storage service", 999, "Storage", "MONTHLY",
           "https://dropbox.com", "https://logo.clearbit.com/dropbox.com"),
      Seed("iCloud+", "Apple cloud storage", 99, "Storage", "MONTHLY",
           "https://apple.com", "https://logo.clearbit.com/apple.com") ]
  }

  /** The entity a seed becomes: the six-argument constructor with currency
      "AZN", then the two URL setters. */
  function SeedEntity(s: Seed, now: int): EntityState {
    Constructed(Some(s.name), Some(s.description), Some(s.price), Some("AZN"),
                Some(s.category), Some(s.billingPeriod), now)
      .(websiteUrl := Some(s.websiteUrl), logoUrl := Some(s.logoUrl))
  }

  /** The row a seed is stored as under `id`. */
  function SeedRecord(s: Seed, id: int, now: int): Record {
    Record(id, s.name, Some(s.description), s.price, "AZN", s.category, Some(s.billingPeriod),
           Some(s.websiteUrl), Some(s.logoUrl), true, now, now)
  }

  /** A seed the entity's validation accepts. */
  predicate SeedValid(s: Seed) {
    !IsBlank(s.name) && s.price > 0 && !IsBlank(s.category)
  }

  /** `createSubscription(...)`: nothing happens when the name is taken; otherwise
      the entity is saved, and a failed save is an error that ends the run. */
  function SeedStep(t: Table, s: Seed, now: int): (r: Transition<()>)
    requires Inv(t)
    ensures ExistsByName(t, Some(s.name)) ==> r == Transition(t, Ok(()))
    ensures r.result.Err? ==> r.table == t
    ensures KeepsRows(t, r.table)
  {
    if ExistsByName(t, Some(s.name)) then Transition(t, Ok(()))
    else
      var p := Persist(t, SeedEntity(s, now), now);
      Transition(p.table, if p.result.Ok? then Ok(()) else Err(p.result.error))
  }

  /** Every seeding step keeps the store invariant. */
  lemma SeedStepKeepsInv(t: Table, s: Seed, now: int)
    requires Inv(t)
    ensures Inv(SeedStep(t, s, now).table)
  {
    if !ExistsByName(t, Some(s.name)) {
      PersistKeepsInv(t, SeedEntity(s, now), now);
    }
  }

  /** `loadSubscriptionData()` from the seed at index `i` on: one step per
      seed, stopping at the first failure with the earlier inserts kept. */
  function SeedFrom(t: Table, seeds: seq<Seed>, i: nat, now: int): (r: Transition<()>)
    requires Inv(t) && i <= |seeds|
    ensures KeepsRows(t, r.table)
    decreases |seeds| - i
  {
    if i == |seeds| then Transition(t, Ok(()))
    else
      var step := SeedStep(t, seeds[i], now);
      SeedStepKeepsInv(t, seeds[i], now);
      if step.result.Err? then step else SeedFrom(step.table, seeds, i + 1, now)
  }

  /** Seeding keeps the store invariant, whether it stops early or not. */
  lemma {:induction false} SeedFromKeepsInv(t: Table, seeds: seq<Seed>, i: nat, now: int)
    requires Inv(t) && i <= |seeds|
    ensures Inv(SeedFrom(t, seeds, i, now).table)
    decreases |seeds| - i
  {
    if i < |seeds| {
      SeedStepKeepsInv(t, seeds[i], now);
      if SeedStep(t, seeds[i], now).result.Ok? {
        SeedFromKeepsInv(SeedStep(t, seeds[i], now).table, seeds, i + 1, now);
      }
    }
  }

  /** `run()`: seed only a catalog whose `count()` is zero; rows already there
      are never changed. */
  function RunStep(t: Table, now: int): (r: Transition<()>)
    requires Inv(t)
    ensures KeepsRows(t, r.table)
  {
    if Count(t) == 0 then SeedFrom(t, Seeds(), 0, now) else Transition(t, Ok(()))
  }

  /** A string whose first character is above U+0020 is not blank. */
  lemma StartsAboveSpaceNotBlank(s: string)
    requires |s| > 0 && s[0] > ' '
    ensures !IsBlank(s)
  {
  }

  /** The seeds from index `i` on pass validation and have pairwise distinct names. */
  predicate WellFormedFrom(seeds: seq<Seed>, i: nat) {
    && (forall j :: i <= j < |seeds| ==> SeedValid(seeds[j]))
    && (forall a, b :: i <= a < b < |seeds| ==> seeds[a].name != seeds[b].name)
  }

  /** Every seed passes validation and bills monthly. */
  lemma SeedsValid()
    ensures forall i :: 0 <= i < |Seeds()| ==> SeedValid(Seeds()[i])
    ensures forall i :: 0 <= i < |Seeds()| ==> Seeds()[i].billingPeriod == "MONTHLY"
  {
    forall i | 0 <= i < 10 ensures SeedValid(Seeds()[i]) {
      StartsAboveSpaceNotBlank(Seeds()[i].name);
      StartsAboveSpaceNotBlank(Seeds()[i].category);
    }
  }

  /** No two seeds share a name. */
  lemma SeedNamesDistinct()
    ensures forall a, b :: 0 <= a < b < |Seeds()| ==> Seeds()[a].name != Seeds()[b].name
  {
  }

  /** Every seed passes validation, and no two seeds share a name. */
  lemma SeedsWellFormed()
    ensures WellFormedFrom(Seeds(), 0)
  {
    SeedsValid();
    SeedNamesDistinct();
  }

  /** A valid seed whose name is free is inserted under the next id. */
  lemma SeedStepInserts(t: Table, s: Seed, now: int)
    requires Inv(t) && SeedValid(s) && !NameInUse(t, s.name, None)
    ensures SeedStep(t, s, now) ==
      Transition(Table(t.rows[t.nextId := SeedRecord(s, t.nextId, now)], t.nextId + 1), Ok(()))
  {
    ExistsByNameMatchesIndex(t, Some(s.name));
    StartsAboveSpaceNotBlank("AZN");
  }

  /** The table after seeds `i..` are inserted one after another under
      consecutive ids. */
  function Inserted(t: Table, seeds: seq<Seed>, i: nat, now: int): Table
    requires i <= |seeds|
    decreases |seeds| - i
  {
    if i == |seeds| then t
    else Inserted(Table(t.rows[t.nextId := SeedRecord(seeds[i], t.nextId, now)], t.nextId + 1), seeds, i + 1, now)
  }

  /** One more row per seed, and the counter moves past them. */
  lemma {:induction false} InsertedSize(t: Table, seeds: seq<Seed>, i: nat, now: int)
    requires i <= |seeds|
    requires forall id :: id in t.rows ==> id < t.nextId
    ensures Inserted(t, seeds, i, now).nextId == t.nextId + |seeds| - i
    ensures |Inserted(t, seeds, i, now).rows| == |t.rows| + |seeds| - i
    decreases |seeds| - i
  {
    if i < |seeds| {
      var t1 := Table(t.rows[t.nextId := SeedRecord(seeds[i], t.nextId, now)], t.nextId + 1);
      assert t.nextId !in t.rows;
      InsertedSize(t1, seeds, i + 1, now);
    }
  }

  /** The rows that were there before are untouched. */
  lemma {:induction false} InsertedKeepsRows(t: Table, seeds: seq<Seed>, i: nat, now: int)
    requires i <= |seeds|
    requires forall id :: id in t.rows ==> id < t.nextId
    ensures forall id :: id in t.rows ==>
      id in Inserted(t, seeds, i, now).rows && Inserted(t, seeds, i, now).rows[id] == t.rows[id]
    decreases |seeds| - i
  {
    if i < |seeds| {
      var t1 := Table(t.rows[t.nextId := SeedRecord(seeds[i], t.nextId, now)], t.nextId + 1);
      InsertedKeepsRows(t1, seeds, i + 1, now);
    }
  }

  /** Seed `j` sits under id `nextId + j - i`. */
  lemma {:induction false} InsertedPlacesSeed(t: Table, seeds: seq<Seed>, i: nat, j: nat, now: int)
    requires i <= j < |seeds|
    requires forall id :: id in t.rows ==> id < t.nextId
    ensures t.nextId + j - i in Inserted(t, seeds, i, now).rows
    ensures Inserted(t, seeds, i, now).rows[t.nextId + j - i] == SeedRecord(seeds[j], t.nextId + j - i, now)
    decreases |seeds| - i
  {
    var t1 := Table(t.rows[t.nextId := SeedRecord(seeds[i], t.nextId, now)], t.nextId + 1);
    if j == i {
      InsertedKeepsRows(t1, seeds, i + 1, now);
      assert t.nextId in t1.rows;
    } else {
      InsertedPlacesSeed(t1, seeds, i + 1, j, now);
    }
  }

  /** No row appears besides the old ones and the seeds. */
  lemma {:induction false} InsertedNothingElse(t: Table, seeds: seq<Seed>, i: nat, now: int)
    requires i <= |seeds|
    ensures forall id :: id in Inserted(t, seeds, i, now).rows ==>
      id in t.rows || t.nextId <= id < t.nextId + |seeds| - i
    decreases |seeds| - i
  {
    if i < |seeds| {
      var t1 := Table(t.rows[t.nextId := SeedRecord(seeds[i], t.nextId, now)], t.nextId + 1);
      InsertedNothingElse(t1, seeds, i + 1, now);
    }
  }

  /** From index `i` on, when every remaining seed is valid, their names are
      distinct and none is in use, every remaining seed is inserted and the run
      succeeds. */
  lemma {:induction false} SeedFromFresh(t: Table, seeds: seq<Seed>, i: nat, now: int)
    requires Inv(t) && i <= |seeds| && WellFormedFrom(seeds, i)
    requires forall j :: i <= j < |seeds| ==> !NameInUse(t, seeds[j].name, None)
    ensures SeedFrom(t, seeds, i, now) == Transition(Inserted(t, seeds, i, now), Ok(()))
    decreases |seeds| - i
  {
    if i < |seeds| {
      var s := seeds[i];
      SeedStepInserts(t, s, now);
      var t1 := SeedStep(t, s, now).table;
      forall j | i + 1 <= j < |seeds| ensures !NameInUse(t1, seeds[j].name, None) {
        assert seeds[i].name != seeds[j].name;
      }
      SeedFromFresh(t1, seeds, i + 1, now);
    }
  }

  /** One call of `createSubscription` inside `loadSubscriptionData`: a failure
      ends the run with that failure, a success moves on to the next seed. */
  lemma SeedFromUnfold(t: Table, seeds: seq<Seed>, i: nat, s: Seed, now: int)
    requires Inv(t) && i < |seeds| && seeds[i] == s
    ensures SeedStep(t, s, now).result.Err? ==> SeedFrom(t, seeds, i, now) == SeedStep(t, s, now)
    ensures SeedStep(t, s, now).result.Ok? ==>
      SeedFrom(t, seeds, i, now) == SeedFrom(SeedStep(t, s, now).table, seeds, i + 1, now)
  {
  }

  /** Inserting seeds into an empty table leaves exactly the ids
      `nextId .. nextId + |seeds| - 1`. */
  lemma InsertedIntoEmptyIds(t: Table, seeds: seq<Seed>, now: int)
    requires t.rows == map[]
    ensures |Inserted(t, seeds, 0, now).rows| == |seeds|
    ensures forall id :: id in Inserted(t, seeds, 0, now).rows <==> t.nextId <= id < t.nextId + |seeds|
  {
    InsertedSize(t, seeds, 0, now);
    InsertedNothingElse(t, seeds, 0, now);
    forall id | t.nextId <= id < t.nextId + |seeds|
      ensures id in Inserted(t, seeds, 0, now).rows
    {
      InsertedPlacesSeed(t, seeds, 0, id - t.nextId, now);
    }
  }

  /** Inserting seeds into an empty table puts seed `j` under id `nextId + j`. */
  lemma InsertedIntoEmptyRows(t: Table, seeds: seq<Seed>, now: int)
    requires t.rows == map[]
    ensures forall id :: t.nextId <= id < t.nextId + |seeds| ==>
      && id in Inserted(t, seeds, 0, now).rows
      && Inserted(t, seeds, 0, now).rows[id] == SeedRecord(seeds[id - t.nextId], id, now)
  {
    forall id | t.nextId <= id < t.nextId + |seeds|
      ensures && id in Inserted(t, seeds, 0, now).rows
              && Inserted(t, seeds, 0, now).rows[id] == SeedRecord(seeds[id - t.nextId], id, now)
    {
      InsertedPlacesSeed(t, seeds, 0, id - t.nextId, now);
    }
  }

  /** On an empty catalog the run inserts every seed and succeeds. */
  lemma RunOnEmptyInsertsSeeds(t: Table, now: int)
    requires Inv(t) && t.rows == map[]
    ensures RunStep(t, now) == Transition(Inserted(t, Seeds(), 0, now), Ok(()))
  {
    SeedsWellFormed();
    SeedFromFresh(t, Seeds(), 0, now);
  }

  /** On an empty catalog the loader succeeds and leaves exactly the ten seeds,
      in order under consecutive ids, all active, priced in "AZN" and stamped
      with the clock reading. */
  lemma RunSeedsEmptyCatalog(t: Table, now: int)
    requires Inv(t) && Count(t) == 0
    ensures RunStep(t, now).result.Ok?
    ensures |RunStep(t, now).table.rows| == 10
    ensures forall id :: id in RunStep(t, now).table.rows <==> t.nextId <= id < t.nextId + 10
    ensures forall id :: t.nextId <= id < t.nextId + 10 ==>
      RunStep(t, now).table.rows[id] == SeedRecord(Seeds()[id - t.nextId], id, now)
    ensures forall id :: id in RunStep(t, now).table.rows ==>
      && RunStep(t, now).table.rows[id].isActive
      && RunStep(t, now).table.rows[id].currency == "AZN"
      && RunStep(t, now).table.rows[id].price > 0
      && RunStep(t, now).table.rows[id].createdAt == now
  {
    assert t.rows == map[];
    RunOnEmptyInsertsSeeds(t, now);
    InsertedIntoEmptyIds(t, Seeds(), now);
    InsertedIntoEmptyRows(t, Seeds(), now);
    SeedsValid();
  }

  /** Every run, complete or cut short, leaves a consistent catalog; in
      particular no two rows share a name. */
  lemma RunKeepsInv(t: Table, now: int)
    requires Inv(t)
    ensures Inv(RunStep(t, now).table)
    ensures UniqueNames(RunStep(t, now).table.rows)
  {
    SeedFromKeepsInv(t, Seeds(), 0, now);
  }

  /** A catalog that already has rows is left exactly as it is. */
  lemma RunKeepsNonEmptyCatalog(t: Table, now: int)
    requires Inv(t) && Count(t) > 0
    ensures RunStep(t, now) == Transition(t, Ok(()))
  {
  }

  /** Running the loader twice is running it once: after a successful first run
      the catalog is never empty, so the second run does nothing. */
  lemma RunTwiceIsRunOnce(t: Table, n1: int, n2: int)
    requires Inv(t) && RunStep(t, n1).result.Ok?
    ensures Inv(RunStep(t, n1).table)
    ensures RunStep(RunStep(t, n1).table, n2) == Transition(RunStep(t, n1).table, Ok(()))
  {
    var t1 := RunStep(t, n1).table;
    SeedFromKeepsInv(t, Seeds(), 0, n1);
    if Count(t) == 0 {
      assert t.rows == map[];
      RunOnEmptyInsertsSeeds(t, n1);
      InsertedSize(t, Seeds(), 0, n1);
    }
  }

  class DataLoader {
    const store: Store

    constructor (store: Store)
      ensures this.store == store
    {
      this.store := store;
    }

    /** `run(args)`. */
    method Run(now: int) returns (res: Result<()>)
      requires store.Valid()
      modifies store
      ensures store.Valid()
      ensures store.table == RunStep(old(store.table), now).table
      ensures res == RunStep(old(store.table), now).result
    {
      if Count(store.table) == 0 {
        res := LoadSubscriptionData(now);
      } else {
        res := Ok(());
      }
    }

    /** `loadSubscriptionData()`: the ten calls, in source order. */
    method LoadSubscriptionData(now: int) returns (res: Result<()>)
      requires store.Valid()
      modifies store
      ensures store.Valid()
      ensures store.table == SeedFrom(old(store.table), Seeds(), 0, now).table
      ensures res == SeedFrom(old(store.table), Seeds(), 0, now).result
    {
      var seeds := Seeds();
      ghost var goal := SeedFrom(store.table, seeds, 0, now);
      SeedFromUnfold(store.table, seeds, 0, seeds[0], now);
      var _ :- CreateSubscription(seeds[0].name, seeds[0].description, seeds[0].price, seeds[0].category,
                                  seeds[0].billingPeriod, seeds[0].websiteUrl, seeds[0].logoUrl, now);
      assert goal == SeedFrom(store.table, seeds, 1, now);
      SeedFromUnfold(store.table, seeds, 1, seeds[1], now);
      var _ :- CreateSubscription(seeds[1].name, seeds[1].description, seeds[1].price, seeds[1].category,
                                  seeds[1].billingPeriod, seeds[1].websiteUrl, seeds[1].logoUrl, now);
      assert goal == SeedFrom(store.table, seeds, 2, now);
      SeedFromUnfold(store.table, seeds, 2, seeds[2], now);
      var _ :- CreateSubscription(seeds[2].name, seeds[2].description, seeds[2].price, seeds[2].category,
                                  seeds[2].billingPeriod, seeds[2].websiteUrl, seeds[2].logoUrl, now);
      assert goal == SeedFrom(store.table, seeds, 3, now);
      SeedFromUnfold(store.table, seeds, 3, seeds[3], now);
      var _ :- CreateSubscription(seeds[3].name, seeds[3].description, seeds[3].price, seeds[3].category,
                                  seeds[3].billingPeriod, seeds[3].websiteUrl, seeds[3].logoUrl, now);
      assert goal == SeedFrom(store.table, seeds, 4, now);
      SeedFromUnfold(store.table, seeds, 4, seeds[4], now);
      var _ :- CreateSubscription(seeds[4].name, seeds[4].description, seeds[4].price, seeds[4].category,
                                  seeds[4].billingPeriod, seeds[4].websiteUrl, seeds[4].logoUrl, now);
      assert goal == SeedFrom(store.table, seeds, 5, now);
      SeedFromUnfold(store.table, seeds, 5, seeds[5], now);
      var _ :- CreateSubscription(seeds[5].name, seeds[5].description, seeds[5].price, seeds[5].category,
                                  seeds[5].billingPeriod, seeds[5].websiteUrl, seeds[5].logoUrl, now);
      assert goal == SeedFrom(store.table, seeds, 6, now);
      SeedFromUnfold(store.table, seeds, 6, seeds[6], now);
      var _ :- CreateSubscription(seeds[6].name, seeds[6].description, seeds[6].price, seeds[6].category,
                                  seeds[6].billingPeriod, seeds[6].websiteUrl, seeds[6].logoUrl, now);
      assert goal == SeedFrom(store.table, seeds, 7, now);
      SeedFromUnfold(store.table, seeds, 7, seeds[7], now);
      var _ :- CreateSubscription(seeds[7].name, seeds[7].description, seeds[7].price, seeds[7].category,
                                  seeds[7].billingPeriod, seeds[7].websiteUrl, seeds[7].logoUrl, now);
      assert goal == SeedFrom(store.table, seeds, 8, now);
      SeedFromUnfold(store.table, seeds, 8, seeds[8], now);
      var _ :- CreateSubscription(seeds[8].name, seeds[8].description, seeds[8].price, seeds[8].category,
                                  seeds[8].billingPeriod, seeds[8].websiteUrl, seeds[8].logoUrl, now);
      assert goal == SeedFrom(store.table, seeds, 9, now);
      SeedFromUnfold(store.table, seeds, 9, seeds[9], now);
      var _ :- CreateSubscription(seeds[9].name, seeds[9].description, seeds[9].price, seeds[9].category,
                                  seeds[9].billingPeriod, seeds[9].websiteUrl, seeds[9].logoUrl, now);
      return Ok(());
    }

    /** `createSubscription(...)`: save a new entity unless the name is taken. */
    method CreateSubscription(name: string, description: string, price: int, category: string,
                              billingPeriod: string, websiteUrl: string, logoUrl: string, now: int)
      returns (res: Result<()>)
      requires store.Valid()
      modifies store
      ensures store.Valid()
      ensures var step := SeedStep(old(store.table), Seed(name, description, price, category, billingPeriod, websiteUrl, logoUrl), now);
        store.table == step.table && res == step.result
    {
      if !ExistsByName(store.table, Some(name)) {
        var subscription := new Subscription.WithDetails(
          Some(name), Some(description), Some(price), Some("AZN"), Some(category), Some(billingPeriod), now);
        subscription.SetWebsiteUrl(Some(websiteUrl));
        subscription.SetLogoUrl(Some(logoUrl));
        var _ :- store.Save(subscription, now);
      }
      return Ok(());
    }
  }
}
