# Subscription catalog, modelled in Dafny

This project models the core of a Spring Boot subscription catalog. The catalog
is one table of `Subscription` rows. Each row has:

- a unique name, a description and a positive price with its currency;
- a category, a billing period and two URLs;
- an active flag and two timestamps.

Administrators create, update, soft-delete and re-activate rows. Users browse,
look up and search the active ones. A start-up `DataLoader` seeds an empty
catalog with ten well-known subscriptions.

The Spring Data repository is modelled as an abstract store:

- `Persistence.Table` maps each id to its row and holds the IDENTITY counter.
- `Persistence.Inv` is what every write through the application maintains. Each row sits under its own id, below the counter, and no two rows share a name (the unique index). Name, price, currency and category are present (the NOT NULL columns). Name, currency and category are non-blank and the price is positive (bean validation before each insert or update). The flag and both timestamps are present, because the entity always sets them.
- `Persistence.Store` is the shared, mutable holder of the table.
- `Persist` and `Merge` describe what `save` does with a new entity and with a loaded one. That covers the `@PrePersist`/`@PreUpdate` hooks, bean validation, the unique index on `name`, id assignment, and Hibernate's dirty check, under which an unchanged entity issues no UPDATE.

The modules follow the source files:

| module | file | models |
|---|---|---|
| `Results`, `Validation` | results.dfy, validation.dfy | Option/Result and the failures; the `@NotBlank` test Hibernate Validator uses (`trim()` is non-empty) |
| `Request` | request.dfy | the request DTO: its defaults, its two constructors and what `@Valid` accepts |
| `Entity` | entity.dfy | the entity as a class with setters, constructors and timestamp hooks, and the stored row |
| `Persistence` | persistence.dfy | the table, its invariant, `findById`, `count`, and `save` for inserts and updates |
| `Repository` | repository.dfy | every query method the repository interface declares, as functions over the table |
| `Service` | service.dfy | the service: reads as functions; writes as methods of a class that load an entity, call setters and save; statistics as a loop |
| `Loader` | loader.dfy | `run`, `loadSubscriptionData` and `createSubscription` of the start-up loader |

Each write is specified twice:

- A function of the table (`CreateStep`, `UpdateStep`, …) returns the new table and the result.
- The imperative method is proved to produce exactly that.
- Lemmas then state what each function does: the error cases, the new row, and that nothing else changes. They also cover what the writes do together: names stay unique, timestamps never go back, deleting is idempotent, and activate undoes delete.

Prices are whole numbers of cents, because the `BigDecimal` column has scale 2. The clock is a parameter `now` of each operation.

Two behaviours of the code are worth noting, and the model keeps both:

- `updateSubscription` loads the row with `findById` and no active filter, so inactive rows can be updated (`Service.UpdateSpec`).
- Under Hibernate's dirty check, a save that changes nothing issues no UPDATE and runs no `@PreUpdate`. So deleting an inactive row, or updating with identical fields, leaves the row as it is, `updatedAt` included (`Persistence.Merge`).

## Model

Source paths are relative to the repository root.

| member | source | states |
|---|---|---|
| Validation.TrimDecidesBlank | src/main/java/com/example/subscriptionservice/dto/SubscriptionRequest.java:12-13 | `@NotBlank` (trimmed string non-empty) holds exactly when some character is above U+0020 |
| Validation.NotBlankByTrim | src/main/java/com/example/subscriptionservice/entity/Subscription.java:21-23 | on a nullable field, `@NotBlank` means present and non-empty after `trim()` |
| Request.Empty | src/main/java/com/example/subscriptionservice/dto/SubscriptionRequest.java:21-32 | the no-argument request has currency "AZN" and billing period "MONTHLY", has no name, price or category, and is invalid |
| Request.Of | src/main/java/com/example/subscriptionservice/dto/SubscriptionRequest.java:34-42 | the six-argument constructor copies its six arguments, leaves both URLs null, and builds a valid request exactly when name, currency and category are non-blank and the price is above zero |
| Request.IsValid | src/main/java/com/example/subscriptionservice/dto/SubscriptionRequest.java:12-25 | a request that passes `@Valid` has a name, a currency, a category and a price above zero |
| Request.ValidityMeaning | src/main/java/com/example/subscriptionservice/dto/SubscriptionRequest.java:12-25 | a request is valid exactly when name, currency and category are present and non-blank after trim and the price is present and above zero |
| Entity.ToRecord | src/main/java/com/example/subscriptionservice/entity/Subscription.java:17-57 | a validated entity with id and timestamps is written as a row that satisfies the entity's validation constraints and loads back as the same entity |
| Entity.HydrateRoundTrip | src/main/java/com/example/subscriptionservice/entity/Subscription.java:21-39 | loading a valid row and writing it back unchanged gives the same row |
| Entity.Subscription.constructor | src/main/java/com/example/subscriptionservice/entity/Subscription.java:35-60 | the default object has currency "AZN", billing period "MONTHLY", is active, and has every other field null |
| Entity.Subscription.WithDetails | src/main/java/com/example/subscriptionservice/entity/Subscription.java:62-73 | the six-argument constructor copies its arguments, sets the flag to active and both timestamps to the clock, and leaves id and URLs null |
| Entity.Subscription.SetId | src/main/java/com/example/subscriptionservice/entity/Subscription.java:19 | the Lombok setter changes the id to its argument and leaves every other field as it was |
| Entity.Subscription.SetName | src/main/java/com/example/subscriptionservice/entity/Subscription.java:23 | the Lombok setter changes the name to its argument and leaves every other field as it was |
| Entity.Subscription.SetDescription | src/main/java/com/example/subscriptionservice/entity/Subscription.java:26 | the Lombok setter changes the description to its argument and leaves every other field as it was |
| Entity.Subscription.SetPrice | src/main/java/com/example/subscriptionservice/entity/Subscription.java:31 | the Lombok setter changes the price to its argument and leaves every other field as it was |
| Entity.Subscription.SetCurrency | src/main/java/com/example/subscriptionservice/entity/Subscription.java:35 | the Lombok setter changes the currency to its argument and leaves every other field as it was |
| Entity.Subscription.SetCategory | src/main/java/com/example/subscriptionservice/entity/Subscription.java:39 | the Lombok setter changes the category to its argument and leaves every other field as it was |
| Entity.Subscription.SetBillingPeriod | src/main/java/com/example/subscriptionservice/entity/Subscription.java:42 | the Lombok setter changes the billing period to its argument and leaves every other field as it was |
| Entity.Subscription.SetWebsiteUrl | src/main/java/com/example/subscriptionservice/entity/Subscription.java:45 | the Lombok setter changes the website URL to its argument and leaves every other field as it was |
| Entity.Subscription.SetLogoUrl | src/main/java/com/example/subscriptionservice/entity/Subscription.java:48 | the Lombok setter changes the logo URL to its argument and leaves every other field as it was |
| Entity.Subscription.SetIsActive | src/main/java/com/example/subscriptionservice/entity/Subscription.java:51 | the Lombok setter changes the active flag to its argument and leaves every other field as it was |
| Entity.Subscription.SetCreatedAt | src/main/java/com/example/subscriptionservice/entity/Subscription.java:54 | the Lombok setter changes `createdAt` to its argument and leaves every other field as it was |
| Entity.Subscription.SetUpdatedAt | src/main/java/com/example/subscriptionservice/entity/Subscription.java:57 | the Lombok setter changes `updatedAt` to its argument and leaves every other field as it was |
| Entity.Subscription.OnCreate | src/main/java/com/example/subscriptionservice/entity/Subscription.java:75-79 | `@PrePersist` sets both timestamps to the clock and changes nothing else |
| Entity.Subscription.OnUpdate | src/main/java/com/example/subscriptionservice/entity/Subscription.java:81-84 | `@PreUpdate` sets only `updatedAt`, keeps `createdAt`, and does not move `updatedAt` back under a monotone clock |
| Persistence.EmptyTable | src/main/java/com/example/subscriptionservice/entity/Subscription.java:17-19 | a fresh database is empty and satisfies the store invariant |
| Persistence.Count | src/main/java/com/example/subscriptionservice/config/DataLoader.java:23 | `count()` is never negative and is zero exactly when the table holds no row |
| Persistence.FindById | src/main/java/com/example/subscriptionservice/service/SubscriptionService.java:131 | `findById` finds a row exactly when the id is stored, whatever the row's flag, and returns that row |
| Persistence.Persist | src/main/java/com/example/subscriptionservice/entity/Subscription.java:17-39 | inserting fails, leaving the table unchanged, exactly when validation fails or the name is in use; otherwise the stamped entity is stored under the next id and the counter moves on |
| Persistence.Merge | src/main/java/com/example/subscriptionservice/entity/Subscription.java:81-84 | an unchanged entity leaves the table alone; a changed one fails exactly on a validation or unique-index violation, otherwise its row is replaced with `updatedAt` refreshed, and a failure changes nothing |
| Persistence.PersistKeepsInv | src/main/java/com/example/subscriptionservice/entity/Subscription.java:21-23 | an insert keeps the store invariant, including unique names |
| Persistence.MergeKeepsInv | src/main/java/com/example/subscriptionservice/entity/Subscription.java:21-23 | an update keeps the store invariant, including unique names |
| Persistence.Store.Load | src/main/java/com/example/subscriptionservice/service/SubscriptionService.java:144-145 | loading gives null exactly when the id is absent, and otherwise a new entity filled from the row |
| Persistence.Store.Save | src/main/java/com/example/subscriptionservice/service/SubscriptionService.java:162 | `save` of a new entity does what `Persist` says and of a loaded one what `Merge` says, keeps the invariant, and on success leaves the entity mirroring the stored row |
| Repository.Select | src/main/java/com/example/subscriptionservice/repository/SubscriptionRepository.java:16-20 | a derived query returns exactly the rows that match its criteria, each once, in id order |
| Repository.FindByIsActive | src/main/java/com/example/subscriptionservice/repository/SubscriptionRepository.java:16 | exactly the rows whose flag equals the argument, each once |
| Repository.FindByCategory | src/main/java/com/example/subscriptionservice/repository/SubscriptionRepository.java:18 | exactly the rows of the category, active or not, each once |
| Repository.FindByCategoryAndIsActive | src/main/java/com/example/subscriptionservice/repository/SubscriptionRepository.java:20 | exactly the rows matching both the category and the flag, each once |
| Repository.FindByNameAndIsActive | src/main/java/com/example/subscriptionservice/repository/SubscriptionRepository.java:22 | finds a row exactly when one with that name and flag exists; it is the only row with that name |
| Repository.ExistsByName | src/main/java/com/example/subscriptionservice/repository/SubscriptionRepository.java:24 | true exactly when some row, active or inactive, has this exact name; false for a null name |
| Repository.Distinct | src/main/java/com/example/subscriptionservice/repository/SubscriptionRepository.java:26 | `SELECT DISTINCT` keeps every value of the input and none twice |
| Repository.FindAllActiveCategories | src/main/java/com/example/subscriptionservice/repository/SubscriptionRepository.java:26-27 | each category held by an active row appears exactly once, and no other category appears |
| Repository.FindByNameContainingIgnoreCaseAndIsActive | src/main/java/com/example/subscriptionservice/repository/SubscriptionRepository.java:29-30 | exactly the active rows whose name contains the term as a substring, each once |
| Repository.InsertByPrice | src/main/java/com/example/subscriptionservice/repository/SubscriptionRepository.java:32 | inserting into a price-sorted list keeps it sorted and adds exactly that row |
| Repository.SortByPrice | src/main/java/com/example/subscriptionservice/repository/SubscriptionRepository.java:32 | `ORDER BY price ASC` gives a permutation of its input in non-decreasing price order |
| Repository.FindByCategoryOrderByPriceAsc | src/main/java/com/example/subscriptionservice/repository/SubscriptionRepository.java:32-33 | the active rows of the category, as a permutation of the unsorted query, in non-decreasing price order |
| Repository.ScanSplitsOnFlag | src/main/java/com/example/subscriptionservice/repository/SubscriptionRepository.java:16 | the active and inactive results of any query add up to the result without the flag |
| Repository.ActivePlusInactiveIsCount | src/main/java/com/example/subscriptionservice/repository/SubscriptionRepository.java:16 | active rows plus inactive rows is `count()` |
| Repository.ExistsByNameMatchesIndex | src/main/java/com/example/subscriptionservice/repository/SubscriptionRepository.java:24 | `existsByName` answers exactly the question the unique index asks |
| Service.ResponseDropsOnlyTimestamps | src/main/java/com/example/subscriptionservice/service/SubscriptionService.java:239-252 | `mapToResponse` copies every field but the two timestamps: two rows map alike exactly when they differ at most in timestamps |
| Service.MapToResponse | src/main/java/com/example/subscriptionservice/service/SubscriptionService.java:239-252 | the response carries every field of the row but the two timestamps, unchanged: the row is rebuilt from the response and its timestamps |
| Service.Responses | src/main/java/com/example/subscriptionservice/service/SubscriptionService.java:33-35 | mapping a list gives one response per row, in order, and nothing else |
| Service.GetAllSubscriptions | src/main/java/com/example/subscriptionservice/service/SubscriptionService.java:29-40 | exactly the active rows, each mapped, in increasing id order |
| Service.GetSubscriptionById | src/main/java/com/example/subscriptionservice/service/SubscriptionService.java:42-55 | succeeds exactly when the id is stored and active, returning the mapped row; otherwise "not found" |
| Service.GetSubscriptionsByCategory | src/main/java/com/example/subscriptionservice/service/SubscriptionService.java:57-66 | exactly the active rows of the category, each mapped, in increasing id order |
| Service.GetAllCategories | src/main/java/com/example/subscriptionservice/service/SubscriptionService.java:68-74 | each category of an active row, exactly once |
| Service.SearchSubscriptions | src/main/java/com/example/subscriptionservice/service/SubscriptionService.java:76-85 | exactly the active rows whose name contains the term, each mapped |
| Service.GetSubscriptionByIdForAdmin | src/main/java/com/example/subscriptionservice/service/SubscriptionService.java:128-138 | succeeds exactly when the id is stored, whatever its flag; otherwise "not found" |
| Service.OwnNameFree | src/main/java/com/example/subscriptionservice/service/SubscriptionService.java:148-149 | the unique index never rejects a row's own name for that row |
| Service.NewEntityValidIffRequestValid | src/main/java/com/example/subscriptionservice/service/SubscriptionService.java:97-107 | the entity built from a request passes the entity's validation exactly when the request is valid |
| Service.CreateStep | src/main/java/com/example/subscriptionservice/service/SubscriptionService.java:89-113 | a failed create leaves the table as it was; a successful one returns an active row under the next id, which was free; no existing row changes |
| Service.UpdateStep | src/main/java/com/example/subscriptionservice/service/SubscriptionService.java:141-166 | a failed update leaves the table as it was; a successful one is about a stored id and keeps its flag; the set of ids stays the same and no other row changes |
| Service.DeleteStep | src/main/java/com/example/subscriptionservice/service/SubscriptionService.java:168-179 | the set of ids stays the same and no other row changes; after a success the row is stored inactive |
| Service.ActivateStep | src/main/java/com/example/subscriptionservice/service/SubscriptionService.java:181-194 | the set of ids stays the same and no other row changes; after a success the row is stored active and the response says active |
| Service.CreateSpec | src/main/java/com/example/subscriptionservice/service/SubscriptionService.java:89-113 | "already exists", table unchanged, when any row has the name; a constraint violation, table unchanged, for an invalid request; otherwise exactly one new active row with the request's fields is added under the next id and returned |
| Service.CreateThenGet | src/main/java/com/example/subscriptionservice/service/SubscriptionService.java:89-113 | a created subscription is found at once by the user lookup, carrying the request's fields and active |
| Service.CreateTwiceConflicts | src/main/java/com/example/subscriptionservice/service/SubscriptionService.java:92-95 | creating the same name again fails with "already exists" and changes nothing |
| Service.UpdateSpec | src/main/java/com/example/subscriptionservice/service/SubscriptionService.java:141-166 | "not found" only when the id is absent, so inactive rows can be updated; "already exists" only on a rename to a used name; otherwise only the eight request fields change, with id, flag and `createdAt` kept; no other row changes |
| Service.DeleteSpec | src/main/java/com/example/subscriptionservice/service/SubscriptionService.java:168-179 | "not found" only when the id is absent; otherwise only the flag is cleared, the row is kept, no other row changes, and an inactive row is left as it is |
| Service.ActivateSpec | src/main/java/com/example/subscriptionservice/service/SubscriptionService.java:181-194 | "not found" only when the id is absent; otherwise only the flag is set and the response says active |
| Service.DeleteIdempotent | src/main/java/com/example/subscriptionservice/service/SubscriptionService.java:168-179 | deleting twice is deleting once |
| Service.DeleteThenActivateRestores | src/main/java/com/example/subscriptionservice/service/SubscriptionService.java:168-194 | deleting an active row and activating it again restores the row except for `updatedAt` |
| Service.DeletedHiddenFromUsers | src/main/java/com/example/subscriptionservice/service/SubscriptionService.java:42-55 | after a delete the user lookup says "not found" while the admin lookup returns the row, inactive |
| Service.NamesStayUnique | src/main/java/com/example/subscriptionservice/entity/Subscription.java:21-23 | every write keeps the store invariant, so names stay unique across active and inactive rows |
| Service.TimestampsNeverGoBack | src/main/java/com/example/subscriptionservice/entity/Subscription.java:75-84 | under a monotone clock no write removes a row, changes a `createdAt` or moves an `updatedAt` back |
| Service.SubscriptionService.CreateSubscription | src/main/java/com/example/subscriptionservice/service/SubscriptionService.java:89-113 | the method's new table and result are exactly those of `CreateStep`, and it keeps the invariant |
| Service.SubscriptionService.UpdateSubscription | src/main/java/com/example/subscriptionservice/service/SubscriptionService.java:141-166 | the method's new table and result are exactly those of `UpdateStep`, and it keeps the invariant |
| Service.SubscriptionService.DeleteSubscription | src/main/java/com/example/subscriptionservice/service/SubscriptionService.java:168-179 | the method's new table and result are exactly those of `DeleteStep`, and it keeps the invariant |
| Service.SubscriptionService.ActivateSubscription | src/main/java/com/example/subscriptionservice/service/SubscriptionService.java:181-194 | the method's new table and result are exactly those of `ActivateStep`, and it keeps the invariant |
| Service.SubscriptionService.GetSubscriptionStatistics | src/main/java/com/example/subscriptionservice/service/SubscriptionService.java:203-236 | null counts become 0; the total is active plus inactive; the category map has exactly the categories of the rows, each with the count of its last row |
| Loader.Seeds | src/main/java/com/example/subscriptionservice/config/DataLoader.java:31-62 | there are ten seeds |
| Loader.SeedsValid | src/main/java/com/example/subscriptionservice/config/DataLoader.java:31-62 | every seed passes validation and bills monthly |
| Loader.SeedNamesDistinct | src/main/java/com/example/subscriptionservice/config/DataLoader.java:31-62 | no two seeds share a name |
| Loader.SeedStep | src/main/java/com/example/subscriptionservice/config/DataLoader.java:67-76 | when any row, active or not, already has the seed's name, `createSubscription` does nothing and succeeds; a failed save leaves the table as it was; no existing row ever changes |
| Loader.SeedStepKeepsInv | src/main/java/com/example/subscriptionservice/config/DataLoader.java:67-76 | each `createSubscription` call keeps the store invariant |
| Loader.SeedStepInserts | src/main/java/com/example/subscriptionservice/config/DataLoader.java:67-76 | a valid seed whose name is free is stored under the next id, active, in "AZN", stamped with the clock |
| Loader.SeedFromKeepsInv | src/main/java/com/example/subscriptionservice/config/DataLoader.java:29-65 | seeding keeps the store invariant, whether or not it stops early |
| Loader.SeedFrom | src/main/java/com/example/subscriptionservice/config/DataLoader.java:29-65 | seeding, complete or cut short, never changes or removes a row that was already there |
| Loader.SeedFromFresh | src/main/java/com/example/subscriptionservice/config/DataLoader.java:29-65 | valid seeds with distinct, unused names are all inserted, in order, under consecutive ids, and the run succeeds |
| Loader.RunSeedsEmptyCatalog | src/main/java/com/example/subscriptionservice/config/DataLoader.java:22-62 | on an empty catalog `run` succeeds and leaves exactly ten rows: the seeds in order under consecutive ids, all active, in "AZN", priced above zero and stamped with the clock |
| Loader.RunKeepsInv | src/main/java/com/example/subscriptionservice/config/DataLoader.java:22-76 | every run, whether complete or cut short by a failed save, leaves a consistent catalog in which no two rows share a name |
| Loader.RunStep | src/main/java/com/example/subscriptionservice/config/DataLoader.java:22-27 | `run` never changes or removes a row that was already there |
| Loader.RunKeepsNonEmptyCatalog | src/main/java/com/example/subscriptionservice/config/DataLoader.java:22-27 | a catalog whose count is not zero is left exactly as it is |
| Loader.RunTwiceIsRunOnce | src/main/java/com/example/subscriptionservice/config/DataLoader.java:22-27 | after a successful run a second run changes nothing |
| Loader.DataLoader.Run | src/main/java/com/example/subscriptionservice/config/DataLoader.java:22-27 | the method's new table and result are exactly those of `RunStep`, and it keeps the invariant |
| Loader.DataLoader.LoadSubscriptionData | src/main/java/com/example/subscriptionservice/config/DataLoader.java:29-65 | the ten calls, in order, produce exactly the table and result of `SeedFrom` over the seed list |
| Loader.DataLoader.CreateSubscription | src/main/java/com/example/subscriptionservice/config/DataLoader.java:67-76 | the method's new table and result are exactly those of `SeedStep`: nothing happens when the name is taken, otherwise the seed is saved |

## Left out

- The web layer, the e-mail service and application start-up are not part of this model. The service never calls the e-mail service.
- `getAllSubscriptionsForAdmin` and `searchSubscriptionsForAdmin` are paginated, and pagination is not modelled. `findByIsActive(Boolean, Pageable)` and `searchSubscriptions` are not declared in the repository interface, so their meaning is not visible. The `isActive == null` branch uses `findAll(Pageable)`, which the interface inherits from `JpaRepository`; it is left out along with the rest of pagination.
- Service.SubscriptionService.GetSubscriptionStatistics: the four repository results (`countActiveSubscriptions`, `countInactiveSubscriptions`, `countActiveCategories`, `getSubscriptionCountByCategory`) are not declared in the repository interface. They are taken as inputs, and only the service's own arithmetic and map filling are proved. The `Long` sum is unbounded here, with no 64-bit overflow.
- Transactions and concurrency are out of scope: the model is single-threaded. A failed write is modelled as rolled back, so it leaves the table it started from. Two writers racing the unique index are not modelled.
- `LocalDateTime.now()` becomes one parameter `now` per operation. A create reads the clock four times: twice in the six-argument constructor (Subscription.java:70-71) and twice in `@PrePersist` (Subscription.java:77-78). The model uses one reading for all of them, so `Service.CreatedRecord` and `Loader.SeedRecord` give a new row equal `createdAt` and `updatedAt`, where in Java the two may differ by the time between the two reads. "The clock does not run back" is a hypothesis of the lemmas that need it.
- Rows written outside the application are assumed to satisfy `Persistence.Inv`. The columns `is_active`, `created_at` and `updated_at` are nullable and nothing in the schema keeps blank strings or non-positive prices out, but the model's `Record` type cannot hold a null flag or timestamp, and the list queries require `Inv`. Such a row is not modelled: on a null `isActive`, for instance, `getSubscriptionById` would throw a `NullPointerException` (SubscriptionService.java:46).
- `BigDecimal` prices are whole numbers of cents: the model assumes prices arrive in whole cents. A request price with more than two decimals, such as 0.004, passes `@Positive` (SubscriptionRequest.java:17-19, Subscription.java:28-30). The `scale = 2` column would then round it, possibly to 0.00, a row that `Persistence.Inv`'s positive price rules out. The column's precision of 10 digits is not enforced.
- Repository.FindByNameContainingIgnoreCaseAndIsActive: `LIKE %:name%` is modelled as a case-sensitive substring test. Despite the method's name the query does not lower-case either side, so case handling depends on the database collation. `%` and `_` inside the term are not treated as wildcards.
- Repository.ExistsByName, Persistence.NameInUse: every name and category comparison in the database is taken as exact (binary) string equality. That covers `=` in `existsByName` and the other derived queries, the unique index on `name`, and `SELECT DISTINCT` over categories. Under a case-insensitive or trailing-space-insensitive collation, a valid "Netflix" row would make `existsByName("NETFLIX")` true. Then `createSubscription` (SubscriptionService.java:92-95) and a rename to "NETFLIX" in `updateSubscription` (SubscriptionService.java:148-150) would fail with "already exists", where the model's `CreateStep` and `UpdateStep` succeed.
- Query results come back in ascending id order. The database does not promise an order; only `ORDER BY price ASC` is part of the source. Ties in price keep id order.
- `save` raising a constraint or unique-index violation is an error result (`ConstraintViolation`, `UniqueViolation`) rather than an exception. The controller's mapping of errors to HTTP statuses is not modelled.
- Loader.DataLoader.LoadSubscriptionData: each of the ten calls passes the fields of the matching entry of `Seeds()`, which holds the same literals as the source, rather than repeating the literals at the call.
