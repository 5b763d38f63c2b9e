/** The JPA entity `Subscription`: a mutable object with Lombok setters, two
    constructors and the `@PrePersist` / `@PreUpdate` timestamp hooks, and the
    row of the `subscriptions` table it is stored as. */
module Entity {
  import opened Results
  import opened Validation

  /** A snapshot of every field of a `Subscription` object. Nullable fields are
      options; `price` is in cents; timestamps are readings of an abstract clock. */
  datatype EntityState = EntityState(
    id: Option<int>,
    name: Option<string>,
    description: Option<string>,
    price: Option<int>,
    currency: Option<string>,
    category: Option<string>,
    billingPeriod: Option<string>,
    websiteUrl: Option<string>,
    logoUrl: Option<string>,
    isActive: bool,
    createdAt: Option<int>,
    updatedAt: Option<int>)

  /** One row of the `subscriptions` table. The columns declared `nullable = false`
      (name, price, currency, category) are plain values here. */
  datatype Record = Record(
    id: int,
    name: string,
    description: Option<string>,
    price: int,
    currency: string,
    category: string,
    billingPeriod: Option<string>,
    websiteUrl: Option<string>,
    logoUrl: Option<string>,
    isActive: bool,
    createdAt: int,
    updatedAt: int)

  /** The entity's own bean-validation constraints, checked when it is flushed:
      `@NotBlank` name, currency and category; `@NotNull @Positive` price. */
  predicate PassesValidation(st: EntityState) {
    && NotBlank(st.name)
    && st.price.Some? && st.price.value > 0
    && NotBlank(st.currency)
    && NotBlank(st.category)
  }

  /** The same constraints on a stored row. */
  predicate RecordValid(r: Record) {
    && !IsBlank(r.name)
    && r.price > 0
    && !IsBlank(r.currency)
    && !IsBlank(r.category)
  }

  /** The object Hibernate builds when it loads a row. */
  function Hydrate(r: Record): EntityState {
    EntityState(Some(r.id), Some(r.name), r.description, Some(r.price), Some(r.currency),
                Some(r.category), r.billingPeriod, r.websiteUrl, r.logoUrl, r.isActive,
                Some(r.createdAt), Some(r.updatedAt))
  }

  /** The row Hibernate writes for a flushed object with an id and both timestamps. */
  function ToRecord(st: EntityState): (r: Record)
    requires st.id.Some? && PassesValidation(st)
    requires st.createdAt.Some? && st.updatedAt.Some?
    ensures RecordValid(r)
    ensures Hydrate(r) == st
  {
    Record(st.id.value, st.name.value, st.description, st.price.value, st.currency.value,
           st.category.value, st.billingPeriod, st.websiteUrl, st.logoUrl, st.isActive,
           st.createdAt.value, st.updatedAt.value)
  }

  /** Loading a valid row and writing it back unchanged gives the same row. */
  lemma HydrateRoundTrip(r: Record)
    requires RecordValid(r)
    ensures PassesValidation(Hydrate(r)) && ToRecord(Hydrate(r)) == r
  {
  }

  /** The object the six-argument constructor builds at clock reading `now`:
      active, both timestamps set, no id yet and no URLs. */
  function Constructed(name: Option<string>, description: Option<string>, price: Option<int>,
                       currency: Option<string>, category: Option<string>,
                       billingPeriod: Option<string>, now: int): EntityState
  {
    EntityState(None, name, description, price, currency, category, billingPeriod,
                None, None, true, Some(now), Some(now))
  }

  /** The effect of `@PrePersist onCreate()` at clock reading `now`. */
  function OnCreated(st: EntityState, now: int): EntityState {
    st.(createdAt := Some(now), updatedAt := Some(now))
  }

  /** The effect of `@PreUpdate onUpdate()` at clock reading `now`. */
  function OnUpdated(st: EntityState, now: int): EntityState {
    st.(updatedAt := Some(now))
  }

  class Subscription {
    var id: Option<int>
    var name: Option<string>
    var description: Option<string>
    var price: Option<int>
    var currency: Option<string>
    var category: Option<string>
    var billingPeriod: Option<string>
    var websiteUrl: Option<string>
    var logoUrl: Option<string>
    var isActive: bool
    var createdAt: Option<int>
    var updatedAt: Option<int>

    function State(): EntityState
      reads this
    {
      EntityState(id, name, description, price, currency, category, billingPeriod,
                  websiteUrl, logoUrl, isActive, createdAt, updatedAt)
    }

    /** `Subscription()`: only the field initialisers run. */
    constructor ()
      ensures State() == EntityState(None, None, None, None, Some("AZN"), None, Some("MONTHLY"),
                                     None, None, true, None, None)
    {
      id := None;
      name := None;
      description := None;
      price := None;
      currency := Some("AZN");
      category := None;
      billingPeriod := Some("MONTHLY");
      websiteUrl := None;
      logoUrl := None;
      isActive := true;
      createdAt := None;
      updatedAt := None;
    }

    /** The six-argument constructor, reading the clock as `now`. */
    constructor WithDetails(name: Option<string>, description: Option<string>, price: Option<int>,
                            currency: Option<string>, category: Option<string>,
                            billingPeriod: Option<string>, now: int)
      ensures State() == Constructed(name, description, price, currency, category, billingPeriod, now)
      ensures isActive && createdAt == Some(now) && updatedAt == Some(now)
    {
      id := None;
      websiteUrl := None;
      logoUrl := None;
      this.name := name;
      this.description := description;
      this.price := price;
      this.currency := currency;
      this.category := category;
      this.billingPeriod := billingPeriod;
      createdAt := Some(now);
      updatedAt := Some(now);
      isActive := true;
    }

    // The Lombok setters `@Data` generates: each changes its own field and nothing else.

    method SetId(id: Option<int>)
      modifies this
      ensures State() == old(State()).(id := id)
    {
      this.id := id;
    }

    method SetCreatedAt(createdAt: Option<int>)
      modifies this
      ensures State() == old(State()).(createdAt := createdAt)
    {
      this.createdAt := createdAt;
    }

    method SetUpdatedAt(updatedAt: Option<int>)
      modifies this
      ensures State() == old(State()).(updatedAt := updatedAt)
    {
      this.updatedAt := updatedAt;
    }

    method SetName(name: Option<string>)
      modifies this
      ensures State() == old(State()).(name := name)
    {
      this.name := name;
    }

    method SetDescription(description: Option<string>)
      modifies this
      ensures State() == old(State()).(description := description)
    {
      this.description := description;
    }

    method SetPrice(price: Option<int>)
      modifies this
      ensures State() == old(State()).(price := price)
    {
      this.price := price;
    }

    method SetCurrency(currency: Option<string>)
      modifies this
      ensures State() == old(State()).(currency := currency)
    {
      this.currency := currency;
    }

    method SetCategory(category: Option<string>)
      modifies this
      ensures State() == old(State()).(category := category)
    {
      this.category := category;
    }

    method SetBillingPeriod(billingPeriod: Option<string>)
      modifies this
      ensures State() == old(State()).(billingPeriod := billingPeriod)
    {
      this.billingPeriod := billingPeriod;
    }

    method SetWebsiteUrl(websiteUrl: Option<string>)
      modifies this
      ensures State() == old(State()).(websiteUrl := websiteUrl)
    {
      this.websiteUrl := websiteUrl;
    }

    method SetLogoUrl(logoUrl: Option<string>)
      modifies this
      ensures State() == old(State()).(logoUrl := logoUrl)
    {
      this.logoUrl := logoUrl;
    }

    method SetIsActive(isActive: bool)
      modifies this
      ensures State() == old(State()).(isActive := isActive)
    {
      this.isActive := isActive;
    }

    /** `@PrePersist`: both timestamps become the clock reading; nothing else changes. */
    method OnCreate(now: int)
      modifies this
      ensures State() == OnCreated(old(State()), now)
    {
      createdAt := Some(now);
      updatedAt := Some(now);
    }

    /** `@PreUpdate`: only `updatedAt` is refreshed; `createdAt` is left alone. */
    method OnUpdate(now: int)
      modifies this
      ensures State() == OnUpdated(old(State()), now)
      ensures createdAt == old(createdAt)
      ensures old(updatedAt).Some? && old(updatedAt).value <= now ==> updatedAt.value >= old(updatedAt).value
    {
      updatedAt := Some(now);
    }
  }
}
